module RegistryConnections {
  // What a connection hears over a run: a connection that asked for a service is sent the binder when it arrives, whatever
  // happened in between, and one that unbound hears nothing more.

  import opened Options
  import opened Registry
  import opened RegistryRuns
  import opened RegistryResults

  /** The state after more operations. */
  ghost function After(s: State, ops: seq<Operation>): (t: State)
    requires Inv(s)
    ensures Inv(t)
    decreases |ops|
  {
    if ops == [] then s
    else
      StepKeepsInv(s, ops[0]);
      After(Step(s, ops[0]).0, ops[1..])
  }

  // ----- Connections that stay -----

  /** As long as the record is live, the connection is registered with it. */
  ghost predicate Stays(s: State, id: Id, key: string, conn: Connection) {
    Known(s, id) && s.records[id].key == key && (id in s.live.Values ==> conn in s.records[id].callbacks)
  }

  /** The operation takes the connection away from the record under the key: it dies, or it is unbound. */
  predicate Unbinds(op: Operation, id: Id, key: string, conn: Connection) {
    || op == ConnectionDied(id, conn)
    || (op.Remove? && !op.remove && op.conn == conn && KeyOf(op.package, op.suffix) == key)
  }

  lemma StaysWith(s: State, x: Id, r: Record, id: Id, key: string, conn: Connection)
    requires Stays(s, id, key, conn) && Known(s, x)
    requires r.key == s.records[x].key && (x == id && id in s.live.Values ==> conn in r.callbacks)
    ensures Stays(With(s, x, r), id, key, conn)
  {
  }

  lemma StaysDropped(s: State, x: Id, id: Id, key: string, conn: Connection)
    requires Inv(s) && Stays(s, id, key, conn) && Known(s, x)
    ensures Stays(Dropped(s, x), id, key, conn)
  {
    hide Accounted, Ordered, Listed;
    if x in s.live.Values { LiveWithout(s, x); }
  }

  lemma {:induction false} StaysDroppedAll(s: State, ids: seq<Id>, id: Id, key: string, conn: Connection)
    requires Inv(s) && Stays(s, id, key, conn) && AllKnown(s, ids)
    ensures Stays(DroppedAll(s, ids), id, key, conn)
    decreases |ids|
  {
    hide Inv, Dropped;
    if ids != [] {
      InvDropped(s, ids[0]);
      StaysDropped(s, ids[0], id, key, conn);
      StaysDroppedAll(Dropped(s, ids[0]), ids[1..], id, key, conn);
    }
  }

  lemma StaysBroadcast(s: State, x: Id, id: Id, key: string, conn: Connection)
    requires Stays(s, id, key, conn) && Known(s, x)
    ensures Stays(Broadcast(s, x), id, key, conn)
  {
  }

  /** A record and a key of the live map: the record under a key has that key. */
  lemma KeyOfLive(s: State, id: Id, k: string)
    requires Inv(s) && k in s.live && s.live[k] == id
    ensures Known(s, id) && s.records[id].key == k
  {
    hide Accounted, Ordered, Listed;
  }

  lemma StaysBegun(s: State, op: Operation, id: Id, key: string, conn: Connection)
    requires Inv(s) && op.Add? && KeyOf(op.package, op.suffix) !in s.live && Stays(s, id, key, conn)
    ensures Stays(Begun(s, op.package, KeyOf(op.package, op.suffix), op.version, op.daemon, op.conn), id, key, conn)
  {
    LiveWith(s, KeyOf(op.package, op.suffix), |s.records|);
  }

  lemma StaysAdd(s: State, op: Operation, id: Id, key: string, conn: Connection)
    requires Inv(s) && Sound(s) && op.Add? && Stays(s, id, key, conn)
    ensures Stays(Step(s, op).0, id, key, conn)
  {
    hide Inv, Stays, Begun, Dropped, Cleared;
    var k := KeyOf(op.package, op.suffix);
    if op.noCreate || Found(s, op) {
      StaysFound(s, op, id, key, conn);
    } else {
      NewIsBegun(s, op);
      ClearedKeeps(s, op);
      StaysCleared(s, op, id, key, conn);
      StaysBegun(Cleared(s, op), op, id, key, conn);
    }
  }

  lemma StaysCleared(s: State, op: Operation, id: Id, key: string, conn: Connection)
    requires Inv(s) && Sound(s) && op.Add? && Stays(s, id, key, conn)
    ensures Stays(Cleared(s, op), id, key, conn)
  {
    hide Inv, Stays, Dropped, Sound;
    var k := KeyOf(op.package, op.suffix);
    if k in s.live {
      SoundAt(s, k);
      StaysDropped(s, s.live[k], id, key, conn);
    }
  }

  lemma StaysFound(s: State, op: Operation, id: Id, key: string, conn: Connection)
    requires Inv(s) && Sound(s) && op.Add? && (op.noCreate || Found(s, op)) && Stays(s, id, key, conn)
    ensures Stays(Step(s, op).0, id, key, conn)
  {
    hide Inv;
    var k := KeyOf(op.package, op.suffix);
    if k in s.live {
      SoundAt(s, k);
      var x := s.live[k];
      var r := Registered(if op.noCreate then s.records[x] else s.records[x].(daemon := op.daemon), op.conn);
      StaysWith(s, x, r, id, key, conn);
      StaysBroadcast(With(s, x, r), x, id, key, conn);
      if !op.noCreate { FoundIsKept(s, op); }
    }
  }

  lemma StaysAfterConnection(s: State, x: Id, lost: Connection, id: Id, key: string, conn: Connection)
    requires Inv(s) && Known(s, x) && Stays(s, id, key, conn) && !(x == id && lost == conn)
    ensures Stays(AfterConnection(s, x, lost), id, key, conn)
  {
    hide Inv;
    var r := Unregistered(s.records[x], lost);
    StaysWith(s, x, r, id, key, conn);
    InvWith(s, x, r);
    StaysDropped(With(s, x, r), x, id, key, conn);
  }

  lemma StaysRemove(s: State, op: Operation, id: Id, key: string, conn: Connection)
    requires Inv(s) && Sound(s) && op.Remove? && Stays(s, id, key, conn) && !Unbinds(op, id, key, conn)
    ensures Stays(Step(s, op).0, id, key, conn)
  {
    hide Inv;
    var k := KeyOf(op.package, op.suffix);
    if k in s.live {
      SoundAt(s, k);
      KeyOfLive(s, s.live[k], k);
      if op.remove { StaysDropped(s, s.live[k], id, key, conn); }
      else { StaysWith(s, s.live[k], Unregistered(s.records[s.live[k]], op.conn), id, key, conn); }
    }
  }

  lemma StepStays(s: State, op: Operation, id: Id, key: string, conn: Connection)
    requires Inv(s) && Stays(s, id, key, conn) && !Unbinds(op, id, key, conn)
    ensures Sound(s) && Stays(Step(s, op).0, id, key, conn)
  {
    hide Inv, Stays, Dropped, AddOnly, AddOrCreate, AfterConnection;
    InvIsSound(s);
    match op
    case Add(_, _, _, _, _, _, _, _, _) => StaysAdd(s, op, id, key, conn);
    case Remove(_, _, _, _) => StaysRemove(s, op, id, key, conn);
    case Attach(binder, token) => StaysAttach(s, binder, token, id, key, conn);
    case TimedOut(x) => StaysTimedOut(s, x, id, key, conn);
    case BinderDied(x) => if Known(s, x) { StaysDropped(s, x, id, key, conn); }
    case ConnectionDied(x, lost) => if Known(s, x) { StaysAfterConnection(s, x, lost, id, key, conn); }
    case PackageRemoved(package) => StaysPackage(s, package, id, key, conn);
  }

  lemma StaysAttach(s: State, binder: Binder, token: Id, id: Id, key: string, conn: Connection)
    requires Inv(s) && Sound(s) && Stays(s, id, key, conn)
    ensures Stays(Step(s, Attach(binder, token)).0, id, key, conn)
  {
    hide Inv;
    if token in s.live.Values {
      var k :| k in s.live && s.live[k] == token;
      SoundAt(s, k);
      StaysWith(s, token, Bound(s.records[token], binder), id, key, conn);
      StaysBroadcast(With(s, token, Bound(s.records[token], binder)), token, id, key, conn);
    }
  }

  lemma StaysTimedOut(s: State, x: Id, id: Id, key: string, conn: Connection)
    requires Inv(s) && Sound(s) && Stays(s, id, key, conn)
    ensures Stays(Step(s, TimedOut(x)).0, id, key, conn)
  {
    hide Inv, Dropped;
    if Known(s, x) && s.records[x].timeout {
      var r := s.records[x].(timeout := false);
      InvWith(s, x, r);
      StaysWith(s, x, r, id, key, conn);
      StaysDropped(With(s, x, r), x, id, key, conn);
    }
  }

  lemma StaysPackage(s: State, package: string, id: Id, key: string, conn: Connection)
    requires Inv(s) && Sound(s) && Stays(s, id, key, conn)
    ensures Stays(Step(s, PackageRemoved(package)).0, id, key, conn)
  {
    hide Inv;
    if package in s.packages { StaysDroppedAll(s, s.packages[package], id, key, conn); }
  }

  lemma {:induction false} RunStays(s: State, ops: seq<Operation>, id: Id, key: string, conn: Connection)
    requires Inv(s) && Stays(s, id, key, conn)
    requires forall i :: 0 <= i < |ops| ==> !Unbinds(ops[i], id, key, conn)
    ensures Stays(After(s, ops), id, key, conn)
    decreases |ops|
  {
    hide Inv, Stays, Unbinds, Step;
    if ops != [] {
      StepKeepsInv(s, ops[0]);
      StepStays(s, ops[0], id, key, conn);
      RunStays(Step(s, ops[0]).0, ops[1..], id, key, conn);
    }
  }

  /**
   A connection adds a service; then anything may happen, except that this connection dies or unbinds from it. If
   the record is still live when its process attaches, the binder is sent, and the connection is among those it is sent to.
   */
  lemma BinderReachesConnection(s: State, add: Operation, ops: seq<Operation>, binder: Binder)
    requires Inv(s) && add.Add? && !add.noCreate
    ensures Sound(s) && Inv(Step(s, add).0)
    ensures var key := KeyOf(add.package, add.suffix);
            && key in Step(s, add).0.live
            && var id := Step(s, add).0.live[key];
               (forall i :: 0 <= i < |ops| ==> !Unbinds(ops[i], id, key, add.conn)) ==>
                 var u := After(Step(s, add).0, ops);
                 && Sound(u)
                 && (id in u.live.Values ==>
                       var log := Step(u, Attach(binder, id)).0.log;
                       && |log| == |u.log| + 1 && log[..|u.log|] == u.log
                       && log[|u.log|].Connected? && log[|u.log|].id == id && log[|u.log|].service == binder
                       && add.conn in log[|u.log|].to)
  {
    hide Inv, Step, After;
    StepKeepsInv(s, add);
    AddPutsOneRecord(s, add);
    var t := Step(s, add).0;
    var key := KeyOf(add.package, add.suffix);
    var id := t.live[key];
    KeyOfLive(t, id, key);
    if forall i :: 0 <= i < |ops| ==> !Unbinds(ops[i], id, key, add.conn) {
      RunStays(t, ops, id, key, add.conn);
      InvIsSound(After(t, ops));
      if id in After(t, ops).live.Values { AttachSends(After(t, ops), binder, id); }
    }
  }

  lemma AttachSends(s: State, binder: Binder, token: Id)
    requires Sound(s) && token in s.live.Values
    ensures token < |s.records| && Step(s, Attach(binder, token)).0.log == s.log + [Connected(token, s.records[token].callbacks, binder)]
  {
  }

  // ----- Connections that have left -----

  /** From s to t the log only grew, the connection is not registered with the record, and nothing was sent to it on the record's behalf. */
  ghost predicate Deaf(s: State, t: State, id: Id, key: string, conn: Connection) {
    && Known(t, id) && t.records[id].key == key && conn !in t.records[id].callbacks
    && |s.log| <= |t.log| && t.log[..|s.log|] == s.log
    && forall j :: |s.log| <= j < |t.log| && t.log[j].Connected? && t.log[j].id == id ==> conn !in t.log[j].to
  }

  lemma DeafThen(s: State, t: State, u: State, id: Id, key: string, conn: Connection)
    requires Deaf(s, t, id, key, conn) && Deaf(t, u, id, key, conn)
    ensures Deaf(s, u, id, key, conn)
  {
    assert u.log[..|s.log|] == u.log[..|t.log|][..|s.log|];
    forall j | |s.log| <= j < |u.log| && u.log[j].Connected? && u.log[j].id == id ensures conn !in u.log[j].to {
      if j < |t.log| { assert u.log[j] == u.log[..|t.log|][j]; }
    }
  }

  lemma DeafWith(s: State, x: Id, r: Record, id: Id, key: string, conn: Connection)
    requires Deaf(s, s, id, key, conn) && Known(s, x) && r.key == s.records[x].key && (x == id ==> conn !in r.callbacks)
    ensures Deaf(s, With(s, x, r), id, key, conn) && Deaf(With(s, x, r), With(s, x, r), id, key, conn)
  {
  }

  lemma DeafDropped(s: State, x: Id, id: Id, key: string, conn: Connection)
    requires Deaf(s, s, id, key, conn) && Known(s, x)
    ensures Deaf(s, Dropped(s, x), id, key, conn)
  {
  }

  lemma DeafBroadcast(s: State, x: Id, id: Id, key: string, conn: Connection)
    requires Deaf(s, s, id, key, conn) && Known(s, x)
    ensures Deaf(s, Broadcast(s, x), id, key, conn)
  {
  }

  lemma DeafSelf(s: State, t: State, id: Id, key: string, conn: Connection)
    requires Deaf(s, t, id, key, conn)
    ensures Deaf(t, t, id, key, conn)
  {
  }

  lemma {:induction false} DeafDroppedAll(s: State, ids: seq<Id>, id: Id, key: string, conn: Connection)
    requires Deaf(s, s, id, key, conn) && AllKnown(s, ids)
    ensures Deaf(s, DroppedAll(s, ids), id, key, conn)
    decreases |ids|
  {
    hide Deaf, Dropped;
    if ids != [] {
      var t := Dropped(s, ids[0]);
      DeafDropped(s, ids[0], id, key, conn);
      DeafSelf(s, t, id, key, conn);
      DeafDroppedAll(t, ids[1..], id, key, conn);
      DeafThen(s, t, DroppedAll(t, ids[1..]), id, key, conn);
    }
  }

  /** The operation asks for the service under the key on behalf of the connection. */
  predicate AsksAgain(op: Operation, key: string, conn: Connection) {
    op.Add? && op.conn == conn && KeyOf(op.package, op.suffix) == key
  }

  lemma DeafBegun(s: State, op: Operation, id: Id, key: string, conn: Connection)
    requires op.Add? && Deaf(s, s, id, key, conn)
    ensures Deaf(s, Begun(s, op.package, KeyOf(op.package, op.suffix), op.version, op.daemon, op.conn), id, key, conn)
  {
  }

  lemma DeafFound(s: State, op: Operation, id: Id, key: string, conn: Connection)
    requires Inv(s) && Sound(s) && op.Add? && (op.noCreate || Found(s, op)) && Deaf(s, s, id, key, conn) && !AsksAgain(op, key, conn)
    ensures Deaf(s, Step(s, op).0, id, key, conn)
  {
    hide Inv, Deaf;
    var k := KeyOf(op.package, op.suffix);
    if k in s.live {
      SoundAt(s, k);
      var x := s.live[k];
      KeyOfLive(s, x, k);
      var r := Registered(if op.noCreate then s.records[x] else s.records[x].(daemon := op.daemon), op.conn);
      DeafRegistered(s, x, r, op, id, key, conn);
      var next := With(s, x, r);
      DeafBroadcast(next, x, id, key, conn);
      DeafThen(s, next, Broadcast(next, x), id, key, conn);
      if !op.noCreate { FoundIsKept(s, op); }
    }
  }

  lemma DeafRegistered(s: State, x: Id, r: Record, op: Operation, id: Id, key: string, conn: Connection)
    requires Deaf(s, s, id, key, conn) && op.Add? && !AsksAgain(op, key, conn) && Known(s, x)
    requires s.records[x].key == KeyOf(op.package, op.suffix)
    requires r.key == s.records[x].key && r.callbacks <= s.records[x].callbacks + {op.conn}
    ensures Deaf(s, With(s, x, r), id, key, conn) && Deaf(With(s, x, r), With(s, x, r), id, key, conn)
  {
  }

  lemma DeafAdd(s: State, op: Operation, id: Id, key: string, conn: Connection)
    requires Inv(s) && Sound(s) && op.Add? && Deaf(s, s, id, key, conn) && !AsksAgain(op, key, conn)
    ensures Deaf(s, Step(s, op).0, id, key, conn)
  {
    hide Inv, Deaf, Begun, Dropped, AsksAgain;
    if op.noCreate || Found(s, op) {
      DeafFound(s, op, id, key, conn);
    } else {
      NewIsBegun(s, op);
      var k := KeyOf(op.package, op.suffix);
      if k in s.live { DeafDropped(s, s.live[k], id, key, conn); }
      var t := Cleared(s, op);
      DeafSelf(s, t, id, key, conn);
      DeafBegun(t, op, id, key, conn);
      DeafThen(s, t, Step(s, op).0, id, key, conn);
    }
  }

  lemma DeafRemove(s: State, op: Operation, id: Id, key: string, conn: Connection)
    requires Sound(s) && op.Remove? && Deaf(s, s, id, key, conn)
    ensures Deaf(s, Step(s, op).0, id, key, conn)
  {
    var k := KeyOf(op.package, op.suffix);
    if k in s.live {
      hide Deaf, Dropped;
      DeafDropped(s, s.live[k], id, key, conn);
      DeafLess(s, s.live[k], op.conn, id, key, conn);
    }
  }

  lemma DeafLess(s: State, x: Id, gone: Connection, id: Id, key: string, conn: Connection)
    requires Deaf(s, s, id, key, conn) && Known(s, x)
    ensures var t := With(s, x, Unregistered(s.records[x], gone));
            Deaf(s, t, id, key, conn) && Deaf(t, t, id, key, conn)
  {
  }

  lemma DeafAttach(s: State, binder: Binder, token: Id, id: Id, key: string, conn: Connection)
    requires Sound(s) && Deaf(s, s, id, key, conn)
    ensures Deaf(s, Step(s, Attach(binder, token)).0, id, key, conn)
  {
    if token in s.live.Values {
      var r := Bound(s.records[token], binder);
      var next := With(s, token, r);
      DeafWith(s, token, r, id, key, conn);
      hide Deaf;
      DeafBroadcast(next, token, id, key, conn);
      DeafThen(s, next, Broadcast(next, token), id, key, conn);
    }
  }

  lemma DeafThenDropped(s: State, next: State, x: Id, id: Id, key: string, conn: Connection)
    requires Deaf(s, next, id, key, conn) && Known(next, x)
    ensures Deaf(s, Dropped(next, x), id, key, conn)
  {
    hide Deaf, Dropped;
    DeafSelf(s, next, id, key, conn);
    DeafDropped(next, x, id, key, conn);
    DeafThen(s, next, Dropped(next, x), id, key, conn);
  }

  lemma DeafTimedOut(s: State, x: Id, id: Id, key: string, conn: Connection)
    requires Sound(s) && Deaf(s, s, id, key, conn)
    ensures Deaf(s, Step(s, TimedOut(x)).0, id, key, conn)
  {
    if Known(s, x) && s.records[x].timeout {
      var r := s.records[x].(timeout := false);
      DeafWith(s, x, r, id, key, conn);
      hide Deaf, Dropped;
      DeafThenDropped(s, With(s, x, r), x, id, key, conn);
    }
  }

  lemma StepDeaf(s: State, op: Operation, id: Id, key: string, conn: Connection)
    requires Inv(s) && Deaf(s, s, id, key, conn) && !AsksAgain(op, key, conn)
    ensures Sound(s) && Deaf(s, Step(s, op).0, id, key, conn)
  {
    hide Inv, Deaf, Dropped, AddOnly, AddOrCreate, AsksAgain;
    InvIsSound(s);
    match op
    case Add(_, _, _, _, _, _, _, _, _) => DeafAdd(s, op, id, key, conn);
    case Remove(_, _, _, _) => DeafRemove(s, op, id, key, conn);
    case Attach(binder, token) => DeafAttach(s, binder, token, id, key, conn);
    case TimedOut(x) => DeafTimedOut(s, x, id, key, conn);
    case BinderDied(x) => if Known(s, x) { DeafDropped(s, x, id, key, conn); }
    case ConnectionDied(x, lost) =>
      if Known(s, x) {
        DeafLess(s, x, lost, id, key, conn);
        DeafThenDropped(s, With(s, x, Unregistered(s.records[x], lost)), x, id, key, conn);
      }
    case PackageRemoved(package) => DeafPackage(s, package, id, key, conn);
  }

  lemma DeafPackage(s: State, package: string, id: Id, key: string, conn: Connection)
    requires Sound(s) && Deaf(s, s, id, key, conn)
    ensures Deaf(s, Step(s, PackageRemoved(package)).0, id, key, conn)
  {
    if package in s.packages { DeafDroppedAll(s, s.packages[package], id, key, conn); }
  }

  lemma {:induction false} RunDeaf(s: State, ops: seq<Operation>, id: Id, key: string, conn: Connection)
    requires Inv(s) && Deaf(s, s, id, key, conn)
    requires forall i :: 0 <= i < |ops| ==> !AsksAgain(ops[i], key, conn)
    ensures Deaf(s, After(s, ops), id, key, conn)
    decreases |ops|
  {
    hide Inv, Deaf, AsksAgain, Step;
    if ops != [] {
      StepKeepsInv(s, ops[0]);
      var t := Step(s, ops[0]).0;
      StepDeaf(s, ops[0], id, key, conn);
      DeafSelf(s, t, id, key, conn);
      RunDeaf(t, ops[1..], id, key, conn);
      DeafThen(s, t, After(t, ops[1..]), id, key, conn);
    }
  }

  /**
   Unbinding leaves the service running, even for a last connection. Until the connection asks for it
   again, whatever else happens, no binder of that record is sent to it.
   */
  lemma UnboundHearsNothing(s: State, conn: Connection, package: string, suffix: string, ops: seq<Operation>)
    requires Inv(s) && KeyOf(package, suffix) in s.live
    requires forall i :: 0 <= i < |ops| ==> !AsksAgain(ops[i], KeyOf(package, suffix), conn)
    ensures Sound(s) && Inv(Step(s, Remove(conn, package, suffix, false)).0)
    ensures var id := s.live[KeyOf(package, suffix)];
            var t := Step(s, Remove(conn, package, suffix, false)).0;
            var log := After(t, ops).log;
            && Step(s, Remove(conn, package, suffix, false)).1 == Code(0)
            && t.live == s.live && t.log == s.log && |s.log| <= |log| && log[..|s.log|] == s.log
            && forall j :: |s.log| <= j < |log| && log[j].Connected? && log[j].id == id ==> conn !in log[j].to
  {
    hide Inv, After;
    var op := Remove(conn, package, suffix, false);
    var key := KeyOf(package, suffix);
    StepKeepsInv(s, op);
    KeyOfLive(s, s.live[key], key);
    var t := Step(s, op).0;
    assert Deaf(t, t, s.live[key], key, conn);
    hide Step, AsksAgain;
    RunDeaf(t, ops, s.live[key], key, conn);
  }
}
