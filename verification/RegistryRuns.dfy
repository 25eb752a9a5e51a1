/** What holds of the registry in every reachable state, and what each step leaves alone. */
module RegistryRuns {
  import opened Options
  import opened Registry

  // ----- The invariant -----

  /** Every record is under at most one key: its own. */
  ghost predicate KeysAgree(s: State) {
    forall k :: k in s.live ==> s.live[k] < |s.records| && s.records[s.live[k]].key == k
  }

  /** Every record has been launched and is starting for good; it is killed exactly if it is not live. */
  ghost predicate Accounted(s: State) {
    forall id: Id :: id < |s.records| ==> AccountedFor(s, id)
  }

  predicate AccountedFor(s: State, id: Id)
    requires id < |s.records|
  {
    && s.records[id].starting && Launched(id) in s.log
    && (id in s.live.Values <==> Destroyed(id) !in s.log)
    && (s.records[id].killed <==> Destroyed(id) in s.log)
  }

  /** The log speaks of known records, launches each once, and says nothing more of a record once it is destroyed. */
  ghost predicate Ordered(s: State) {
    && (forall i :: 0 <= i < |s.log| ==> s.log[i].id < |s.records|)
    && (forall i, j :: 0 <= i < j < |s.log| ==> s.log[i].Launched? && s.log[j].Launched? ==> s.log[i].id != s.log[j].id)
    && (forall i, j :: 0 <= i < j < |s.log| ==> s.log[i].Destroyed? ==> s.log[i].id != s.log[j].id)
  }

  /** The package lists hold records of their own package, and every live one. */
  ghost predicate Listed(s: State) {
    && (forall p :: p in s.packages ==> forall x :: x in s.packages[p] ==>
          x < |s.records| && s.records[x].package == p)
    && (forall k :: k in s.live ==> InItsList(s, s.live[k]))
  }

  predicate InItsList(s: State, id: Id) {
    id < |s.records| && s.records[id].package in s.packages && id in s.packages[s.records[id].package]
  }

  ghost predicate Inv(s: State) {
    KeysAgree(s) && Accounted(s) && Ordered(s) && Listed(s)
  }

  lemma InvIsSound(s: State)
    requires Inv(s)
    ensures Sound(s)
  {
    hide Accounted, Ordered;
    forall p | p in s.packages ensures AllKnown(s, s.packages[p]) {
      forall i | 0 <= i < |s.packages[p]| ensures s.packages[p][i] < |s.records| {
        assert s.packages[p][i] in s.packages[p];
      }
    }
  }

  // ----- What keeps it -----

  /** The parts of a record that stay as they are. */
  predicate SameIdentity(a: Record, b: Record) {
    a.package == b.package && a.key == b.key && a.version == b.version && a.starting == b.starting && a.killed == b.killed
  }

  lemma AccountedWith(s: State, id: Id, r: Record)
    requires Accounted(s) && Known(s, id) && SameIdentity(r, s.records[id])
    ensures Accounted(With(s, id, r))
  {
    var t := With(s, id, r);
    forall x: Id | x < |t.records| ensures AccountedFor(t, x) {
      assert AccountedFor(s, x);
    }
  }

  lemma ListedWith(s: State, id: Id, r: Record)
    requires KeysAgree(s) && Listed(s) && Known(s, id) && SameIdentity(r, s.records[id])
    ensures Listed(With(s, id, r)) && KeysAgree(With(s, id, r))
  {
    var t := With(s, id, r);
    assert forall k :: k in s.live ==> InItsList(s, s.live[k]) && InItsList(t, s.live[k]);
  }

  lemma InvWith(s: State, id: Id, r: Record)
    requires Inv(s) && Known(s, id) && SameIdentity(r, s.records[id])
    ensures Inv(With(s, id, r))
  {
    AccountedWith(s, id, r);
    ListedWith(s, id, r);
    hide Accounted, Listed, KeysAgree;
  }

  lemma AccountedConnected(s: State, e: Event)
    requires Accounted(s) && e.Connected?
    ensures Accounted(Logged(s, e))
  {
    var t := Logged(s, e);
    assert forall x :: x in t.log <==> x in s.log || x == e;
    forall x: Id | x < |t.records| ensures AccountedFor(t, x) {
      assert AccountedFor(s, x);
    }
  }

  lemma OrderedConnected(s: State, e: Event)
    requires Ordered(s) && e.Connected? && Known(s, e.id) && Destroyed(e.id) !in s.log
    ensures Ordered(Logged(s, e))
  {
  }

  lemma ListedLogged(s: State, e: Event)
    requires Listed(s) && KeysAgree(s)
    ensures Listed(Logged(s, e)) && KeysAgree(Logged(s, e))
  {
    var t := Logged(s, e);
    assert forall k :: k in s.live ==> InItsList(s, s.live[k]) && InItsList(t, s.live[k]);
  }

  lemma InvConnected(s: State, id: Id, to: set<Connection>, service: Binder)
    requires Inv(s) && Known(s, id) && id in s.live.Values
    ensures Inv(Logged(s, Connected(id, to, service)))
  {
    var e := Connected(id, to, service);
    assert AccountedFor(s, id);
    hide KeysAgree, Listed, Accounted, Ordered, Logged;
    AccountedConnected(s, e);
    OrderedConnected(s, e);
    ListedLogged(s, e);
  }

  lemma InvBroadcast(s: State, id: Id)
    requires Inv(s) && Known(s, id) && id in s.live.Values
    ensures Inv(Broadcast(s, id))
  {
    hide Inv;
    if s.records[id].service.Some? { InvConnected(s, id, s.records[id].callbacks, s.records[id].service.value); }
  }

  lemma LiveWithout(s: State, id: Id)
    requires KeysAgree(s) && Known(s, id) && id in s.live.Values
    ensures var t := Dropped(s, id);
            && (forall k :: k in t.live <==> k in s.live && s.live[k] != id)
            && (forall k :: k in t.live ==> t.live[k] == s.live[k])
            && (forall x :: x in t.live.Values <==> x in s.live.Values && x != id)
  {
    var t := Dropped(s, id);
    forall x | x in s.live.Values && x != id ensures x in t.live.Values {
      var k :| k in s.live && s.live[k] == x;
      assert t.live[k] == x;
    }
  }

  lemma InvDropped(s: State, id: Id)
    requires Inv(s) && Known(s, id)
    ensures Inv(Dropped(s, id))
    ensures id !in Dropped(s, id).live.Values
  {
    if id in s.live.Values {
      LiveWithout(s, id);
      AccountedDropped(s, id);
      OrderedDropped(s, id);
      ListedDropped(s, id);
    }
  }

  lemma AccountedDropped(s: State, id: Id)
    requires KeysAgree(s) && Accounted(s) && Known(s, id) && id in s.live.Values
    ensures Accounted(Dropped(s, id)) && KeysAgree(Dropped(s, id))
  {
    hide Ordered, Listed;
    LiveWithout(s, id);
    var t := Dropped(s, id);
    assert KeysAgree(t) by { hide Accounted; }
    assert forall x :: x in t.log <==> x in s.log || x == Destroyed(id);
    hide KeysAgree;
    forall x: Id | x < |t.records| ensures AccountedFor(t, x) {
      assert AccountedFor(s, x);
    }
  }

  lemma OrderedDropped(s: State, id: Id)
    requires Accounted(s) && Ordered(s) && Known(s, id) && id in s.live.Values
    ensures Ordered(Dropped(s, id))
  {
    hide KeysAgree, Listed;
    assert AccountedFor(s, id);
  }

  lemma ListedDropped(s: State, id: Id)
    requires KeysAgree(s) && Listed(s) && Known(s, id) && id in s.live.Values
    ensures Listed(Dropped(s, id))
  {
    hide Accounted, Ordered;
    LiveWithout(s, id);
    var t := Dropped(s, id);
    assert forall i :: 0 <= i < |s.records| ==> t.records[i].package == s.records[i].package;
  }

  /** A new record, registered and launched, as one change of the state. */
  function Begun(s: State, package: string, key: string, version: int, daemon: bool, conn: Connection): State {
    var id := |s.records|;
    var known := if package in s.packages then s.packages[package] else [];
    State(s.records + [Record(package, key, version, daemon, None, true, true, {conn}, false)],
          s.live[key := id], s.packages[package := known + [id]], s.log + [Launched(id)])
  }

  lemma BegunIs(s: State, package: string, key: string, version: int, daemon: bool, conn: Connection)
    ensures var id := |s.records|;
            var made := Created(s, package, key, version, daemon);
            LaunchedOnce(With(made, id, Registered(made.records[id], conn)), id) == Begun(s, package, key, version, daemon, conn)
  {
    var id := |s.records|;
    var made := Created(s, package, key, version, daemon);
    var next := LaunchedOnce(With(made, id, Registered(made.records[id], conn)), id);
    var none: set<Connection> := {};
    assert none + {conn} == {conn};
    assert next.records == Begun(s, package, key, version, daemon, conn).records;
  }

  lemma LiveWith(s: State, key: string, id: Id)
    requires key !in s.live
    ensures forall x :: x in s.live[key := id].Values <==> x in s.live.Values || x == id
  {
    var t := s.live[key := id];
    forall x | x in s.live.Values ensures x in t.Values {
      var k :| k in s.live && s.live[k] == x;
      assert t[k] == x;
    }
    assert t[key] == id;
  }

  lemma InvBegun(s: State, package: string, key: string, version: int, daemon: bool, conn: Connection)
    requires Inv(s) && key !in s.live
    ensures Inv(Begun(s, package, key, version, daemon, conn))
  {
    AccountedBegun(s, package, key, version, daemon, conn);
    OrderedBegun(s, package, key, version, daemon, conn);
    ListedBegun(s, package, key, version, daemon, conn);
  }

  lemma AccountedBegun(s: State, package: string, key: string, version: int, daemon: bool, conn: Connection)
    requires KeysAgree(s) && Accounted(s) && Ordered(s) && key !in s.live
    ensures Accounted(Begun(s, package, key, version, daemon, conn)) && KeysAgree(Begun(s, package, key, version, daemon, conn))
  {
    hide Listed;
    LiveWith(s, key, |s.records|);
    var t := Begun(s, package, key, version, daemon, conn);
    assert KeysAgree(t) by { hide Accounted, Ordered; }
    hide KeysAgree;
    assert Destroyed(|s.records|) !in s.log;
    LogBegun(s, |s.records|);
    forall id: Id | id < |t.records| ensures AccountedFor(t, id) {
      if id < |s.records| { assert t.records[id] == s.records[id] && AccountedFor(s, id); }
    }
  }

  lemma LogBegun(s: State, id: Id)
    ensures forall x :: x in s.log + [Launched(id)] <==> x in s.log || x == Launched(id)
  {
  }

  lemma OrderedBegun(s: State, package: string, key: string, version: int, daemon: bool, conn: Connection)
    requires Ordered(s)
    ensures Ordered(Begun(s, package, key, version, daemon, conn))
  {
  }

  lemma ListedBegun(s: State, package: string, key: string, version: int, daemon: bool, conn: Connection)
    requires Listed(s) && key !in s.live
    ensures Listed(Begun(s, package, key, version, daemon, conn))
  {
    var id := |s.records|;
    var t := Begun(s, package, key, version, daemon, conn);
    var known := if package in s.packages then s.packages[package] else [];
    assert (known + [id])[|known|] == id;
    forall k | k in t.live ensures InItsList(t, t.live[k]) {
      if k != key {
        assert InItsList(s, s.live[k]);
      }
    }
  }

  // ----- Steps -----

  lemma InvAddOnly(s: State, op: Operation)
    requires Inv(s) && op.Add? && Sound(s)
    ensures Inv(AddOnly(s, op).0)
  {
    hide Inv, Sound;
    var key := KeyOf(op.package, op.suffix);
    if key in s.live {
      SoundAt(s, key);
      var id := s.live[key];
      InvWith(s, id, Registered(s.records[id], op.conn));
      InvBroadcast(With(s, id, Registered(s.records[id], op.conn)), id);
    }
  }

  lemma SoundAt(s: State, key: string)
    requires Sound(s) && key in s.live
    ensures Known(s, s.live[key])
  {
  }

  lemma IsStarting(s: State, id: Id)
    requires Inv(s) && Known(s, id)
    ensures s.records[id].starting
  {
    assert AccountedFor(s, id);
  }

  /** An existing record is found again if the version is right: it is starting for good, so a dead service does not count. */
  predicate Found(s: State, op: Operation)
    requires op.Add?
  {
    var key := KeyOf(op.package, op.suffix);
    key in s.live && Known(s, s.live[key]) && s.records[s.live[key]].version == op.version
  }

  lemma FoundIsKept(s: State, op: Operation)
    requires Inv(s) && Sound(s) && op.Add? && !op.noCreate && Found(s, op)
    ensures var id := s.live[KeyOf(op.package, op.suffix)];
            var next := With(s, id, Registered(s.records[id].(daemon := op.daemon), op.conn));
            AddOrCreate(s, op) == (if Pings(s.records[id], op.secondPing) then Broadcast(next, id) else next, Code(0))
  {
    hide Inv;
    var id := s.live[KeyOf(op.package, op.suffix)];
    IsStarting(s, id);
    var found := s.records[id].(daemon := op.daemon);
    assert With(With(s, id, found), id, Registered(found, op.conn)) == With(s, id, Registered(found, op.conn));
  }

  /** Otherwise the old record, if any, is dropped first, and a new one begun. */
  function Cleared(s: State, op: Operation): State
    requires op.Add? && Sound(s)
  {
    var key := KeyOf(op.package, op.suffix);
    if key in s.live then Dropped(s, s.live[key]) else s
  }

  lemma NewIsBegun(s: State, op: Operation)
    requires Inv(s) && Sound(s) && op.Add? && !op.noCreate && !Found(s, op)
    ensures AddOrCreate(s, op).0 == Begun(Cleared(s, op), op.package, KeyOf(op.package, op.suffix), op.version, op.daemon, op.conn)
  {
    hide Inv, Dropped;
    BegunIs(Cleared(s, op), op.package, KeyOf(op.package, op.suffix), op.version, op.daemon, op.conn);
  }

  lemma ClearedKeeps(s: State, op: Operation)
    requires Inv(s) && Sound(s) && op.Add?
    ensures Inv(Cleared(s, op)) && KeyOf(op.package, op.suffix) !in Cleared(s, op).live
  {
    hide Inv;
    var key := KeyOf(op.package, op.suffix);
    if key in s.live {
      SoundAt(s, key);
      InvDropped(s, s.live[key]);
      NotLive(s, key);
    }
  }

  lemma NotLive(s: State, key: string)
    requires Inv(s) && key in s.live && Known(s, s.live[key])
    ensures key !in Dropped(s, s.live[key]).live
  {
    LiveWithout(s, s.live[key]);
  }

  lemma InvAddOrCreate(s: State, op: Operation)
    requires Inv(s) && Sound(s) && op.Add? && !op.noCreate
    ensures Inv(AddOrCreate(s, op).0)
  {
    hide Inv, Sound, Dropped, Begun, Cleared, CreatedIfNeeded;
    if Found(s, op) {
      FoundIsKept(s, op);
      var id := s.live[KeyOf(op.package, op.suffix)];
      InvWith(s, id, Registered(s.records[id].(daemon := op.daemon), op.conn));
      InvBroadcast(With(s, id, Registered(s.records[id].(daemon := op.daemon), op.conn)), id);
    } else {
      NewIsBegun(s, op);
      ClearedKeeps(s, op);
      InvBegun(Cleared(s, op), op.package, KeyOf(op.package, op.suffix), op.version, op.daemon, op.conn);
    }
  }

  lemma {:induction false} InvDroppedAll(s: State, ids: seq<Id>)
    requires Inv(s) && AllKnown(s, ids)
    ensures Inv(DroppedAll(s, ids))
    ensures forall x :: x in DroppedAll(s, ids).live.Values <==> x in s.live.Values && x !in ids
    ensures forall k :: k in s.live && s.live[k] !in ids ==> k in DroppedAll(s, ids).live && DroppedAll(s, ids).live[k] == s.live[k]
    decreases |ids|
  {
    hide Inv;
    if ids != [] {
      InvDropped(s, ids[0]);
      DroppedValues(s, ids[0]);
      InvDroppedAll(Dropped(s, ids[0]), ids[1..]);
      assert forall x :: x in ids <==> x == ids[0] || x in ids[1..];
    }
  }

  lemma DroppedValues(s: State, id: Id)
    requires Inv(s) && Known(s, id)
    ensures forall x :: x in Dropped(s, id).live.Values <==> x in s.live.Values && x != id
    ensures forall k :: k in s.live && s.live[k] != id ==> k in Dropped(s, id).live && Dropped(s, id).live[k] == s.live[k]
  {
    if id in s.live.Values { LiveWithout(s, id); }
  }

  lemma InvPackageRemoved(s: State, package: string)
    requires Inv(s) && Sound(s)
    ensures Inv(Step(s, PackageRemoved(package)).0)
  {
    if package in s.packages {
      var ids := s.packages[package];
      InvDroppedAll(s, ids);
      var next := DroppedAll(s, ids);
      var t := Step(s, PackageRemoved(package)).0;
      assert t.records == next.records && t.live == next.live && t.log == next.log;
      forall id: Id | id < |t.records| ensures AccountedFor(t, id) {
        assert AccountedFor(next, id);
      }
      PackageGone(s, package);
      forall k | k in t.live ensures InItsList(t, t.live[k]) {
        assert next.live[k] in next.live.Values && InItsList(next, next.live[k]);
      }
    }
  }

  /** No record of the package stays live. */
  lemma PackageGone(s: State, package: string)
    requires Inv(s) && Sound(s) && package in s.packages
    ensures var next := DroppedAll(s, s.packages[package]);
            forall x :: x in next.live.Values && x < |next.records| ==> next.records[x].package != package
  {
    hide Accounted, Ordered;
    var ids := s.packages[package];
    InvDroppedAll(s, ids);
    DroppedIdentities(s, ids);
    var next := DroppedAll(s, ids);
    forall x | x in next.live.Values && x < |next.records| ensures next.records[x].package != package {
      assert x in s.live.Values && x !in ids;
      var k :| k in s.live && s.live[k] == x;
      assert InItsList(s, s.live[k]);
    }
  }

  lemma {:induction false} DroppedIdentities(s: State, ids: seq<Id>)
    requires AllKnown(s, ids)
    ensures forall x: Id :: x < |s.records| ==> DroppedAll(s, ids).records[x].package == s.records[x].package
    decreases |ids|
  {
    if ids != [] { DroppedIdentities(Dropped(s, ids[0]), ids[1..]); }
  }

  lemma InvAttach(s: State, binder: Binder, token: Id)
    requires Inv(s) && Sound(s)
    ensures Inv(Step(s, Attach(binder, token)).0)
  {
    hide Inv;
    if token in s.live.Values {
      var k :| k in s.live && s.live[k] == token;
      SoundAt(s, k);
      InvWith(s, token, Bound(s.records[token], binder));
      InvBroadcast(With(s, token, Bound(s.records[token], binder)), token);
    }
  }

  lemma InvTimedOut(s: State, id: Id)
    requires Inv(s) && Sound(s)
    ensures Inv(Step(s, TimedOut(id)).0)
  {
    hide Inv;
    if Known(s, id) && s.records[id].timeout {
      InvWith(s, id, s.records[id].(timeout := false));
      InvDropped(With(s, id, s.records[id].(timeout := false)), id);
    }
  }

  lemma InvConnectionDied(s: State, id: Id, conn: Connection)
    requires Inv(s) && Sound(s)
    ensures Inv(Step(s, ConnectionDied(id, conn)).0)
  {
    hide Inv;
    if Known(s, id) {
      InvWith(s, id, Unregistered(s.records[id], conn));
      InvDropped(With(s, id, Unregistered(s.records[id], conn)), id);
    }
  }

  lemma InvRemove(s: State, op: Operation)
    requires Inv(s) && Sound(s) && op.Remove?
    ensures Inv(Step(s, op).0)
  {
    hide Inv;
    var key := KeyOf(op.package, op.suffix);
    if key in s.live {
      SoundAt(s, key);
      InvDropped(s, s.live[key]);
      InvWith(s, s.live[key], Unregistered(s.records[s.live[key]], op.conn));
    }
  }

  /** Every step keeps the invariant. */
  lemma StepKeepsInv(s: State, op: Operation)
    requires Inv(s)
    ensures Sound(s) && Inv(Step(s, op).0)
  {
    hide Inv, Sound;
    InvIsSound(s);
    match op
    case Add(_, _, _, _, noCreate, _, _, _, _) =>
      if noCreate { InvAddOnly(s, op); } else { InvAddOrCreate(s, op); }
    case Remove(_, _, _, _) => InvRemove(s, op);
    case Attach(binder, token) => InvAttach(s, binder, token);
    case TimedOut(id) => InvTimedOut(s, id);
    case BinderDied(id) => if Known(s, id) { InvDropped(s, id); }
    case ConnectionDied(id, conn) => InvConnectionDied(s, id, conn);
    case PackageRemoved(package) => InvPackageRemoved(s, package);
  }

  lemma InitialInv()
    ensures Inv(Initial)
  {
  }

  /** The state after a run, any run at all. */
  ghost function Run(ops: seq<Operation>): (s: State)
    ensures Inv(s)
  {
    if ops == [] then
      InitialInv();
      Initial
    else
      var s := Run(ops[..|ops| - 1]);
      StepKeepsInv(s, ops[|ops| - 1]);
      Step(s, ops[|ops| - 1]).0
  }
}
