module RegistryTimeouts {
  // How records end over a run: a service that attached outlives its start timeout, one that did not does not.
  import opened Options
  import opened Registry
  import opened RegistryRuns
  import opened RegistryResults
  import opened RegistryConnections

  /** What is said of a record: its start timeout is pending or not; or it has a binder. */
  datatype Kind = Waiting(pending: bool) | Running(binder: Binder)

  predicate Fits(r: Record, kind: Kind) {
    match kind
    case Waiting(pending) => r.timeout == pending
    case Running(binder) => r.service == Some(binder)
  }

  /** As long as the record is live, that is so. */
  ghost predicate OfKind(s: State, id: Id, kind: Kind) {
    Known(s, id) && (id in s.live.Values ==> Fits(s.records[id], kind))
  }

  /** The process attaches, or the timeout fires. */
  predicate Settles(op: Operation, id: Id) {
    (op.Attach? && op.token == id) || op == TimedOut(id)
  }

  /** The operation leaves it so. */
  predicate Spares(op: Operation, id: Id, kind: Kind) {
    match kind
    case Waiting(pending) => pending ==> !Settles(op, id)
    case Running(_) => !(op.Attach? && op.token == id)
  }

  lemma StayWith(s: State, x: Id, r: Record, id: Id, kind: Kind)
    requires OfKind(s, id, kind) && Known(s, x) && (x == id && id in s.live.Values ==> Fits(r, kind))
    ensures OfKind(With(s, x, r), id, kind)
  {
  }

  lemma StayDropped(s: State, x: Id, id: Id, kind: Kind)
    requires Inv(s) && OfKind(s, id, kind) && Known(s, x)
    ensures OfKind(Dropped(s, x), id, kind)
  {
    hide Accounted, Ordered, Listed;
    if x in s.live.Values { LiveWithout(s, x); }
  }

  lemma {:induction false} StayDroppedAll(s: State, ids: seq<Id>, id: Id, kind: Kind)
    requires Inv(s) && OfKind(s, id, kind) && AllKnown(s, ids)
    ensures OfKind(DroppedAll(s, ids), id, kind)
    decreases |ids|
  {
    hide Inv, Dropped;
    if ids != [] {
      InvDropped(s, ids[0]);
      StayDropped(s, ids[0], id, kind);
      StayDroppedAll(Dropped(s, ids[0]), ids[1..], id, kind);
    }
  }

  lemma StayBroadcast(s: State, x: Id, id: Id, kind: Kind)
    requires OfKind(s, id, kind) && Known(s, x)
    ensures OfKind(Broadcast(s, x), id, kind)
  {
  }

  lemma StayBegun(s: State, op: Operation, id: Id, kind: Kind)
    requires op.Add? && KeyOf(op.package, op.suffix) !in s.live && OfKind(s, id, kind)
    ensures OfKind(Begun(s, op.package, KeyOf(op.package, op.suffix), op.version, op.daemon, op.conn), id, kind)
  {
    LiveWith(s, KeyOf(op.package, op.suffix), |s.records|);
  }

  lemma StayFound(s: State, op: Operation, id: Id, kind: Kind)
    requires Inv(s) && Sound(s) && op.Add? && (op.noCreate || Found(s, op)) && OfKind(s, id, kind)
    ensures OfKind(Step(s, op).0, id, kind)
  {
    hide Inv;
    var k := KeyOf(op.package, op.suffix);
    if k in s.live {
      SoundAt(s, k);
      var x := s.live[k];
      var r := Registered(if op.noCreate then s.records[x] else s.records[x].(daemon := op.daemon), op.conn);
      StayWith(s, x, r, id, kind);
      StayBroadcast(With(s, x, r), x, id, kind);
      if !op.noCreate { FoundIsKept(s, op); }
    }
  }

  lemma StayAdd(s: State, op: Operation, id: Id, kind: Kind)
    requires Inv(s) && Sound(s) && op.Add? && OfKind(s, id, kind)
    ensures OfKind(Step(s, op).0, id, kind)
  {
    hide Inv, OfKind, Begun, Dropped;
    if op.noCreate || Found(s, op) {
      StayFound(s, op, id, kind);
    } else {
      NewIsBegun(s, op);
      ClearedKeeps(s, op);
      if KeyOf(op.package, op.suffix) in s.live { StayDropped(s, s.live[KeyOf(op.package, op.suffix)], id, kind); }
      StayBegun(Cleared(s, op), op, id, kind);
    }
  }

  lemma StayRemove(s: State, op: Operation, id: Id, kind: Kind)
    requires Inv(s) && Sound(s) && op.Remove? && OfKind(s, id, kind)
    ensures OfKind(Step(s, op).0, id, kind)
  {
    hide Inv, Dropped;
    var k := KeyOf(op.package, op.suffix);
    if k in s.live {
      SoundAt(s, k);
      StayDropped(s, s.live[k], id, kind);
      StayWith(s, s.live[k], Unregistered(s.records[s.live[k]], op.conn), id, kind);
    }
  }

  lemma StayAttach(s: State, binder: Binder, token: Id, id: Id, kind: Kind)
    requires Sound(s) && OfKind(s, id, kind) && Spares(Attach(binder, token), id, kind)
    ensures OfKind(Step(s, Attach(binder, token)).0, id, kind)
  {
    if token in s.live.Values {
      StayWith(s, token, Bound(s.records[token], binder), id, kind);
      StayBroadcast(With(s, token, Bound(s.records[token], binder)), token, id, kind);
    }
  }

  lemma StayTimedOut(s: State, x: Id, id: Id, kind: Kind)
    requires Inv(s) && Sound(s) && OfKind(s, id, kind) && Spares(TimedOut(x), id, kind)
    ensures OfKind(Step(s, TimedOut(x)).0, id, kind)
  {
    hide Inv, Dropped;
    if Known(s, x) && s.records[x].timeout {
      var r := s.records[x].(timeout := false);
      InvWith(s, x, r);
      StayWith(s, x, r, id, kind);
      StayDropped(With(s, x, r), x, id, kind);
    }
  }

  lemma StayConnectionDied(s: State, x: Id, lost: Connection, id: Id, kind: Kind)
    requires Inv(s) && Known(s, x) && OfKind(s, id, kind)
    ensures OfKind(AfterConnection(s, x, lost), id, kind)
  {
    hide Inv, Dropped;
    var r := Unregistered(s.records[x], lost);
    StayWith(s, x, r, id, kind);
    InvWith(s, x, r);
    StayDropped(With(s, x, r), x, id, kind);
  }

  lemma StayPackage(s: State, package: string, id: Id, kind: Kind)
    requires Inv(s) && Sound(s) && OfKind(s, id, kind)
    ensures OfKind(Step(s, PackageRemoved(package)).0, id, kind)
  {
    hide Inv;
    if package in s.packages { StayDroppedAll(s, s.packages[package], id, kind); }
  }

  lemma StepStay(s: State, op: Operation, id: Id, kind: Kind)
    requires Inv(s) && OfKind(s, id, kind) && Spares(op, id, kind)
    ensures Sound(s) && OfKind(Step(s, op).0, id, kind)
  {
    hide Inv, OfKind, Spares, Dropped, AddOnly, AddOrCreate, AfterConnection;
    InvIsSound(s);
    match op
    case Add(_, _, _, _, _, _, _, _, _) => StayAdd(s, op, id, kind);
    case Remove(_, _, _, _) => StayRemove(s, op, id, kind);
    case Attach(binder, token) => StayAttach(s, binder, token, id, kind);
    case TimedOut(x) => StayTimedOut(s, x, id, kind);
    case BinderDied(x) => if Known(s, x) { StayDropped(s, x, id, kind); }
    case ConnectionDied(x, lost) => if Known(s, x) { StayConnectionDied(s, x, lost, id, kind); }
    case PackageRemoved(package) => StayPackage(s, package, id, kind);
  }

  lemma {:induction false} RunStay(s: State, ops: seq<Operation>, id: Id, kind: Kind)
    requires Inv(s) && OfKind(s, id, kind)
    requires forall i :: 0 <= i < |ops| ==> Spares(ops[i], id, kind)
    ensures OfKind(After(s, ops), id, kind)
    decreases |ops|
  {
    hide Inv, OfKind, Spares, Step;
    if ops != [] {
      StepKeepsInv(s, ops[0]);
      StepStay(s, ops[0], id, kind);
      RunStay(Step(s, ops[0]).0, ops[1..], id, kind);
    }
  }

  // ----- The results -----

  /** A service that attached while its record was live outlives its start timeout: whenever that fires, nothing happens. */
  lemma AttachedOutlivesTimeout(s: State, binder: Binder, id: Id, ops: seq<Operation>)
    requires Inv(s) && id in s.live.Values
    ensures Sound(s) && Inv(Step(s, Attach(binder, id)).0)
    ensures var u := After(Step(s, Attach(binder, id)).0, ops);
            && Sound(u) && Step(u, TimedOut(id)).0.live == u.live && Step(u, TimedOut(id)).0.log == u.log
  {
    hide Inv, After, Step;
    InvIsSound(s);
    StepKeepsInv(s, Attach(binder, id));
    var t := Step(s, Attach(binder, id)).0;
    AttachedIsSettled(s, binder, id);
    RunStay(t, ops, id, Waiting(false));
    InvIsSound(After(t, ops));
    SettledIsSilent(After(t, ops), id);
  }

  lemma AttachedIsSettled(s: State, binder: Binder, id: Id)
    requires Sound(s) && id in s.live.Values
    ensures OfKind(Step(s, Attach(binder, id)).0, id, Waiting(false))
  {
  }

  lemma SettledIsSilent(s: State, id: Id)
    requires Sound(s) && OfKind(s, id, Waiting(false))
    ensures Step(s, TimedOut(id)).0.live == s.live && Step(s, TimedOut(id)).0.log == s.log
  {
  }

  /** One record leaves the live map, and is destroyed; every other key keeps its record. */
  ghost predicate Ends(s: State, t: State, id: Id) {
    && t.log == s.log + [Destroyed(id)] && id !in t.live.Values
    && (forall k :: k in t.live ==> k in s.live && t.live[k] == s.live[k])
    && (forall k :: k in s.live && s.live[k] != id ==> k in t.live)
  }

  lemma DroppedEnds(s: State, id: Id)
    requires Inv(s) && Known(s, id) && id in s.live.Values
    ensures Ends(s, Dropped(s, id), id)
  {
    hide Accounted, Ordered, Listed;
    LiveWithout(s, id);
  }

  /**
   A service is launched for a new record. If the record is still live when its start timeout fires for the first time,
   and the process has not attached until then, that ends the record.
   */
  lemma SilentLaunchTimesOut(s: State, add: Operation, ops: seq<Operation>)
    requires Inv(s) && add.Add? && !add.noCreate
    requires var key := KeyOf(add.package, add.suffix);
             key in s.live && s.live[key] < |s.records| ==> s.records[s.live[key]].version != add.version
    requires forall i :: 0 <= i < |ops| ==> !Settles(ops[i], |s.records|)
    ensures Sound(s) && Inv(Step(s, add).0)
    ensures var id := |s.records|;
            var t := Step(s, add).0;
            var u := After(t, ops);
            && id in t.live.Values && Launched(id) in t.log && Sound(u)
            && (id in u.live.Values ==> Ends(u, Step(u, TimedOut(id)).0, id))
  {
    hide Inv, After, Step, Ends;
    InvIsSound(s);
    StepKeepsInv(s, add);
    AddPutsOneRecord(s, add);
    var t := Step(s, add).0;
    var id := |s.records|;
    NewIsPending(s, add);
    RunStay(t, ops, id, Waiting(true));
    var u := After(t, ops);
    InvIsSound(u);
    if id in u.live.Values { PendingEnds(u, id); }
  }

  lemma NewIsPending(s: State, add: Operation)
    requires Inv(s) && Sound(s) && add.Add? && !add.noCreate && !Found(s, add)
    ensures OfKind(Step(s, add).0, |s.records|, Waiting(true)) && |s.records| in Step(s, add).0.live.Values
  {
    hide Inv, Dropped;
    NewIsBegun(s, add);
    var t := Begun(Cleared(s, add), add.package, KeyOf(add.package, add.suffix), add.version, add.daemon, add.conn);
    assert t.live[KeyOf(add.package, add.suffix)] == |s.records|;
  }

  lemma PendingEnds(s: State, id: Id)
    requires Inv(s) && Sound(s) && id in s.live.Values && OfKind(s, id, Waiting(true))
    ensures Ends(s, Step(s, TimedOut(id)).0, id)
  {
    hide Inv, Ends, Dropped;
    var r := s.records[id].(timeout := false);
    IsStarting(s, id);
    InvWith(s, id, r);
    DroppedEnds(With(s, id, r), id);
    SameEnds(s, With(s, id, r), Step(s, TimedOut(id)).0, id);
  }

  lemma SameEnds(s: State, next: State, t: State, id: Id)
    requires next.live == s.live && next.log == s.log && Ends(next, t, id)
    ensures Ends(s, t, id)
  {
  }

  /** The death of its binder ends a live record, and so does a request to remove its key; both leave all others alone. */
  lemma DeathAndRemovalEnd(s: State, id: Id, conn: Connection, package: string, suffix: string)
    requires Inv(s)
    ensures Sound(s)
    ensures id in s.live.Values ==> Ends(s, Step(s, BinderDied(id)).0, id)
    ensures var key := KeyOf(package, suffix);
            var (t, answer) := Step(s, Remove(conn, package, suffix, true));
            if key in s.live then answer == Code(0) && Ends(s, t, s.live[key]) else answer == Code(1) && t == s
  {
    hide Inv, Ends, Dropped;
    InvIsSound(s);
    if id in s.live.Values { DroppedEnds(s, id); }
    var key := KeyOf(package, suffix);
    if key in s.live { DroppedEnds(s, s.live[key]); }
  }

  /** A binder is taken by a live record only; anything else is refused, and changes nothing. */
  lemma StrangersAreRefused(s: State, binder: Binder, token: Id)
    requires Inv(s)
    ensures Sound(s)
    ensures var (t, answer) := Step(s, Attach(binder, token));
            if token in s.live.Values then answer == Nothing else answer == UnknownToken && t == s
  {
    InvIsSound(s);
  }

  // ----- Services that run -----

  lemma AttachedRuns(s: State, binder: Binder, id: Id)
    requires Sound(s) && id in s.live.Values
    ensures OfKind(Step(s, Attach(binder, id)).0, id, Running(binder))
  {
  }

  /**
   A service attached; then anything may happen. A connection that adds it again, with its version, while the record is live
   and answers, is sent that binder at once, among all its connections, and nothing is launched.
   */
  lemma RunningServiceIsSent(s: State, binder: Binder, id: Id, ops: seq<Operation>, add: Operation)
    requires Inv(s) && id in s.live.Values && add.Add? && !add.noCreate && add.secondPing
    requires forall i :: 0 <= i < |ops| ==> !(ops[i].Attach? && ops[i].token == id)
    ensures Sound(s) && Inv(Step(s, Attach(binder, id)).0)
    ensures var u := After(Step(s, Attach(binder, id)).0, ops);
            && Sound(u)
            && (KeyOf(add.package, add.suffix) in u.live && u.live[KeyOf(add.package, add.suffix)] == id
                && id < |u.records| && u.records[id].version == add.version ==>
                  var t := Step(u, add).0;
                  && t.live == u.live && |t.log| == |u.log| + 1 && t.log[..|u.log|] == u.log
                  && t.log[|u.log|].Connected? && t.log[|u.log|].id == id && t.log[|u.log|].service == binder
                  && add.conn in t.log[|u.log|].to)
  {
    hide Inv, After, Step;
    InvIsSound(s);
    StepKeepsInv(s, Attach(binder, id));
    var t := Step(s, Attach(binder, id)).0;
    AttachedRuns(s, binder, id);
    RunStay(t, ops, id, Running(binder));
    var u := After(t, ops);
    InvIsSound(u);
    if Found(u, add) && u.live[KeyOf(add.package, add.suffix)] == id { FoundIsSent(u, binder, id, add); }
  }

  lemma FoundIsSent(s: State, binder: Binder, id: Id, add: Operation)
    requires Inv(s) && Sound(s) && add.Add? && !add.noCreate && add.secondPing && Found(s, add)
    requires s.live[KeyOf(add.package, add.suffix)] == id && OfKind(s, id, Running(binder))
    ensures var t := Step(s, add).0;
            && t.live == s.live && |t.log| == |s.log| + 1 && t.log[..|s.log|] == s.log
            && t.log[|s.log|].Connected? && t.log[|s.log|].id == id && t.log[|s.log|].service == binder
            && add.conn in t.log[|s.log|].to
  {
    FoundIsKept(s, add);
    assert AccountedFor(s, id);
  }
}
