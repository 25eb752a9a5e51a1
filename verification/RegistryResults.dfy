/** The main results about the registry, over every run. */
module RegistryResults {
  import opened Options
  import opened Registry
  import opened RegistryRuns

  // ----- Conservation -----

  lemma {:induction false} CountOnce(log: seq<Event>, e: Event)
    requires forall i, j :: 0 <= i < j < |log| ==> !(log[i] == e && log[j] == e)
    ensures multiset(log)[e] == if e in log then 1 else 0
  {
    if log != [] {
      var last := |log| - 1;
      CountOnce(log[..last], e);
      assert log == log[..last] + [log[last]];
    }
  }

  /**
   In every reachable state, every record ever made has been launched exactly once, and either it is
   live, under exactly one key, its own, and has not been destroyed, or it is not live and has been destroyed exactly once.
   */
  lemma Conservation(ops: seq<Operation>, id: Id)
    requires id < |Run(ops).records|
    ensures var s := Run(ops);
            && multiset(s.log)[Launched(id)] == 1
            && multiset(s.log)[Destroyed(id)] == (if id in s.live.Values then 0 else 1)
            && (id in s.live.Values <==> s.records[id].key in s.live && s.live[s.records[id].key] == id)
            && (forall k :: k in s.live && s.live[k] == id ==> k == s.records[id].key)
            && (s.records[id].killed <==> id !in s.live.Values)
  {
    hide Run, Listed;
    var s := Run(ops);
    assert AccountedFor(s, id);
    CountOnce(s.log, Launched(id));
    CountOnce(s.log, Destroyed(id));
  }

  /** After a record has been destroyed nothing is launched, sent or destroyed on its behalf. */
  lemma SilentOnceDestroyed(ops: seq<Operation>, i: nat, j: nat)
    requires i < j < |Run(ops).log| && Run(ops).log[i].Destroyed?
    ensures Run(ops).log[j].id != Run(ops).log[i].id
  {
    hide Run, KeysAgree, Accounted, Listed;
  }

  // ----- What a step leaves alone -----

  predicate IsLate(op: Operation, id: Id) {
    op == TimedOut(id) || op == BinderDied(id) || (op.ConnectionDied? && op.id == id)
  }

  /** A timeout, a binder's death or a connection's death for a record that is gone changes nothing but that record itself. */
  lemma LateCallbacksAreHarmless(s: State, op: Operation, id: Id)
    requires Inv(s) && IsLate(op, id) && id !in s.live.Values
    ensures Sound(s)
    ensures var t := Step(s, op).0;
            && t.live == s.live && t.packages == s.packages && t.log == s.log && |t.records| == |s.records|
            && forall x: Id :: x < |s.records| && x != id ==> t.records[x] == s.records[x]
  {
    InvIsSound(s);
  }

  /** Such an event can only ever take the record it is about, never a newer one under the same key, nor any other. */
  lemma CallbacksHitTheirRecord(s: State, op: Operation, id: Id, key: string)
    requires Inv(s) && IsLate(op, id) && key in s.live && s.live[key] != id
    ensures Sound(s)
    ensures var t := Step(s, op).0;
            key in t.live && t.live[key] == s.live[key] && s.live[key] < |t.records| && t.records[s.live[key]] == s.records[s.live[key]]
  {
    InvIsSound(s);
  }

  /**
   Adding a service leaves a record under its key: the one that was there if its version fits, otherwise a
   new one, the old one having been destroyed. No other key is touched.
   */
  lemma AddPutsOneRecord(s: State, op: Operation)
    requires Inv(s) && op.Add? && !op.noCreate
    ensures Sound(s)
    ensures var t := Step(s, op).0;
            var key := KeyOf(op.package, op.suffix);
            && Step(s, op).1 == Code(0)
            && key in t.live && t.live[key] < |t.records| && op.conn in t.records[t.live[key]].callbacks
            && t.records[t.live[key]].version == op.version && t.records[t.live[key]].daemon == op.daemon
            && (if key in s.live && s.live[key] < |s.records| && s.records[s.live[key]].version == op.version
                then t.live == s.live && |t.records| == |s.records|
                else t.live[key] == |s.records| && |t.records| == |s.records| + 1 && Launched(|s.records|) in t.log)
            && (key in s.live && t.live[key] != s.live[key] ==> Destroyed(s.live[key]) in t.log)
            && (forall k :: k != key ==> (k in t.live <==> k in s.live) && (k in t.live ==> t.live[k] == s.live[k]))
  {
    InvIsSound(s);
    if Found(s, op) {
      FoundIsKept(s, op);
      var id := s.live[KeyOf(op.package, op.suffix)];
      assert AccountedFor(s, id);
    } else {
      NewIsBegun(s, op);
      ClearedOnlyKey(s, op);
    }
  }

  lemma ClearedOnlyKey(s: State, op: Operation)
    requires Inv(s) && Sound(s) && op.Add?
    ensures var t := Cleared(s, op);
            var key := KeyOf(op.package, op.suffix);
            && key !in t.live && |t.records| == |s.records|
            && (key in s.live ==> Destroyed(s.live[key]) in t.log)
            && (forall k :: k != key ==> (k in t.live <==> k in s.live) && (k in t.live ==> t.live[k] == s.live[k]))
  {
    hide Accounted, Ordered, Listed;
    var key := KeyOf(op.package, op.suffix);
    if key in s.live { LiveWithout(s, s.live[key]); }
  }

  /**
   Since a record is starting for good, one whose service has died is still found again, as long as its
   death has not been reported: nothing is launched and no record is made, whatever the pings say.
   */
  lemma DeadServiceIsNotReplaced(s: State, op: Operation)
    requires Inv(s) && op.Add? && !op.noCreate && !op.firstPing && !op.secondPing
    requires var key := KeyOf(op.package, op.suffix);
             key in s.live && s.live[key] < |s.records| && s.records[s.live[key]].version == op.version
    ensures Sound(s)
    ensures Step(s, op).0.live == s.live && Step(s, op).0.log == s.log && Step(s, op).1 == Code(0)
  {
    hide Inv;
    InvIsSound(s);
    FoundIsKept(s, op);
  }

  // ----- What each call is for -----

  /** Looking for a service never makes, launches or removes one; the answer says whether it is there and answers. */
  lemma LookingCreatesNothing(s: State, op: Operation)
    requires Inv(s) && op.Add? && op.noCreate
    ensures Sound(s)
    ensures var (t, answer) := Step(s, op);
            var key := KeyOf(op.package, op.suffix);
            && t.live == s.live && |t.records| == |s.records| && t.packages == s.packages
            && (key in s.live ==> s.live[key] < |t.records| && s.live[key] < |s.records|
                                  && t.records[s.live[key]].callbacks == s.records[s.live[key]].callbacks + {op.conn})
            && t.log == (if key in s.live && s.records[s.live[key]].service.Some? && op.secondPing
                         then s.log + [Connected(s.live[key], s.records[s.live[key]].callbacks + {op.conn}, s.records[s.live[key]].service.value)]
                         else s.log)
            && (answer == Code(if key in s.live && s.records[s.live[key]].service.Some? && op.secondPing then
                                 (if op.api >= 13 then s.records[s.live[key]].version else 0)
                               else if op.api >= 13 then -1 else 1))
  {
    hide Ordered, Listed;
    InvIsSound(s);
    var key := KeyOf(op.package, op.suffix);
    if key in s.live { assert AccountedFor(s, s.live[key]); }
  }

  /** The death of a connection ends its record if and only if the record is no daemon and has no other connection. */
  lemma LastConnectionEndsRecord(s: State, id: Id, conn: Connection)
    requires Inv(s) && id in s.live.Values
    ensures Sound(s) && id < |s.records|
    ensures id !in Step(s, ConnectionDied(id, conn)).0.live.Values <==>
            !s.records[id].daemon && s.records[id].callbacks <= {conn}
  {
    InvIsSound(s);
    var next := With(s, id, Unregistered(s.records[id], conn));
    InvWith(s, id, Unregistered(s.records[id], conn));
    InvDropped(next, id);
    assert next.live == s.live;
    assert s.records[id].callbacks - {conn} == {} <==> s.records[id].callbacks <= {conn};
  }

  // ----- Packages -----

  /** Removing a package leaves no live record of it, and every live record of every other one as it was. */
  lemma PackageRemovalIsExact(s: State, package: string)
    requires Inv(s)
    ensures Sound(s)
    ensures var t := Step(s, PackageRemoved(package)).0;
            && package !in t.packages && |t.records| == |s.records|
            && (forall k :: k in t.live ==> k in s.live && t.live[k] == s.live[k] && t.live[k] < |t.records|
                                            && t.records[t.live[k]].package != package)
            && (forall k :: k in s.live ==> s.live[k] < |s.records|)
            && (forall k :: k in s.live && s.records[s.live[k]].package != package ==>
                  k in t.live && t.live[k] == s.live[k] && t.records[t.live[k]] == s.records[s.live[k]])
  {
    hide Accounted, Ordered;
    InvIsSound(s);
    if package in s.packages {
      var ids := s.packages[package];
      InvDroppedAll(s, ids);
      PackageGone(s, package);
      DroppedOthers(s, ids);
      var t := Step(s, PackageRemoved(package)).0;
      forall k | k in t.live ensures k in s.live && t.live[k] == s.live[k] && t.live[k] < |t.records| && t.records[t.live[k]].package != package {
        assert t.live[k] in t.live.Values;
      }
      forall k | k in s.live && s.records[s.live[k]].package != package
        ensures k in t.live && t.live[k] == s.live[k] && t.records[t.live[k]] == s.records[s.live[k]]
      {
        assert s.live[k] !in ids;
      }
    } else {
      forall k | k in s.live ensures s.records[s.live[k]].package != package {
        assert InItsList(s, s.live[k]);
      }
    }
  }

  lemma {:induction false} DroppedOthers(s: State, ids: seq<Id>)
    requires AllKnown(s, ids)
    ensures forall x: Id :: x < |s.records| && x !in ids ==> DroppedAll(s, ids).records[x] == s.records[x]
    ensures forall k :: k in DroppedAll(s, ids).live ==> k in s.live && DroppedAll(s, ids).live[k] == s.live[k]
    decreases |ids|
  {
    if ids != [] {
      DroppedOthers(Dropped(s, ids[0]), ids[1..]);
      assert forall x :: x in ids <==> x == ids[0] || x in ids[1..];
    }
  }

  // ----- Keys and packages -----

  /** A package name has no colon. */
  predicate IsPackageName(package: string) {
    ':' !in package
  }

  /** A key belongs to the package before its first colon, so services of different packages never meet. */
  lemma KeysAreApart(p: string, a: string, q: string, b: string)
    requires IsPackageName(p) && IsPackageName(q) && KeyOf(p, a) == KeyOf(q, b)
    ensures p == q && a == b
  {
    FirstColon(p, a);
    FirstColon(q, b);
    var key := KeyOf(p, a);
    assert |p| == |q|;
    assert key[..|p|] == p && key[..|q|] == q && key[|p| + 1..] == a && key[|q| + 1..] == b;
  }

  lemma FirstColon(package: string, suffix: string)
    requires IsPackageName(package)
    ensures var key := KeyOf(package, suffix);
            |key| > |package| && key[|package|] == ':' && forall i :: 0 <= i < |package| ==> key[i] != ':'
  {
    var key := KeyOf(package, suffix);
    forall i | 0 <= i < |package| ensures key[i] != ':' {
      assert key[i] == package[i] && package[i] in package;
    }
  }

  predicate ProperlyNamed(op: Operation) {
    op.Add? ==> IsPackageName(op.package)
  }

  /** Every record's key is its own package's. */
  ghost predicate Owned(s: State) {
    forall id: Id :: id < |s.records| ==> OwnKey(s.records[id])
  }

  ghost predicate OwnKey(r: Record) {
    IsPackageName(r.package) && exists suffix :: r.key == KeyOf(r.package, suffix)
  }

  lemma OwnedDropped(s: State, id: Id)
    requires Owned(s) && Known(s, id)
    ensures Owned(Dropped(s, id))
  {
    hide OwnKey;
    var t := Dropped(s, id);
    forall x: Id | x < |t.records| ensures OwnKey(t.records[x]) {
      assert OwnKey(s.records[x]);
      SameOwner(s.records[x], t.records[x]);
    }
  }

  lemma SameOwner(a: Record, b: Record)
    requires a.package == b.package && a.key == b.key && OwnKey(a)
    ensures OwnKey(b)
  {
  }

  lemma OwnedWith(s: State, id: Id, r: Record)
    requires Owned(s) && Known(s, id) && r.package == s.records[id].package && r.key == s.records[id].key
    ensures Owned(With(s, id, r))
  {
    SameOwner(s.records[id], r);
  }

  lemma {:induction false} OwnedDroppedAll(s: State, ids: seq<Id>)
    requires Owned(s) && AllKnown(s, ids)
    ensures Owned(DroppedAll(s, ids))
    decreases |ids|
  {
    hide Owned;
    if ids != [] {
      OwnedDropped(s, ids[0]);
      OwnedDroppedAll(Dropped(s, ids[0]), ids[1..]);
    }
  }

  lemma OwnedBegun(s: State, package: string, suffix: string, version: int, daemon: bool, conn: Connection)
    requires Owned(s) && IsPackageName(package)
    ensures Owned(Begun(s, package, KeyOf(package, suffix), version, daemon, conn))
  {
    var t := Begun(s, package, KeyOf(package, suffix), version, daemon, conn);
    assert OwnKey(t.records[|s.records|]);
  }

  lemma StepKeepsOwned(s: State, op: Operation)
    requires Inv(s) && Owned(s) && ProperlyNamed(op)
    ensures Sound(s) && Owned(Step(s, op).0)
  {
    hide Inv, OwnKey, Owned;
    InvIsSound(s);
    match op
    case Add(_, _, _, _, _, _, _, _, _) => OwnedAdd(s, op);
    case Remove(conn, package, suffix, _) =>
      if KeyOf(package, suffix) in s.live {
        var id := s.live[KeyOf(package, suffix)];
        OwnedDropped(s, id);
        OwnedWith(s, id, Unregistered(s.records[id], conn));
      }
    case Attach(binder, token) =>
      if token in s.live.Values {
        OwnedWith(s, token, Bound(s.records[token], binder));
        SameRecordsOwned(With(s, token, Bound(s.records[token], binder)), Step(s, op).0);
      }
    case TimedOut(id) =>
      if Known(s, id) {
        OwnedWith(s, id, s.records[id].(timeout := false));
        OwnedDropped(With(s, id, s.records[id].(timeout := false)), id);
      }
    case BinderDied(id) => if Known(s, id) { OwnedDropped(s, id); }
    case ConnectionDied(id, conn) =>
      if Known(s, id) {
        OwnedWith(s, id, Unregistered(s.records[id], conn));
        OwnedDropped(With(s, id, Unregistered(s.records[id], conn)), id);
      }
    case PackageRemoved(package) =>
      if package in s.packages {
        OwnedDroppedAll(s, s.packages[package]);
        SameRecordsOwned(DroppedAll(s, s.packages[package]), Step(s, op).0);
      }
  }

  lemma SameRecordsOwned(s: State, t: State)
    requires Owned(s) && t.records == s.records
    ensures Owned(t)
  {
  }

  lemma OwnedAdd(s: State, op: Operation)
    requires Inv(s) && Sound(s) && Owned(s) && op.Add? && IsPackageName(op.package)
    ensures Owned(Step(s, op).0)
  {
    hide Inv, OwnKey, Owned, Begun, Dropped;
    var key := KeyOf(op.package, op.suffix);
    if op.noCreate {
      if key in s.live {
        var id := s.live[key];
        OwnedWith(s, id, Registered(s.records[id], op.conn));
        SameRecordsOwned(With(s, id, Registered(s.records[id], op.conn)), Step(s, op).0);
      }
    } else if Found(s, op) {
      FoundIsKept(s, op);
      var id := s.live[key];
      var next := With(s, id, Registered(s.records[id].(daemon := op.daemon), op.conn));
      OwnedWith(s, id, Registered(s.records[id].(daemon := op.daemon), op.conn));
      SameRecordsOwned(next, Step(s, op).0);
    } else {
      NewIsBegun(s, op);
      if key in s.live { OwnedDropped(s, s.live[key]); }
      OwnedBegun(Cleared(s, op), op.package, op.suffix, op.version, op.daemon, op.conn);
    }
  }

  lemma {:induction false} RunKeepsOwned(ops: seq<Operation>)
    requires forall i :: 0 <= i < |ops| ==> ProperlyNamed(ops[i])
    ensures Owned(Run(ops))
  {
    if ops != [] {
      RunKeepsOwned(ops[..|ops| - 1]);
      StepKeepsOwned(Run(ops[..|ops| - 1]), ops[|ops| - 1]);
    }
  }

  /** Whatever a package asks for, it is given a record of its own: no package reaches another one's service. */
  lemma RecordsStayWithTheirPackage(ops: seq<Operation>, package: string, suffix: string)
    requires forall i :: 0 <= i < |ops| ==> ProperlyNamed(ops[i])
    requires IsPackageName(package) && KeyOf(package, suffix) in Run(ops).live
    ensures var s := Run(ops);
            s.live[KeyOf(package, suffix)] < |s.records| && s.records[s.live[KeyOf(package, suffix)]].package == package
  {
    hide Run, Accounted, Ordered, Listed;
    RunKeepsOwned(ops);
    var s := Run(ops);
    var r := s.records[s.live[KeyOf(package, suffix)]];
    assert OwnKey(r);
    var own :| r.key == KeyOf(r.package, own);
    KeysAreApart(package, suffix, r.package, own);
  }
}
