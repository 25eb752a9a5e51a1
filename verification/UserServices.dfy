/** The user service manager and its records as the objects they are, each method being one step of the registry. */
module UserServices {
  import opened Options
  import opened Registry
  import opened RegistryRuns

  /** A user service record, changed in place; package and key are where the manager put it. */
  class ServiceRecord {
    const token: Id
    const version: int
    ghost const package: string
    ghost const key: string
    var daemon: bool
    var service: Option<Binder>
    var starting: bool
    var timeout: bool
    var callbacks: set<Connection>
    var killed: bool

    ghost function Abs(): Record
      reads this
    {
      Record(package, key, version, daemon, service, starting, timeout, callbacks, killed)
    }

    constructor (token: Id, ghost package: string, ghost key: string, version: int, daemon: bool)
      ensures this.token == token
      ensures Abs() == Record(package, key, version, daemon, None, false, false, {}, false)
    {
      this.token, this.version, this.package, this.key := token, version, package, key;
      this.daemon, service, starting, timeout, callbacks, killed := daemon, None, false, false, {}, false;
    }

    /** RemoteCallbackList.register: a killed list takes no more callbacks. */
    method Register(conn: Connection)
      modifies this
      ensures Abs() == Registered(old(Abs()), conn)
    {
      if !killed {
        callbacks := callbacks + {conn};
      }
    }

    method Unregister(conn: Connection)
      modifies this
      ensures Abs() == Unregistered(old(Abs()), conn)
    {
      callbacks := callbacks - {conn};
    }

    method SetStartingTimeout()
      modifies this
      ensures Abs() == if old(starting) then old(Abs()) else old(Abs()).(starting := true, timeout := true)
    {
      if starting {
        return;
      }
      starting := true;
      timeout := true;
    }

    method SetDaemon(daemon: bool)
      modifies this
      ensures Abs() == old(Abs()).(daemon := daemon)
    {
      this.daemon := daemon;
    }

    method SetBinder(binder: Binder)
      modifies this
      ensures Abs() == Bound(old(Abs()), binder)
    {
      timeout := false;
      service := Some(binder);
    }

    method Destroy()
      modifies this
      ensures Abs() == Ended(old(Abs()))
    {
      callbacks := {};
      killed := true;
    }
  }

  function Tokens(records: seq<ServiceRecord>): (ids: seq<Id>)
    ensures |ids| == |records|
    ensures forall i :: 0 <= i < |ids| ==> ids[i] == records[i].token
  {
    seq(|records|, i requires 0 <= i < |records| => records[i].token)
  }

  /** The records of a package so far. */
  function ListOf(packages: map<string, seq<ServiceRecord>>, package: string): seq<ServiceRecord> {
    if package in packages then packages[package] else []
  }

  lemma TokensMore(records: seq<ServiceRecord>, r: ServiceRecord)
    ensures Tokens(records + [r]) == Tokens(records) + [r.token]
  {
  }

  /** After any step the state is again one that a run can reach. */
  lemma StaysReachable(s: State, op: Operation)
    requires Inv(s)
    ensures Sound(s) && Inv(Step(s, op).0) && Sound(Step(s, op).0)
  {
    StepKeepsInv(s, op);
    InvIsSound(Step(s, op).0);
  }

  /** The manager: the live records by key, the records of each package, and what it has done. */
  class ServiceManager {
    var live: map<string, ServiceRecord>
    var packages: map<string, seq<ServiceRecord>>
    var log: seq<Event>
    var made: nat
    ghost var all: seq<ServiceRecord>

    ghost predicate Member(r: ServiceRecord)
      reads this
    {
      r.token < |all| && all[r.token] == r
    }

    /** Tokens are places among all records, and the maps hold known records, the live ones under their own keys. */
    ghost predicate Shape()
      reads this, all
    {
      && made == |all| && (forall i :: 0 <= i < |all| ==> all[i].token == i)
      && (forall k :: k in live ==> Member(live[k]) && live[k].key == k)
      && (forall p :: p in packages ==> forall i :: 0 <= i < |packages[p]| ==> Member(packages[p][i]))
    }

    ghost function Abs(): State
      reads this, all
    {
      State(seq(|all|, i requires 0 <= i < |all| reads this, all => all[i].Abs()),
            map k | k in live :: live[k].token, map p | p in packages :: Tokens(packages[p]), log)
    }

    /** Between calls, the state is one that a run can reach. */
    ghost predicate Valid()
      reads this, all
    {
      Shape() && Sound(Abs()) && Inv(Abs())
    }

    constructor ()
      ensures Valid() && Abs() == Initial && all == []
    {
      live, packages, log, made, all := map[], map[], [], 0, [];
      new;
      InitialInv();
    }

    // ----- Inside a step -----

    /** A record of the manager was changed: its place in the state has changed, and nothing else. */
    twostate lemma OnlyChanged(new r: ServiceRecord)
      requires old(Shape()) && old(allocated(r)) && r.token < |old(all)| && old(all)[r.token] == r
      requires all == old(all) && live == old(live) && packages == old(packages) && log == old(log) && made == old(made)
      requires forall i :: 0 <= i < |all| && i != r.token ==> unchanged(all[i])
      ensures Shape() && Abs() == With(old(Abs()), r.token, r.Abs())
    {
    }

    lemma LiveMember(key: string)
      requires Shape()
      ensures key in live <==> key in Abs().live
      ensures key in live ==> Member(live[key]) && Abs().live[key] == live[key].token && Known(Abs(), live[key].token)
      ensures key in live ==> Abs().records[live[key].token] == live[key].Abs() && live[key] in all
    {
    }

    /** A record was destroyed and taken out of the map. */
    twostate lemma OnlyDropped(new r: ServiceRecord, k: string)
      requires old(Shape()) && old(allocated(r)) && r.token < |old(all)| && old(all)[r.token] == r
      requires k in old(live) && old(live)[k] == r && r.Abs() == Ended(old(r.Abs()))
      requires all == old(all) && live == old(live) - {k} && packages == old(packages) && made == old(made)
      requires log == old(log) + [Destroyed(r.token)]
      requires forall i :: 0 <= i < |all| && i != r.token ==> unchanged(all[i])
      ensures Shape() && Abs() == Dropped(old(Abs()), r.token)
    {
      var t := Dropped(old(Abs()), r.token);
      assert old(Abs()).live[k] == r.token;
      assert Abs().records == t.records;
      assert Abs().live == t.live;
    }

    /** removeUserServiceLocked: the record leaves the map, if it is there, and is destroyed. */
    method RemoveLocked(r: ServiceRecord)
      requires Shape() && Member(r)
      modifies this, r
      ensures Shape() && all == old(all) && packages == old(packages)
      ensures Abs() == Dropped(old(Abs()), r.token)
    {
      if r !in live.Values {
        assert r.token !in Abs().live.Values;
        return;
      }
      var k :| k in live && live[k] == r;
      live := live - {k};
      r.Destroy();
      log := log + [Destroyed(r.token)];
      OnlyDropped(r, k);
    }

    /** A record was added to all records, to its package's list and under its key. */
    twostate lemma OnlyAdded(new r: ServiceRecord)
      requires old(Shape()) && r.token == |old(all)|
      requires r.Abs() == Record(r.package, r.key, r.version, r.daemon, None, false, false, {}, false)
      requires all == old(all) + [r] && live == old(live)[r.key := r] && log == old(log) && made == old(made) + 1
      requires packages == old(packages)[r.package := ListOf(old(packages), r.package) + [r]]
      requires forall i :: 0 <= i < |old(all)| ==> unchanged(old(all)[i])
      ensures Shape() && Abs() == Created(old(Abs()), r.package, r.key, r.version, r.daemon)
    {
      var t := Created(old(Abs()), r.package, r.key, r.version, r.daemon);
      TokensMore(ListOf(old(packages), r.package), r);
      assert Abs().records == t.records;
      assert Abs().live == t.live;
      assert Abs().packages == t.packages;
    }

    /** A new record, in its package's list and under its key. */
    method Create(package: string, key: string, version: int, daemon: bool) returns (r: ServiceRecord)
      requires Shape()
      modifies this
      ensures Shape() && fresh(r) && all == old(all) + [r] && Member(r)
      ensures Abs() == Created(old(Abs()), package, key, version, daemon)
    {
      assert made == |all|;
      r := new ServiceRecord(made, package, key, version, daemon);
      packages := packages[package := ListOf(packages, package) + [r]];
      live := live[key := r];
      all := all + [r];
      made := made + 1;
      OnlyAdded(r);
    }

    /** createUserServiceRecordIfNeededLocked. */
    method CreateIfNeeded(package: string, key: string, version: int, daemon: bool, ping: bool) returns (r: ServiceRecord)
      requires Shape()
      requires key in Abs().live ==> Known(Abs(), Abs().live[key])
      modifies this, all
      ensures Shape() && Member(r) && (all == old(all) || (fresh(r) && all == old(all) + [r]))
      ensures (Abs(), r.token) == CreatedIfNeeded(old(Abs()), package, key, version, daemon, ping)
    {
      LiveMember(key);
      if key in live {
        var record := live[key];
        if record.version == version && (record.starting || (record.service.Some? && ping)) {
          if record.daemon != daemon {
            record.SetDaemon(daemon);
          }
          OnlyChanged(record);
          return record;
        }
        RemoveLocked(record);
      }
      r := Create(package, key, version, daemon);
    }

    /** broadcastBinderReceived: the record's service, if it has one, goes to all its connections. */
    method SendBinder(r: ServiceRecord)
      requires Shape() && Member(r)
      modifies this
      ensures Shape() && all == old(all) && live == old(live) && packages == old(packages)
      ensures Abs() == Broadcast(old(Abs()), r.token)
    {
      if r.service.Some? {
        log := log + [Connected(r.token, r.callbacks, r.service.value)];
      }
      assert Abs().records == old(Abs()).records;
    }

    /** The record's process is launched, unless it is starting. */
    method Launch(r: ServiceRecord)
      requires Shape() && Member(r)
      modifies this, r
      ensures Shape() && all == old(all)
      ensures Abs() == LaunchedOnce(old(Abs()), r.token)
    {
      if !r.starting {
        r.SetStartingTimeout();
        OnlyChanged(r);
        log := log + [Launched(r.token)];
      }
      assert Abs().records == LaunchedOnce(old(Abs()), r.token).records;
    }

    // ----- The calls -----

    method AddExisting(op: Operation) returns (code: int)
      requires Shape() && op.Add? && Sound(Abs())
      modifies this, all
      ensures Shape() && all == old(all)
      ensures (Abs(), Code(code)) == AddOnly(old(Abs()), op)
    {
      var key := KeyOf(op.package, op.suffix);
      LiveMember(key);
      if key in live {
        var record := live[key];
        record.Register(op.conn);
        OnlyChanged(record);
        if record.service.Some? && op.secondPing {
          SendBinder(record);
          return if op.api >= 13 then record.version else 0;
        }
      }
      return if op.api >= 13 then -1 else 1;
    }

    method AddNew(op: Operation)
      requires Shape() && op.Add? && Sound(Abs())
      modifies this, all
      ensures Shape()
      ensures all == old(all) || (|all| == |old(all)| + 1 && all[..|old(all)|] == old(all) && fresh(all[|old(all)|]))
      ensures Abs() == AddOrCreate(old(Abs()), op).0
    {
      var key := KeyOf(op.package, op.suffix);
      LiveMember(key);
      var record := CreateIfNeeded(op.package, key, op.version, op.daemon, op.firstPing);
      Connect(record, op.conn, op.secondPing);
    }

    /** The connection is registered, and served at once or by launching the process. */
    method Connect(record: ServiceRecord, conn: Connection, ping: bool)
      requires Shape() && Member(record)
      modifies this, record
      ensures Shape() && all == old(all)
      ensures Abs() == Served(old(Abs()), record.token, conn, ping)
    {
      record.Register(conn);
      OnlyChanged(record);
      if record.service.Some? && ping {
        SendBinder(record);
      } else if !record.starting {
        Launch(record);
      }
    }

    /** addUserService. */
    method AddUserService(op: Operation) returns (code: int)
      requires Valid() && op.Add?
      modifies this, all
      ensures Valid() && (Abs(), Code(code)) == Step(old(Abs()), op)
      ensures forall i :: |old(all)| <= i < |all| ==> fresh(all[i])
    {
      hide Inv, Sound;
      StaysReachable(Abs(), op);
      if op.noCreate {
        code := AddExisting(op);
      } else {
        AddNew(op);
        code := 0;
      }
    }

    /** removeUserService: 1 if there is none, otherwise 0. */
    method RemoveUserService(conn: Connection, package: string, suffix: string, remove: bool) returns (code: int)
      requires Valid()
      modifies this, all
      ensures Valid() && all == old(all)
      ensures (Abs(), Code(code)) == Step(old(Abs()), Remove(conn, package, suffix, remove))
    {
      hide Inv, Sound;
      StaysReachable(Abs(), Remove(conn, package, suffix, remove));
      var key := KeyOf(package, suffix);
      LiveMember(key);
      if key !in live {
        return 1;
      }
      var record := live[key];
      if remove {
        RemoveLocked(record);
      } else {
        record.Unregister(conn);
        OnlyChanged(record);
      }
      return 0;
    }

    /** The search of sendUserServiceLocked through the live records. */
    method FindToken(token: Id) returns (r: Option<ServiceRecord>)
      requires Shape()
      ensures r.Some? ==> Member(r.value) && r.value in all && r.value.token == token && token in Abs().live.Values
      ensures r.None? ==> token !in Abs().live.Values
    {
      var keys := live.Keys;
      while keys != {}
        invariant keys <= live.Keys
        invariant forall k :: k in live && k !in keys ==> live[k].token != token
      {
        var k :| k in keys;
        if live[k].token == token {
          assert Abs().live[k] == token;
          return Some(live[k]);
        }
        keys := keys - {k};
      }
      return None;
    }

    /** attachUserService: false for an unknown token. */
    method AttachUserService(binder: Binder, token: Id) returns (known: bool)
      requires Valid()
      modifies this, all
      ensures Valid() && all == old(all)
      ensures (Abs(), if known then Nothing else UnknownToken) == Step(old(Abs()), Attach(binder, token))
    {
      hide Inv, Sound;
      StaysReachable(Abs(), Attach(binder, token));
      var found := FindToken(token);
      if found.None? {
        return false;
      }
      found.value.SetBinder(binder);
      OnlyChanged(found.value);
      SendBinder(found.value);
      return true;
    }

    // ----- The callbacks -----

    /** The timeout of a start, if it was not taken back. */
    method StartTimedOut(r: ServiceRecord)
      requires Valid() && Member(r)
      modifies this, r
      ensures Valid() && all == old(all) && Abs() == Step(old(Abs()), TimedOut(r.token)).0
    {
      hide Inv, Sound;
      StaysReachable(Abs(), TimedOut(r.token));
      if r.timeout {
        r.timeout := false;
        OnlyChanged(r);
        if r.starting {
          RemoveLocked(r);
        }
      }
    }

    method ServiceDied(r: ServiceRecord)
      requires Valid() && Member(r)
      modifies this, r
      ensures Valid() && all == old(all) && Abs() == Step(old(Abs()), Operation.BinderDied(r.token)).0
    {
      hide Inv, Sound;
      StaysReachable(Abs(), Operation.BinderDied(r.token));
      RemoveLocked(r);
    }

    /** onCallbackDied: the last connection takes a record that is no daemon with it. */
    method ConnectionLost(r: ServiceRecord, conn: Connection)
      requires Valid() && Member(r)
      modifies this, r
      ensures Valid() && all == old(all) && Abs() == Step(old(Abs()), Operation.ConnectionDied(r.token, conn)).0
    {
      hide Inv, Sound;
      StaysReachable(Abs(), Operation.ConnectionDied(r.token, conn));
      r.Unregister(conn);
      OnlyChanged(r);
      if r.daemon || r.callbacks != {} {
        return;
      }
      RemoveLocked(r);
    }

    /** removeUserServicesForPackage: the package's records one after the other, and then its list. */
    method RemoveUserServicesForPackage(package: string)
      requires Valid()
      modifies this, all
      ensures Valid() && all == old(all) && Abs() == Step(old(Abs()), PackageRemoved(package)).0
    {
      hide Inv, Sound;
      StaysReachable(Abs(), PackageRemoved(package));
      if package in packages {
        RemoveAll(packages[package]);
        packages := packages - {package};
        assert Abs().packages == Step(old(Abs()), PackageRemoved(package)).0.packages;
        assert Abs().records == Step(old(Abs()), PackageRemoved(package)).0.records;
      }
    }

    method RemoveAll(list: seq<ServiceRecord>)
      requires Shape() && forall i :: 0 <= i < |list| ==> Member(list[i])
      requires AllKnown(Abs(), Tokens(list))
      modifies this, all
      ensures Shape() && all == old(all) && packages == old(packages)
      ensures Abs() == DroppedAll(old(Abs()), Tokens(list))
    {
      ghost var ids := Tokens(list);
      for i := 0 to |list|
        invariant Shape() && all == old(all) && packages == old(packages)
        invariant AllKnown(Abs(), ids[i..])
        invariant DroppedAll(old(Abs()), ids) == DroppedAll(Abs(), ids[i..])
      {
        assert ids[i..][0] == list[i].token && ids[i..][1..] == ids[i + 1..];
        RemoveLocked(list[i]);
      }
    }
  }
}
