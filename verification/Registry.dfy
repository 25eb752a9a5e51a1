/**
 The user service registry as a state machine: which records there are, which are live under
 which key, and what was done on their behalf. Every method of the manager and every late
 callback is one step.
 */
module Registry {
  import opened Options

  type Id = nat
  type Binder(==)
  type Connection(==)

  /** A record; its place among all records ever made stands for its token. */
  datatype Record = Record(
    package: string, key: string, version: int, daemon: bool,
    service: Option<Binder>, starting: bool, timeout: bool, callbacks: set<Connection>, killed: bool)

  /** What others can see of a record: its process being launched, binders sent to connections, its end. */
  datatype Event = Launched(id: Id) | Connected(id: Id, to: set<Connection>, service: Binder) | Destroyed(id: Id)

  datatype State = State(records: seq<Record>, live: map<string, Id>, packages: map<string, seq<Id>>, log: seq<Event>)

  const Initial := State([], map[], map[], [])

  datatype Operation =
    | Add(conn: Connection, package: string, suffix: string, version: int, noCreate: bool, daemon: bool, firstPing: bool, secondPing: bool, api: int)
    | Remove(conn: Connection, package: string, suffix: string, remove: bool)
    | Attach(binder: Binder, token: Id)
    | TimedOut(id: Id)
    | BinderDied(id: Id)
    | ConnectionDied(id: Id, conn: Connection)
    | PackageRemoved(package: string)

  datatype Answer = Code(code: int) | UnknownToken | Nothing

  /** The key of a service: its package, a colon, and its tag or class name. */
  function KeyOf(package: string, suffix: string): string {
    package + ":" + suffix
  }

  // ----- Records -----

  function Registered(r: Record, conn: Connection): Record {
    if r.killed then r else r.(callbacks := r.callbacks + {conn})
  }

  function Unregistered(r: Record, conn: Connection): Record {
    r.(callbacks := r.callbacks - {conn})
  }

  function Ended(r: Record): Record {
    r.(callbacks := {}, killed := true)
  }

  function Bound(r: Record, binder: Binder): Record {
    r.(service := Some(binder), timeout := false)
  }

  predicate Known(s: State, id: Id) {
    id < |s.records|
  }

  predicate AllKnown(s: State, ids: seq<Id>) {
    forall i :: 0 <= i < |ids| ==> ids[i] < |s.records|
  }

  function With(s: State, id: Id, r: Record): State
    requires Known(s, id)
  {
    s.(records := s.records[id := r])
  }

  function Logged(s: State, e: Event): State {
    s.(log := s.log + [e])
  }

  predicate Sound(s: State) {
    && (forall k :: k in s.live ==> Known(s, s.live[k]))
    && (forall p :: p in s.packages ==> AllKnown(s, s.packages[p]))
  }

  // ----- Steps -----

  /** removeUserServiceLocked: the record leaves the map and is destroyed, if it is in the map. */
  function Dropped(s: State, id: Id): (r: State)
    requires Known(s, id)
    ensures |r.records| == |s.records| && r.packages == s.packages
  {
    if id in s.live.Values then
      Logged(With(s.(live := map k | k in s.live && s.live[k] != id :: s.live[k]), id, Ended(s.records[id])), Destroyed(id))
    else s
  }

  /** A new record under a key, added to its package's list. */
  function Created(s: State, package: string, key: string, version: int, daemon: bool): State {
    var id := |s.records|;
    var known := if package in s.packages then s.packages[package] else [];
    s.(records := s.records + [Record(package, key, version, daemon, None, false, false, {}, false)],
       packages := s.packages[package := known + [id]],
       live := s.live[key := id])
  }

  predicate Pings(r: Record, ping: bool) {
    r.service.Some? && ping
  }

  /** createUserServiceRecordIfNeededLocked: the state with a record under the key, and its identity. */
  function CreatedIfNeeded(s: State, package: string, key: string, version: int, daemon: bool, ping: bool): (r: (State, Id))
    requires key in s.live ==> Known(s, s.live[key])
    ensures Known(r.0, r.1)
  {
    if key !in s.live then (Created(s, package, key, version, daemon), |s.records|)
    else
      var id := s.live[key];
      var rec := s.records[id];
      if rec.version != version || (!rec.starting && !Pings(rec, ping)) then
        (Created(Dropped(s, id), package, key, version, daemon), |s.records|)
      else (With(s, id, rec.(daemon := daemon)), id)
  }

  /** The record's binder is sent to its connections. */
  function Broadcast(s: State, id: Id): State
    requires Known(s, id)
  {
    if s.records[id].service.None? then s
    else Logged(s, Connected(id, s.records[id].callbacks, s.records[id].service.value))
  }

  /** The record's process is launched once, with a timeout for its start. */
  function LaunchedOnce(s: State, id: Id): State
    requires Known(s, id)
  {
    if s.records[id].starting then s
    else Logged(With(s, id, s.records[id].(starting := true, timeout := true)), Launched(id))
  }

  function AddOnly(s: State, op: Operation): (State, Answer)
    requires op.Add?
    requires var key := KeyOf(op.package, op.suffix); key in s.live ==> Known(s, s.live[key])
  {
    var key := KeyOf(op.package, op.suffix);
    var absent := Code(if op.api >= 13 then -1 else 1);
    if key !in s.live then (s, absent)
    else
      var id := s.live[key];
      var next := With(s, id, Registered(s.records[id], op.conn));
      if Pings(next.records[id], op.secondPing) then
        (Broadcast(next, id), Code(if op.api >= 13 then next.records[id].version else 0))
      else (next, absent)
  }

  /** A connection registered with a record, and served: the second half of adding a service. */
  function Served(s: State, id: Id, conn: Connection, ping: bool): State
    requires Known(s, id)
  {
    var next := With(s, id, Registered(s.records[id], conn));
    if Pings(next.records[id], ping) then Broadcast(next, id) else LaunchedOnce(next, id)
  }

  function AddOrCreate(s: State, op: Operation): (State, Answer)
    requires op.Add?
    requires var key := KeyOf(op.package, op.suffix); key in s.live ==> Known(s, s.live[key])
  {
    var (made, id) := CreatedIfNeeded(s, op.package, KeyOf(op.package, op.suffix), op.version, op.daemon, op.firstPing);
    (Served(made, id, op.conn, op.secondPing), Code(0))
  }

  /** The callback of a connection's death: the last one takes a record that is no daemon with it. */
  function AfterConnection(s: State, id: Id, conn: Connection): State
    requires Known(s, id)
  {
    var next := With(s, id, Unregistered(s.records[id], conn));
    if next.records[id].daemon || next.records[id].callbacks != {} then next else Dropped(next, id)
  }

  function DroppedAll(s: State, ids: seq<Id>): (r: State)
    requires AllKnown(s, ids)
    ensures |r.records| == |s.records| && r.packages == s.packages
    decreases |ids|
  {
    if ids == [] then s else DroppedAll(Dropped(s, ids[0]), ids[1..])
  }

  function Step(s: State, op: Operation): (State, Answer)
    requires Sound(s)
  {
    match op
    case Add(_, _, _, _, noCreate, _, _, _, _) => if noCreate then AddOnly(s, op) else AddOrCreate(s, op)
    case Remove(conn, package, suffix, remove) =>
      var key := KeyOf(package, suffix);
      if key !in s.live then (s, Code(1))
      else if remove then (Dropped(s, s.live[key]), Code(0))
      else (With(s, s.live[key], Unregistered(s.records[s.live[key]], conn)), Code(0))
    case Attach(binder, token) =>
      if token !in s.live.Values then (s, UnknownToken)
      else (Broadcast(With(s, token, Bound(s.records[token], binder)), token), Nothing)
    case TimedOut(id) =>
      if !Known(s, id) || !s.records[id].timeout then (s, Nothing)
      else
        var fired := With(s, id, s.records[id].(timeout := false));
        (if fired.records[id].starting then Dropped(fired, id) else fired, Nothing)
    case BinderDied(id) => (if Known(s, id) then Dropped(s, id) else s, Nothing)
    case ConnectionDied(id, conn) => (if Known(s, id) then AfterConnection(s, id, conn) else s, Nothing)
    case PackageRemoved(package) =>
      if package !in s.packages then (s, Nothing)
      else
        var next := DroppedAll(s, s.packages[package]);
        (next.(packages := map p | p in next.packages && p != package :: next.packages[p]), Nothing)
  }
}
