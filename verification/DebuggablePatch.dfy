/** Setting android:debuggable on the application element of a binary manifest. */
module DebuggablePatch {
  import opened LittleEndian
  import opened Options
  import opened StringPools
  import opened AttributeTables
  import opened ManifestLayout

  /** The identifiers of the resource map in m[res..body], extended to cover the debuggable string. */
  function IdsOf(m: bytes, res: nat, body: nat, debug: nat): (ids: seq<nat>)
    requires (res == body || res + 8 <= body) && body <= |m|
    ensures |ids| > debug
    ensures ids[debug] == ATTR_DEBUGGABLE_ID
  {
    var known := KnownIds(m, res, body);
    (known + if |known| <= debug then seq(debug + 1 - |known|, _ => 0) else [])[debug := ATTR_DEBUGGABLE_ID]
  }

  function KnownIds(m: bytes, res: nat, body: nat): (ids: seq<nat>)
    requires (res == body || res + 8 <= body) && body <= |m|
  {
    if res == body then [] else Words(m, res + 8, 0, (body - res - 8) / 4)
  }

  function MapBytes(ids: seq<nat>): (b: bytes)
    ensures |b| == 8 + 4 * |ids|
  {
    Le32(MAP_CHUNK) + Le32(8 + 4 * |ids|) + WordBytes(ids)
  }

  function WithName(strings: seq<text>): (r: seq<text>)
    ensures DEBUGGABLE in r
  {
    if IndexOf(strings, DEBUGGABLE).None? then strings + [DEBUGGABLE] else strings
  }

  /** What the patch found and made: the element's place and size, the strings, indexes and identifiers, and the new parts. */
  datatype Plan = Plan(
    layout: Layout, at: nat, size: nat, strings: seq<text>, ns: nat, debug: nat, ids: seq<nat>,
    pool: bytes, before: bytes, patched: bytes, after: bytes)

  function PlanOf(m: bytes): Result<Plan> {
    match ReadLayout(m)
    case Err(e) => Err(e)
    case Ok(l) =>
      match FindStart(m, l.body, l.end, l.pool.strings, APPLICATION)
      case Err(e) => Err(e)
      case Ok(None) => Err("application element not found")
      case Ok(Some(at)) => PlanAt(m, l, at)
  }

  /** The plan for the application element at the given place. */
  function PlanAt(m: bytes, l: Layout, at: nat): (r: Result<Plan>)
    requires LaidOut(m, l) && l.body <= at && StartAt(m, at, l.end)
    ensures r.Ok? ==> r.value.layout == l && r.value.at == at && r.value.size == U32(m, at + 4)
  {
    var strings := WithName(l.pool.strings);
    var debug := IndexOf(strings, DEBUGGABLE).value;
    match IndexOf(strings, ANDROID_URI)
    case None => Err("Android namespace string not found")
    case Some(ns) =>
      var ids := IdsOf(m, l.res, l.body, debug);
      var size := U32(m, at + 4);
      match PatchedApplication(m[at..at + size], ns, debug, ids)
      case None => Err("application attribute table is malformed")
      case Some(patched) =>
        Ok(Plan(l, at, size, strings, ns, debug, ids, PoolPart(m, l, strings), m[l.body..at], patched, m[at + size..l.end]))
  }

  /** The pool is kept byte for byte unless the name had to be added. */
  function PoolPart(m: bytes, l: Layout, strings: seq<text>): bytes
    requires 8 <= l.res <= |m|
  {
    if strings == l.pool.strings then m[8..l.res] else PoolBytes(l.pool.(strings := strings))
  }

  function Document(pool: bytes, res: bytes, before: bytes, patched: bytes, after: bytes): (out: bytes)
    ensures |out| == 8 + |pool| + |res| + |before| + |patched| + |after|
  {
    Le32(XML_CHUNK) + Le32(8 + |pool| + |res| + |before| + |patched| + |after|) + pool + res + before + patched + after
  }

  /** PatchDebuggableTrue. */
  function PatchDebuggable(m: bytes): (r: Result<bytes>) {
    match PlanOf(m)
    case Err(e) => Err(e)
    case Ok(p) => Ok(Document(p.pool, MapBytes(p.ids), p.before, p.patched, p.after))
  }

  // ----- The method -----

  /** buildResourceMapIDs, filling an array. */
  method BuildResourceMapIds(m: bytes, res: nat, body: nat, debug: nat) returns (ids: seq<nat>)
    requires (res == body || res + 8 <= body) && body <= |m|
    ensures ids == IdsOf(m, res, body, debug)
  {
    hide U32;
    var existing := if body - res >= 8 then (body - res - 8) / 4 else 0;
    var count := if existing > debug + 1 then existing else debug + 1;
    var a := new nat[count](_ => 0);
    for i := 0 to existing
      invariant forall k :: 0 <= k < i ==> a[k] == U32(m, res + 8 + k * 4)
      invariant forall k :: i <= k < count ==> a[k] == 0
    {
      a[i] := U32(m, res + 8 + i * 4);
    }
    a[debug] := ATTR_DEBUGGABLE_ID;
    ids := a[..];
    assert ids == IdsOf(m, res, body, debug);
  }

  method ResourceMapToBytes(ids: seq<nat>) returns (b: bytes)
    ensures b == MapBytes(ids)
  {
    hide Le32;
    b := Le32(MAP_CHUNK) + Le32(8 + |ids| * 4);
    ghost var head := b;
    for i := 0 to |ids|
      invariant head + WordBytes(ids) == b + WordBytes(ids[i..])
    {
      assert ids[i..][1..] == ids[i + 1..];
      b := b + Le32(ids[i]);
    }
  }

  /** PatchDebuggableTrue: read the layout, find the element, extend the pool and the map, patch, and put everything together. */
  method PatchDebuggableTrue(m: bytes) returns (r: Result<bytes>)
    ensures r.Ok? == PatchDebuggable(m).Ok?
    ensures r.Ok? ==> r == PatchDebuggable(m)
  {
    hide ReadLayout, FindStart, PlanAt, MapBytes, Ascii, U32, Le32;
    var layout := ReadManifestLayout(m);
    if layout.Err? {
      return Err(layout.reason);
    }
    var l := layout.value;
    var found := FindStartElement(m, l.body, l.end, l.pool.strings, APPLICATION);
    if found.Err? {
      return Err(found.reason);
    }
    if found.value.None? {
      return Err("application element not found");
    }
    var plan := MakePlan(m, l, found.value.value);
    if plan.Err? {
      return Err(plan.reason);
    }
    assert PlanOf(m) == plan;
    var p := plan.value;
    var resPart := ResourceMapToBytes(p.ids);
    var newSize := 8 + |p.pool| + |resPart| + |p.before| + |p.patched| + |p.after|;
    return Ok(Le32(XML_CHUNK) + Le32(newSize) + p.pool + resPart + p.before + p.patched + p.after);
  }

  method MakePlan(m: bytes, l: Layout, at: nat) returns (r: Result<Plan>)
    requires LaidOut(m, l) && l.body <= at && StartAt(m, at, l.end)
    ensures r.Ok? == PlanAt(m, l, at).Ok?
    ensures r.Ok? ==> r == PlanAt(m, l, at)
  {
    hide IndexOf, IdsOf, PatchedApplication, PoolBytes, Ascii, U32;
    var strings := l.pool.strings;
    var debug := FindIndex(strings, DEBUGGABLE);
    if debug.None? {
      IndexOfNew(strings, DEBUGGABLE);
      debug := Some(|strings|);
      strings := strings + [DEBUGGABLE];
    }
    var ns := FindIndex(strings, ANDROID_URI);
    if ns.None? {
      return Err("Android namespace string not found");
    }
    var ids := BuildResourceMapIds(m, l.res, l.body, debug.value);
    var size := U32(m, at + 4);
    var patched := PatchApplicationStart(m[at..at + size], ns.value, debug.value, ids);
    if patched.None? {
      return Err("application attribute table is malformed");
    }
    var poolPart := m[8..l.res];
    if strings != l.pool.strings {
      poolPart := PrintPool(l.pool.(strings := strings));
    }
    return Ok(Plan(l, at, size, strings, ns.value, debug.value, ids, poolPart, m[l.body..at], patched.value, m[at + size..l.end]));
  }

  method ReadManifestLayout(m: bytes) returns (r: Result<Layout>)
    ensures r.Ok? == ReadLayout(m).Ok?
    ensures r.Ok? ==> r == ReadLayout(m)
  {
    hide PatchPool, U32;
    if |m| < 12 || U32(m, 0) != XML_CHUNK {
      return Err("not a binary manifest");
    }
    var end := U32(m, 4);
    if end == 0 || end > |m| {
      end := |m|;
    }
    if |m| < 36 || U32(m, 8) != POOL_CHUNK {
      return Err("string pool was not found");
    }
    var pool := ParsePatchStringPool(m, 8);
    if pool.Err? {
      return Err(pool.reason);
    }
    PoolInside(m, 8);
    var res := 8 + pool.value.chunkSize;
    var pos := res;
    if pos + 8 <= |m| && U32(m, pos) == MAP_CHUNK {
      var size := U32(m, pos + 4);
      if size < 8 || pos + size > |m| {
        return Err("resource map is malformed");
      }
      pos := pos + size;
    }
    return Ok(Layout(pool.value, res, pos, end));
  }
}
