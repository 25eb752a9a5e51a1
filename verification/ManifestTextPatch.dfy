/** Writing a package name, an application label and provider authorities into a binary manifest. */
module ManifestTextPatch {
  import opened LittleEndian
  import opened Options
  import opened StringPools
  import opened AttributeTables
  import opened ManifestLayout
  import opened DebuggablePatch

  const MANIFEST: text := Ascii("manifest")
  const PROVIDER: text := Ascii("provider")
  const PACKAGE: text := Ascii("package")
  const LABEL: text := Ascii("label")
  const AUTHORITIES: text := Ascii("authorities")
  const TYPE_STRING := 3

  /** What is to be written; an empty text asks for nothing. */
  datatype Request = Request(packageName: text, title: text, authorities: seq<text>) {
    predicate Empty() {
      packageName == [] && title == [] && authorities == []
    }
  }

  // ----- The strings -----

  /** The strings the patch refers to; labels and authorities only where the Android namespace is known. */
  function Needed(req: Request, ns: bool): seq<text> {
    (if req.packageName != [] then [PACKAGE, req.packageName] else [])
    + (if req.title != [] && ns then [LABEL, req.title] else [])
    + (if req.authorities != [] && ns then [AUTHORITIES] + req.authorities else [])
  }

  function Interned(strings: seq<text>, needed: seq<text>): seq<text>
    decreases |needed|
  {
    if needed == [] then strings
    else Interned(if needed[0] in strings then strings else strings + [needed[0]], needed[1..])
  }

  function Index(strings: seq<text>, s: text): nat {
    match IndexOf(strings, s)
    case Some(i) => i
    case None => |strings|
  }

  /** The name and value indexes to write for each element, the authorities in the order of the providers. */
  datatype Goals = Goals(package: Option<(nat, nat)>, title: Option<(nat, nat)>, authoritiesName: Option<nat>, authorities: seq<nat>)

  function GoalsOf(req: Request, ns: bool, strings: seq<text>): Goals {
    Goals(if req.packageName != [] then Some((Index(strings, PACKAGE), Index(strings, req.packageName))) else None,
          if req.title != [] && ns then Some((Index(strings, LABEL), Index(strings, req.title))) else None,
          if req.authorities != [] && ns then Some(Index(strings, AUTHORITIES)) else None,
          if req.authorities != [] && ns then Indexes(strings, req.authorities) else [])
  }

  function Indexes(strings: seq<text>, needed: seq<text>): (r: seq<nat>)
    ensures |r| == |needed|
    ensures forall i :: 0 <= i < |r| ==> r[i] == Index(strings, needed[i])
  {
    if needed == [] then [] else [Index(strings, needed[0])] + Indexes(strings, needed[1..])
  }

  // ----- One attribute -----

  function NameAt(chunk: bytes, p: nat): nat
    requires p + 8 <= |chunk|
  {
    U32(chunk, p + 4)
  }

  /** The place of the first of the count attributes from p on that has the given name. */
  function FirstNamed(chunk: bytes, p: nat, size: nat, count: nat, name: nat): (r: Option<nat>)
    requires size >= 20 && p + Area(count, size) <= |chunk|
    ensures r.Some? ==> p <= r.value && r.value + 20 <= p + Area(count, size)
    decreases count
  {
    if count == 0 then None
    else
      OneMore(count, size);
      if NameAt(chunk, p) == name then Some(p) else FirstNamed(chunk, p + size, size, count - 1, name)
  }

  /** The value fields of an attribute set to a string of the pool. */
  function PutValue(chunk: bytes, p: nat, value: nat): (r: bytes)
    requires p + 20 <= |chunk|
    ensures |r| == |chunk|
  {
    chunk[..p + 8] + Le32(value) + Le16(8) + [0, TYPE_STRING] + Le32(value) + chunk[p + 20..]
  }

  /** The attribute has that string already. */
  predicate Holds(chunk: bytes, p: nat, value: nat)
    requires p + 20 <= |chunk|
  {
    U32(chunk, p + 8) == value && U32(chunk, p + 16) == value && chunk[p + 15] == TYPE_STRING
  }

  /** patchExistingStringAttribute: the new chunk, and whether it counts as changed; None if the table is malformed. */
  function PatchAttribute(chunk: bytes, name: nat, value: nat): (r: Option<(bytes, bool)>)
    ensures r.Some? ==> |r.value.0| == |chunk|
  {
    match TableOf(chunk)
    case None => None
    case Some(t) =>
      match FirstNamed(chunk, t.base, t.size, t.count, name)
      case None => Some((chunk, false))
      case Some(p) => Some((PutValue(chunk, p, value), !Holds(chunk, p, value)))
  }

  // ----- The chunks -----

  function StringAt(strings: seq<text>, i: nat): text {
    if i < |strings| then strings[i] else []
  }

  /** The name of a start element; nothing for other chunks. */
  function ElementName(chunk: bytes, strings: seq<text>): text {
    if |chunk| >= 36 && U32(chunk, 0) == START_CHUNK then StringAt(strings, U32(chunk, 20)) else []
  }

  /** The name and value to write into a chunk, cursor authorities having been used. */
  function GoalFor(element: text, goals: Goals, cursor: nat): Option<(nat, nat)> {
    if element == MANIFEST then goals.package
    else if element == APPLICATION then goals.title
    else if element == PROVIDER && goals.authoritiesName.Some? && cursor < |goals.authorities| then
      Some((goals.authoritiesName.value, goals.authorities[cursor]))
    else None
  }

  function NextCursor(element: text, goals: Goals, cursor: nat): nat {
    if element == PROVIDER && goals.authoritiesName.Some? && cursor < |goals.authorities| then cursor + 1 else cursor
  }

  function PatchChunk(chunk: bytes, goal: Option<(nat, nat)>): (r: Option<(bytes, bool)>)
    ensures r.Some? ==> |r.value.0| == |chunk|
  {
    match goal
    case None => Some((chunk, false))
    case Some((name, value)) => PatchAttribute(chunk, name, value)
  }

  function PatchList(chunks: seq<bytes>, strings: seq<text>, goals: Goals, cursor: nat): (r: Option<(seq<bytes>, bool)>)
    ensures r.Some? ==> |r.value.0| == |chunks|
  {
    if chunks == [] then Some(([], false))
    else
      var element := ElementName(chunks[0], strings);
      match PatchChunk(chunks[0], GoalFor(element, goals, cursor))
      case None => None
      case Some((chunk, changed)) =>
        match PatchList(chunks[1..], strings, goals, NextCursor(element, goals, cursor))
        case None => None
        case Some((rest, more)) => Some(([chunk] + rest, changed || more))
  }

  /** The chunks from pos to end, up to a tail shorter than a chunk header; None if one is malformed. */
  function Chunks(m: bytes, pos: nat, end: nat): Option<seq<bytes>>
    requires end <= |m|
    decreases if pos < end then end - pos else 0
  {
    if pos + 8 > end then Some([])
    else
      var size := U32(m, pos + 4);
      if size < 8 || pos + size > end then None
      else
        match Chunks(m, pos + size, end)
        case None => None
        case Some(rest) => Some([m[pos..pos + size]] + rest)
  }

  // ----- The whole patch -----

  /** What the patch works on: the layout, the strings with those that are needed, and the patched chunks. */
  datatype TextPlan = TextPlan(layout: Layout, ns: bool, strings: seq<text>, patched: seq<bytes>, changed: bool, pool: bytes, res: bytes)

  function TextPlanOf(m: bytes, req: Request): Result<TextPlan> {
    match ReadLayout(m)
    case Err(e) => Err(e)
    case Ok(l) => TextPlanAt(m, l, req)
  }

  function TextPlanAt(m: bytes, l: Layout, req: Request): Result<TextPlan>
    requires LaidOut(m, l)
  {
    var ns := ANDROID_URI in l.pool.strings;
    var strings := Interned(l.pool.strings, Needed(req, ns));
    match Chunks(m, l.body, l.end)
    case None => Err("malformed XML chunk")
    case Some(chunks) =>
      match PatchList(chunks, strings, GoalsOf(req, ns, strings), 0)
      case None => Err("attribute table is malformed")
      case Some((patched, changed)) =>
        Ok(TextPlan(l, ns, strings, patched, changed, PoolPart(m, l, strings), m[l.res..l.body]))
  }

  function TextOutput(p: TextPlan): bytes {
    Document(p.pool, p.res, Concat(p.patched), [], [])
  }

  /** PatchManifestFromDecodedText: the new document, and whether it was changed. */
  function TextPatch(m: bytes, req: Request): Result<(bytes, bool)> {
    if req.Empty() then Ok((m, false))
    else
      match TextPlanOf(m, req)
      case Err(e) => Err(e)
      case Ok(p) =>
        if p.strings == p.layout.pool.strings && !p.changed then Ok((m, false))
        else Ok((TextOutput(p), true))
  }

  // ----- The methods -----

  lemma ValueFields(chunk: bytes, p: nat, value: nat)
    requires p + 20 <= |chunk|
    ensures var w := Put16(Put32(chunk, p + 8, value), p + 12, 8);
            Put32(w[p + 14 := 0][p + 15 := TYPE_STRING], p + 16, value) == PutValue(chunk, p, value)
  {
    hide Le16, Le32;
    var w1 := Put32(chunk, p + 8, value);
    assert w1 == chunk[..p + 8] + Le32(value) + chunk[p + 12..];
    var w2 := Put16(w1, p + 12, 8);
    assert w2 == chunk[..p + 8] + Le32(value) + Le16(8) + chunk[p + 14..];
    var w3 := w2[p + 14 := 0][p + 15 := TYPE_STRING];
    assert w3 == chunk[..p + 8] + Le32(value) + Le16(8) + [0, TYPE_STRING] + chunk[p + 16..];
  }

  method WriteValue(chunk: array<byte>, p: nat, value: nat)
    requires p + 20 <= chunk.Length
    modifies chunk
    ensures chunk[..] == PutValue(old(chunk[..]), p, value)
  {
    hide Put16, Put32, PutValue;
    ValueFields(chunk[..], p, value);
    PutU32(chunk, p + 8, value);
    PutU16(chunk, p + 12, 8);
    chunk[p + 14] := 0;
    chunk[p + 15] := TYPE_STRING;
    PutU32(chunk, p + 16, value);
  }

  lemma TableNumbers(chunk: bytes, t: Table)
    requires TableOf(chunk) == Some(t)
    ensures 36 <= t.base <= t.end <= |chunk| && t.size >= 20 && t.base + Area(t.count, t.size) == t.end
  {
  }

  method FindNamed(chunk: bytes, t: Table, name: nat) returns (r: Option<nat>)
    requires TableOf(chunk) == Some(t)
    ensures r == FirstNamed(chunk, t.base, t.size, t.count, name)
  {
    hide Area, U16, TableOf, NameAt;
    TableNumbers(chunk, t);
    var p: nat := t.base;
    for i := 0 to t.count
      invariant p + Area(t.count - i, t.size) == t.end
      invariant FirstNamed(chunk, t.base, t.size, t.count, name) == FirstNamed(chunk, p, t.size, t.count - i, name)
    {
      OneMore(t.count - i, t.size);
      if NameAt(chunk, p) == name {
        return Some(p);
      }
      p := p + t.size;
    }
    return None;
  }

  /** patchExistingStringAttribute, writing into a copy. */
  method PatchExistingStringAttribute(chunk: bytes, name: nat, value: nat) returns (r: Option<(bytes, bool)>)
    ensures r == PatchAttribute(chunk, name, value)
  {
    hide FirstNamed, PutValue, TableOf, Holds;
    var t := TableOf(chunk);
    if t.None? {
      return None;
    }
    var p := FindNamed(chunk, t.value, name);
    if p.None? {
      return Some((chunk, false));
    }
    var out := new byte[|chunk|](k requires 0 <= k < |chunk| => chunk[k]);
    assert out[..] == chunk;
    WriteValue(out, p.value, value);
    return Some((out[..], !Holds(chunk, p.value, value)));
  }

  method InternAll(strings: seq<text>, needed: seq<text>) returns (r: seq<text>)
    ensures r == Interned(strings, needed)
  {
    r := strings;
    for i := 0 to |needed|
      invariant Interned(strings, needed) == Interned(r, needed[i..])
    {
      assert needed[i..][1..] == needed[i + 1..];
      var known := FindIndex(r, needed[i]);
      if known.None? {
        r := r + [needed[i]];
      }
    }
  }

  /** The chunk loop: what is left of the document, with what was patched so far in front. */
  method PatchChunks(m: bytes, start: nat, end: nat, strings: seq<text>, goals: Goals) returns (r: Option<(seq<bytes>, bool)>)
    requires end <= |m|
    ensures var chunks := Chunks(m, start, end);
            r == if chunks.None? then None else PatchList(chunks.value, strings, goals, 0)
  {
    hide U32, PatchChunk, GoalFor, NextCursor, ElementName, Chunks, PatchList;
    PrefixedNothing(Rest(m, start, end, strings, goals, 0));
    var off := start;
    var cursor := 0;
    var patched: seq<bytes> := [];
    var changed := false;
    while off + 8 <= end
      invariant cursor >= 0
      invariant Prefixed(patched, changed, Rest(m, off, end, strings, goals, cursor)) == Rest(m, start, end, strings, goals, 0)
    {
      var size := U32(m, off + 4);
      if size < 8 || off + size > end {
        BadChunk(m, off, end, strings, goals, cursor);
        return None;
      }
      var chunk := m[off..off + size];
      var element := ElementName(chunk, strings);
      var next := PatchOneChunk(chunk, GoalFor(element, goals, cursor));
      RestStep(m, off, end, strings, goals, cursor);
      if next.None? {
        return None;
      }
      PrefixedStep(patched, changed, next.value.0, next.value.1, Rest(m, off + size, end, strings, goals, NextCursor(element, goals, cursor)));
      patched, changed := patched + [next.value.0], changed || next.value.1;
      cursor := NextCursor(element, goals, cursor);
      off := off + size;
    }
    assert patched + [] == patched;
    NoRest(m, off, end, strings, goals, cursor);
    return Some((patched, changed));
  }

  method PatchOneChunk(chunk: bytes, goal: Option<(nat, nat)>) returns (r: Option<(bytes, bool)>)
    ensures r == PatchChunk(chunk, goal)
  {
    hide PatchAttribute;
    if goal.None? {
      return Some((chunk, false));
    }
    r := PatchExistingStringAttribute(chunk, goal.value.0, goal.value.1);
  }

  ghost function Rest(m: bytes, pos: nat, end: nat, strings: seq<text>, goals: Goals, cursor: nat): Option<(seq<bytes>, bool)>
    requires end <= |m|
  {
    var chunks := Chunks(m, pos, end);
    if chunks.None? then None else PatchList(chunks.value, strings, goals, cursor)
  }

  ghost function Prefixed(patched: seq<bytes>, changed: bool, rest: Option<(seq<bytes>, bool)>): Option<(seq<bytes>, bool)> {
    if rest.None? then None else Some((patched + rest.value.0, changed || rest.value.1))
  }

  lemma RestStep(m: bytes, pos: nat, end: nat, strings: seq<text>, goals: Goals, cursor: nat)
    requires pos + 8 <= end <= |m| && U32(m, pos + 4) >= 8 && pos + U32(m, pos + 4) <= end
    ensures var size := U32(m, pos + 4);
            var chunk := m[pos..pos + size];
            var element := ElementName(chunk, strings);
            var next := PatchChunk(chunk, GoalFor(element, goals, cursor));
            var rest := Rest(m, pos + size, end, strings, goals, NextCursor(element, goals, cursor));
            Rest(m, pos, end, strings, goals, cursor)
              == if next.None? then None else Prefixed([next.value.0], next.value.1, rest)
  {
    hide U32, PatchChunk, GoalFor, NextCursor, ElementName;
    var size := U32(m, pos + 4);
    var chunks := Chunks(m, pos + size, end);
    if chunks.Some? {
      var all := [m[pos..pos + size]] + chunks.value;
      assert all[1..] == chunks.value;
    }
  }

  lemma PrefixedStep(patched: seq<bytes>, changed: bool, chunk: bytes, more: bool, rest: Option<(seq<bytes>, bool)>)
    ensures Prefixed(patched, changed, Prefixed([chunk], more, rest)) == Prefixed(patched + [chunk], changed || more, rest)
  {
    if rest.Some? {
      assert patched + ([chunk] + rest.value.0) == (patched + [chunk]) + rest.value.0;
    }
  }

  lemma PrefixedNothing(rest: Option<(seq<bytes>, bool)>)
    ensures Prefixed([], false, rest) == rest
  {
    if rest.Some? { assert [] + rest.value.0 == rest.value.0; }
  }

  lemma BadChunk(m: bytes, pos: nat, end: nat, strings: seq<text>, goals: Goals, cursor: nat)
    requires pos + 8 <= end <= |m| && (U32(m, pos + 4) < 8 || pos + U32(m, pos + 4) > end)
    ensures Rest(m, pos, end, strings, goals, cursor) == None
  {
  }

  lemma NoRest(m: bytes, pos: nat, end: nat, strings: seq<text>, goals: Goals, cursor: nat)
    requires end <= |m| && pos + 8 > end
    ensures Rest(m, pos, end, strings, goals, cursor) == Some(([], false))
  {
  }

  /** PatchManifestFromDecodedText. */
  method PatchManifest(m: bytes, req: Request) returns (r: Result<(bytes, bool)>)
    ensures r.Ok? == TextPatch(m, req).Ok?
    ensures r.Ok? ==> r == TextPatch(m, req)
  {
    hide ReadLayout, TextPlanAt, Document, Concat;
    if req.Empty() {
      return Ok((m, false));
    }
    var layout := ReadManifestLayout(m);
    if layout.Err? {
      return Err(layout.reason);
    }
    var plan := MakeTextPlan(m, layout.value, req);
    if plan.Err? {
      return Err(plan.reason);
    }
    var p := plan.value;
    if p.strings == p.layout.pool.strings && !p.changed {
      return Ok((m, false));
    }
    var body := AppendStrings(p.patched);
    return Ok((Document(p.pool, p.res, body, [], []), true));
  }

  method MakeTextPlan(m: bytes, l: Layout, req: Request) returns (r: Result<TextPlan>)
    requires LaidOut(m, l)
    ensures r.Ok? == TextPlanAt(m, l, req).Ok?
    ensures r.Ok? ==> r == TextPlanAt(m, l, req)
  {
    hide Interned, Needed, Chunks, PatchList, GoalsOf, PoolBytes, Ascii;
    var known := FindIndex(l.pool.strings, ANDROID_URI);
    var ns := known.Some?;
    var strings := InternAll(l.pool.strings, Needed(req, ns));
    var patched := PatchChunks(m, l.body, l.end, strings, GoalsOf(req, ns, strings));
    if patched.None? {
      return Err("malformed XML chunk or attribute table");
    }
    var pool := m[8..l.res];
    if strings != l.pool.strings {
      pool := PrintPool(l.pool.(strings := strings));
    }
    return Ok(TextPlan(l, ns, strings, patched.value.0, patched.value.1, pool, m[l.res..l.body]));
  }
}
