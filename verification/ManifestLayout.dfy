/** The layout of a binary manifest: header, string pool, optional resource map, and then the element chunks. */
module ManifestLayout {
  import opened LittleEndian
  import opened Options
  import opened StringPools

  const XML_CHUNK := 0x0008_0003
  const POOL_CHUNK := 0x001c_0001
  const MAP_CHUNK := 0x0008_0180
  const START_CHUNK := 0x0010_0102

  /** The bytes of a plain text. */
  function Ascii(s: string): (b: text)
    ensures |b| == |s|
  {
    seq(|s|, i requires 0 <= i < |s| => s[i] as int % 0x100)
  }

  const APPLICATION: text := Ascii("application")
  const DEBUGGABLE: text := Ascii("debuggable")
  const ANDROID_URI: text := Ascii("http://schemas.android.com/apk/res/android")

  /** The pool, the resource map from res to body (empty if there is none), and the chunks from body to end. */
  datatype Layout = Layout(pool: Pool, res: nat, body: nat, end: nat)

  /** Where the document ends: at its recorded size, or at the end of the data if that size cannot be right. */
  function DocumentEnd(m: bytes): (end: nat)
    requires |m| >= 8
    ensures end <= |m|
  {
    if U32(m, 4) == 0 || U32(m, 4) > |m| then |m| else U32(m, 4)
  }

  /** The parts of the layout lie in the document one after the other. */
  predicate LaidOut(m: bytes, l: Layout) {
    && l.res == 8 + l.pool.chunkSize && 36 <= l.res <= l.body <= |m| && l.end <= |m|
    && (l.res == l.body || l.res + 8 <= l.body)
  }

  function ReadLayout(m: bytes): (r: Result<Layout>)
    ensures r.Ok? ==> LaidOut(m, r.value)
  {
    if |m| < 12 || U32(m, 0) != XML_CHUNK then Err("not a binary manifest")
    else if |m| < 36 || U32(m, 8) != POOL_CHUNK then Err("string pool was not found")
    else
      match PatchPool(m, 8)
      case Err(e) => Err(e)
      case Ok(pool) =>
        var res := 8 + pool.chunkSize;
        PoolInside(m, 8);
        if res + 8 <= |m| && U32(m, res) == MAP_CHUNK then
          var size := U32(m, res + 4);
          if size < 8 || res + size > |m| then Err("resource map is malformed")
          else Ok(Layout(pool, res, res + size, DocumentEnd(m)))
        else Ok(Layout(pool, res, res, DocumentEnd(m)))
  }

  lemma PoolInside(m: bytes, off: nat)
    requires off + 28 <= |m| && PatchPool(m, off).Ok?
    ensures 28 <= PatchPool(m, off).value.chunkSize && off + PatchPool(m, off).value.chunkSize <= |m|
    ensures PatchPool(m, off).value.chunkSize == U32(m, off + 4)
  {
  }

  function IndexOf(strings: seq<text>, s: text): (r: Option<nat>)
    ensures r.Some? ==> r.value < |strings| && strings[r.value] == s
    ensures r.Some? ==> forall i :: 0 <= i < r.value ==> strings[i] != s
    ensures r.None? ==> s !in strings
  {
    if strings == [] then None
    else if strings[0] == s then Some(0)
    else
      match IndexOf(strings[1..], s)
      case None => None
      case Some(i) => Some(i + 1)
  }

  /** Growing the list does not move what was found. */
  lemma {:induction false} IndexOfGrown(strings: seq<text>, more: seq<text>, s: text)
    requires s in strings
    ensures IndexOf(strings + more, s) == IndexOf(strings, s)
  {
    if strings[0] != s {
      assert strings[1..] + more == (strings + more)[1..];
      IndexOfGrown(strings[1..], more, s);
    }
  }

  lemma {:induction false} IndexOfNew(strings: seq<text>, s: text)
    requires s !in strings
    ensures IndexOf(strings + [s], s) == Some(|strings|)
  {
    if strings != [] {
      assert strings[1..] + [s] == (strings + [s])[1..];
      IndexOfNew(strings[1..], s);
    }
  }

  /** The loop of indexOf. */
  method FindIndex(strings: seq<text>, s: text) returns (r: Option<nat>)
    ensures r == IndexOf(strings, s)
  {
    for i := 0 to |strings|
      invariant s !in strings[..i]
    {
      if strings[i] == s {
        FirstIndex(strings, s, i);
        return Some(i);
      }
      assert strings[..i + 1] == strings[..i] + [strings[i]];
    }
    assert strings[..|strings|] == strings;
    return None;
  }

  lemma {:induction false} FirstIndex(strings: seq<text>, s: text, i: nat)
    requires i < |strings| && strings[i] == s && s !in strings[..i]
    ensures IndexOf(strings, s) == Some(i)
  {
    if i > 0 {
      assert strings[0] == strings[..i][0] && strings[..i][1..] == strings[1..][..i - 1];
      FirstIndex(strings[1..], s, i - 1);
    }
  }

  // ----- Finding an element -----

  predicate Names(strings: seq<text>, index: nat, name: text) {
    index < |strings| && strings[index] == name
  }

  /** A start element chunk lies at the given place, before end. */
  predicate StartAt(m: bytes, at: nat, end: nat) {
    && at + 36 <= end <= |m| && U32(m, at) == START_CHUNK
    && 8 <= U32(m, at + 4) && at + U32(m, at + 4) <= end
  }

  /** The offset of the first start element with the given name. */
  function FindStart(m: bytes, pos: nat, end: nat, strings: seq<text>, name: text): (r: Result<Option<nat>>)
    requires end <= |m|
    ensures r.Ok? && r.value.Some? ==>
              var at := r.value.value;
              pos <= at && StartAt(m, at, end) && Names(strings, U32(m, at + 20), name)
    decreases if pos < end then end - pos else 0
  {
    if pos + 8 > end then Ok(None)
    else
      var size := U32(m, pos + 4);
      if size < 8 || pos + size > end then Err("malformed XML chunk")
      else if U32(m, pos) == START_CHUNK && pos + 36 > end then Err("malformed start element chunk")
      else if U32(m, pos) == START_CHUNK && Names(strings, U32(m, pos + 20), name) then Ok(Some(pos))
      else FindStart(m, pos + size, end, strings, name)
  }

  /** findStartElement. */
  method FindStartElement(m: bytes, start: nat, end: nat, strings: seq<text>, name: text) returns (r: Result<Option<nat>>)
    requires end <= |m|
    ensures r == FindStart(m, start, end, strings, name)
  {
    hide U32, Names;
    var pos := start;
    while pos + 8 <= end
      invariant FindStart(m, start, end, strings, name) == FindStart(m, pos, end, strings, name)
    {
      var typ, size := U32(m, pos), U32(m, pos + 4);
      if size < 8 || pos + size > end {
        return Err("malformed XML chunk");
      }
      if typ == START_CHUNK {
        if pos + 36 > end {
          return Err("malformed start element chunk");
        }
        if Names(strings, U32(m, pos + 20), name) {
          return Ok(Some(pos));
        }
      }
      pos := pos + size;
    }
    return Ok(None);
  }

  // ----- The same chunks in another document -----

  /** A name field of a chunk at pos that reaches into the size field of the element at `at`: the chunk is too short for its name. */
  predicate ReadsSize(pos: nat, at: nat) {
    pos + 12 < at < pos + 20
  }

  /**
   The chunks of m from pos up to `at`, standing in n from npos on: none is a start element that takes the given name
   out of the size field of the element behind it.
   */
  predicate NoEarlier(m: bytes, pos: nat, at: nat, n: bytes, npos: nat, strings: seq<text>, name: text)
    requires pos <= at <= |m| && npos + (at - pos) + 36 <= |n|
    decreases at - pos
  {
    pos + 8 > at ||
    (var size := U32(m, pos + 4);
     && (U32(m, pos) == START_CHUNK && ReadsSize(pos, at) ==> !Names(strings, U32(n, npos + 20), name))
     && (8 <= size <= at - pos ==> NoEarlier(m, pos + size, at, n, npos + size, strings, name)))
  }

  /** Every start element from pos to at has at least the 24 bytes that its name field ends in; the format asks for 36. */
  predicate StartsAreWhole(m: bytes, pos: nat, at: nat)
    requires at <= |m|
    decreases if pos < at then at - pos else 0
  {
    pos + 8 > at || (
      var size := U32(m, pos + 4);
      && (U32(m, pos) == START_CHUNK ==> size >= 24)
      && (size >= 8 ==> StartsAreWhole(m, pos + size, at)))
  }

  /** Then there is none. */
  lemma {:induction false} WholeStartsSuffice(
    m: bytes, pos: nat, end: nat, strings: seq<text>, name: text, at: nat, n: bytes, npos: nat, more: seq<text>)
    requires end <= |m| && FindStart(m, pos, end, strings, name) == Ok(Some(at)) && StartsAreWhole(m, pos, at)
    requires npos + (at - pos) + 36 <= |n|
    ensures NoEarlier(m, pos, at, n, npos, more, name)
    decreases at - pos
  {
    hide U32, Names;
    if pos < at {
      ChunkBefore(m, pos, end, strings, name, at);
      WholeStartsSuffice(m, pos + U32(m, pos + 4), end, strings, name, at, n, npos + U32(m, pos + 4), more);
    }
  }

  /**
   The chunks of m from pos to at stand in n from npos on, and behind them a start element that differs in its size and
   from its attribute count on.
   */
  predicate Moved(m: bytes, pos: nat, at: nat, n: bytes, npos: nat, nend: nat) {
    && pos <= at && at + 36 <= |m| && npos + (at - pos) + 36 <= nend <= |n|
    && n[npos..npos + (at - pos)] == m[pos..at]
    && var moved := npos + (at - pos);
       && StartAt(n, moved, nend)
       && n[moved..moved + 4] == m[at..at + 4] && n[moved + 8..moved + 28] == m[at + 8..at + 28]
  }

  /**
   The search gives the same element, moved, exactly if no start element in front takes the name out of its size
   field, the strings having only grown by others. If one does, the search ends there, at a chunk of less than 20 bytes.
   */
  lemma {:induction false} FindStartMoved(
    m: bytes, pos: nat, end: nat, strings: seq<text>, name: text, at: nat,
    n: bytes, npos: nat, nend: nat, more: seq<text>)
    requires end <= |m| && FindStart(m, pos, end, strings, name) == Ok(Some(at))
    requires name !in more && Moved(m, pos, at, n, npos, nend)
    ensures FindStart(n, npos, nend, strings + more, name) == Ok(Some(npos + (at - pos)))
       <==> NoEarlier(m, pos, at, n, npos, strings + more, name)
    ensures !NoEarlier(m, pos, at, n, npos, strings + more, name) ==>
              var r := FindStart(n, npos, nend, strings + more, name);
              r.Ok? && r.value.Some? && r.value.value + 4 <= npos + (at - pos) && U32(n, r.value.value + 4) < 20
    decreases at - pos
  {
    hide U32, Names;
    if pos == at {
      SameByteField(m, pos, at, n, npos, nend, at);
      NamesGrown(strings, more, U32(m, at + 20), name);
    } else {
      ChunkBefore(m, pos, end, strings, name, at);
      var size := U32(m, pos + 4);
      MovedFields(m, pos, at, n, npos, nend);
      MovedOn(m, pos, at, n, npos, nend, size);
      if U32(m, pos) == START_CHUNK && !ReadsSize(pos, at) {
        SameByteField(m, pos, at, n, npos, nend, pos);
        NamesGrown(strings, more, U32(m, pos + 20), name);
      }
      FindStartMoved(m, pos + size, end, strings, name, at, n, npos + size, nend, more);
    }
  }

  lemma MovedFields(m: bytes, pos: nat, at: nat, n: bytes, npos: nat, nend: nat)
    requires Moved(m, pos, at, n, npos, nend) && pos + 8 <= at
    ensures U32(n, npos) == U32(m, pos) && U32(n, npos + 4) == U32(m, pos + 4)
  {
    hide U32, StartAt;
    FieldOfSlice(m, pos, at, 0);
    FieldOfSlice(m, pos, at, 4);
    FieldOfSlice(n, npos, npos + (at - pos), 0);
    FieldOfSlice(n, npos, npos + (at - pos), 4);
  }

  lemma MovedOn(m: bytes, pos: nat, at: nat, n: bytes, npos: nat, nend: nat, size: nat)
    requires Moved(m, pos, at, n, npos, nend) && pos + size <= at
    ensures Moved(m, pos + size, at, n, npos + size, nend)
  {
    hide StartAt;
    SubSlice(m, pos, at, size, at - pos);
    SubSlice(n, npos, npos + (at - pos), size, at - pos);
  }

  /** A byte in front of the element, or in those parts of its header that are the same. */
  lemma SameByte(m: bytes, pos: nat, at: nat, n: bytes, npos: nat, nend: nat, i: nat)
    requires Moved(m, pos, at, n, npos, nend)
    requires pos <= i < at + 28 && !(at + 4 <= i < at + 8)
    ensures n[npos + (i - pos)] == m[i]
  {
    hide StartAt;
    var moved := npos + (at - pos);
    if i < at {
      assert m[pos..at][i - pos] == m[i] && n[npos..moved][i - pos] == n[npos + (i - pos)];
    } else if i < at + 4 {
      assert m[at..at + 4][i - at] == m[i] && n[moved..moved + 4][i - at] == n[moved + (i - at)];
    } else {
      assert m[at + 8..at + 28][i - at - 8] == m[i] && n[moved + 8..moved + 28][i - at - 8] == n[moved + (i - at)];
    }
  }

  /** The name field of a chunk at c, if it does not reach into the size field of the element. */
  lemma SameByteField(m: bytes, pos: nat, at: nat, n: bytes, npos: nat, nend: nat, c: nat)
    requires Moved(m, pos, at, n, npos, nend)
    requires pos <= c && !ReadsSize(c, at) && (c == at || c + 8 <= at)
    ensures U32(n, npos + (c - pos) + 20) == U32(m, c + 20)
  {
    hide Moved;
    MovedInside(m, pos, at, n, npos, nend);
    SameByte(m, pos, at, n, npos, nend, c + 20);
    SameByte(m, pos, at, n, npos, nend, c + 21);
    SameByte(m, pos, at, n, npos, nend, c + 22);
    SameByte(m, pos, at, n, npos, nend, c + 23);
  }

  lemma MovedInside(m: bytes, pos: nat, at: nat, n: bytes, npos: nat, nend: nat)
    requires Moved(m, pos, at, n, npos, nend)
    ensures pos <= at && at + 36 <= |m| && npos + (at - pos) + 36 <= nend <= |n|
  {
  }

  lemma NamesGrown(strings: seq<text>, more: seq<text>, index: nat, name: text)
    requires name !in more
    ensures Names(strings + more, index, name) == Names(strings, index, name)
  {
  }

  /** A chunk in front of the element that is found. */
  lemma ChunkBefore(m: bytes, pos: nat, end: nat, strings: seq<text>, name: text, at: nat)
    requires end <= |m| && FindStart(m, pos, end, strings, name) == Ok(Some(at)) && pos < at
    ensures pos + 8 <= end && U32(m, pos + 4) >= 8 && pos + U32(m, pos + 4) <= at
    ensures U32(m, pos) == START_CHUNK ==> pos + 24 <= end && !Names(strings, U32(m, pos + 20), name)
    ensures FindStart(m, pos + U32(m, pos + 4), end, strings, name) == Ok(Some(at))
  {
    hide Names;
  }
}
