/** What the text patch does to a manifest, what the decoder then shows, and that asking again changes nothing. */
module TextPatchedManifests {
  import opened LittleEndian
  import opened Options
  import opened StringPools
  import opened StringPoolRoundTrip
  import opened AttributeTables
  import opened PatchedTables
  import opened ManifestLayout
  import opened DebuggablePatch
  import opened PatchedManifests
  import opened ManifestTextPatch

  // ----- One attribute -----

  /** The value fields are the twelve bytes behind the name; nothing else changes, and they hold the value. */
  lemma PutValueParts(chunk: bytes, p: nat, value: nat)
    requires p + 20 <= |chunk|
    ensures var r := PutValue(chunk, p, value);
            && r[..p + 8] == chunk[..p + 8] && r[p + 20..] == chunk[p + 20..]
            && r[p + 8..p + 12] == Le32(value) && r[p + 12..p + 14] == Le16(8) && r[p + 14] == 0 && r[p + 15] == TYPE_STRING
            && r[p + 16..p + 20] == Le32(value)
  {
    hide Le16, Le32;
    var r := PutValue(chunk, p, value);
    assert r == chunk[..p + 8] + (Le32(value) + Le16(8) + [0, TYPE_STRING] + Le32(value)) + chunk[p + 20..];
  }

  lemma PutValueHolds(chunk: bytes, p: nat, value: nat)
    requires p + 20 <= |chunk| && value < 0x1_0000_0000
    ensures Holds(PutValue(chunk, p, value), p, value)
  {
    hide Le16, Le32, U32, PutValue;
    PutValueParts(chunk, p, value);
    FieldAt32(PutValue(chunk, p, value), p + 8, value);
    FieldAt32(PutValue(chunk, p, value), p + 16, value);
  }

  lemma PutValueTwice(chunk: bytes, p: nat, value: nat)
    requires p + 20 <= |chunk|
    ensures PutValue(PutValue(chunk, p, value), p, value) == PutValue(chunk, p, value)
  {
    hide Le16, Le32;
    PutValueParts(chunk, p, value);
    var r := PutValue(chunk, p, value);
    var v := Le32(value) + Le16(8) + [0, TYPE_STRING] + Le32(value);
    assert PutValue(r, p, value) == r[..p + 8] + v + r[p + 20..];
    assert r == chunk[..p + 8] + v + chunk[p + 20..];
  }

  /** Fields outside the value fields are as they were. */
  lemma PutValueKeeps(chunk: bytes, p: nat, value: nat, off: nat)
    requires p + 20 <= |chunk|
    ensures off + 2 <= p + 8 ==> U16(PutValue(chunk, p, value), off) == U16(chunk, off)
    ensures off + 4 <= p + 8 || p + 20 <= off <= |chunk| - 4 ==> U32(PutValue(chunk, p, value), off) == U32(chunk, off)
  {
    hide U16, U32, PutValue;
    PutValueParts(chunk, p, value);
    var r := PutValue(chunk, p, value);
    assert r[0..p + 8] == r[..p + 8] && chunk[0..p + 8] == chunk[..p + 8];
    if off + 2 <= p + 8 { SameField16(chunk, r, 0, p + 8, off); }
    if off + 4 <= p + 8 { SameField32(chunk, r, 0, p + 8, off); }
    assert r[p + 20..|chunk|] == r[p + 20..] && chunk[p + 20..|chunk|] == chunk[p + 20..];
    if p + 20 <= off <= |chunk| - 4 { SameField32(chunk, r, p + 20, |chunk|, off); }
  }

  /** The table is found where it was. */
  lemma PutValueTable(chunk: bytes, p: nat, value: nat)
    requires TableOf(chunk).Some? && TableOf(chunk).value.base <= p && p + 20 <= |chunk|
    ensures TableOf(PutValue(chunk, p, value)) == TableOf(chunk)
  {
    hide PutValue, U16, Area;
    PutValueKeeps(chunk, p, value, 24);
    PutValueKeeps(chunk, p, value, 26);
    PutValueKeeps(chunk, p, value, 28);
  }

  /** Places in the table: the place p is that of a whole attribute, some attributes after at. */
  predicate Slot(at: nat, p: nat, size: nat, count: nat)
    requires size >= 20
    decreases count
  {
    count > 0 && (p == at || (p >= at + size && Slot(at + size, p, size, count - 1)))
  }

  lemma {:induction false} FirstNamedSlot(chunk: bytes, at: nat, size: nat, count: nat, name: nat)
    requires size >= 20 && at + Area(count, size) <= |chunk|
    ensures var r := FirstNamed(chunk, at, size, count, name);
            r.Some? ==> r.value + 8 <= |chunk| && Slot(at, r.value, size, count) && NameAt(chunk, r.value) == name
    decreases count
  {
    hide Area, NameAt;
    if count > 0 {
      OneMore(count, size);
      if NameAt(chunk, at) != name { FirstNamedSlot(chunk, at + size, size, count - 1, name); }
    }
  }

  /** The first attribute of a name is found in the same place after its value was written. */
  lemma {:induction false} FirstNamedAgain(chunk: bytes, at: nat, size: nat, count: nat, name: nat, p: nat, value: nat)
    requires size >= 20 && at + Area(count, size) <= |chunk|
    requires FirstNamed(chunk, at, size, count, name) == Some(p) && at <= p && p + 20 <= |chunk| && Slot(at, p, size, count)
    ensures FirstNamed(PutValue(chunk, p, value), at, size, count, name) == Some(p)
    decreases count
  {
    hide Area, U32, PutValue;
    OneMore(count, size);
    PutValueKeeps(chunk, p, value, at + 4);
    if NameAt(chunk, at) != name {
      FirstNamedSlot(chunk, at + size, size, count - 1, name);
      FirstNamedAgain(chunk, at + size, size, count - 1, name, p, value);
    }
  }

  /** The attribute that a patch of the chunk writes to, if any. */
  function Target(chunk: bytes, name: nat): (p: Option<nat>)
    ensures p.Some? ==> 36 <= p.value && p.value + 20 <= |chunk|
  {
    match TableOf(chunk)
    case None => None
    case Some(t) => FirstNamed(chunk, t.base, t.size, t.count, name)
  }

  lemma PatchAttributeIs(chunk: bytes, name: nat, value: nat)
    ensures PatchAttribute(chunk, name, value)
         == if TableOf(chunk).None? then None
            else match Target(chunk, name)
                 case None => Some((chunk, false))
                 case Some(p) => Some((PutValue(chunk, p, value), !Holds(chunk, p, value)))
  {
    hide TableOf, FirstNamed, Holds, PutValue;
  }

  lemma TargetAgain(chunk: bytes, name: nat, value: nat)
    requires Target(chunk, name).Some?
    ensures TableOf(chunk).Some? && Target(PutValue(chunk, Target(chunk, name).value, value), name) == Target(chunk, name)
    ensures TableOf(PutValue(chunk, Target(chunk, name).value, value)) == TableOf(chunk)
  {
    hide TableOf, PutValue, NameAt, FirstNamed;
    var p := Target(chunk, name).value;
    var t := TableOf(chunk).value;
    TableNumbers(chunk, t);
    FirstNamedSlot(chunk, t.base, t.size, t.count, name);
    FirstNamedAgain(chunk, t.base, t.size, t.count, name, p, value);
    PutValueTable(chunk, p, value);
  }

  /** Writing the same value into the same attribute again is no change. */
  lemma PatchAttributeTwice(chunk: bytes, name: nat, value: nat)
    requires value < 0x1_0000_0000 && PatchAttribute(chunk, name, value).Some?
    ensures var r := PatchAttribute(chunk, name, value).value.0;
            PatchAttribute(r, name, value) == Some((r, false))
  {
    hide *;
    PatchAttributeIs(chunk, name, value);
    var target := Target(chunk, name);
    if target.Some? {
      var r := PutValue(chunk, target.value, value);
      TargetAgain(chunk, name, value);
      PatchAttributeIs(r, name, value);
      PutValueTwice(chunk, target.value, value);
      PutValueHolds(chunk, target.value, value);
    }
  }

  // ----- One chunk -----

  /** A patched chunk is the chunk with its target's value fields written, and the same everywhere else. */
  predicate Written(chunk: bytes, r: bytes, goal: Option<(nat, nat)>) {
    if goal.None? || Target(chunk, goal.value.0).None? then r == chunk
    else r == PutValue(chunk, Target(chunk, goal.value.0).value, goal.value.1)
  }

  lemma PatchChunkWrites(chunk: bytes, goal: Option<(nat, nat)>)
    requires PatchChunk(chunk, goal).Some?
    ensures Written(chunk, PatchChunk(chunk, goal).value.0, goal)
  {
    hide PatchAttribute, Target, Holds, PutValue;
    if goal.Some? { PatchAttributeIs(chunk, goal.value.0, goal.value.1); }
  }

  /** The first 36 bytes, and so the kind, the size and the name of an element, are not written to. */
  lemma WrittenHeader(chunk: bytes, r: bytes, goal: Option<(nat, nat)>, strings: seq<text>)
    requires Written(chunk, r, goal)
    ensures |r| == |chunk| && ElementName(r, strings) == ElementName(chunk, strings)
    ensures |chunk| >= 8 ==> U32(r, 0) == U32(chunk, 0) && U32(r, 4) == U32(chunk, 4)
  {
    hide Target, PutValue, U32;
    if goal.Some? && Target(chunk, goal.value.0).Some? {
      var p := Target(chunk, goal.value.0).value;
      PutValueKeeps(chunk, p, goal.value.1, 0);
      PutValueKeeps(chunk, p, goal.value.1, 4);
      PutValueKeeps(chunk, p, goal.value.1, 20);
    }
  }

  predicate GoalFits(goal: Option<(nat, nat)>) {
    goal.Some? ==> goal.value.1 < 0x1_0000_0000
  }

  lemma PatchChunkTwice(chunk: bytes, goal: Option<(nat, nat)>)
    requires PatchChunk(chunk, goal).Some? && GoalFits(goal)
    ensures var r := PatchChunk(chunk, goal).value.0;
            PatchChunk(r, goal) == Some((r, false))
  {
    hide PatchAttribute;
    if goal.Some? { PatchAttributeTwice(chunk, goal.value.0, goal.value.1); }
  }

  // ----- All chunks -----

  /** Authorities used up before the k-th chunk. */
  function CursorAt(chunks: seq<bytes>, strings: seq<text>, goals: Goals, cursor: nat, k: nat): nat
    requires k <= |chunks|
    decreases k
  {
    if k == 0 then cursor
    else CursorAt(chunks[1..], strings, goals, NextCursor(ElementName(chunks[0], strings), goals, cursor), k - 1)
  }

  /** The provider elements among the chunks. */
  function Providers(chunks: seq<bytes>, strings: seq<text>): nat {
    if chunks == [] then 0
    else (if ElementName(chunks[0], strings) == PROVIDER then 1 else 0) + Providers(chunks[1..], strings)
  }

  /** Every provider element takes the next authority, as long as there are any. */
  lemma {:induction false} CursorCounts(chunks: seq<bytes>, strings: seq<text>, goals: Goals, cursor: nat, k: nat)
    requires k <= |chunks| && cursor <= |goals.authorities| && goals.authoritiesName.Some?
    ensures CursorAt(chunks, strings, goals, cursor, k)
         == (if cursor + Providers(chunks[..k], strings) < |goals.authorities| then cursor + Providers(chunks[..k], strings)
             else |goals.authorities|)
    decreases k
  {
    hide ElementName, Ascii;
    if k > 0 {
      CursorCounts(chunks[1..], strings, goals, NextCursor(ElementName(chunks[0], strings), goals, cursor), k - 1);
      assert chunks[..k][1..] == chunks[1..][..k - 1];
    }
  }

  function GoalAt(chunks: seq<bytes>, strings: seq<text>, goals: Goals, cursor: nat, k: nat): Option<(nat, nat)>
    requires k < |chunks|
  {
    GoalFor(ElementName(chunks[k], strings), goals, CursorAt(chunks, strings, goals, cursor, k))
  }

  predicate GoalsFit(goals: Goals) {
    && GoalFits(goals.package) && GoalFits(goals.title)
    && (forall i :: 0 <= i < |goals.authorities| ==> goals.authorities[i] < 0x1_0000_0000)
  }

  /** Each chunk of the patched list is the chunk of the old one with its own goal written. */
  lemma {:induction false} PatchListWrites(chunks: seq<bytes>, strings: seq<text>, goals: Goals, cursor: nat, k: nat)
    requires PatchList(chunks, strings, goals, cursor).Some? && k < |chunks|
    ensures Written(chunks[k], PatchList(chunks, strings, goals, cursor).value.0[k], GoalAt(chunks, strings, goals, cursor, k))
    decreases k
  {
    hide PatchChunk, ElementName, GoalFor, NextCursor, Written;
    var element := ElementName(chunks[0], strings);
    if k == 0 {
      PatchChunkWrites(chunks[0], GoalFor(element, goals, cursor));
    } else {
      PatchListWrites(chunks[1..], strings, goals, NextCursor(element, goals, cursor), k - 1);
    }
  }

  /** Patching the patched list with the same goals changes nothing. */
  lemma {:induction false} PatchListTwice(chunks: seq<bytes>, strings: seq<text>, goals: Goals, cursor: nat)
    requires PatchList(chunks, strings, goals, cursor).Some? && GoalsFit(goals)
    ensures var r := PatchList(chunks, strings, goals, cursor).value.0;
            PatchList(r, strings, goals, cursor) == Some((r, false))
    decreases chunks
  {
    hide PatchChunk, ElementName, GoalFor, NextCursor, Written, GoalsFit;
    if chunks != [] {
      var element := ElementName(chunks[0], strings);
      var goal := GoalFor(element, goals, cursor);
      PatchListTwice(chunks[1..], strings, goals, NextCursor(element, goals, cursor));
      GoalForFits(element, goals, cursor);
      PatchChunkTwice(chunks[0], goal);
      PatchChunkWrites(chunks[0], goal);
      WrittenHeader(chunks[0], PatchChunk(chunks[0], goal).value.0, goal, strings);
      var r := PatchList(chunks, strings, goals, cursor).value.0;
      assert r[1..] == PatchList(chunks[1..], strings, goals, NextCursor(element, goals, cursor)).value.0;
    }
  }

  lemma GoalForFits(element: text, goals: Goals, cursor: nat)
    requires GoalsFit(goals)
    ensures GoalFits(GoalFor(element, goals, cursor))
  {
    hide Ascii;
  }

  // ----- The chunks of the output -----

  predicate ChunkSized(chunk: bytes) {
    |chunk| >= 8 && U32(chunk, 4) == |chunk|
  }

  predicate AllSized(chunks: seq<bytes>) {
    forall k :: 0 <= k < |chunks| ==> ChunkSized(chunks[k])
  }

  lemma {:induction false} ChunksSized(m: bytes, pos: nat, end: nat)
    requires end <= |m| && Chunks(m, pos, end).Some?
    ensures AllSized(Chunks(m, pos, end).value)
    decreases if pos < end then end - pos else 0
  {
    hide U32;
    if pos + 8 <= end {
      var size := U32(m, pos + 4);
      ChunksSized(m, pos + size, end);
      FieldOfSlice(m, pos, pos + size, 4);
    }
  }

  lemma PatchedSized(chunks: seq<bytes>, strings: seq<text>, goals: Goals)
    requires PatchList(chunks, strings, goals, 0).Some? && AllSized(chunks)
    ensures AllSized(PatchList(chunks, strings, goals, 0).value.0)
  {
    hide PatchList, Written, GoalAt, U32;
    var r := PatchList(chunks, strings, goals, 0).value.0;
    forall k | 0 <= k < |r| ensures ChunkSized(r[k]) {
      assert ChunkSized(chunks[k]);
      PatchListWrites(chunks, strings, goals, 0, k);
      WrittenHeader(chunks[k], r[k], GoalAt(chunks, strings, goals, 0, k), strings);
    }
  }

  /** Chunks written one after the other up to the end are read back. */
  lemma {:induction false} ChunksOfConcat(m: bytes, pos: nat, chunks: seq<bytes>)
    requires AllSized(chunks) && pos + |Concat(chunks)| == |m| && m[pos..] == Concat(chunks)
    ensures Chunks(m, pos, |m|) == Some(chunks)
    decreases |chunks|
  {
    hide U32;
    if chunks != [] {
      var c, rest := chunks[0], Concat(chunks[1..]);
      assert ChunkSized(c);
      var next := pos + |c|;
      assert m[pos..] == c + rest;
      assert m[pos..next] == c && m[next..] == rest;
      FieldOfSlice(m, pos, next, 4);
      assert U32(m, pos + 4) == |c|;
      assert AllSized(chunks[1..]);
      ChunksOfConcat(m, next, chunks[1..]);
      assert [c] + chunks[1..] == chunks;
    }
  }
}
