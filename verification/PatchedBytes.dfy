module PatchedBytes {
  // The patched application element, byte by byte and as the previewer shows it: its attributes ascend by resource id, and
  // those named debuggable are true.
  import opened LittleEndian
  import opened Options
  import opened Sorting
  import opened StringPools
  import opened AttributeTables
  import opened PatchedTables
  import opened ManifestLayout
  import opened DebuggablePatch
  import opened PatchedAgain
  import opened ManifestDecoder

  /** Where attribute i of a table begins. */
  function Place(t: Table, i: nat): nat {
    t.base + Area(i, t.size)
  }

  /** The patched element has an attribute i: it ends in front of what stood behind the old table. */
  predicate HasAttribute(chunk: bytes, t: Table, patched: bytes, i: nat) {
    Place(t, i + 1) + (|chunk| - t.end) <= |patched|
  }

  lemma {:induction false} AttributeIn(es: seq<Entry>, size: nat, i: nat)
    requires Uniform(es, size) && i < |es|
    ensures Area(i, size) + size <= |Attributes(es)|
    ensures Attributes(es)[Area(i, size)..Area(i, size) + size] == es[i].attr
    decreases i
  {
    hide Area;
    assert |es[0].attr| == size;
    if i == 0 {
      NoneBefore(size);
    } else {
      OneMore(i, size);
      AttributeIn(es[1..], size, i - 1);
      var rest := Attributes(es[1..]);
      var a := Area(i - 1, size);
      assert Attributes(es)[size + a..size + a + size] == rest[a..a + size];
    }
  }

  lemma NoneBefore(size: nat)
    ensures Area(0, size) == 0
  {
  }

  lemma MoreAttributes(i: nat, n: nat, size: nat)
    requires size > 0 && Area(i, size) <= Area(n, size)
    ensures i <= n
  {
    AreaStrict(n, i, size);
  }

  lemma AreaStrict(n: nat, i: nat, size: nat)
    requires size > 0
    ensures n < i ==> Area(n, size) < Area(i, size)
  {
    assert Area(i, size) - Area(n, size) == (i - n) * size;
  }

  /** The attributes of the patched element are those of the sorted table. */
  lemma PatchedAttribute(chunk: bytes, t: Table, ns: nat, debug: nat, ids: seq<nat>, patched: bytes, i: nat)
    requires TableOf(chunk) == Some(t) && PatchedApplication(chunk, ns, debug, ids) == Some(patched)
    ensures var es := SortedTable(chunk, t, ns, debug, ids);
            && (i < |es| <==> HasAttribute(chunk, t, patched, i))
            && (i < |es| ==>
                  && Place(t, i) + t.size <= |patched| && t.size >= 20 && |es[i].attr| == t.size
                  && patched[Place(t, i)..Place(t, i) + t.size] == es[i].attr)
  {
    hide *;
    var es := SortedTable(chunk, t, ns, debug, ids);
    TableFacts(chunk, t);
    TableMeaning(chunk, t, ns, debug, ids);
    IsPatched(chunk, t, ns, debug, ids);
    PatchedChunk(chunk, t, es);
    AttributesSize(es, t.size);
    PlaceIs(t, i);
    PlaceIs(t, i + 1);
    OneMore(i + 1, t.size);
    HasIs(chunk, t, patched, i);
    if i < |es| {
      AreaGrows(i + 1, |es|, t.size);
      AttributeIn(es, t.size, i);
      UniformAt(es, t.size, i);
      SubSlice(patched, t.base, t.base + |Attributes(es)|, Area(i, t.size), Area(i, t.size) + t.size);
    } else if HasAttribute(chunk, t, patched, i) {
      MoreAttributes(i + 1, |es|, t.size);
    }
  }

  lemma IsPatched(chunk: bytes, t: Table, ns: nat, debug: nat, ids: seq<nat>)
    requires TableOf(chunk) == Some(t)
    ensures PatchedApplication(chunk, ns, debug, ids) == Some(WithTable(chunk, t, SortedTable(chunk, t, ns, debug, ids)))
  {
    hide TableOf, WithTable, SortedTable;
  }

  lemma PlaceIs(t: Table, i: nat)
    ensures Place(t, i) == t.base + Area(i, t.size)
  {
  }

  lemma HasIs(chunk: bytes, t: Table, patched: bytes, i: nat)
    ensures HasAttribute(chunk, t, patched, i) <==> Place(t, i + 1) + (|chunk| - t.end) <= |patched|
  {
  }

  lemma UniformAt(es: seq<Entry>, size: nat, i: nat)
    requires Uniform(es, size) && i < |es|
    ensures |es[i].attr| == size
  {
  }

  // ----- The order -----

  /**
   For two attributes of the patched element, the first has the smaller resource id, an unknown one counting as the
   largest number of 32 bits, or the same id and a name index that is not larger.
   */
  lemma TableAscends(chunk: bytes, t: Table, ns: nat, debug: nat, ids: seq<nat>, patched: bytes, i: nat, j: nat)
    requires TableOf(chunk) == Some(t) && PatchedApplication(chunk, ns, debug, ids) == Some(patched)
    requires i < j && HasAttribute(chunk, t, patched, j)
    ensures Place(t, i) + 20 <= |patched| && Place(t, j) + 20 <= |patched|
    ensures var x, y := U32(patched, Place(t, i) + 4), U32(patched, Place(t, j) + 4);
            var idX := if x < |ids| && ids[x] != 0 then ids[x] else 0xffff_ffff;
            var idY := if y < |ids| && ids[y] != 0 then ids[y] else 0xffff_ffff;
            idX < idY || (idX == idY && x <= y)
  {
    hide *;
    var es := SortedTable(chunk, t, ns, debug, ids);
    PatchedAttribute(chunk, t, ns, debug, ids, patched, i);
    PatchedAttribute(chunk, t, ns, debug, ids, patched, j);
    TableMeaning(chunk, t, ns, debug, ids);
    FieldOfSlice(patched, Place(t, i), Place(t, i) + t.size, 4);
    FieldOfSlice(patched, Place(t, j), Place(t, j) + t.size, 4);
    SortedPair(es, ids, i, j);
  }

  /** What the order of the table means for two neighbours or any two. */
  lemma SortedPair(es: seq<Entry>, ids: seq<nat>, i: nat, j: nat)
    requires Sorted(es, TableOrder(ids)) && i < j < |es| && |es[i].attr| >= 20 && |es[j].attr| >= 20
    ensures var x, y := U32(es[i].attr, 4), U32(es[j].attr, 4);
            var idX := if x < |ids| && ids[x] != 0 then ids[x] else 0xffff_ffff;
            var idY := if y < |ids| && ids[y] != 0 then ids[y] else 0xffff_ffff;
            idX < idY || (idX == idY && x <= y)
  {
    hide U32;
    assert !TableOrder(ids)(es[j], es[i]);
  }

  // ----- What is shown -----

  /** The attribute android:debuggable, true. */
  function TrueAttribute(strings: seq<text>, ns: nat, debug: nat): Attribute {
    Attribute(Get(strings, ns), Get(strings, debug), Rendered(0x12, 0xffff_ffff))
  }

  lemma DebuggableShown(patched: bytes, a: nat, was: bytes, ns: nat, debug: nat, strings: seq<text>)
    requires |was| >= 20 && a + |was| <= |patched| && patched[a..a + |was|] == Debuggable(was, ns, debug)
    requires ns < 0x1_0000_0000 && debug < 0x1_0000_0000
    ensures AttributeAt(patched, a, strings) == TrueAttribute(strings, ns, debug)
    ensures U32(patched, a + 4) == debug
  {
    hide U32, Le32, Le16;
    var r := Debuggable(was, ns, debug);
    assert r[0..4] == Le32(ns) && r[4..8] == Le32(debug) && r[8..12] == Le32(NO_INDEX) && r[15] == 0x12 && r[16..20] == Le32(0xffff_ffff);
    PartField32(patched, a, r, 0, ns);
    PartField32(patched, a, r, 4, debug);
    PartField32(patched, a, r, 8, NO_INDEX);
    PartField32(patched, a, r, 16, 0xffff_ffff);
    assert patched[a..a + |was|][15] == patched[a + 15];
  }

  /** Every attribute of the patched element that is called debuggable, by its string or its resource id, is shown as true. */
  lemma NamedAreTrue(chunk: bytes, t: Table, ns: nat, debug: nat, ids: seq<nat>, patched: bytes, strings: seq<text>, i: nat)
    requires TableOf(chunk) == Some(t) && PatchedApplication(chunk, ns, debug, ids) == Some(patched)
    requires HasAttribute(chunk, t, patched, i) && ns < 0x1_0000_0000 && debug < 0x1_0000_0000
    ensures Place(t, i) + 20 <= |patched|
    ensures var name := U32(patched, Place(t, i) + 4);
            name == debug || (name < |ids| && ids[name] == 0x0101_000f) ==>
              AttributeAt(patched, Place(t, i), strings) == TrueAttribute(strings, ns, debug)
  {
    hide *;
    var es := SortedTable(chunk, t, ns, debug, ids);
    PatchedAttribute(chunk, t, ns, debug, ids, patched, i);
    TableMeaning(chunk, t, ns, debug, ids);
    TableFacts(chunk, t);
    var was := OldEntries(chunk, t);
    OldUniform(chunk, t);
    FieldOfSlice(patched, Place(t, i), Place(t, i) + t.size, 4);
    NamedIsSet(es[i], was, t.size, ns, debug, ids);
    if U32(es[i].attr, 4) == debug || (U32(es[i].attr, 4) < |ids| && ids[U32(es[i].attr, 4)] == 0x0101_000f) {
      var old_ := SetOf(es[i], was, t.size, ns, debug, ids);
      DebuggableShown(patched, Place(t, i), old_, ns, debug, strings);
    }
  }

  lemma OldUniform(chunk: bytes, t: Table)
    requires TableOf(chunk) == Some(t)
    ensures t.size >= 20
    ensures forall i :: 0 <= i < |OldEntries(chunk, t)| ==> |OldEntries(chunk, t)[i].attr| == t.size
  {
    hide TableOf;
    TableFacts(chunk, t);
  }

  lemma NamedIsSet(e: Entry, was: seq<Entry>, size: nat, ns: nat, debug: nat, ids: seq<nat>)
    requires size >= 20 && (forall i :: 0 <= i < |was| ==> |was[i].attr| == size) && Explained(e, was, size, ns, debug, ids)
    ensures |e.attr| == size
  {
    hide IsDebuggable, Debuggable;
  }

  lemma SetOf(e: Entry, was: seq<Entry>, size: nat, ns: nat, debug: nat, ids: seq<nat>) returns (a: bytes)
    requires size >= 20 && (forall i :: 0 <= i < |was| ==> |was[i].attr| == size) && Explained(e, was, size, ns, debug, ids)
    requires |e.attr| == size
    requires var name := U32(e.attr, 4); name == debug || (name < |ids| && ids[name] == 0x0101_000f)
    ensures |a| == size && e.attr == Debuggable(a, ns, debug)
  {
    hide Debuggable, U32;
    if e.place == 0 {
      a := Zeros(size);
    } else {
      a := was[e.place - 1].attr;
    }
  }

  /** One attribute of the patched element is android:debuggable, true. */
  lemma SomeIsTrue(chunk: bytes, t: Table, ns: nat, debug: nat, ids: seq<nat>, patched: bytes, strings: seq<text>) returns (i: nat)
    requires TableOf(chunk) == Some(t) && PatchedApplication(chunk, ns, debug, ids) == Some(patched)
    requires ns < 0x1_0000_0000 && debug < 0x1_0000_0000
    ensures HasAttribute(chunk, t, patched, i) && Place(t, i) + 20 <= |patched|
    ensures AttributeAt(patched, Place(t, i), strings) == TrueAttribute(strings, ns, debug)
  {
    hide *;
    var es := SortedTable(chunk, t, ns, debug, ids);
    SomeDebuggable(chunk, t, ns, debug, ids);
    i :| 0 <= i < |es| && |es[i].attr| >= 20 && IsDebuggable(es[i].attr, debug, ids)
         && es[i].attr == Debuggable(es[i].attr, ns, debug);
    PatchedAttribute(chunk, t, ns, debug, ids, patched, i);
    DebuggableShown(patched, Place(t, i), es[i].attr, ns, debug, strings);
  }

  // ----- The previewer, on the patched document -----

  lemma {:induction false} AttributesIndexed(data: bytes, a: nat, size: nat, count: nat, strings: seq<text>, i: nat)
    requires AttributesAt(data, a, size, count, strings).Some? && i < count
    ensures a + Area(i, size) + 20 <= |data|
    ensures AttributesAt(data, a, size, count, strings).value[i] == AttributeAt(data, a + Area(i, size), strings)
    decreases i
  {
    hide Area, AttributeAt;
    if i == 0 {
      NoneBefore(size);
    } else {
      OneMore(i, size);
      AttributesIndexed(data, a + size, size, count - 1, strings, i - 1);
    }
  }

  lemma {:induction false} AttributesThere(data: bytes, a: nat, size: nat, count: nat, strings: seq<text>)
    requires size >= 20 && a + Area(count, size) <= |data|
    ensures AttributesAt(data, a, size, count, strings).Some?
    decreases count
  {
    hide Area, AttributeAt;
    if count > 0 {
      OneMore(count, size);
      AreaGrows(0, count - 1, size);
      NoneBefore(size);
      AttributesThere(data, a + size, size, count - 1, strings);
    }
  }

  /** The patched element as the previewer reads it, if its attributes can be counted in 16 bits. */
  lemma PatchedItem(chunk: bytes, t: Table, ns: nat, debug: nat, ids: seq<nat>, patched: bytes, strings: seq<text>)
    requires TableOf(chunk) == Some(t) && PatchedApplication(chunk, ns, debug, ids) == Some(patched)
    requires |chunk| >= 36 && U32(chunk, 0) == START_CHUNK && NewCount(chunk, debug, ids) < 0x1_0000
    ensures |patched| >= 36
    ensures var item := ItemAt(patched, 0, |patched|, strings);
            && item.Ok? && item.value.Opens? && item.value.name == Get(strings, U32(patched, 20))
            && |item.value.attributes| == NewCount(chunk, debug, ids)
            && (forall i :: 0 <= i < |item.value.attributes| ==>
                  && HasAttribute(chunk, t, patched, i) && Place(t, i) + 20 <= |patched|
                  && item.value.attributes[i] == AttributeAt(patched, Place(t, i), strings))
            && (forall i: nat :: HasAttribute(chunk, t, patched, i) ==> i < |item.value.attributes|)
  {
    hide *;
    var es := SortedTable(chunk, t, ns, debug, ids);
    var n := NewCount(chunk, debug, ids);
    TableFacts(chunk, t);
    TableMeaning(chunk, t, ns, debug, ids);
    NewCountIs(chunk, t, debug, ids);
    IsPatched(chunk, t, ns, debug, ids);
    PatchedChunk(chunk, t, es);
    AttributesSize(es, t.size);
    HeaderKept(chunk, patched, t);
    AttributesThere(patched, t.base, t.size, n, strings);
    StartItemIs(patched, t, n, strings);
    var attributes := AttributesAt(patched, t.base, t.size, n, strings).value;
    forall i | 0 <= i < n
      ensures HasAttribute(chunk, t, patched, i) && Place(t, i) + 20 <= |patched| && attributes[i] == AttributeAt(patched, Place(t, i), strings)
    {
      PatchedAttribute(chunk, t, ns, debug, ids, patched, i);
      AttributesIndexed(patched, t.base, t.size, n, strings, i);
      PlaceIs(t, i);
    }
    forall i: nat | HasAttribute(chunk, t, patched, i) ensures i < n {
      PatchedAttribute(chunk, t, ns, debug, ids, patched, i);
    }
  }

  lemma HeaderKept(chunk: bytes, patched: bytes, t: Table)
    requires TableOf(chunk) == Some(t) && |patched| >= 36 && U32(chunk, 0) == START_CHUNK
    requires patched[..4] == chunk[..4] && patched[8..28] == chunk[8..28]
    ensures U16(patched, 0) == START_ELEMENT && U16(patched, 24) + 16 == t.base && U16(patched, 26) == t.size
  {
    hide U16, Area;
    assert patched[0..4] == patched[..4] && chunk[0..4] == chunk[..4];
    SameField16(chunk, patched, 0, 4, 0);
    SameField16(chunk, patched, 8, 28, 24);
    SameField16(chunk, patched, 8, 28, 26);
    StartIs(chunk);
  }

  lemma StartIs(chunk: bytes)
    requires |chunk| >= 36 && U32(chunk, 0) == START_CHUNK
    ensures U16(chunk, 0) == START_ELEMENT
  {
  }

  lemma StartItemIs(data: bytes, t: Table, n: nat, strings: seq<text>)
    requires |data| >= 36 && U16(data, 0) == START_ELEMENT && U16(data, 24) + 16 == t.base && U16(data, 26) == t.size && U16(data, 28) == n
    requires t.size > 0 && t.base + Area(n, t.size) <= |data| && AttributesAt(data, t.base, t.size, n, strings).Some?
    ensures ItemAt(data, 0, |data|, strings)
         == Ok(Opens(Get(strings, U32(data, 16)), Get(strings, U32(data, 20)), AttributesAt(data, t.base, t.size, n, strings).value))
  {
    hide U16, U32, AttributesAt, Area, Get;
  }

  /**
   The previewer shows the patched element as an application element; its attributes called android:debuggable are
   true, and there is one.
   */
  lemma PreviewShowsDebuggable(m: bytes, p: Plan) returns (j: nat)
    requires PlanOf(m) == Ok(p) && |Output(p)| < 0x1_0000_0000 && p.at + p.size <= |m| && TableOf(m[p.at..p.at + p.size]).Some?
    requires NewCount(m[p.at..p.at + p.size], p.debug, p.ids) < 0x1_0000 && |p.strings| < 0x1_0000_0000
    ensures |p.patched| >= 36
    ensures var item := ItemAt(p.patched, 0, |p.patched|, p.strings);
            && item.Ok? && item.value.Opens? && item.value.name == APPLICATION && j < |item.value.attributes|
            && item.value.attributes[j] == Attribute(ANDROID_URI, DEBUGGABLE, Rendered(0x12, 0xffff_ffff))
  {
    hide *;
    PlanIsPlanned(m, p);
    PlanOfElement(m, p);
    PlanOfNames(m, p);
    var chunk := m[p.at..p.at + p.size];
    var t := TableOf(chunk).value;
    StartFields(m, p.at, p.layout.end);
    FieldOfSlice(m, p.at, p.at + p.size, 0);
    TableFacts(chunk, t);
    PatchedHeader(m, p.at, p.size, p.layout.end, p.ns, p.debug, p.ids);
    NamesOfPlan(p);
    PatchedItem(chunk, t, p.ns, p.debug, p.ids, p.patched, p.strings);
    ApplicationNamed(m, p);
    j := SomeIsTrue(chunk, t, p.ns, p.debug, p.ids, p.patched, p.strings);
  }

  lemma NamesOfPlan(p: Plan)
    requires IndexOf(p.strings, DEBUGGABLE) == Some(p.debug) && IndexOf(p.strings, ANDROID_URI) == Some(p.ns)
    requires |p.strings| < 0x1_0000_0000
    ensures p.ns < 0x1_0000_0000 && p.debug < 0x1_0000_0000
    ensures TrueAttribute(p.strings, p.ns, p.debug) == Attribute(ANDROID_URI, DEBUGGABLE, Rendered(0x12, 0xffff_ffff))
  {
    hide Ascii, IndexOf;
  }

  lemma ApplicationNamed(m: bytes, p: Plan)
    requires p.layout.end <= |m| && p.at + 36 <= |m| && |p.strings| < 0x1_0000_0000
    requires FindStart(m, p.layout.body, p.layout.end, p.layout.pool.strings, APPLICATION) == Ok(Some(p.at))
    requires p.strings == p.layout.pool.strings + (if DEBUGGABLE in p.layout.pool.strings then [] else [DEBUGGABLE])
    requires |p.patched| >= 36 && U32(p.patched, 20) == U32(m, p.at + 20)
    ensures Get(p.strings, U32(p.patched, 20)) == APPLICATION
  {
    hide U32, Ascii;
  }
}
