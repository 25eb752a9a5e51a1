module DecodedTexts {
  // What the previewer shows of a document whose texts were patched: the same items as before, read with the strings that
  // were added, and in each element that was asked about the asked text, in the first attribute of the asked name.

  import opened LittleEndian
  import opened Options
  import opened StringPools
  import opened StringPoolRoundTrip
  import opened AttributeTables
  import opened PatchedTables
  import opened ManifestLayout
  import opened DebuggablePatch
  import opened PatchedManifests
  import opened ManifestTextPatch
  import opened TextPatchedManifests
  import opened TextPatchedAgain
  import opened TextAskedAgain
  import opened ManifestDecoder
  import Namespaces

  // ----- A chunk by itself -----

  /** A chunk as the previewer reads it, from the chunk alone. */
  function ItemOf(chunk: bytes, strings: seq<text>): Result<Item>
    requires |chunk| >= 8
  {
    ItemAt(chunk, 0, |chunk|, strings)
  }

  /** The attributes of a start element have the 20 bytes that are read of each. */
  predicate WholeAttributes(chunk: bytes) {
    |chunk| >= 36 && U16(chunk, 0) == START_ELEMENT && U16(chunk, 28) > 0 ==> U16(chunk, 26) >= 20
  }

  /** The header size that the previewer looks at is at least 8, and within the chunk. */
  predicate HeaderFits(chunk: bytes): (fits: bool)
    ensures fits ==> |chunk| >= 8
  {
    |chunk| >= 8 && 8 <= U16(chunk, 2) <= |chunk|
  }

  lemma {:induction false} AttributesMoved(data: bytes, off: nat, n: nat, a: nat, size: nat, count: nat, strings: seq<text>)
    requires off + n <= |data| && (count > 0 ==> size >= 20) && a + Area(count, size) <= n
    ensures AttributesAt(data, off + a, size, count, strings) == AttributesAt(data[off..off + n], a, size, count, strings)
    decreases count
  {
    hide Area, FormatValue, U32;
    if count > 0 {
      OneMore(count, size);
      FieldOfSlice(data, off, off + n, a);
      FieldOfSlice(data, off, off + n, a + 4);
      FieldOfSlice(data, off, off + n, a + 8);
      FieldOfSlice(data, off, off + n, a + 16);
      assert data[off..off + n][a + 15] == data[off + a + 15];
      AttributesMoved(data, off, n, a + size, size, count - 1, strings);
    }
  }

  /** The previewer reads no further than the chunk. */
  lemma ItemMoved(data: bytes, off: nat, size: nat, strings: seq<text>)
    requires off + size <= |data| && size >= 8 && WholeAttributes(data[off..off + size])
    ensures ItemAt(data, off, size, strings) == ItemOf(data[off..off + size], strings)
  {
    hide AttributesAt, U16, U32, Area, Get;
    var c := data[off..off + size];
    FieldOfSlice(data, off, off + size, 0);
    FieldOfSlice(data, off, off + size, 16);
    FieldOfSlice(data, off, off + size, 20);
    FieldOfSlice(data, off, off + size, 24);
    FieldOfSlice(data, off, off + size, 26);
    FieldOfSlice(data, off, off + size, 28);
    if U16(c, 0) == START_ELEMENT && size >= 36 {
      var a, attrSize, count := 16 + U16(c, 24), U16(c, 26), U16(c, 28);
      if attrSize > 0 && a + Area(count, attrSize) <= size { AttributesMoved(data, off, size, a, attrSize, count, strings); }
    }
  }

  /** The items are those of the chunks, one by one. */
  ghost predicate Shows(chunks: seq<bytes>, items: seq<Item>, strings: seq<text>) {
    && |items| == |chunks|
    && forall k :: 0 <= k < |chunks| ==> HeaderFits(chunks[k]) && ItemOf(chunks[k], strings) == Ok(items[k])
  }

  predicate AllWhole(chunks: seq<bytes>) {
    forall k :: 0 <= k < |chunks| ==> WholeAttributes(chunks[k])
  }

  lemma ShowsFirst(chunks: seq<bytes>, items: seq<Item>, strings: seq<text>)
    requires chunks != []
    ensures Shows(chunks, items, strings)
       <==> items != [] && HeaderFits(chunks[0]) && ItemOf(chunks[0], strings) == Ok(items[0]) && Shows(chunks[1..], items[1..], strings)
  {
    hide HeaderFits, ItemOf;
    if items != [] && HeaderFits(chunks[0]) && ItemOf(chunks[0], strings) == Ok(items[0]) && Shows(chunks[1..], items[1..], strings) {
      forall k | 0 <= k < |chunks| ensures HeaderFits(chunks[k]) && ItemOf(chunks[k], strings) == Ok(items[k]) {
        if k > 0 { assert chunks[k] == chunks[1..][k - 1] && items[k] == items[1..][k - 1]; }
      }
    }
  }

  /** The previewer accepts a run of chunks exactly if it accepts each of them, and shows what it shows of each. */
  lemma {:induction false} ItemsOfChunks(m: bytes, off: nat, end: nat, chunks: seq<bytes>, items: seq<Item>, strings: seq<text>)
    requires end <= |m| && Chunks(m, off, end) == Some(chunks) && AllWhole(chunks)
    ensures Items(m, off, end, strings) == Ok(items) <==> Shows(chunks, items, strings)
    decreases |chunks|
  {
    hide U16, U32, ItemAt, WholeAttributes, HeaderFits, Shows;
    if off + 8 <= end {
      var size := U32(m, off + 4);
      var c := m[off..off + size];
      assert chunks[0] == c && chunks[1..] == Chunks(m, off + size, end).value;
      FieldOfSlice(m, off, off + size, 2);
      assert WholeAttributes(c);
      HeaderIs(c);
      ItemMoved(m, off, size, strings);
      ShowsFirst(chunks, items, strings);
      if items != [] {
        ItemsOfChunks(m, off + size, end, chunks[1..], items[1..], strings);
        assert items == [items[0]] + items[1..];
      }
      if HeaderFits(c) && ItemOf(c, strings).Ok? && Items(m, off + size, end, strings).Ok? {
        assert ([ItemOf(c, strings).value] + Items(m, off + size, end, strings).value)[1..] == Items(m, off + size, end, strings).value;
      }
    } else {
      NothingShown(items, strings);
    }
  }

  lemma HeaderIs(c: bytes)
    ensures HeaderFits(c) <==> |c| >= 8 && 8 <= U16(c, 2) <= |c|
  {
  }

  lemma NothingShown(items: seq<Item>, strings: seq<text>)
    ensures Shows([], items, strings) <==> items == []
  {
  }

  // ----- Other strings -----

  lemma {:induction false} AttributesWithOther(data: bytes, a: nat, size: nat, count: nat, s: seq<text>, t: seq<text>)
    ensures AttributesAt(data, a, size, count, s).Some? == AttributesAt(data, a, size, count, t).Some?
    decreases count
  {
    hide U32, FormatValue;
    if count > 0 { AttributesWithOther(data, a + size, size, count - 1, s, t); }
  }

  /** Whether a document is accepted does not depend on its strings. */
  lemma {:induction false} AcceptedWithOther(data: bytes, off: nat, total: nat, s: seq<text>, t: seq<text>)
    requires total <= |data|
    ensures Items(data, off, total, s).Ok? == Items(data, off, total, t).Ok?
    decreases if off < total then total - off else 0
  {
    hide U16, U32, ItemAt;
    if off + 8 <= total {
      var header, size := U16(data, off + 2), U32(data, off + 4);
      if 8 <= header <= size && off + size <= total {
        ItemWithOther(data, off, size, s, t);
        AcceptedWithOther(data, off + size, total, s, t);
      }
    }
  }

  lemma ItemWithOther(data: bytes, off: nat, size: nat, s: seq<text>, t: seq<text>)
    requires off + size <= |data| && size >= 8
    ensures ItemAt(data, off, size, s).Ok? == ItemAt(data, off, size, t).Ok?
  {
    hide U32, U16, AttributesAt;
    if size >= 36 {
      AttributesWithOther(data, off + 16 + U16(data, off + 24), U16(data, off + 26), U16(data, off + 28), s, t);
    }
  }

  // ----- A patched chunk -----

  /** Which of the attributes from p on is the first of the given name. */
  function NamedIndex(chunk: bytes, p: nat, size: nat, count: nat, name: nat): (r: Option<nat>)
    requires size >= 20 && p + Area(count, size) <= |chunk|
    ensures r.Some? <==> FirstNamed(chunk, p, size, count, name).Some?
    ensures r.Some? ==> r.value < count
    decreases count
  {
    if count == 0 then None
    else
      OneMore(count, size);
      if NameAt(chunk, p) == name then Some(0)
      else
        match NamedIndex(chunk, p + size, size, count - 1, name)
        case None => None
        case Some(j) => Some(j + 1)
  }

  /** The position, among its attributes, of the attribute that a patch of the chunk writes to. */
  function TargetIndex(chunk: bytes, name: nat): (j: Option<nat>)
    ensures j.Some? <==> Target(chunk, name).Some?
  {
    match TableOf(chunk)
    case None => None
    case Some(t) => NamedIndex(chunk, t.base, t.size, t.count, name)
  }

  lemma SameAttribute(chunk: bytes, p: nat, value: nat, a: nat, strings: seq<text>)
    requires p + 20 <= |chunk| && a + 20 <= |chunk| && (a + 20 <= p + 8 || p + 20 <= a)
    ensures AttributeAt(PutValue(chunk, p, value), a, strings) == AttributeAt(chunk, a, strings)
  {
    hide U32, PutValue, FormatValue, Get;
    PutValueKeeps(chunk, p, value, a);
    PutValueKeeps(chunk, p, value, a + 4);
    PutValueKeeps(chunk, p, value, a + 8);
    PutValueKeeps(chunk, p, value, a + 16);
    PutValueParts(chunk, p, value);
    var r := PutValue(chunk, p, value);
    if a + 20 <= p + 8 { assert r[..p + 8][a + 15] == chunk[..p + 8][a + 15]; }
    else { assert r[p + 20..][a + 15 - p - 20] == chunk[p + 20..][a + 15 - p - 20]; }
  }

  lemma {:induction false} SameAttributes(chunk: bytes, p: nat, value: nat, a: nat, size: nat, count: nat, strings: seq<text>)
    requires p + 20 <= |chunk| && p + 20 <= a && size >= 20 && a + Area(count, size) <= |chunk|
    ensures AttributesAt(PutValue(chunk, p, value), a, size, count, strings) == AttributesAt(chunk, a, size, count, strings)
    decreases count
  {
    hide PutValue, Area, AttributeAt;
    if count > 0 {
      OneMore(count, size);
      SameAttribute(chunk, p, value, a, strings);
      SameAttributes(chunk, p, value, a + size, size, count - 1, strings);
    }
  }

  lemma NoArea(size: nat)
    ensures Area(0, size) == 0
  {
  }

  /** The attribute with the value written shows exactly that string, an empty one included. */
  lemma WrittenIsShown(chunk: bytes, p: nat, value: nat, strings: seq<text>)
    requires p + 20 <= |chunk| && value < |strings| < 0x1_0000_0000
    ensures AttributeAt(PutValue(chunk, p, value), p, strings)
         == AttributeAt(chunk, p, strings).(value := Plain(strings[value]))
  {
    hide U32, PutValue;
    PutValueHolds(chunk, p, value);
    PutValueKeeps(chunk, p, value, p);
    PutValueKeeps(chunk, p, value, p + 4);
  }

  function ValueSet(attributes: seq<Attribute>, j: nat, t: text): seq<Attribute>
    requires j < |attributes|
  {
    attributes[j := attributes[j].(value := Plain(t))]
  }

  /** Of the attributes only the first of the name is shown differently: with the string written. */
  lemma {:induction false} PatchedAttributes(
    chunk: bytes, a: nat, size: nat, count: nat, name: nat, p: nat, value: nat, strings: seq<text>)
    requires size >= 20 && a + Area(count, size) <= |chunk| && FirstNamed(chunk, a, size, count, name) == Some(p)
    requires a <= p && p + 20 <= |chunk| && Slot(a, p, size, count) && value < |strings| < 0x1_0000_0000
    ensures var was := AttributesAt(chunk, a, size, count, strings);
            var j := NamedIndex(chunk, a, size, count, name);
            && was.Some? && j.Some? && was.value[j.value] == AttributeAt(chunk, p, strings)
            && was.value[j.value].name == Get(strings, name)
            && AttributesAt(PutValue(chunk, p, value), a, size, count, strings) == Some(ValueSet(was.value, j.value, strings[value]))
    decreases count
  {
    hide PutValue, Area, FormatValue, Get, U32;
    OneMore(count, size);
    AllThere(chunk, a, size, count, strings);
    var first := AttributeAt(chunk, a, strings);
    var rest := AttributesAt(chunk, a + size, size, count - 1, strings).value;
    if NameAt(chunk, a) == name {
      WrittenIsShown(chunk, p, value, strings);
      SameAttributes(chunk, p, value, a + size, size, count - 1, strings);
      assert ([first] + rest)[0 := first.(value := Plain(strings[value]))] == [first.(value := Plain(strings[value]))] + rest;
    } else {
      FirstNamedSlot(chunk, a + size, size, count - 1, name);
      SameAttribute(chunk, p, value, a, strings);
      PatchedAttributes(chunk, a + size, size, count - 1, name, p, value, strings);
      var j := NamedIndex(chunk, a + size, size, count - 1, name).value;
      SetBehind(first, rest, j, strings[value]);
    }
  }

  lemma SetBehind(first: Attribute, rest: seq<Attribute>, j: nat, t: text)
    requires j < |rest|
    ensures [first] + ValueSet(rest, j, t) == ValueSet([first] + rest, j + 1, t)
  {
  }

  lemma {:induction false} AllThere(chunk: bytes, a: nat, size: nat, count: nat, strings: seq<text>)
    requires size >= 20 && a + Area(count, size) <= |chunk|
    ensures AttributesAt(chunk, a, size, count, strings).Some?
    decreases count
  {
    hide Area, AttributeAt;
    if count > 0 {
      OneMore(count, size);
      if count == 1 { NoArea(size); }
      AreaNotNegative(count - 1, size);
      AllThere(chunk, a + size, size, count - 1, strings);
    }
  }

  lemma AreaNotNegative(count: nat, size: nat)
    ensures Area(count, size) >= 0
  {
  }

  /** The name index of attribute k of those from p on, if it is there. */
  function NameOf(chunk: bytes, p: nat, size: nat, k: nat): Option<nat> {
    var at := p + Area(k, size) + 4;
    if at + 4 <= |chunk| then Some(U32(chunk, at)) else None
  }

  /** The first n attributes are there, and none has the name index. */
  predicate OthersNamed(chunk: bytes, p: nat, size: nat, n: nat, name: nat) {
    forall k: nat :: k < n ==> NameOf(chunk, p, size, k).Some? && NameOf(chunk, p, size, k) != Some(name)
  }

  lemma {:induction false} NamedIsFirst(chunk: bytes, p: nat, size: nat, count: nat, name: nat)
    requires size >= 20 && p + Area(count, size) <= |chunk|
    ensures match NamedIndex(chunk, p, size, count, name)
            case None => OthersNamed(chunk, p, size, count, name)
            case Some(j) => j < count && NameOf(chunk, p, size, j) == Some(name) && OthersNamed(chunk, p, size, j, name)
    decreases count
  {
    hide U32, Area;
    if count > 0 {
      OneMore(count, size);
      AreaNotNegative(count - 1, size);
      NoArea(size);
      NamedIsFirst(chunk, p + size, size, count - 1, name);
      forall k: nat | 0 < k < count ensures NameOf(chunk, p, size, k) == NameOf(chunk, p + size, size, k - 1) {
        OneMore(k, size);
      }
    }
  }

  /**
   The attribute a patch writes to, in a chunk whose table has the form asked of one, is the first whose name index, at 4 in
   each attribute, is that of the name; and it writes to none only if there is none.
   */
  lemma WrittenIsFirstNamed(chunk: bytes, name: nat)
    requires |chunk| >= 36 && U16(chunk, 24) >= 20 && U16(chunk, 26) >= 20
    requires 16 + U16(chunk, 24) + U16(chunk, 28) * U16(chunk, 26) <= |chunk|
    ensures var base, size, count := 16 + U16(chunk, 24), U16(chunk, 26), U16(chunk, 28);
            match TargetIndex(chunk, name)
            case None => OthersNamed(chunk, base, size, count, name)
            case Some(j) => j < count && NameOf(chunk, base, size, j) == Some(name) && OthersNamed(chunk, base, size, j, name)
  {
    hide U16, NameOf, NamedIndex;
    assert TableOf(chunk).Some?;
    NamedIsFirst(chunk, 16 + U16(chunk, 24), U16(chunk, 26), U16(chunk, 28), name);
  }

  /** What an item becomes when the attribute of a name is to show a text. */
  predicate Answered(was: Item, now: Item, chunk: bytes, asked: Option<(text, text)>, strings: seq<text>) {
    match asked
    case None => now == was
    case Some((name, t)) =>
      match TargetIndex(chunk, Index(strings, name))
      case None => now == was
      case Some(j) =>
        was.Opens? && j < |was.attributes| && was.attributes[j].name == name
        && now == was.(attributes := ValueSet(was.attributes, j, t))
  }

  lemma PatchedItem(chunk: bytes, name: nat, value: nat, strings: seq<text>)
    requires HeaderFits(chunk) && U32(chunk, 0) == START_CHUNK
    requires Target(chunk, name).Some? && name < |strings| && value < |strings| < 0x1_0000_0000
    ensures var r := PutValue(chunk, Target(chunk, name).value, value);
            var was := ItemOf(chunk, strings);
            var j := TargetIndex(chunk, name).value;
            && HeaderFits(r) && was.Ok? && was.value.Opens? && j < |was.value.attributes|
            && was.value.attributes[j] == AttributeAt(chunk, Target(chunk, name).value, strings)
            && was.value.attributes[j].name == strings[name]
            && ItemOf(r, strings) == Ok(was.value.(attributes := ValueSet(was.value.attributes, j, strings[value])))
  {
    hide PutValue, AttributesAt, FirstNamed, NamedIndex, U16, U32, Area;
    var t := TableOf(chunk).value;
    var p := Target(chunk, name).value;
    var r := PutValue(chunk, p, value);
    TableNumbers(chunk, t);
    TableFields(chunk, t);
    TargetIsFirst(chunk, t, name);
    FirstNamedSlot(chunk, t.base, t.size, t.count, name);
    PatchedAttributes(chunk, t.base, t.size, t.count, name, p, value, strings);
    SameHeaderFields(chunk, p, value);
    StartKind(chunk);
  }

  lemma TargetIsFirst(chunk: bytes, t: Table, name: nat)
    requires TableOf(chunk) == Some(t) && Target(chunk, name).Some?
    ensures 36 <= t.base <= t.end <= |chunk| && t.size >= 20 && t.base + Area(t.count, t.size) == t.end
    ensures FirstNamed(chunk, t.base, t.size, t.count, name) == Target(chunk, name)
    ensures TargetIndex(chunk, name) == NamedIndex(chunk, t.base, t.size, t.count, name)
  {
    hide FirstNamed, NamedIndex, Area, U16;
  }

  lemma TableFields(chunk: bytes, t: Table)
    requires TableOf(chunk) == Some(t)
    ensures |chunk| >= 36 && t.base == 16 + U16(chunk, 24) && t.size == U16(chunk, 26) && t.count == U16(chunk, 28)
  {
    hide U16;
  }

  lemma StartKind(chunk: bytes)
    requires |chunk| >= 8 && U32(chunk, 0) == START_CHUNK
    ensures U16(chunk, 0) == START_ELEMENT
  {
  }

  lemma SameHeaderFields(chunk: bytes, p: nat, value: nat)
    requires 36 <= p && p + 20 <= |chunk|
    ensures var r := PutValue(chunk, p, value);
            && |r| == |chunk| && U16(r, 0) == U16(chunk, 0) && U16(r, 2) == U16(chunk, 2)
            && U32(r, 16) == U32(chunk, 16) && U32(r, 20) == U32(chunk, 20)
            && U16(r, 24) == U16(chunk, 24) && U16(r, 26) == U16(chunk, 26) && U16(r, 28) == U16(chunk, 28)
  {
    hide PutValue, U16, U32;
    PutValueKeeps(chunk, p, value, 0);
    PutValueKeeps(chunk, p, value, 2);
    PutValueKeeps(chunk, p, value, 16);
    PutValueKeeps(chunk, p, value, 20);
    PutValueKeeps(chunk, p, value, 24);
    PutValueKeeps(chunk, p, value, 26);
    PutValueKeeps(chunk, p, value, 28);
  }

  // ----- The whole document -----

  lemma GoalNamesAre(goal: Option<(nat, nat)>, asked: Option<(text, text)>, strings: seq<text>)
    requires GoalNames(goal, asked, strings)
    ensures goal.Some? <==> asked.Some?
    ensures goal.Some? ==> goal.value.0 < |strings| && goal.value.1 < |strings|
                           && asked.value == (strings[goal.value.0], strings[goal.value.1])
  {
  }

  /** The name written for is the first string of that text. */
  lemma NameIndex(element: text, req: Request, ns: bool, strings: seq<text>, used: nat)
    requires GoalFor(element, GoalsOf(req, ns, strings), used).Some?
    requires Asked(element, req, ns, used).Some?
    ensures GoalFor(element, GoalsOf(req, ns, strings), used).value.0 == Index(strings, Asked(element, req, ns, used).value.0)
  {
    hide Index, Ascii;
    ElementsDiffer();
  }

  /** Only start elements have goals. */
  lemma GoalIsOfStart(chunk: bytes, strings: seq<text>, goals: Goals, used: nat)
    requires GoalFor(ElementName(chunk, strings), goals, used).Some?
    ensures |chunk| >= 36 && U32(chunk, 0) == START_CHUNK
  {
    hide U32, Ascii;
    ElementsDiffer();
    NamesAreLong();
  }

  lemma NamesAreLong()
    ensures MANIFEST != [] && APPLICATION != [] && PROVIDER != []
  {
    assert |MANIFEST| == 8 && |APPLICATION| == 11 && |PROVIDER| == 8;
  }

  /** One chunk of the patched list: it is read as before, with what is asked of it shown. */
  lemma ChunkAnswered(req: Request, p: TextPlan, chunk: bytes, r: bytes, used: nat)
    requires AllIn(Needed(req, p.ns), p.strings) && |p.strings| < 0x1_0000_0000
    requires HeaderFits(chunk) && ItemOf(chunk, p.strings).Ok?
    requires Written(chunk, r, GoalFor(ElementName(chunk, p.strings), GoalsOf(req, p.ns, p.strings), used))
    ensures HeaderFits(r) && ItemOf(r, p.strings).Ok?
    ensures Answered(ItemOf(chunk, p.strings).value, ItemOf(r, p.strings).value, chunk,
                     Asked(ElementName(chunk, p.strings), req, p.ns, used), p.strings)
  {
    hide *;
    var element := ElementName(chunk, p.strings);
    var goals := GoalsOf(req, p.ns, p.strings);
    var goal := GoalFor(element, goals, used);
    var asked := Asked(element, req, p.ns, used);
    GoalIsAsked(element, req, p.ns, p.strings, used);
    GoalNamesAre(goal, asked, p.strings);
    WrittenIs(chunk, r, goal);
    WrittenHeader(chunk, r, goal, p.strings);
    AnsweredIs(ItemOf(chunk, p.strings).value, ItemOf(r, p.strings), chunk, asked, p.strings);
    if asked.Some? {
      NameIndex(element, req, p.ns, p.strings, used);
      GoalIsOfStart(chunk, p.strings, goals, used);
      if Target(chunk, goal.value.0).Some? { PatchedItem(chunk, goal.value.0, goal.value.1, p.strings); }
    }
  }

  lemma WrittenIs(chunk: bytes, r: bytes, goal: Option<(nat, nat)>)
    requires Written(chunk, r, goal)
    ensures if goal.None? || Target(chunk, goal.value.0).None? then r == chunk
            else r == PutValue(chunk, Target(chunk, goal.value.0).value, goal.value.1)
  {
    hide Target, PutValue;
  }

  lemma AnsweredIs(was: Item, now: Result<Item>, chunk: bytes, asked: Option<(text, text)>, strings: seq<text>)
    ensures asked.None? || TargetIndex(chunk, Index(strings, asked.value.0)).None? ==>
              now == Ok(was) ==> Answered(was, now.value, chunk, asked, strings)
    ensures asked.Some? && TargetIndex(chunk, Index(strings, asked.value.0)).Some? ==>
              var j := TargetIndex(chunk, Index(strings, asked.value.0)).value;
              was.Opens? && j < |was.attributes| && was.attributes[j].name == asked.value.0
              && now == Ok(was.(attributes := ValueSet(was.attributes, j, asked.value.1)))
              ==> Answered(was, now.value, chunk, asked, strings)
    ensures asked.Some? ==> (TargetIndex(chunk, Index(strings, asked.value.0)).Some? <==> Target(chunk, Index(strings, asked.value.0)).Some?)
  {
    hide TargetIndex, Index, Target;
  }

  /** The output's header, for the previewer. */
  lemma OutputAccepted(out: bytes, strings: seq<text>, consumed: nat)
    requires |out| >= 36 && U32(out, 0) == XML_CHUNK && U32(out, 4) == |out| && PreviewPool(out, 8) == Ok((strings, consumed))
    ensures DecodeItems(out) == Items(out, 8 + consumed, |out|, strings)
  {
    hide PreviewPool, Items;
  }

  /** The resource map is passed over. */
  lemma MapIsPassed(out: bytes, res: nat, body: nat, strings: seq<text>)
    requires res + 8 <= body <= |out| && U32(out, res) == MAP_CHUNK && U32(out, res + 4) == body - res
    requires Items(out, body, |out|, strings).Ok?
    ensures Items(out, res, |out|, strings) == Ok([Passed] + Items(out, body, |out|, strings).value)
  {
    MapKind(out, res);
    hide U16, U32;
    assert ItemAt(out, res, body - res, strings) == Ok(Passed);
  }

  lemma MapKind(out: bytes, res: nat)
    requires res + 8 <= |out| && U32(out, res) == MAP_CHUNK
    ensures U16(out, res) == 0x180 && U16(out, res + 2) == 8
  {
  }

  lemma WrittenWhole(chunk: bytes, r: bytes, goal: Option<(nat, nat)>)
    requires Written(chunk, r, goal) && WholeAttributes(chunk)
    ensures WholeAttributes(r)
  {
    hide PutValue, U16, Target;
    WrittenIs(chunk, r, goal);
    if goal.Some? && Target(chunk, goal.value.0).Some? {
      SameHeaderFields(chunk, Target(chunk, goal.value.0).value, goal.value.1);
    }
  }

  /** The name of an element as the previewer shows it; the patch looks at start chunks with the usual header only. */
  function NameShown(chunk: bytes, item: Item): text {
    if |chunk| >= 8 && U32(chunk, 0) == START_CHUNK && item.Opens? then item.name else []
  }

  /** The provider elements shown in front of the k-th item. */
  function ProvidersShown(chunks: seq<bytes>, items: seq<Item>, k: nat): nat
    requires k <= |chunks| == |items|
  {
    if k == 0 then 0
    else ProvidersShown(chunks, items, k - 1) + if NameShown(chunks[k - 1], items[k - 1]) == PROVIDER then 1 else 0
  }

  /** What is asked of the k-th item, by the name it is shown with and the providers in front of it. */
  function AskedOf(req: Request, ns: bool, chunks: seq<bytes>, items: seq<Item>, k: nat): Option<(text, text)>
    requires k < |chunks| == |items|
  {
    Asked(NameShown(chunks[k], items[k]), req, ns, ProvidersShown(chunks, items, k))
  }

  /** The patch names an element as the previewer does. */
  lemma ElementIsShown(chunk: bytes, strings: seq<text>)
    requires |chunk| >= 8 && |strings| < 0x1_0000_0000 && ItemOf(chunk, strings).Ok?
    ensures U32(chunk, 0) == START_CHUNK ==> ItemOf(chunk, strings).value.Opens?
    ensures ElementName(chunk, strings) == NameShown(chunk, ItemOf(chunk, strings).value)
  {
    hide U16, AttributesAt, U32;
    if U32(chunk, 0) == START_CHUNK { StartKind(chunk); }
  }

  lemma {:induction false} ProvidersOfMore(chunks: seq<bytes>, chunk: bytes, strings: seq<text>)
    ensures Providers(chunks + [chunk], strings)
         == Providers(chunks, strings) + if ElementName(chunk, strings) == PROVIDER then 1 else 0
  {
    hide ElementName, Ascii;
    if chunks == [] {
      assert [] + [chunk] == [chunk] && [chunk][1..] == [];
    } else {
      assert (chunks + [chunk])[1..] == chunks[1..] + [chunk];
      ProvidersOfMore(chunks[1..], chunk, strings);
    }
  }

  lemma {:induction false} ProvidersAreShown(chunks: seq<bytes>, items: seq<Item>, strings: seq<text>, k: nat)
    requires Shows(chunks, items, strings) && |strings| < 0x1_0000_0000 && k <= |chunks|
    ensures Providers(chunks[..k], strings) == ProvidersShown(chunks, items, k)
    decreases k
  {
    hide ElementName, Ascii, ItemOf, NameShown;
    if k > 0 {
      ProvidersAreShown(chunks, items, strings, k - 1);
      assert chunks[..k] == chunks[..k - 1] + [chunks[k - 1]];
      ProvidersOfMore(chunks[..k - 1], chunks[k - 1], strings);
      ElementIsShown(chunks[k - 1], strings);
    }
  }

  /** What the patch asks of a chunk is what is asked of the item it is shown as. */
  lemma AskedByItems(req: Request, p: TextPlan, chunks: seq<bytes>, items: seq<Item>, k: nat)
    requires Shows(chunks, items, p.strings) && |p.strings| < 0x1_0000_0000 && k < |chunks|
    ensures Asked(ElementName(chunks[k], p.strings), req, p.ns, CursorAt(chunks, p.strings, GoalsOf(req, p.ns, p.strings), 0, k))
         == AskedOf(req, p.ns, chunks, items, k)
  {
    hide *;
    var goals := GoalsOf(req, p.ns, p.strings);
    ShowsAt(chunks, items, p.strings, k);
    ElementIsShown(chunks[k], p.strings);
    ProvidersAreShown(chunks, items, p.strings, k);
    if req.authorities != [] && p.ns {
      GoalsHaveAuthorities(req, p.strings);
      CursorCounts(chunks, p.strings, goals, 0, k);
    }
    AskedOfIs(req, p.ns, chunks, items, k);
    AskedUpTo(NameShown(chunks[k], items[k]), req, p.ns, CursorAt(chunks, p.strings, goals, 0, k), ProvidersShown(chunks, items, k));
  }

  lemma ShowsAt(chunks: seq<bytes>, items: seq<Item>, strings: seq<text>, k: nat)
    requires Shows(chunks, items, strings) && k < |chunks|
    ensures |items| == |chunks| && |chunks[k]| >= 8 && ItemOf(chunks[k], strings) == Ok(items[k])
  {
    hide ItemOf;
  }

  lemma GoalsHaveAuthorities(req: Request, strings: seq<text>)
    requires req.authorities != []
    ensures GoalsOf(req, true, strings).authoritiesName.Some? && |GoalsOf(req, true, strings).authorities| == |req.authorities|
  {
    hide Index, Ascii;
  }

  lemma AskedOfIs(req: Request, ns: bool, chunks: seq<bytes>, items: seq<Item>, k: nat)
    requires k < |chunks| == |items|
    ensures AskedOf(req, ns, chunks, items, k) == Asked(NameShown(chunks[k], items[k]), req, ns, ProvidersShown(chunks, items, k))
  {
    hide Asked, NameShown, ProvidersShown;
  }

  /** Beyond the last authority it does not matter how many providers there were. */
  lemma AskedUpTo(element: text, req: Request, ns: bool, used: nat, providers: nat)
    requires req.authorities != [] && ns ==>
               used == if providers < |req.authorities| then providers else |req.authorities|
    ensures Asked(element, req, ns, used) == Asked(element, req, ns, providers)
  {
    hide Ascii;
  }

  /** The items of a document and of a patched one: one by one as they were, with what was asked shown. */
  ghost predicate AllAnswered(req: Request, p: TextPlan, chunks: seq<bytes>, was: seq<Item>, now: seq<Item>) {
    && |was| == |chunks| && |now| == |chunks|
    && forall k :: 0 <= k < |chunks| ==> Answered(was[k], now[k], chunks[k], AskedOf(req, p.ns, chunks, was, k), p.strings)
  }

  /** The patched chunks are accepted as the old ones were. */
  lemma PatchedShown(req: Request, p: TextPlan, chunks: seq<bytes>, was: seq<Item>) returns (now: seq<Item>)
    requires AllIn(Needed(req, p.ns), p.strings) && |p.strings| < 0x1_0000_0000
    requires PatchList(chunks, p.strings, GoalsOf(req, p.ns, p.strings), 0) == Some((p.patched, p.changed))
    requires AllWhole(chunks) && Shows(chunks, was, p.strings)
    ensures AllWhole(p.patched) && Shows(p.patched, now, p.strings) && AllAnswered(req, p, chunks, was, now)
  {
    hide PatchList, GoalsOf, ItemOf, HeaderFits, WholeAttributes, Answered, Asked, ElementName, CursorAt, AllIn, Needed, Written, AskedOf;
    var goals := GoalsOf(req, p.ns, p.strings);
    PatchedNames(chunks, p.strings, goals, p.patched, p.changed);
    forall k | 0 <= k < |chunks|
      ensures WholeAttributes(p.patched[k]) && HeaderFits(p.patched[k]) && ItemOf(p.patched[k], p.strings).Ok?
      ensures Answered(was[k], ItemOf(p.patched[k], p.strings).value, chunks[k], AskedOf(req, p.ns, chunks, was, k), p.strings)
    {
      AskedByItems(req, p, chunks, was, k);
      var used := CursorAt(chunks, p.strings, goals, 0, k);
      PatchListWrites(chunks, p.strings, goals, 0, k);
      GoalAtIs(chunks, p.strings, goals, k);
      WrittenWhole(chunks[k], p.patched[k], GoalAt(chunks, p.strings, goals, 0, k));
      ChunkAnswered(req, p, chunks[k], p.patched[k], used);
    }
    now := seq(|chunks|, k requires 0 <= k < |chunks| => ItemOf(p.patched[k], p.strings).value);
  }

  /**
   The previewer accepts the output whenever it accepted the chunks of the document, and shows the same items, read with the
   grown strings, except that in every element asked about the first attribute of the asked name shows the asked text.
   */
  lemma DecoderShowsRequest(m: bytes, req: Request, p: TextPlan, chunks: seq<bytes>)
    requires TextPlanOf(m, req) == Ok(p) && Writable(req, p) && |TextOutput(p)| < 0x1_0000_0000
    requires p.layout.end <= |m| && Chunks(m, p.layout.body, p.layout.end) == Some(chunks) && AllWhole(chunks)
    requires Items(m, p.layout.body, p.layout.end, p.layout.pool.strings).Ok?
    ensures var out := TextOutput(p);
            var was := Items(m, p.layout.body, p.layout.end, p.strings);
            && NewTextBody(p) <= |out|
            && var now := Items(out, NewTextBody(p), |out|, p.strings);
               && was.Ok? && now.Ok? && AllAnswered(req, p, chunks, was.value, now.value)
               && DecodeItems(out) == Ok((if p.res == [] then [] else [Passed]) + now.value)
  {
    hide *;
    var out := TextOutput(p);
    var same := TextPlanParts(m, req, p);
    PatchOfParts(m, req, p, same);
    TextStrings(m, req, p);
    TextOutputLayout(m, req, p, chunks);
    TextOutputChunks(m, req, p, chunks);
    TextOutputHeader(p);
    NewTextBodyIs(p);
    AcceptedWithOther(m, p.layout.body, p.layout.end, p.layout.pool.strings, p.strings);
    var was := Items(m, p.layout.body, p.layout.end, p.strings).value;
    ItemsOfChunks(m, p.layout.body, p.layout.end, chunks, was, p.strings);
    var now := PatchedShown(req, p, chunks, was);
    ItemsOfChunks(out, NewTextBody(p), |out|, p.patched, now, p.strings);
    LayoutFacts(out);
    TextPool(m, req, p);
    OutputSize(p);
    OutputAccepted(out, p.strings, |p.pool|);
    MapThere(out);
    if p.res == [] {
      NoPrefix(now);
    } else {
      MapIsPassed(out, 8 + |p.pool|, NewTextBody(p), p.strings);
    }
  }

  lemma NoPrefix(now: seq<Item>)
    ensures [] + now == now
  {
  }

  lemma OutputSize(p: TextPlan)
    requires |TextOutput(p)| < 0x1_0000_0000
    ensures |TextOutput(p)| >= 8 && U32(TextOutput(p), 4) == |TextOutput(p)|
  {
    hide Document, U32, Concat;
    DocumentHeader(p.pool, p.res, Concat(p.patched), [], []);
  }

  // ----- When nothing had to be changed -----

  /** An attribute that holds a string shows it. */
  lemma HeldIsShown(chunk: bytes, p: nat, value: nat, strings: seq<text>)
    requires p + 20 <= |chunk| && Holds(chunk, p, value) && value < |strings| < 0x1_0000_0000
    ensures AttributeAt(chunk, p, strings).value == Plain(strings[value])
  {
    hide U32;
  }

  lemma ChunkShownAlready(req: Request, p: TextPlan, chunk: bytes, used: nat)
    requires AllIn(Needed(req, p.ns), p.strings) && |p.strings| < 0x1_0000_0000
    requires HeaderFits(chunk) && ItemOf(chunk, p.strings).Ok?
    requires Held(chunk, GoalFor(ElementName(chunk, p.strings), GoalsOf(req, p.ns, p.strings), used))
    ensures Answered(ItemOf(chunk, p.strings).value, ItemOf(chunk, p.strings).value, chunk,
                     Asked(ElementName(chunk, p.strings), req, p.ns, used), p.strings)
  {
    hide *;
    var element := ElementName(chunk, p.strings);
    var goals := GoalsOf(req, p.ns, p.strings);
    var goal := GoalFor(element, goals, used);
    var asked := Asked(element, req, p.ns, used);
    var was := ItemOf(chunk, p.strings);
    GoalIsAsked(element, req, p.ns, p.strings, used);
    GoalNamesAre(goal, asked, p.strings);
    HeldMeans(chunk, goal);
    AnsweredIs(was.value, was, chunk, asked, p.strings);
    if asked.Some? {
      NameIndex(element, req, p.ns, p.strings, used);
      GoalIsOfStart(chunk, p.strings, goals, used);
      var target := Target(chunk, goal.value.0);
      if target.Some? {
        HeldIsShown(chunk, target.value, goal.value.1, p.strings);
        PatchedItem(chunk, goal.value.0, goal.value.1, p.strings);
        SetAlready(was.value, TargetIndex(chunk, goal.value.0).value, p.strings[goal.value.1]);
      }
    }
  }

  lemma HeldMeans(chunk: bytes, goal: Option<(nat, nat)>)
    requires Held(chunk, goal)
    ensures goal.Some? && Target(chunk, goal.value.0).Some? ==> Holds(chunk, Target(chunk, goal.value.0).value, goal.value.1)
  {
    hide Target, Holds, TableOf;
  }

  lemma SetAlready(item: Item, j: nat, t: text)
    requires item.Opens? && j < |item.attributes| && item.attributes[j].value == Plain(t)
    ensures item.(attributes := ValueSet(item.attributes, j, t)) == item
  {
  }

  /** A document that the patch leaves alone shows what is asked already. */
  lemma UnchangedShowsRequest(m: bytes, req: Request, p: TextPlan, chunks: seq<bytes>, items: seq<Item>)
    requires TextPlanOf(m, req) == Ok(p) && Writable(req, p) && |TextOutput(p)| < 0x1_0000_0000 && !p.changed
    requires p.layout.end <= |m| && Chunks(m, p.layout.body, p.layout.end) == Some(chunks) && AllWhole(chunks)
    requires Items(m, p.layout.body, p.layout.end, p.strings) == Ok(items)
    ensures AllAnswered(req, p, chunks, items, items)
  {
    hide PatchList, GoalsOf, ItemOf, HeaderFits, AllWhole, Answered, Asked, ElementName, CursorAt, AllIn, Needed, TextPlanOf, Chunks, Items;
    hide Held, Ascii, Writable, PoolPart, TextOutput, ReadLayout, Interned, LaidOut, PatchOf, StringsOf, AskedOf;
    var same := TextPlanParts(m, req, p);
    PatchOfParts(m, req, p, same);
    TextStrings(m, req, p);
    ItemsOfChunks(m, p.layout.body, p.layout.end, chunks, items, p.strings);
    var goals := GoalsOf(req, p.ns, p.strings);
    ListUnchanged(chunks, p.strings, goals, 0);
    forall k | 0 <= k < |chunks|
      ensures Answered(items[k], items[k], chunks[k], AskedOf(req, p.ns, chunks, items, k), p.strings)
    {
      AskedByItems(req, p, chunks, items, k);
      GoalAtIs(chunks, p.strings, goals, k);
      ChunkShownAlready(req, p, chunks[k], CursorAt(chunks, p.strings, goals, 0, k));
    }
  }

  /** Nothing that decides about tags and prefixes has changed, so the same tags are printed. */
  lemma TagsAsBefore(req: Request, p: TextPlan, chunks: seq<bytes>, was: seq<Item>, now: seq<Item>, sanitize: Namespaces.sanitizer)
    requires AllAnswered(req, p, chunks, was, now)
    ensures Namespaces.PrintedAll(Namespaces.Names([], map[]), TagParts(was), sanitize)
         == Namespaces.PrintedAll(Namespaces.Names([], map[]), TagParts(now), sanitize)
  {
    hide TargetIndex, Index, Asked, ElementName, GoalsOf, CursorAt, Namespaces.PrintedAll;
    forall k | 0 <= k < |chunks| ensures TagPart(was[k]) == TagPart(now[k]) {
      assert Answered(was[k], now[k], chunks[k], AskedOf(req, p.ns, chunks, was, k), p.strings);
      TagPartKept(was[k], now[k], chunks[k], AskedOf(req, p.ns, chunks, was, k), p.strings);
    }
    assert TagParts(was) == TagParts(now);
  }

  function TagParts(items: seq<Item>): seq<Namespaces.Chunk> {
    seq(|items|, k requires 0 <= k < |items| => TagPart(items[k]))
  }

  lemma TagPartKept(was: Item, now: Item, chunk: bytes, asked: Option<(text, text)>, strings: seq<text>)
    requires Answered(was, now, chunk, asked, strings)
    ensures TagPart(was) == TagPart(now)
  {
    hide TargetIndex, Index;
  }
}
