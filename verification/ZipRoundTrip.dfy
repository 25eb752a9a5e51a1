/** The main results about the archive writer: what a reader recovers, alignment, and clean names. */
module ZipRoundTrip {
  import opened LittleEndian
  import opened Options
  import opened Sorting
  import opened ZipWriter
  import opened ZipReader

  // ----- The whole archive -----

  /** What a reader should find of entries whose local records are written from the given offset on. */
  function ItemsOf(es: seq<Entry>, offset: nat, codec: Codec): (r: seq<Item>)
    ensures |r| == |es|
  {
    if es == [] then []
    else [ItemOf(es[0], offset, codec)] + ItemsOf(es[1..], offset + |LocalAt(es[0], offset, codec)|, codec)
  }

  ghost predicate AllFit(es: seq<Entry>, codec: Codec) {
    Faithful(codec) && forall i :: 0 <= i < |es| ==> Fits(es[i], codec)
  }

  lemma SplitAt(z: bytes, a: nat, first: bytes, rest: bytes)
    requires a + |first + rest| <= |z| && z[a..a + |first + rest|] == first + rest
    ensures z[a..a + |first|] == first
    ensures z[a + |first|..a + |first| + |rest|] == rest
  {
    SubSlice(z, a, a + |first + rest|, 0, |first|);
    SubSlice(z, a, a + |first + rest|, |first|, |first + rest|);
  }

  /** The first count entries are read back from their directory records and their local records. */
  lemma {:induction false} ItemsReadBack(z: bytes, es: seq<Entry>, offset: nat, pos: nat, count: nat, codec: Codec)
    requires AllFit(es, codec) && |z| < 0x1_0000_0000 && count <= |es|
    requires offset + |Locals(es, offset, codec)| <= |z|
    requires z[offset..offset + |Locals(es, offset, codec)|] == Locals(es, offset, codec)
    requires pos + |Directory(Centrals(es, offset, codec))| <= |z|
    requires z[pos..pos + |Directory(Centrals(es, offset, codec))|] == Directory(Centrals(es, offset, codec))
    ensures ReadItems(z, pos, count, codec) == Some(ItemsOf(es, offset, codec)[..count])
    decreases count
  {
    hide LocalAt, CentralOf, CentralRecord, Faithful, Fits, ReadCentral, ReadLocal, ItemOf;
    if count > 0 {
      var first := LocalAt(es[0], offset, codec);
      var c := CentralOf(es[0], offset, codec);
      var next := offset + |first|;
      var cs := Centrals(es, offset, codec);
      assert cs[0] == c && cs[1..] == Centrals(es[1..], next, codec);
      SplitAt(z, offset, first, Locals(es[1..], next, codec));
      SplitAt(z, pos, CentralRecord(c), Directory(cs[1..]));
      FirstReadBack(z, es[0], offset, pos, codec);
      ItemsReadBack(z, es[1..], next, pos + |CentralRecord(c)|, count - 1, codec);
      var items := ItemsOf(es, offset, codec);
      assert items[..count] == [items[0]] + items[1..][..count - 1];
    }
  }

  lemma FirstReadBack(z: bytes, e: Entry, offset: nat, pos: nat, codec: Codec)
    requires Faithful(codec) && Fits(e, codec) && |z| < 0x1_0000_0000
    requires offset + |LocalAt(e, offset, codec)| <= |z| && z[offset..offset + |LocalAt(e, offset, codec)|] == LocalAt(e, offset, codec)
    requires var r := CentralRecord(CentralOf(e, offset, codec));
             pos + |r| <= |z| && z[pos..pos + |r|] == r
    ensures var c := CentralOf(e, offset, codec);
            && ReadCentral(z, pos) == Some((c, pos + |CentralRecord(c)|))
            && ReadLocal(z, c, codec) == Some(ItemOf(e, offset, codec))
  {
    hide *;
    CentralFits(e, offset, codec);
    CentralReadBack(z, pos, CentralOf(e, offset, codec));
    LocalReadBack(z, e, offset, codec);
  }

  lemma EndParts(count: nat, size: nat, start: nat)
    ensures var r := EndRecord(count, size, start);
            && r[0..4] == Le32(END_SIGNATURE) && r[10..12] == Le16(count) && r[12..16] == Le32(size)
            && r[16..20] == Le32(start) && r[20..22] == Le16(0)
  {
    hide Le16, Le32;
  }

  /** The end record is found at the end, and holds what was written, the count modulo 65536. */
  lemma EndReadBack(z: bytes, count: nat, size: nat, start: nat)
    requires |z| >= 22 && z[|z| - 22..] == EndRecord(count, size, start)
    requires size < 0x1_0000_0000 && start < 0x1_0000_0000
    ensures var end := |z| - 22;
            && FindEnd(z, end) == Some(end) && U16(z, end + 10) == count % 0x1_0000
            && U32(z, end + 12) == size && U32(z, end + 16) == start
  {
    hide U16, U32, Le16, Le32, EndRecord;
    var r := EndRecord(count, size, start);
    var end := |z| - 22;
    EndParts(count, size, start);
    assert z[end..end + 22] == r;
    PartField32(z, end, r, 0, END_SIGNATURE);
    SubSlice(z, end, end + 22, 10, 12);
    FieldAt16(z, end + 10, count);
    PartField32(z, end, r, 12, size);
    PartField32(z, end, r, 16, start);
    PartField16(z, end, r, 20, 0);
  }

  /** The entries that the count field of the end record covers. */
  function CountedItems(es: seq<Entry>, codec: Codec): seq<Item> {
    ItemsOf(es, 0, codec)[..|es| % 0x1_0000]
  }

  /** Reading an archive gives its entries in the order they were written: as many as the 16 bit count says. */
  lemma ArchiveReadBack(es: seq<Entry>, codec: Codec)
    requires AllFit(es, codec) && |Archive(es, codec)| < 0x1_0000_0000
    ensures ReadArchive(Archive(es, codec), codec) == Some(CountedItems(es, codec))
  {
    hide Locals, Directory, Centrals, EndRecord, FindEnd, ReadItems, ItemsOf, AllFit, U16, U32;
    var z := Archive(es, codec);
    var locals := Locals(es, 0, codec);
    var directory := Directory(Centrals(es, 0, codec));
    var end := EndRecord(|es|, |directory|, |locals|);
    assert z == locals + directory + end;
    assert z[|z| - 22..] == end;
    EndReadBack(z, |es|, |directory|, |locals|);
    assert z[0..0 + |locals|] == locals;
    assert z[|locals|..|locals| + |directory|] == directory;
    ItemsReadBack(z, es, 0, |locals|, |es| % 0x1_0000, codec);
  }

  /** So all entries are recovered if and only if there are fewer than 65536. */
  lemma AllReadBackIff(es: seq<Entry>, codec: Codec)
    requires AllFit(es, codec) && |Archive(es, codec)| < 0x1_0000_0000
    ensures ReadArchive(Archive(es, codec), codec) == Some(ItemsOf(es, 0, codec)) <==> |es| < 0x1_0000
  {
    hide Archive, ReadArchive, ItemsOf, AllFit;
    ArchiveReadBack(es, codec);
    var items := ItemsOf(es, 0, codec);
    if |es| < 0x1_0000 { assert items[..|es|] == items; }
  }

  // ----- What the items are -----

  /** Each item is its entry: clean name, original data, and an offset that is a multiple of 4 where that was asked for. */
  lemma {:induction false} ItemsAreEntries(es: seq<Entry>, offset: nat, codec: Codec, i: nat)
    requires i < |es|
    ensures var item := ItemsOf(es, offset, codec)[i];
            && item.central.name == CleanName(es[i].name) && item.data == es[i].data
            && item.central.coding == (if es[i].coding == 0 then 0 else 8)
            && item.central.time == es[i].time && item.central.date == es[i].date
            && (es[i].align4 ==> item.at % 4 == 0 && WellFormedExtra(item.central.extra))
            && (!es[i].align4 ==> item.central.extra == [])
    decreases i
  {
    hide LocalAt, CleanName, WellFormedExtra, ExtraAt, Payload;
    if i == 0 {
      ExtraIsWellFormed(es[0], offset);
    } else {
      ItemsAreEntries(es[1..], offset + |LocalAt(es[0], offset, codec)|, codec, i - 1);
    }
  }

  lemma PayloadPlace(z: bytes, at: nat, e: Entry, offset: nat, codec: Codec)
    requires at + |LocalAt(e, offset, codec)| <= |z| && z[at..at + |LocalAt(e, offset, codec)|] == LocalAt(e, offset, codec)
    requires at == offset
    ensures var from := ItemOf(e, offset, codec).at;
            var stored := if e.coding == 0 then e.data else codec.deflate(e.data);
            from + |stored| <= |z| && z[from..from + |stored|] == stored
  {
    hide CleanName, ExtraAt, LocalHeader;
    var c, payload := CentralOf(e, offset, codec), Payload(e, codec);
    var head := LocalHeader(c) + c.name + c.extra;
    var r := LocalAt(e, offset, codec);
    assert r == head + payload;
    SubSlice(z, at, at + |r|, |head|, |r|);
    assert r[|head|..|r|] == payload;
  }

  /** In the archive the bytes of an entry are its data itself if its method is 0, and otherwise its compressed data. */
  lemma {:induction false} StoredBytes(z: bytes, es: seq<Entry>, offset: nat, codec: Codec, i: nat)
    requires i < |es| && offset + |Locals(es, offset, codec)| <= |z|
    requires z[offset..offset + |Locals(es, offset, codec)|] == Locals(es, offset, codec)
    ensures var from := ItemsOf(es, offset, codec)[i].at;
            var stored := if es[i].coding == 0 then es[i].data else codec.deflate(es[i].data);
            from + |stored| <= |z| && z[from..from + |stored|] == stored
    decreases i
  {
    hide LocalAt, CentralOf;
    var first := LocalAt(es[0], offset, codec);
    var next := offset + |first|;
    SplitAt(z, offset, first, Locals(es[1..], next, codec));
    if i == 0 { PayloadPlace(z, offset, es[0], offset, codec); }
    else { StoredBytes(z, es[1..], next, codec, i - 1); }
  }

  lemma BytesInArchive(es: seq<Entry>, codec: Codec, i: nat)
    requires i < |es|
    ensures var z := Archive(es, codec);
            var from := ItemsOf(es, 0, codec)[i].at;
            var stored := if es[i].coding == 0 then es[i].data else codec.deflate(es[i].data);
            from + |stored| <= |z| && z[from..from + |stored|] == stored
  {
    hide Locals, Directory, Centrals, EndRecord, ItemsOf;
    var z, locals := Archive(es, codec), Locals(es, 0, codec);
    assert z[0..0 + |locals|] == locals;
    StoredBytes(z, es, 0, codec, i);
  }

  lemma ExtraIsWellFormed(e: Entry, offset: nat)
    ensures e.align4 ==> (offset + 30 + |CleanName(e.name)| + |ExtraAt(e, offset)|) % 4 == 0
    ensures e.align4 ==> WellFormedExtra(ExtraAt(e, offset))
    ensures !e.align4 ==> ExtraAt(e, offset) == []
  {
    hide CleanName, Le16, U16;
    var pad := AlignmentPad(offset, |CleanName(e.name)|, 0);
    if e.align4 && pad > 0 {
      var x := ExtraAt(e, offset);
      assert x == Le16(ALIGN_ID) + Le16(pad) + Zeros(pad);
      assert x[2..4] == Le16(pad);
      FieldAt16(x, 2, pad);
      assert x[4 + pad..] == [];
    }
  }

  /** The entries are written sorted by name, each exactly once, those of equal names in the order they came. */
  lemma OrderOfEntries(entries: seq<Entry>)
    ensures multiset(InOrder(entries)) == multiset(entries)
    ensures forall i, j :: 0 <= i < j < |entries| ==> !Less(InOrder(entries)[j].name, InOrder(entries)[i].name)
    ensures forall e :: Alike(InOrder(entries), e, NameOrder()) == Alike(entries, e, NameOrder())
  {
    hide Less, StableSort, Alike;
    NameOrderIsWeak();
    SortSorts(entries, NameOrder());
    var es := InOrder(entries);
    forall i, j | 0 <= i < j < |entries| ensures !Less(es[j].name, es[i].name) {
      assert !NameOrder()(es[j], es[i]);
    }
    forall e ensures Alike(es, e, NameOrder()) == Alike(entries, e, NameOrder()) {
      SortStable(entries, e, NameOrder());
    }
  }

  /** The order spelled out: for two entries the names are equal, or the first is the beginning of the second, or smaller where they first differ. */
  lemma NamesAscend(entries: seq<Entry>, i: nat, j: nat)
    requires i < j < |entries|
    ensures var a, b := InOrder(entries)[i].name, InOrder(entries)[j].name;
            a <= b || exists k :: 0 <= k < |a| && k < |b| && a[..k] == b[..k] && a[k] < b[k]
  {
    hide Less, InOrder;
    OrderOfEntries(entries);
    NotLessMeans(InOrder(entries)[i].name, InOrder(entries)[j].name);
  }

  lemma {:induction false} NotLessMeans(a: bytes, b: bytes)
    requires !Less(b, a)
    ensures a <= b || exists k :: 0 <= k < |a| && k < |b| && a[..k] == b[..k] && a[k] < b[k]
    decreases |a|
  {
    if a != [] && b != [] {
      if a[0] == b[0] {
        NotLessMeans(a[1..], b[1..]);
        if a[1..] <= b[1..] {
          assert a == [a[0]] + a[1..] && b == [b[0]] + b[1..];
          assert a <= b;
        } else {
          var k :| 0 <= k < |a[1..]| && k < |b[1..]| && a[1..][..k] == b[1..][..k] && a[1..][k] < b[1..][k];
          assert a[..k + 1] == [a[0]] + a[1..][..k] && b[..k + 1] == [b[0]] + b[1..][..k];
          assert a[..k + 1] == b[..k + 1] && a[k + 1] < b[k + 1];
        }
      } else {
        assert a[..0] == b[..0] && a[0] < b[0];
      }
    }
  }

  // ----- Clean names -----

  predicate NoSlash(part: bytes) {
    SLASH !in part
  }

  predicate AllClean(parts: seq<bytes>) {
    forall i :: 0 <= i < |parts| ==> NoSlash(parts[i]) && IsPlain(parts[i])
  }

  lemma {:induction false} SplitHasNoSlash(name: bytes)
    ensures forall i :: 0 <= i < |Split(name)| ==> NoSlash(Split(name)[i])
  {
    if name != [] { SplitHasNoSlash(name[1..]); }
  }

  lemma {:induction false} PlainIsClean(parts: seq<bytes>)
    requires forall i :: 0 <= i < |parts| ==> NoSlash(parts[i])
    ensures AllClean(Plain(parts))
  {
    hide IsPlain;
    if parts != [] { PlainIsClean(parts[1..]); }
  }

  lemma {:induction false} PlainAgain(parts: seq<bytes>)
    requires AllClean(parts)
    ensures Plain(parts) == parts
  {
    hide IsPlain;
    if parts != [] { PlainAgain(parts[1..]); }
  }

  lemma {:induction false} SplitOfPart(part: bytes, tail: bytes)
    requires NoSlash(part)
    ensures Split(part + [SLASH] + tail) == [part] + Split(tail)
    ensures Split(part) == [part]
  {
    if part == [] {
      assert part + [SLASH] + tail == [SLASH] + tail;
      assert ([SLASH] + tail)[1..] == tail;
    } else {
      assert part[0] in part && [part[0]] + part[1..] == part;
      SplitOfPart(part[1..], tail);
      assert (part + [SLASH] + tail)[1..] == part[1..] + [SLASH] + tail;
      assert ([part[1..]] + Split(tail))[1..] == Split(tail);
    }
  }

  lemma {:induction false} SplitOfJoin(parts: seq<bytes>)
    requires AllClean(parts) && parts != []
    ensures Split(Join(parts)) == parts
  {
    hide IsPlain;
    assert NoSlash(parts[0]);
    SplitOfPart(parts[0], Join(parts[1..]));
    if |parts| > 1 { SplitOfJoin(parts[1..]); }
  }

  lemma JoinStart(parts: seq<bytes>)
    requires AllClean(parts)
    ensures TrimSlash(Join(parts)) == Join(parts)
  {
    if parts != [] {
      assert NoSlash(parts[0]) && IsPlain(parts[0]);
      assert parts[0][0] in parts[0];
      assert Join(parts)[0] == parts[0][0];
    }
  }

  /** A clean name has no empty, dot or dot-dot part, no leading slash, and is clean already. */
  lemma CleanNameIsClean(name: bytes)
    ensures CleanName(name) != [] ==> AllClean(Split(CleanName(name)))
    ensures CleanName(CleanName(name)) == CleanName(name)
  {
    hide IsPlain, Split, Join, Plain, AllClean, NoSlash;
    var parts := Plain(Split(TrimSlash(name)));
    SplitHasNoSlash(TrimSlash(name));
    PlainIsClean(Split(TrimSlash(name)));
    JoinStart(parts);
    if parts == [] {
      NothingClean();
    } else {
      SplitOfJoin(parts);
      PlainAgain(parts);
    }
  }

  lemma NothingClean()
    ensures Join([]) == [] && Join(Plain(Split([]))) == []
  {
    assert Plain([[]]) == Plain([]);
  }

  /** A part that is kept: not empty, not a dot, not two dots. */
  predicate Keeps(part: bytes) {
    part != [] && part != [0x2e] && part != [0x2e, 0x2e]
  }

  lemma CleanIsPlain(name: bytes)
    ensures CleanName(name) == Join(Plain(Split(name)))
  {
    hide IsPlain, Join;
    if name != [] && name[0] == SLASH {
      assert Split(name) == [[]] + Split(name[1..]);
      PlainOfMore([], Split(name[1..]));
    }
  }

  /**
   What a clean name is, part by part: of a name without slashes the name itself if it is kept, and of a name whose first part
   stands in front of a slash that part, if it is kept, in front of the clean rest.
   */
  lemma CleanNameByParts(part: bytes, rest: bytes)
    requires 0x2f !in part
    ensures CleanName(part) == if Keeps(part) then part else []
    ensures CleanName(part + [0x2f] + rest)
         == if !Keeps(part) then CleanName(rest)
            else if CleanName(rest) == [] then part
            else part + [0x2f] + CleanName(rest)
  {
    hide Split, Join, Plain, CleanName, IsPlain, Keeps;
    var name := part + [SLASH] + rest;
    CleanIsPlain(part);
    CleanIsPlain(rest);
    CleanIsPlain(name);
    SplitOfPart(part, rest);
    PlainOfOne(part);
    PlainOfMore(part, Split(rest));
    SplitHasNoSlash(rest);
    PlainIsClean(Split(rest));
    var kept := Plain(Split(rest));
    JoinOfMore(part, kept);
    JoinOfNone();
    assert name == part + [0x2f] + rest;
    assert [part] + [] == [part];
    if kept == [] { assert CleanName(rest) == []; } else { assert CleanName(rest) != []; }
  }

  lemma PlainOfOne(part: bytes)
    ensures Plain([part]) == if Keeps(part) then [part] else []
  {
    assert [part][1..] == [] && Plain([]) == [];
  }

  lemma PlainOfMore(part: bytes, parts: seq<bytes>)
    ensures Plain([part] + parts) == if Keeps(part) then [part] + Plain(parts) else Plain(parts)
  {
    assert ([part] + parts)[1..] == parts;
  }

  lemma JoinOfNone()
    ensures Join([]) == []
  {
  }

  lemma JoinOfMore(part: bytes, parts: seq<bytes>)
    requires AllClean(parts)
    ensures Join([part]) == part
    ensures parts != [] ==> Join(parts) != [] && Join([part] + parts) == part + [SLASH] + Join(parts)
  {
    if parts != [] {
      assert ([part] + parts)[1..] == parts;
      assert IsPlain(parts[0]);
    } else {
      assert [part] + parts == [part];
    }
  }
}
