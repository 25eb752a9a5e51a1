/**
 The attribute table of the application start element: setting debuggable, keeping the table
 sorted, and keeping the id, class and style indexes on their attributes.
 */
module AttributeTables {
  import opened LittleEndian
  import opened Options
  import opened Sorting

  const ATTR_DEBUGGABLE_ID := 0x0101_000f
  const NO_INDEX := 0xffff_ffff

  // ----- Fields written in place -----

  function Put16(s: bytes, off: nat, v: nat): (r: bytes)
    requires off + 2 <= |s|
    ensures |r| == |s|
  {
    s[..off] + Le16(v) + s[off + 2..]
  }

  function Put32(s: bytes, off: nat, v: nat): (r: bytes)
    requires off + 4 <= |s|
    ensures |r| == |s|
  {
    s[..off] + Le32(v) + s[off + 4..]
  }

  method PutU16(a: array<byte>, off: nat, v: nat)
    requires off + 2 <= a.Length
    modifies a
    ensures a[..] == Put16(old(a[..]), off, v)
  {
    hide Le16;
    var le := Le16(v);
    a[off], a[off + 1] := le[0], le[1];
    assert a[..] == a[..off] + [le[0], le[1]] + a[off + 2..];
  }

  method PutU32(a: array<byte>, off: nat, v: nat)
    requires off + 4 <= a.Length
    modifies a
    ensures a[..] == Put32(old(a[..]), off, v)
  {
    hide Le32;
    var le := Le32(v);
    a[off], a[off + 1], a[off + 2], a[off + 3] := le[0], le[1], le[2], le[3];
    assert a[..] == a[..off] + [le[0], le[1], le[2], le[3]] + a[off + 4..];
  }

  // ----- One attribute -----

  /** An attribute naming debuggable with the boolean value true; what follows the value is kept. */
  function Debuggable(attr: bytes, ns: nat, debug: nat): (r: bytes)
    requires |attr| >= 20
    ensures |r| == |attr|
  {
    Le32(ns) + Le32(debug) + Le32(NO_INDEX) + Le16(8) + [0, 0x12] + Le32(0xffff_ffff) + attr[20..]
  }

  lemma DebuggableFields(s: bytes, ns: nat, debug: nat)
    requires |s| >= 20
    ensures var w := Put16(Put32(Put32(Put32(s, 0, ns), 4, debug), 8, NO_INDEX), 12, 8);
            Put32(w[14 := 0][15 := 0x12], 16, 0xffff_ffff) == Debuggable(s, ns, debug)
  {
    hide Le16, Le32;
    var w1 := Put32(s, 0, ns);
    assert w1 == Le32(ns) + s[4..];
    var w2 := Put32(w1, 4, debug);
    assert w2 == Le32(ns) + Le32(debug) + s[8..];
    var w3 := Put32(w2, 8, NO_INDEX);
    assert w3 == Le32(ns) + Le32(debug) + Le32(NO_INDEX) + s[12..];
    var w4 := Put16(w3, 12, 8);
    assert w4 == Le32(ns) + Le32(debug) + Le32(NO_INDEX) + Le16(8) + s[14..];
    var w5 := w4[14 := 0][15 := 0x12];
    assert w5 == Le32(ns) + Le32(debug) + Le32(NO_INDEX) + Le16(8) + [0, 0x12] + s[16..];
  }

  /** writeDebuggableAttribute, field by field in place. */
  method WriteDebuggable(attr: array<byte>, ns: nat, debug: nat)
    requires attr.Length >= 20
    modifies attr
    ensures attr[..] == Debuggable(old(attr[..]), ns, debug)
  {
    hide Put16, Put32, Debuggable;
    DebuggableFields(attr[..], ns, debug);
    PutU32(attr, 0, ns);
    PutU32(attr, 4, debug);
    PutU32(attr, 8, NO_INDEX);
    PutU16(attr, 12, 8);
    attr[14] := 0;
    attr[15] := 0x12;
    PutU32(attr, 16, 0xffff_ffff);
  }

  function NameOf(attr: bytes): nat
    requires |attr| >= 8
  {
    U32(attr, 4)
  }

  function ResourceId(ids: seq<nat>, name: nat): nat {
    if name < |ids| then ids[name] else 0
  }

  /** The attributes that are overwritten: those named debuggable, by string or by resource id. */
  predicate IsDebuggable(attr: bytes, debug: nat, ids: seq<nat>)
    requires |attr| >= 8
  {
    NameOf(attr) == debug || ResourceId(ids, NameOf(attr)) == ATTR_DEBUGGABLE_ID
  }

  function Rewritten(attr: bytes, ns: nat, debug: nat, ids: seq<nat>): (r: bytes)
    requires |attr| >= 20
    ensures |r| == |attr|
  {
    if IsDebuggable(attr, debug, ids) then Debuggable(attr, ns, debug) else attr
  }

  lemma DebuggableNamed(attr: bytes, ns: nat, debug: nat, ids: seq<nat>)
    requires |attr| >= 20 && debug < 0x1_0000_0000
    ensures NameOf(Debuggable(attr, ns, debug)) == debug
    ensures IsDebuggable(Debuggable(attr, ns, debug), debug, ids)
  {
    hide Le16, Le32, U32;
    var r := Debuggable(attr, ns, debug);
    assert r[4..8] == Le32(debug);
    FieldAt32(r, 4, debug);
  }

  /** Overwriting an attribute again changes nothing. */
  lemma RewrittenTwice(attr: bytes, ns: nat, debug: nat, ids: seq<nat>)
    requires |attr| >= 20 && debug < 0x1_0000_0000
    ensures Rewritten(Rewritten(attr, ns, debug, ids), ns, debug, ids) == Rewritten(attr, ns, debug, ids)
  {
    hide Le16, Le32, IsDebuggable;
    if IsDebuggable(attr, debug, ids) {
      DebuggableNamed(attr, ns, debug, ids);
      assert Debuggable(attr, ns, debug)[20..] == attr[20..];
    }
  }

  // ----- Sorting -----

  /** An attribute of the table, with its one-based place in the original table, or 0 if it is new. */
  datatype Entry = Entry(attr: bytes, place: nat)

  function SortKey(attr: bytes, ids: seq<nat>): nat {
    if |attr| < 8 then NO_INDEX
    else
      var id := ResourceId(ids, NameOf(attr));
      if id == 0 then NO_INDEX else id
  }

  function NameKey(attr: bytes): nat {
    if |attr| < 8 then 0 else NameOf(attr)
  }

  /** The table's order: by resource id, unknown ones last, then by name index. */
  predicate Before(a: bytes, b: bytes, ids: seq<nat>) {
    SortKey(a, ids) < SortKey(b, ids) || (SortKey(a, ids) == SortKey(b, ids) && NameKey(a) < NameKey(b))
  }

  /** The order as a function, to sort by. */
  function TableOrder(ids: seq<nat>): (Entry, Entry) -> bool {
    (a: Entry, b: Entry) => Before(a.attr, b.attr, ids)
  }

  lemma TableOrderIsWeak(ids: seq<nat>)
    ensures StrictWeak(TableOrder(ids))
  {
    hide SortKey, NameKey;
  }

  // ----- The table of a start element -----

  /** The bytes taken by a table of count attributes of size bytes each. */
  function Area(count: nat, size: nat): nat {
    count * size
  }

  lemma OneMore(count: nat, size: nat)
    requires count > 0
    ensures Area(count, size) == Area(count - 1, size) + size
  {
  }

  /** The attributes of a table of count attributes of size bytes each, the first at the given place. */
  function Entries(table: bytes, size: nat, count: nat, place: nat): (es: seq<Entry>)
    requires |table| == Area(count, size)
    ensures |es| == count
    ensures forall i :: 0 <= i < |es| ==> |es[i].attr| == size && es[i].place == place + i
    decreases count
  {
    if count == 0 then []
    else
      OneMore(count, size);
      [Entry(table[..size], place)] + Entries(table[size..], size, count - 1, place + 1)
  }

  function RewriteAll(es: seq<Entry>, ns: nat, debug: nat, ids: seq<nat>): (r: seq<Entry>)
    requires forall i :: 0 <= i < |es| ==> |es[i].attr| >= 20
    ensures |r| == |es|
    ensures forall i :: 0 <= i < |es| ==> r[i] == Entry(Rewritten(es[i].attr, ns, debug, ids), es[i].place)
  {
    seq(|es|, i requires 0 <= i < |es| => Entry(Rewritten(es[i].attr, ns, debug, ids), es[i].place))
  }

  predicate AnyDebuggable(es: seq<Entry>, debug: nat, ids: seq<nat>)
    requires forall i :: 0 <= i < |es| ==> |es[i].attr| >= 20
  {
    exists i :: 0 <= i < |es| && IsDebuggable(es[i].attr, debug, ids)
  }

  /** The table with debuggable set, before sorting: overwritten where present, otherwise added at the end. */
  function WithDebuggable(es: seq<Entry>, size: nat, ns: nat, debug: nat, ids: seq<nat>): (r: seq<Entry>)
    requires size >= 20 && forall i :: 0 <= i < |es| ==> |es[i].attr| == size
    ensures forall i :: 0 <= i < |r| ==> |r[i].attr| == size
    ensures |es| <= |r| <= |es| + 1
  {
    RewriteAll(es, ns, debug, ids)
    + if AnyDebuggable(es, debug, ids) then [] else [Entry(Debuggable(Zeros(size), ns, debug), 0)]
  }

  /** The one-based position of the entry from the given place of the original table, or 0. */
  function PositionOf(es: seq<Entry>, place: nat): (p: nat)
    ensures p <= |es|
    ensures p > 0 ==> es[p - 1].place == place
    ensures p == 0 ==> forall i :: 0 <= i < |es| ==> es[i].place != place
  {
    if es == [] then 0
    else if es[0].place == place then 1
    else if PositionOf(es[1..], place) == 0 then 0 else 1 + PositionOf(es[1..], place)
  }

  /** Where the attribute an index of the original table names is now; 0 if it named none. */
  function Pointer(es: seq<Entry>, index: nat, count: nat): nat {
    if 1 <= index <= count then PositionOf(es, index) else 0
  }

  function Attributes(es: seq<Entry>): bytes {
    if es == [] then [] else es[0].attr + Attributes(es[1..])
  }

  datatype Table = Table(base: nat, size: nat, count: nat, end: nat)

  /** The attribute table of a start element chunk, if it lies inside the chunk. */
  function TableOf(chunk: bytes): (t: Option<Table>)
    ensures t.Some? ==>
              && |chunk| >= 36 && 36 <= t.value.base <= t.value.end <= |chunk| && t.value.size >= 20
              && t.value.end - t.value.base == Area(t.value.count, t.value.size)
  {
    if |chunk| < 36 || U16(chunk, 24) < 20 then None
    else TableWithin(|chunk|, 16 + U16(chunk, 24), U16(chunk, 26), U16(chunk, 28))
  }

  function TableWithin(length: nat, base: nat, size: nat, count: nat): (t: Option<Table>)
    ensures t.Some? ==>
              && base <= t.value.end <= length && size >= 20 && t.value == Table(base, size, count, t.value.end)
              && t.value.end - base == Area(count, size)
  {
    var end := base + Area(count, size);
    if size < 20 || end > length then None else Some(Table(base, size, count, end))
  }

  function SortedTable(chunk: bytes, t: Table, ns: nat, debug: nat, ids: seq<nat>): (es: seq<Entry>)
    requires TableOf(chunk) == Some(t)
  {
    StableSort(WithDebuggable(Entries(chunk[t.base..t.end], t.size, t.count, 1), t.size, ns, debug, ids), TableOrder(ids))
  }

  /** The first 36 bytes of a start element with its size, its attribute count and its three attribute indexes replaced. */
  function HeaderWith(chunk: bytes, size: nat, count: nat, id: nat, cls: nat, style: nat): (h: bytes)
    requires |chunk| >= 36
    ensures |h| == 36
  {
    chunk[..4] + Le32(size) + chunk[8..28] + Le16(count) + Le16(id) + Le16(cls) + Le16(style)
  }

  /** The chunk around a table: what stood before it, the entries, and what stood behind it, with its own fields updated. */
  function WithTable(chunk: bytes, t: Table, es: seq<Entry>): bytes
    requires TableOf(chunk) == Some(t)
  {
    HeaderWith(chunk, t.base + |Attributes(es)| + (|chunk| - t.end), |es|,
               Pointer(es, U16(chunk, 30), t.count), Pointer(es, U16(chunk, 32), t.count), Pointer(es, U16(chunk, 34), t.count))
    + chunk[36..t.base] + Attributes(es) + chunk[t.end..]
  }

  /** patchApplicationStart on the bytes of the start element. */
  function PatchedApplication(chunk: bytes, ns: nat, debug: nat, ids: seq<nat>): Option<bytes> {
    var t := TableOf(chunk);
    if t.None? then None else Some(WithTable(chunk, t.value, SortedTable(chunk, t.value, ns, debug, ids)))
  }

  // ----- The loops -----

  lemma PutAll(s: bytes, size: nat, count: nat, id: nat, cls: nat, style: nat)
    requires |s| >= 36
    ensures Put16(Put16(Put16(Put16(Put32(s, 4, size), 28, count), 30, id), 32, cls), 34, style)
         == HeaderWith(s[..36], size, count, id, cls, style) + s[36..]
  {
    hide Le16, Le32;
    var h := s[..36];
    var s1 := Put32(s, 4, size);
    assert s1 == h[..4] + Le32(size) + h[8..] + s[36..];
    var s2 := Put16(s1, 28, count);
    assert s2 == h[..4] + Le32(size) + h[8..28] + Le16(count) + h[30..] + s[36..];
    var s3 := Put16(s2, 30, id);
    assert s3 == h[..4] + Le32(size) + h[8..28] + Le16(count) + Le16(id) + h[32..] + s[36..];
    var s4 := Put16(s3, 32, cls);
    assert s4 == h[..4] + Le32(size) + h[8..28] + Le16(count) + Le16(id) + Le16(cls) + h[34..] + s[36..];
  }

  /**
   patchApplicationStart: one loop copies, overwrites and remembers the attributes, the table is
   sorted, and the chunk is put together and its fields written back.
   */
  method PatchApplicationStart(chunk: bytes, ns: nat, debug: nat, ids: seq<nat>) returns (r: Option<bytes>)
    ensures r == PatchedApplication(chunk, ns, debug, ids)
  {
    if |chunk| < 36 {
      return None;
    }
    var attrStart, size, count := U16(chunk, 24), U16(chunk, 26), U16(chunk, 28);
    var base := 16 + attrStart;
    if attrStart < 20 || size < 20 || base + Area(count, size) > |chunk| {
      return None;
    }
    var t := Table(base, size, count, base + Area(count, size));
    assert TableOf(chunk) == Some(t);
    hide U16, TableOf;
    var attrs := CollectAttributes(chunk[base..t.end], size, count, ns, debug, ids);
    attrs := StableSort(attrs, TableOrder(ids));
    var patched := FinishChunk(chunk, t, attrs);
    return Some(patched);
  }

  /** The patched bytes from the sorted attributes: written one after the other, and then the chunk's own fields. */
  method FinishChunk(chunk: bytes, t: Table, attrs: seq<Entry>) returns (patched: bytes)
    requires TableOf(chunk) == Some(t)
    ensures patched == WithTable(chunk, t, attrs)
  {
    var idAt := Pointer(attrs, U16(chunk, 30), t.count);
    var classAt := Pointer(attrs, U16(chunk, 32), t.count);
    var styleAt := Pointer(attrs, U16(chunk, 34), t.count);
    var body := JoinAttributes(attrs);
    hide *;
    TableInside(chunk, t);
    patched := chunk[..t.base] + body + chunk[t.end..];
    Assembled(chunk, t, attrs, idAt, classAt, styleAt);
    patched := Put32(patched, 4, |patched|);
    patched := Put16(patched, 28, |attrs|);
    patched := Put16(patched, 30, idAt);
    patched := Put16(patched, 32, classAt);
    patched := Put16(patched, 34, styleAt);
  }

  lemma TableInside(chunk: bytes, t: Table)
    requires TableOf(chunk) == Some(t)
    ensures 36 <= t.base <= t.end <= |chunk|
  {
  }

  lemma Assembled(chunk: bytes, t: Table, attrs: seq<Entry>, id: nat, cls: nat, style: nat)
    requires TableOf(chunk) == Some(t)
    requires id == Pointer(attrs, U16(chunk, 30), t.count)
    requires cls == Pointer(attrs, U16(chunk, 32), t.count)
    requires style == Pointer(attrs, U16(chunk, 34), t.count)
    ensures 36 <= t.base <= t.end <= |chunk|
    ensures var p := chunk[..t.base] + Attributes(attrs) + chunk[t.end..];
            Put16(Put16(Put16(Put16(Put32(p, 4, |p|), 28, |attrs|), 30, id), 32, cls), 34, style) == WithTable(chunk, t, attrs)
  {
    hide U16, Pointer, TableWithin, Put16, Put32, HeaderWith, Attributes;
    var body := Attributes(attrs);
    var whole := chunk[..t.base] + body + chunk[t.end..];
    assert whole[..36] == chunk[..36] && whole[36..] == chunk[36..t.base] + body + chunk[t.end..];
    PutAll(whole, |whole|, |attrs|, id, cls, style);
    SameHeader(chunk, whole[..36], |whole|, |attrs|, id, cls, style);
  }

  lemma SameHeader(chunk: bytes, h: bytes, size: nat, count: nat, id: nat, cls: nat, style: nat)
    requires |chunk| >= 36 && h == chunk[..36]
    ensures HeaderWith(h, size, count, id, cls, style) == HeaderWith(chunk, size, count, id, cls, style)
  {
    hide Le16, Le32;
    assert h[..4] == chunk[..4] && h[8..28] == chunk[8..28];
  }

  /** A copy of an attribute, overwritten if it is the one to set. */
  method CopyAttribute(attr: bytes, ns: nat, debug: nat, ids: seq<nat>) returns (r: bytes, hit: bool)
    requires |attr| >= 20
    ensures r == Rewritten(attr, ns, debug, ids)
    ensures hit == IsDebuggable(attr, debug, ids)
  {
    hide Debuggable;
    var copy := new byte[|attr|](k requires 0 <= k < |attr| => attr[k]);
    assert copy[..] == attr;
    hit := IsDebuggable(attr, debug, ids);
    if hit {
      WriteDebuggable(copy, ns, debug);
    }
    r := copy[..];
  }

  method NewAttribute(size: nat, ns: nat, debug: nat) returns (r: bytes)
    requires size >= 20
    ensures r == Debuggable(Zeros(size), ns, debug)
  {
    hide Debuggable;
    var attr := new byte[size](_ => 0);
    assert attr[..] == Zeros(size);
    WriteDebuggable(attr, ns, debug);
    r := attr[..];
  }

  lemma FirstEntry(table: bytes, size: nat, count: nat, place: nat)
    requires count > 0 && |table| == Area(count, size)
    ensures |table| >= size && |table[size..]| == Area(count - 1, size)
    ensures Entries(table, size, count, place)
         == [Entry(table[..size], place)] + Entries(table[size..], size, count - 1, place + 1)
  {
    OneMore(count, size);
  }

  lemma NoEntries(table: bytes, size: nat, place: nat)
    requires |table| == Area(0, size)
    ensures Entries(table, size, 0, place) == []
  {
  }

  method CollectAttributes(table: bytes, size: nat, count: nat, ns: nat, debug: nat, ids: seq<nat>) returns (attrs: seq<Entry>)
    requires |table| == Area(count, size) && size >= 20
    ensures attrs == WithDebuggable(Entries(table, size, count, 1), size, ns, debug, ids)
  {
    hide IsDebuggable, Debuggable, NameOf, Area, Rewritten, Entries, Zeros;
    ghost var es := Entries(table, size, count, 1);
    attrs := [];
    var rest := table;
    var patchedExisting := false;
    for i := 0 to count
      invariant |rest| == Area(count - i, size)
      invariant Entries(rest, size, count - i, 1 + i) == es[i..]
      invariant attrs == RewriteAll(es, ns, debug, ids)[..i]
      invariant patchedExisting <==> AnyDebuggable(es[..i], debug, ids)
    {
      FirstEntry(rest, size, count - i, 1 + i);
      var attr := rest[..size];
      assert es[i..][0] == es[i] && es[i..][1..] == es[i + 1..];
      assert es[..i + 1] == es[..i] + [es[i]];
      AnyOfMore(es[..i], es[i], debug, ids);
      var copy, hit := CopyAttribute(attr, ns, debug, ids);
      patchedExisting := patchedExisting || hit;
      attrs := attrs + [Entry(copy, i + 1)];
      rest := rest[size..];
    }
    assert es[..count] == es && attrs == RewriteAll(es, ns, debug, ids);
    if !patchedExisting {
      var attr := NewAttribute(size, ns, debug);
      attrs := attrs + [Entry(attr, 0)];
    }
  }

  lemma AnyOfMore(es: seq<Entry>, e: Entry, debug: nat, ids: seq<nat>)
    requires |e.attr| >= 20 && forall i :: 0 <= i < |es| ==> |es[i].attr| >= 20
    ensures AnyDebuggable(es + [e], debug, ids) <==> AnyDebuggable(es, debug, ids) || IsDebuggable(e.attr, debug, ids)
  {
    hide IsDebuggable;
    var more := es + [e];
    assert more[|es|] == e;
    if AnyDebuggable(es, debug, ids) {
      var i :| 0 <= i < |es| && IsDebuggable(es[i].attr, debug, ids);
      assert more[i] == es[i];
    }
  }

  method JoinAttributes(es: seq<Entry>) returns (body: bytes)
    ensures body == Attributes(es)
  {
    body := [];
    for i := 0 to |es|
      invariant Attributes(es) == body + Attributes(es[i..])
    {
      assert es[i..][1..] == es[i + 1..];
      body := body + es[i].attr;
    }
  }
}
