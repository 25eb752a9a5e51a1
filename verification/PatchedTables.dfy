/** What the patched attribute table of the application element holds, and that patching it again leaves it as it is. */
module PatchedTables {
  import opened LittleEndian
  import opened Options
  import opened Sorting
  import opened AttributeTables

  predicate Uniform(es: seq<Entry>, size: nat) {
    forall i :: 0 <= i < |es| ==> |es[i].attr| == size
  }

  /** The same attributes, placed one after the other. */
  function Renumbered(es: seq<Entry>, place: nat): (r: seq<Entry>)
    ensures |r| == |es|
  {
    seq(|es|, i requires 0 <= i < |es| => Entry(es[i].attr, place + i))
  }

  lemma {:induction false} AttributesSize(es: seq<Entry>, size: nat)
    requires Uniform(es, size)
    ensures |Attributes(es)| == Area(|es|, size)
  {
    if es != [] {
      AttributesSize(es[1..], size);
      OneMore(|es|, size);
    }
  }

  /** The attributes that were written one after the other are read back one by one. */
  lemma {:induction false} EntriesOfAttributes(es: seq<Entry>, size: nat, place: nat)
    requires Uniform(es, size)
    ensures |Attributes(es)| == Area(|es|, size)
    ensures Entries(Attributes(es), size, |es|, place) == Renumbered(es, place)
  {
    hide Area;
    AttributesSize(es, size);
    var table := Attributes(es);
    if es == [] {
      NoEntries(table, size, place);
    } else {
      EntriesOfAttributes(es[1..], size, place + 1);
      assert table[..size] == es[0].attr && table[size..] == Attributes(es[1..]);
      FirstEntry(table, size, |es|, place);
      assert Renumbered(es, place) == [Entry(es[0].attr, place)] + Renumbered(es[1..], place + 1);
    }
  }

  // ----- The patched chunk -----

  lemma HeaderFields(h: bytes, chunk: bytes, size: nat, count: nat, id: nat, cls: nat, style: nat)
    requires |chunk| >= 36 && h == HeaderWith(chunk, size, count, id, cls, style)
    ensures h[..4] == chunk[..4] && h[4..8] == Le32(size) && h[8..28] == chunk[8..28]
    ensures h[28..30] == Le16(count) && h[30..32] == Le16(id) && h[32..34] == Le16(cls) && h[34..36] == Le16(style)
  {
    hide Le16, Le32;
  }

  /** Everything of the patched chunk that a reader looks at. */
  lemma PatchedChunk(chunk: bytes, t: Table, es: seq<Entry>)
    requires TableOf(chunk) == Some(t) && Uniform(es, t.size)
    ensures var p := WithTable(chunk, t, es);
            var end := t.base + |Attributes(es)|;
            && |p| == end + (|chunk| - t.end)
            && p[..4] == chunk[..4] && p[8..28] == chunk[8..28]
            && U32(p, 4) == |p| % 0x1_0000_0000
            && U16(p, 28) == |es| % 0x1_0000
            && U16(p, 30) == Pointer(es, U16(chunk, 30), t.count) % 0x1_0000
            && U16(p, 32) == Pointer(es, U16(chunk, 32), t.count) % 0x1_0000
            && U16(p, 34) == Pointer(es, U16(chunk, 34), t.count) % 0x1_0000
            && p[36..t.base] == chunk[36..t.base] && p[t.base..end] == Attributes(es) && p[end..] == chunk[t.end..]
  {
    hide U16, U32, Pointer, TableWithin, HeaderWith, Attributes, Uniform, Area;
    var p := WithTable(chunk, t, es);
    var id := Pointer(es, U16(chunk, 30), t.count);
    var cls := Pointer(es, U16(chunk, 32), t.count);
    var style := Pointer(es, U16(chunk, 34), t.count);
    var h := HeaderWith(chunk, |p|, |es|, id, cls, style);
    var body := Attributes(es);
    assert p == h + chunk[36..t.base] + body + chunk[t.end..];
    Pieces(p, h, chunk[36..t.base], body, chunk[t.end..]);
    FieldsOfHeader(p, chunk, |p|, |es|, id, cls, style);
  }

  lemma Pieces(p: bytes, h: bytes, a: bytes, b: bytes, c: bytes)
    requires p == h + a + b + c
    ensures p[..|h|] == h
    ensures p[|h|..|h| + |a|] == a
    ensures p[|h| + |a|..|h| + |a| + |b|] == b
    ensures p[|h| + |a| + |b|..] == c
  {
  }

  lemma FieldsOfHeader(p: bytes, chunk: bytes, size: nat, count: nat, id: nat, cls: nat, style: nat)
    requires |chunk| >= 36 && |p| >= 36
    requires p[..36] == HeaderWith(chunk, size, count, id, cls, style)
    ensures p[..4] == chunk[..4] && p[8..28] == chunk[8..28]
    ensures U32(p, 4) == size % 0x1_0000_0000
    ensures U16(p, 28) == count % 0x1_0000 && U16(p, 30) == id % 0x1_0000
    ensures U16(p, 32) == cls % 0x1_0000 && U16(p, 34) == style % 0x1_0000
  {
    hide *;
    var h := HeaderWith(chunk, size, count, id, cls, style);
    HeaderFields(h, chunk, size, count, id, cls, style);
    assert p[0..36] == p[..36];
    SubSlice(p, 0, 36, 0, 4);
    SubSlice(p, 0, 36, 4, 8);
    SubSlice(p, 0, 36, 8, 28);
    SubSlice(p, 0, 36, 28, 30);
    SubSlice(p, 0, 36, 30, 32);
    SubSlice(p, 0, 36, 32, 34);
    SubSlice(p, 0, 36, 34, 36);
    assert p[0..4] == p[..4] && h[0..4] == h[..4];
    FieldAt32(p, 4, size);
    FieldAt16(p, 28, count);
    FieldAt16(p, 30, id);
    FieldAt16(p, 32, cls);
    FieldAt16(p, 34, style);
  }

  lemma SameField16(a: bytes, b: bytes, x: nat, y: nat, off: nat)
    requires x <= off && off + 2 <= y && y <= |a| && y <= |b| && a[x..y] == b[x..y]
    ensures U16(a, off) == U16(b, off)
  {
    FieldOfSlice(a, x, y, off - x);
    FieldOfSlice(b, x, y, off - x);
  }

  lemma SameField32(a: bytes, b: bytes, x: nat, y: nat, off: nat)
    requires x <= off && off + 4 <= y && y <= |a| && y <= |b| && a[x..y] == b[x..y]
    ensures U32(a, off) == U32(b, off)
  {
    hide U32;
    FieldOfSlice(a, x, y, off - x);
    FieldOfSlice(b, x, y, off - x);
  }

  /** The patched chunk's table, as its own header describes it: the count field keeps 16 bits. */
  lemma PatchedTableOf(chunk: bytes, t: Table, es: seq<Entry>)
    requires TableOf(chunk) == Some(t) && Uniform(es, t.size)
    ensures var n := |es| % 0x1_0000;
            TableOf(WithTable(chunk, t, es)) == Some(Table(t.base, t.size, n, t.base + Area(n, t.size)))
  {
    hide U16, WithTable, Uniform, Area, Attributes;
    var p := WithTable(chunk, t, es);
    var n := |es| % 0x1_0000;
    PatchedChunk(chunk, t, es);
    AttributesSize(es, t.size);
    AreaGrows(n, |es|, t.size);
    SameField16(chunk, p, 8, 28, 24);
    SameField16(chunk, p, 8, 28, 26);
  }

  lemma AreaGrows(m: nat, n: nat, size: nat)
    requires m <= n
    ensures Area(m, size) <= Area(n, size)
  {
    assert Area(n, size) - Area(m, size) == (n - m) * size;
  }

  // ----- What the table holds -----

  lemma {:induction false} PositionIsKnown(es: seq<Entry>, i: nat)
    requires i < |es|
    ensures 1 <= PositionOf(es, es[i].place) <= i + 1
  {
    if es[0].place != es[i].place {
      PositionIsKnown(es[1..], i - 1);
    }
  }

  lemma TableFacts(chunk: bytes, t: Table)
    requires TableOf(chunk) == Some(t)
    ensures 36 <= t.base <= t.end <= |chunk| && t.size >= 20
    ensures t.end - t.base == Area(t.count, t.size)
  {
  }

  /** The attributes of the table as they were, numbered from 1. */
  function OldEntries(chunk: bytes, t: Table): (es: seq<Entry>)
    requires TableOf(chunk) == Some(t)
    ensures |es| == t.count
    ensures forall i :: 0 <= i < |es| ==> |es[i].attr| == t.size && es[i].place == 1 + i
  {
    Entries(chunk[t.base..t.end], t.size, t.count, 1)
  }

  lemma FoundAgain(all: seq<Entry>, es: seq<Entry>, k: nat) returns (i: nat)
    requires multiset(all) == multiset(es) && k < |all|
    ensures i < |es| && es[i] == all[k]
  {
    assert all[k] in multiset(all);
    assert all[k] in es;
    i :| i < |es| && es[i] == all[k];
  }

  /** The i-th attribute of the patched table is an old one, set if it was named debuggable, or the added one. */
  predicate Explained(e: Entry, was: seq<Entry>, size: nat, ns: nat, debug: nat, ids: seq<nat>)
    requires size >= 20 && forall i :: 0 <= i < |was| ==> |was[i].attr| == size
  {
    if e.place == 0 then !AnyDebuggable(was, debug, ids) && e.attr == Debuggable(Zeros(size), ns, debug)
    else e.place <= |was| && e.attr == Rewritten(was[e.place - 1].attr, ns, debug, ids)
  }

  /**
   The patched table is sorted and a permutation of the old attributes, those named debuggable being
   set to true and one such being added if there was none; everything else is as it was.
   */
  lemma TableMeaning(chunk: bytes, t: Table, ns: nat, debug: nat, ids: seq<nat>)
    requires TableOf(chunk) == Some(t)
    ensures var was := OldEntries(chunk, t);
            var es := SortedTable(chunk, t, ns, debug, ids);
            && Sorted(es, TableOrder(ids)) && Uniform(es, t.size)
            && multiset(es) == multiset(WithDebuggable(was, t.size, ns, debug, ids))
            && |es| == t.count + (if AnyDebuggable(was, debug, ids) then 0 else 1)
            && (forall i :: 0 <= i < |es| ==> Explained(es[i], was, t.size, ns, debug, ids))
            && (forall x :: Alike(es, x, TableOrder(ids)) == Alike(WithDebuggable(was, t.size, ns, debug, ids), x, TableOrder(ids)))
  {
    hide IsDebuggable, Debuggable, TableOf, Before, Sorted, TableOrder, StrictWeak, StableSort, Alike;
    TableFacts(chunk, t);
    var was := OldEntries(chunk, t);
    var all := WithDebuggable(was, t.size, ns, debug, ids);
    var es := SortedTable(chunk, t, ns, debug, ids);
    TableOrderIsWeak(ids);
    SortSorts(all, TableOrder(ids));
    forall i | 0 <= i < |es|
      ensures |es[i].attr| == t.size && Explained(es[i], was, t.size, ns, debug, ids)
    {
      var k := FoundAgain(es, all, i);
    }
    forall x ensures Alike(es, x, TableOrder(ids)) == Alike(all, x, TableOrder(ids)) {
      SortStable(all, x, TableOrder(ids));
    }
  }

  /** The table names debuggable: at least one of its attributes is set to true. */
  lemma SomeDebuggable(chunk: bytes, t: Table, ns: nat, debug: nat, ids: seq<nat>)
    requires TableOf(chunk) == Some(t) && debug < 0x1_0000_0000
    ensures var es := SortedTable(chunk, t, ns, debug, ids);
            exists i :: 0 <= i < |es| && |es[i].attr| >= 20 && IsDebuggable(es[i].attr, debug, ids)
                        && es[i].attr == Debuggable(es[i].attr, ns, debug)
  {
    hide *;
    TableFacts(chunk, t);
    var was := OldEntries(chunk, t);
    var all := WithDebuggable(was, t.size, ns, debug, ids);
    TableMeaning(chunk, t, ns, debug, ids);
    var k, a := SetHere(was, t.size, ns, debug, ids);
    DebuggableNamed(a, ns, debug, ids);
    var i := FoundAgain(all, SortedTable(chunk, t, ns, debug, ids), k);
    SetAgain(a, ns, debug);
  }

  lemma SetAgain(a: bytes, ns: nat, debug: nat)
    requires |a| >= 20
    ensures Debuggable(Debuggable(a, ns, debug), ns, debug) == Debuggable(a, ns, debug)
  {
    hide Le16, Le32;
    assert Debuggable(a, ns, debug)[20..] == a[20..];
  }

  lemma SetHere(was: seq<Entry>, size: nat, ns: nat, debug: nat, ids: seq<nat>) returns (k: nat, a: bytes)
    requires size >= 20 && forall i :: 0 <= i < |was| ==> |was[i].attr| == size
    ensures |a| == size && k < |WithDebuggable(was, size, ns, debug, ids)|
    ensures WithDebuggable(was, size, ns, debug, ids)[k].attr == Debuggable(a, ns, debug)
  {
    hide IsDebuggable, Debuggable;
    if AnyDebuggable(was, debug, ids) {
      k :| 0 <= k < |was| && IsDebuggable(was[k].attr, debug, ids);
      a := was[k].attr;
    } else {
      k, a := |was|, Zeros(size);
    }
  }

  /** An index that named an attribute of the old table names the same attribute in the patched one. */
  lemma PointersFollow(chunk: bytes, t: Table, ns: nat, debug: nat, ids: seq<nat>, index: nat)
    requires TableOf(chunk) == Some(t)
    ensures var es := SortedTable(chunk, t, ns, debug, ids);
            var p := Pointer(es, index, t.count);
            if 1 <= index <= t.count then
              && 1 <= p <= |es|
              && es[p - 1] == Entry(Rewritten(OldEntries(chunk, t)[index - 1].attr, ns, debug, ids), index)
            else p == 0
  {
    hide *;
    TableFacts(chunk, t);
    var es := SortedTable(chunk, t, ns, debug, ids);
    if 1 <= index <= t.count {
      var was := OldEntries(chunk, t);
      var all := WithDebuggable(was, t.size, ns, debug, ids);
      TableMeaning(chunk, t, ns, debug, ids);
      OldRewritten(was, t.size, ns, debug, ids, index - 1);
      var i := FoundAgain(all, es, index - 1);
      PositionIsKnown(es, i);
      var p := PositionOf(es, index);
      ExplainedBy(es[p - 1], was, t.size, ns, debug, ids);
    }
    PointerIs(es, index, t.count);
  }

  lemma OldRewritten(was: seq<Entry>, size: nat, ns: nat, debug: nat, ids: seq<nat>, k: nat)
    requires size >= 20 && forall i :: 0 <= i < |was| ==> |was[i].attr| == size
    requires k < |was|
    ensures |WithDebuggable(was, size, ns, debug, ids)| > k
    ensures WithDebuggable(was, size, ns, debug, ids)[k] == Entry(Rewritten(was[k].attr, ns, debug, ids), was[k].place)
  {
  }

  lemma ExplainedBy(e: Entry, was: seq<Entry>, size: nat, ns: nat, debug: nat, ids: seq<nat>)
    requires size >= 20 && forall i :: 0 <= i < |was| ==> |was[i].attr| == size
    requires Explained(e, was, size, ns, debug, ids) && e.place > 0
    ensures e.place <= |was| && e.attr == Rewritten(was[e.place - 1].attr, ns, debug, ids)
  {
  }

  lemma PointerIs(es: seq<Entry>, index: nat, count: nat)
    ensures Pointer(es, index, count) == if 1 <= index <= count then PositionOf(es, index) else 0
  {
  }

  // ----- Patching again -----

  lemma SortedFixed(chunk: bytes, t: Table, ns: nat, debug: nat, ids: seq<nat>, i: nat)
    requires TableOf(chunk) == Some(t) && debug < 0x1_0000_0000
    requires i < |SortedTable(chunk, t, ns, debug, ids)|
    ensures var e := SortedTable(chunk, t, ns, debug, ids)[i];
            |e.attr| == t.size && t.size >= 20 && Rewritten(e.attr, ns, debug, ids) == e.attr
  {
    hide IsDebuggable, Debuggable, TableOf, Before, Sorted, Rewritten;
    TableFacts(chunk, t);
    TableMeaning(chunk, t, ns, debug, ids);
    var was := OldEntries(chunk, t);
    var e := SortedTable(chunk, t, ns, debug, ids)[i];
    assert Explained(e, was, t.size, ns, debug, ids);
    if e.place == 0 {
      AddedFixed(Zeros(t.size), ns, debug, ids);
    } else {
      RewrittenTwice(was[e.place - 1].attr, ns, debug, ids);
    }
  }

  lemma AddedFixed(attr: bytes, ns: nat, debug: nat, ids: seq<nat>)
    requires |attr| >= 20 && debug < 0x1_0000_0000
    ensures Rewritten(Debuggable(attr, ns, debug), ns, debug, ids) == Debuggable(attr, ns, debug)
  {
    hide Le16, Le32, IsDebuggable;
    assert Debuggable(attr, ns, debug)[20..] == attr[20..];
  }

  lemma SortedRenumbered(es: seq<Entry>, ids: seq<nat>)
    requires Sorted(es, TableOrder(ids))
    ensures StableSort(Renumbered(es, 1), TableOrder(ids)) == Renumbered(es, 1)
  {
    hide Before;
    assert Sorted(Renumbered(es, 1), TableOrder(ids));
    SortOfSorted(Renumbered(es, 1), TableOrder(ids));
  }

  lemma {:induction false} RenumberedAttributes(es: seq<Entry>, place: nat)
    ensures Attributes(Renumbered(es, place)) == Attributes(es)
  {
    if es != [] {
      RenumberedAttributes(es[1..], place + 1);
      assert Renumbered(es, place)[1..] == Renumbered(es[1..], place + 1);
    }
  }

  lemma {:induction false} RenumberedPosition(es: seq<Entry>, place: nat, k: nat)
    requires k < |es|
    ensures PositionOf(Renumbered(es, place), place + k) == k + 1
    decreases k
  {
    if k > 0 {
      RenumberedPosition(es[1..], place + 1, k - 1);
      assert Renumbered(es, place)[1..] == Renumbered(es[1..], place + 1);
    }
  }

  lemma PointerFixed(es: seq<Entry>, p: nat)
    requires p <= |es|
    ensures Pointer(Renumbered(es, 1), p, |es|) == p
  {
    if p > 0 { RenumberedPosition(es, 1, p - 1); }
  }

  /** Patching the patched chunk finds the same sorted table. */
  lemma SortedTableAgain(chunk: bytes, t: Table, ns: nat, debug: nat, ids: seq<nat>, p: bytes, u: Table)
    requires TableOf(chunk) == Some(t) && debug < 0x1_0000_0000
    requires TableOf(p) == Some(u) && u.size == t.size && u.count == |SortedTable(chunk, t, ns, debug, ids)|
    requires 36 <= u.base <= u.end <= |p| && p[u.base..u.end] == Attributes(SortedTable(chunk, t, ns, debug, ids))
    ensures SortedTable(p, u, ns, debug, ids) == Renumbered(SortedTable(chunk, t, ns, debug, ids), 1)
  {
    hide IsDebuggable, Debuggable, TableOf, Before, Sorted, Rewritten, SortedTable;
    TableFacts(chunk, t);
    var es := SortedTable(chunk, t, ns, debug, ids);
    TableMeaning(chunk, t, ns, debug, ids);
    EntriesOfAttributes(es, t.size, 1);
    var again := Renumbered(es, 1);
    AllFixed(chunk, t, ns, debug, ids);
    SortedRenumbered(es, ids);
    SortedTableIs(p, u, ns, debug, ids, again);
  }

  lemma SortedTableIs(p: bytes, u: Table, ns: nat, debug: nat, ids: seq<nat>, es: seq<Entry>)
    requires TableOf(p) == Some(u) && OldEntries(p, u) == es
    requires WithDebuggable(es, u.size, ns, debug, ids) == es
    requires StableSort(es, TableOrder(ids)) == es
    ensures SortedTable(p, u, ns, debug, ids) == es
  {
    hide TableOf, WithDebuggable;
    TableFacts(p, u);
  }

  lemma AllFixed(chunk: bytes, t: Table, ns: nat, debug: nat, ids: seq<nat>)
    requires TableOf(chunk) == Some(t) && debug < 0x1_0000_0000
    requires Uniform(SortedTable(chunk, t, ns, debug, ids), t.size)
    ensures t.size >= 20
    ensures var again := Renumbered(SortedTable(chunk, t, ns, debug, ids), 1);
            Uniform(again, t.size) && WithDebuggable(again, t.size, ns, debug, ids) == again
  {
    hide IsDebuggable, Debuggable, TableOf, Before, Sorted, Rewritten, SortedTable;
    TableFacts(chunk, t);
    var es := SortedTable(chunk, t, ns, debug, ids);
    SomeDebuggable(chunk, t, ns, debug, ids);
    var again := Renumbered(es, 1);
    var i :| 0 <= i < |es| && |es[i].attr| >= 20 && IsDebuggable(es[i].attr, debug, ids);
    assert IsDebuggable(again[i].attr, debug, ids);
    forall k | 0 <= k < |es| ensures Rewritten(es[k].attr, ns, debug, ids) == es[k].attr {
      SortedFixed(chunk, t, ns, debug, ids, k);
    }
    assert RewriteAll(again, ns, debug, ids) == again;
  }

  lemma HeaderRestored(p: bytes)
    requires |p| >= 36
    ensures HeaderWith(p, U32(p, 4), U16(p, 28), U16(p, 30), U16(p, 32), U16(p, 34)) == p[..36]
  {
    hide Le16, Le32, U16, U32;
    Le32Restores(p, 4);
    Le16Restores(p, 28);
    Le16Restores(p, 30);
    Le16Restores(p, 32);
    Le16Restores(p, 34);
  }

  lemma FieldPointer(es: seq<Entry>, index: nat, count: nat)
    requires |es| < 0x1_0000
    ensures Pointer(es, index, count) % 0x1_0000 == Pointer(es, index, count) <= |es|
  {
  }

  lemma PatchedSame(chunk: bytes, t: Table, ns: nat, debug: nat, ids: seq<nat>, p: bytes, es: seq<Entry>)
    requires debug < 0x1_0000_0000 && TableOf(chunk) == Some(t)
    requires es == SortedTable(chunk, t, ns, debug, ids) && p == WithTable(chunk, t, es)
    requires |es| < 0x1_0000 && |p| < 0x1_0000_0000
    ensures PatchedApplication(p, ns, debug, ids) == Some(p)
  {
    hide *;
    TableFacts(chunk, t);
    TableMeaning(chunk, t, ns, debug, ids);
    PatchedChunk(chunk, t, es);
    PatchedTableOf(chunk, t, es);
    AttributesSize(es, t.size);
    var u := Table(t.base, t.size, |es|, t.base + |Attributes(es)|);
    assert TableOf(p) == Some(u);
    SortedTableAgain(chunk, t, ns, debug, ids, p, u);
    var again := Renumbered(es, 1);
    RenumberedAttributes(es, 1);
    FieldPointer(es, U16(chunk, 30), t.count);
    FieldPointer(es, U16(chunk, 32), t.count);
    FieldPointer(es, U16(chunk, 34), t.count);
    PointerFixed(es, U16(p, 30));
    PointerFixed(es, U16(p, 32));
    PointerFixed(es, U16(p, 34));
    Restored(p, u, again);
    ApplicationIs(p, u, ns, debug, ids, again);
  }

  lemma Restored(p: bytes, u: Table, es: seq<Entry>)
    requires TableOf(p) == Some(u) && u.base <= u.end <= |p| && 36 <= u.base
    requires p[u.base..u.end] == Attributes(es)
    requires U32(p, 4) == |p| && U16(p, 28) == |es|
    requires Pointer(es, U16(p, 30), u.count) == U16(p, 30)
    requires Pointer(es, U16(p, 32), u.count) == U16(p, 32)
    requires Pointer(es, U16(p, 34), u.count) == U16(p, 34)
    ensures WithTable(p, u, es) == p
  {
    hide U16, U32, TableOf, Pointer, Attributes, HeaderWith;
    HeaderRestored(p);
    assert p == p[..36] + p[36..u.base] + p[u.base..u.end] + p[u.end..];
  }

  lemma ApplicationIs(p: bytes, u: Table, ns: nat, debug: nat, ids: seq<nat>, es: seq<Entry>)
    requires TableOf(p) == Some(u) && SortedTable(p, u, ns, debug, ids) == es
    ensures PatchedApplication(p, ns, debug, ids) == Some(WithTable(p, u, es))
  {
  }

  lemma PatchedGrows(chunk: bytes, t: Table, ns: nat, debug: nat, ids: seq<nat>, p: bytes, es: seq<Entry>)
    requires debug < 0x1_0000_0000 && TableOf(chunk) == Some(t)
    requires es == SortedTable(chunk, t, ns, debug, ids) && p == WithTable(chunk, t, es)
    requires |es| >= 0x1_0000
    ensures PatchedApplication(p, ns, debug, ids).Some? && PatchedApplication(p, ns, debug, ids) != Some(p)
  {
    hide *;
    TableFacts(chunk, t);
    TableMeaning(chunk, t, ns, debug, ids);
    CountField(chunk, t);
    PatchedTableOf(chunk, t, es);
    var u := TableOf(p).value;
    TableFacts(p, u);
    TableMeaning(p, u, ns, debug, ids);
    NoneDebuggable(OldEntries(p, u), debug, ids);
    var more := SortedTable(p, u, ns, debug, ids);
    AttributesSize(more, u.size);
    Longer(p, u, more);
    ApplicationIs(p, u, ns, debug, ids, more);
  }

  lemma NoneDebuggable(es: seq<Entry>, debug: nat, ids: seq<nat>)
    requires es == []
    ensures !AnyDebuggable(es, debug, ids)
  {
  }

  lemma CountField(chunk: bytes, t: Table)
    requires TableOf(chunk) == Some(t)
    ensures t.count < 0x1_0000
  {
  }

  /** With a table counted as empty, another attribute is put in front of the ones that are there. */
  lemma Longer(p: bytes, u: Table, es: seq<Entry>)
    requires TableOf(p) == Some(u) && u.count == 0
    requires |es| == 1 && |Attributes(es)| == Area(1, u.size)
    ensures |WithTable(p, u, es)| > |p|
  {
  }

  /**
   Patching the application element again changes nothing, if and only if its attributes can be
   counted in the 16 bits of the count field.
   */
  lemma PatchedTwice(chunk: bytes, ns: nat, debug: nat, ids: seq<nat>)
    requires debug < 0x1_0000_0000
    requires PatchedApplication(chunk, ns, debug, ids).Some?
    requires |PatchedApplication(chunk, ns, debug, ids).value| < 0x1_0000_0000
    ensures PatchedApplication(PatchedApplication(chunk, ns, debug, ids).value, ns, debug, ids).Some?
    ensures var t := TableOf(chunk).value;
            var p := PatchedApplication(chunk, ns, debug, ids).value;
            PatchedApplication(p, ns, debug, ids) == Some(p) <==> |SortedTable(chunk, t, ns, debug, ids)| < 0x1_0000
  {
    hide *;
    var p := PatchedApplication(chunk, ns, debug, ids).value;
    var t := PatchedIs(chunk, ns, debug, ids);
    var es := SortedTable(chunk, t, ns, debug, ids);
    if |es| < 0x1_0000 {
      PatchedSame(chunk, t, ns, debug, ids, p, es);
    } else {
      PatchedGrows(chunk, t, ns, debug, ids, p, es);
    }
  }

  lemma PatchedIs(chunk: bytes, ns: nat, debug: nat, ids: seq<nat>) returns (t: Table)
    requires PatchedApplication(chunk, ns, debug, ids).Some?
    ensures TableOf(chunk) == Some(t)
    ensures PatchedApplication(chunk, ns, debug, ids) == Some(WithTable(chunk, t, SortedTable(chunk, t, ns, debug, ids)))
  {
    t := TableOf(chunk).value;
  }
}
