/** What a patched manifest holds when it is read again, and that patching it again changes nothing. */
module PatchedManifests {
  import opened LittleEndian
  import opened Options
  import opened StringPools
  import opened StringPoolRoundTrip
  import opened AttributeTables
  import opened PatchedTables
  import opened ManifestLayout
  import opened DebuggablePatch
  import Utf8
  import Utf16

  // ----- The added name -----

  predicate IsAscii(s: text) {
    forall i :: 0 <= i < |s| ==> s[i] < 0x80
  }

  lemma {:induction false} AsciiText(s: text)
    requires IsAscii(s)
    ensures Utf8.Runes(s) == s && Utf8.OfRunes(s) == s && |Utf16.EncodeUnits(s)| == |s|
  {
    if s != [] {
      AsciiText(s[1..]);
      Utf8.EncodedByte(s[0]);
    }
  }

  lemma AsciiStorable(utf8: bool, s: text)
    requires IsAscii(s) && |s| <= 0x7fff
    ensures Storable(utf8, s)
  {
    hide IsAscii;
    AsciiText(s);
  }

  lemma NameIsAscii()
    ensures IsAscii(DEBUGGABLE) && |DEBUGGABLE| == 10
  {
    var name := "debuggable";
    assert forall i :: 0 <= i < |name| ==> name[i] as int < 0x80;
    assert DEBUGGABLE == Ascii(name);
  }

  lemma NameStorable(utf8: bool)
    ensures Storable(utf8, DEBUGGABLE)
  {
    hide *;
    NameIsAscii();
    AsciiStorable(utf8, DEBUGGABLE);
  }

  /** The names are told apart by their lengths. */
  lemma NamesDiffer()
    ensures APPLICATION != DEBUGGABLE && ANDROID_URI != DEBUGGABLE
  {
    assert |APPLICATION| == 11 && |DEBUGGABLE| == 10 && |ANDROID_URI| == 42;
  }

  lemma {:induction false} EncodedMore(utf8: bool, strings: seq<text>, more: seq<text>)
    ensures |Concat(EncodeAll(utf8, strings))| <= |Concat(EncodeAll(utf8, strings + more))|
  {
    hide Encode;
    if strings != [] {
      assert (strings + more)[1..] == strings[1..] + more;
      EncodedMore(utf8, strings[1..], more);
    }
  }

  lemma PrintedSizeGrows(p: Pool, more: seq<text>)
    ensures PrintedSize(p) <= PrintedSize(p.(strings := p.strings + more))
  {
    hide Encode, EncodeAll, Concat;
    EncodedMore(p.Utf8(), p.strings, more);
    var a, b := |Concat(EncodeAll(p.Utf8(), p.strings))|, |Concat(EncodeAll(p.Utf8(), p.strings + more))|;
    assert a <= b && Padding(a) < 4;
  }

  // ----- The parts of the output -----

  lemma DocumentParts(pool: bytes, res: bytes, before: bytes, patched: bytes, after: bytes)
    ensures var out := Document(pool, res, before, patched, after);
            var r := 8 + |pool|;
            var b := r + |res|;
            var at := b + |before|;
            var e := at + |patched|;
            && out[0..4] == Le32(XML_CHUNK) && out[4..8] == Le32(|out|) && out[8..r] == pool && out[r..b] == res
            && out[b..at] == before && out[at..e] == patched && out[e..] == after
  {
    hide Le32;
    var out := Document(pool, res, before, patched, after);
    var head := Le32(XML_CHUNK) + Le32(|out|);
    assert out == head + pool + res + before + patched + after;
    assert out[0..4] == head[0..4] && out[4..8] == head[4..8];
  }

  lemma DocumentHeader(pool: bytes, res: bytes, before: bytes, patched: bytes, after: bytes)
    requires |Document(pool, res, before, patched, after)| < 0x1_0000_0000
    ensures var out := Document(pool, res, before, patched, after);
            && |out| >= 8 && U32(out, 0) == XML_CHUNK && U32(out, 4) == |out| && DocumentEnd(out) == |out|
  {
    hide Le32, U32, Document;
    var out := Document(pool, res, before, patched, after);
    DocumentParts(pool, res, before, patched, after);
    FieldAt32(out, 0, XML_CHUNK);
    FieldAt32(out, 4, |out|);
  }

  // ----- The string pool -----

  /** A pool is read the same wherever it stands. */
  lemma PoolMoved(m: bytes, out: bytes)
    requires |m| >= 36 && PatchPool(m, 8).Ok?
    requires var end := 8 + PatchPool(m, 8).value.chunkSize;
             PoolFits(m) && end <= |out| && out[8..end] == m[8..end]
    ensures |out| >= 36 && PatchPool(out, 8) == PatchPool(m, 8) && U32(out, 8) == U32(m, 8)
  {
    hide U16, U32, PoolOfChunk;
    PoolInside(m, 8);
    var end := 8 + PatchPool(m, 8).value.chunkSize;
    SameField16(m, out, 8, end, 10);
    SameField32(m, out, 8, end, 12);
    SameField32(m, out, 8, end, 8);
  }

  predicate PoolFits(m: bytes)
    requires |m| >= 36
  {
    PatchPool(m, 8).Ok? ==> 36 <= 8 + PatchPool(m, 8).value.chunkSize <= |m|
  }

  lemma LayoutFacts(m: bytes)
    requires ReadLayout(m).Ok?
    ensures var l := ReadLayout(m).value;
            && |m| >= 36 && U32(m, 0) == XML_CHUNK && U32(m, 8) == POOL_CHUNK
            && PatchPool(m, 8) == Ok(l.pool) && PoolFits(m) && l.end == DocumentEnd(m)
            && l.pool.chunkSize == U32(m, 12)
  {
    hide U32, PatchPool;
    PoolInside(m, 8);
  }

  /** The layout read from a document, from what stands where. */
  lemma LayoutIs(out: bytes, pool: Pool, body: nat)
    requires |out| >= 36 && U32(out, 0) == XML_CHUNK && U32(out, 8) == POOL_CHUNK && PatchPool(out, 8) == Ok(pool)
    requires var res := 8 + pool.chunkSize;
             res + 8 <= body <= |out| && U32(out, res) == MAP_CHUNK && U32(out, res + 4) == body - res
    ensures ReadLayout(out) == Ok(Layout(pool, 8 + pool.chunkSize, body, DocumentEnd(out)))
  {
    hide U32, PatchPool;
  }

  /** A layout without a resource map. */
  lemma LayoutWithoutMap(out: bytes, pool: Pool)
    requires |out| >= 36 && U32(out, 0) == XML_CHUNK && U32(out, 8) == POOL_CHUNK && PatchPool(out, 8) == Ok(pool)
    requires 8 + pool.chunkSize + 8 > |out| || U32(out, 8 + pool.chunkSize) != MAP_CHUNK
    ensures ReadLayout(out) == Ok(Layout(pool, 8 + pool.chunkSize, 8 + pool.chunkSize, DocumentEnd(out)))
  {
    hide U32, PatchPool;
    PoolInside(out, 8);
  }

  lemma PrintedType(p: Pool, out: bytes)
    requires Printable(p) && 8 + |PoolBytes(p)| <= |out| && out[8..8 + |PoolBytes(p)|] == PoolBytes(p)
    ensures |PoolBytes(p)| >= 28 && U32(out, 8) == POOL_CHUNK
    ensures PatchPool(out, 8) == Ok(p.(chunkSize := PrintedSize(p)))
  {
    hide PoolBytes, PatchPool, Printable, PoolHeader, U16;
    HeaderRegion(p);
    PrintedHeader(p);
    var n := 8 + |PoolBytes(p)|;
    FieldOfSlice(out, 8, n, 0);
    FieldOfSlice(out, 8, n, 2);
    assert U16(out, 8) == 1 && U16(out, 10) == 28;
    PoolRoundTripAt(out[..8], p, out[n..]);
    assert out == out[..8] + PoolBytes(p) + out[n..];
  }

  predicate AllStorable(utf8: bool, strings: seq<text>) {
    forall i :: 0 <= i < |strings| ==> Storable(utf8, strings[i])
  }

  /** The pool with storable strings added is printable if it fits its size field. */
  lemma GrownPrintable(m: bytes, pool: Pool, more: seq<text>)
    requires |m| >= 36 && PatchPool(m, 8) == Ok(pool) && AllStorable(pool.Utf8(), more)
    requires PrintedSize(pool.(strings := pool.strings + more)) < 0x1_0000_0000
    ensures Printable(pool.(strings := pool.strings + more))
  {
    hide PoolOfChunk, Printable, PrintedSize, U16, U32, Storable;
    var size := U32(m, 12);
    ReadIsPrintable(m[8..8 + size]);
    PrintedSizeGrows(pool, more);
    AppendPrintable(pool, more);
  }

  /** The pool part of the output reads back as the old strings and the added ones, everything else of the pool being as it was. */
  lemma PoolOfOutput(m: bytes, l: Layout, more: seq<text>, out: bytes)
    requires ReadLayout(m) == Ok(l) && AllStorable(l.pool.Utf8(), more)
    requires var part := PoolPart(m, l, l.pool.strings + more);
             |part| < 0x1_0000_0000 && 8 + |part| <= |out| && out[8..8 + |part|] == part
    ensures |out| >= 36 && U32(out, 8) == POOL_CHUNK
    ensures var strings := l.pool.strings + more;
            PatchPool(out, 8) == Ok(l.pool.(strings := strings, chunkSize := |PoolPart(m, l, strings)|))
  {
    hide PoolBytes, PatchPool, Printable, U32, ReadLayout, DocumentEnd, PoolFits, PrintedSize, AllStorable;
    LayoutFacts(m);
    if l.pool.strings + more == l.pool.strings {
      assert l.res == 8 + l.pool.chunkSize;
      PoolMoved(m, out);
    } else {
      var p := l.pool.(strings := l.pool.strings + more);
      GrownPrintable(m, l.pool, more);
      PrintedType(p, out);
    }
  }

  // ----- The resource map -----

  lemma {:induction false} WordsAre(c: bytes, base: nat, ws: seq<nat>, first: nat, n: nat)
    requires first <= n && base + 4 * n <= |c| && |ws| == n
    requires forall i :: first <= i < n ==> U32(c, base + 4 * i) == ws[i]
    ensures Words(c, base, first, n) == ws[first..]
    decreases n - first
  {
    hide U32;
  }

  /** Every identifier of the extended map fits its field. */
  lemma IdsFit(m: bytes, res: nat, body: nat, debug: nat)
    requires (res == body || res + 8 <= body) && body <= |m|
    ensures forall i :: 0 <= i < |IdsOf(m, res, body, debug)| ==> IdsOf(m, res, body, debug)[i] < 0x1_0000_0000
  {
    hide U32;
  }

  /** The map keeps every identifier it had, except that of the debuggable name, and knows no others. */
  lemma IdsKept(m: bytes, res: nat, body: nat, debug: nat, i: nat)
    requires (res == body || res + 8 <= body) && body <= |m|
    requires i < |IdsOf(m, res, body, debug)| && i != debug
    ensures IdsOf(m, res, body, debug)[i] == ResourceId(KnownIds(m, res, body), i)
    ensures |KnownIds(m, res, body)| <= |IdsOf(m, res, body, debug)|
  {
    hide U32;
  }

  lemma MapField(out: bytes, res: nat, ids: seq<nat>, k: nat)
    requires 8 + 4 * |ids| < 0x1_0000_0000 && res + |MapBytes(ids)| <= |out| && out[res..res + |MapBytes(ids)|] == MapBytes(ids)
    requires k < |ids| && ids[k] < 0x1_0000_0000
    ensures U32(out, res + 8 + 4 * k) == ids[k]
  {
    hide *;
    MapParts(out, res, ids);
    WordField(out, res + 8, ids, k);
  }

  lemma MapParts(out: bytes, res: nat, ids: seq<nat>)
    requires 8 + 4 * |ids| < 0x1_0000_0000 && res + |MapBytes(ids)| <= |out| && out[res..res + |MapBytes(ids)|] == MapBytes(ids)
    ensures res + 8 + 4 * |ids| <= |out| && U32(out, res) == MAP_CHUNK && U32(out, res + 4) == 8 + 4 * |ids|
    ensures |WordBytes(ids)| == 4 * |ids| && out[res + 8..res + 8 + |WordBytes(ids)|] == WordBytes(ids)
  {
    hide U32, Le32, WordBytes;
    var b := MapBytes(ids);
    assert b[0..4] == Le32(MAP_CHUNK) && b[4..8] == Le32(8 + 4 * |ids|) && b[8..8 + |WordBytes(ids)|] == WordBytes(ids);
    PartField32(out, res, b, 0, MAP_CHUNK);
    PartField32(out, res, b, 4, 8 + 4 * |ids|);
    SubSlice(out, res, res + |b|, 8, 8 + |WordBytes(ids)|);
  }

  /** The printed map is read back, and extending it again changes nothing. */
  lemma MapOfOutput(out: bytes, res: nat, ids: seq<nat>, debug: nat)
    requires 8 + 4 * |ids| < 0x1_0000_0000 && res + |MapBytes(ids)| <= |out| && out[res..res + |MapBytes(ids)|] == MapBytes(ids)
    requires forall i :: 0 <= i < |ids| ==> ids[i] < 0x1_0000_0000
    requires debug < |ids| && ids[debug] == ATTR_DEBUGGABLE_ID
    ensures KnownIds(out, res, res + 8 + 4 * |ids|) == ids
    ensures IdsOf(out, res, res + 8 + 4 * |ids|, debug) == ids
  {
    hide U32, MapBytes, Words;
    forall i | 0 <= i < |ids| ensures U32(out, res + 8 + 4 * i) == ids[i] {
      MapField(out, res, ids, i);
    }
    WordsAre(out, res + 8, ids, 0, |ids|);
    assert ids[0..] == ids;
    assert ids[debug := ATTR_DEBUGGABLE_ID] == ids;
  }
}
