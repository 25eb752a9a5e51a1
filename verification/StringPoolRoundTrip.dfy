/**
 Printing a string pool and reading it back, with either reader.
 */
module StringPoolRoundTrip {
  import opened LittleEndian
  import opened Options
  import opened StringPools

  /** A pool whose parts fit their fields; its recorded chunk size plays no role. */
  predicate Printable(p: Pool) {
    && (forall i :: 0 <= i < |p.strings| ==> Storable(p.Utf8(), p.strings[i]))
    && p.flags < 0x1_0000_0000
    && (forall i :: 0 <= i < |p.styleOffsets| ==> p.styleOffsets[i] < 0x1_0000_0000)
    && (p.styleOffsets == [] ==> p.styleData == [])
    && PrintedSize(p) < 0x1_0000_0000
  }

  // ----- Where the parts of a printed pool are -----

  lemma {:induction false} ConcatSplit(es: seq<bytes>, k: nat)
    requires k < |es|
    ensures Concat(es) == Concat(es[..k]) + (es[k] + Concat(es[k + 1..]))
  {
    if k > 0 {
      ConcatSplit(es[1..], k - 1);
      assert es[..k][1..] == es[1..][..k - 1];
      assert es[1..][k..] == es[k + 1..];
    }
  }

  lemma {:induction false} OffsetTableAt(es: seq<bytes>, running: nat, k: nat)
    requires k < |es|
    ensures OffsetTable(es, running)[4 * k..4 * k + 4] == Le32(running + |Concat(es[..k])|)
  {
    hide Le32;
    if k > 0 {
      OffsetTableAt(es[1..], running + |es[0]|, k - 1);
      assert es[..k][1..] == es[1..][..k - 1];
      var rest := OffsetTable(es[1..], running + |es[0]|);
      assert OffsetTable(es, running)[4 * k..4 * k + 4] == rest[4 * (k - 1)..4 * (k - 1) + 4];
    }
  }

  lemma {:induction false} WordBytesAt(ws: seq<nat>, k: nat)
    requires k < |ws|
    ensures WordBytes(ws)[4 * k..4 * k + 4] == Le32(ws[k])
  {
    hide Le32;
    if k > 0 {
      WordBytesAt(ws[1..], k - 1);
      assert WordBytes(ws)[4 * k..4 * k + 4] == WordBytes(ws[1..])[4 * (k - 1)..4 * (k - 1) + 4];
    }
  }

  function StylesStart(p: Pool): nat {
    if |p.styleOffsets| > 0 then StringsStart(p) + |StringData(p)| else 0
  }

  lemma HeaderBytes(p: Pool, size: nat, a: nat, b: nat)
    ensures var h := PoolHeader(p, size, a, b);
            && h[0..2] == Le16(1) && h[2..4] == Le16(28) && h[4..8] == Le32(size) && h[8..12] == Le32(|p.strings|)
            && h[12..16] == Le32(|p.styleOffsets|) && h[16..20] == Le32(p.flags)
            && h[20..24] == Le32(a) && h[24..28] == Le32(b)
  {
    hide Le16, Le32;
  }

  /** The header fields of a printed pool hold what was printed into them. */
  lemma PrintedHeader(p: Pool)
    requires Printable(p)
    ensures var c := PoolBytes(p);
            && U16(c, 0) == 1 && U16(c, 2) == 28 && U32(c, 4) == PrintedSize(p) && U32(c, 8) == |p.strings|
            && U32(c, 12) == |p.styleOffsets| && U32(c, 16) == p.flags
            && U32(c, 20) == StringsStart(p) && U32(c, 24) == StylesStart(p)
  {
    hide *;
    var h := PoolHeader(p, PrintedSize(p), StringsStart(p), StylesStart(p));
    HeaderRegion(p);
    SizesFit(p);
    HeaderBytes(p, PrintedSize(p), StringsStart(p), StylesStart(p));
    PartField16(PoolBytes(p), 0, h, 0, 1);
    PartField16(PoolBytes(p), 0, h, 2, 28);
    PartField32(PoolBytes(p), 0, h, 4, PrintedSize(p));
    PartField32(PoolBytes(p), 0, h, 8, |p.strings|);
    PartField32(PoolBytes(p), 0, h, 12, |p.styleOffsets|);
    PartField32(PoolBytes(p), 0, h, 16, p.flags);
    PartField32(PoolBytes(p), 0, h, 20, StringsStart(p));
    PartField32(PoolBytes(p), 0, h, 24, StylesStart(p));
  }

  lemma HeaderRegion(p: Pool)
    ensures |PoolBytes(p)| >= 28
    ensures PoolBytes(p)[0..28] == PoolHeader(p, PrintedSize(p), StringsStart(p), StylesStart(p))
  {
    hide PoolHeader, StringData, OffsetTable, WordBytes, EncodeAll;
  }

  lemma SizesFit(p: Pool)
    requires Printable(p)
    ensures |p.strings| < 0x1_0000_0000 && |p.styleOffsets| < 0x1_0000_0000 && p.flags < 0x1_0000_0000 && PrintedSize(p) < 0x1_0000_0000
    ensures StringsStart(p) < 0x1_0000_0000 && StylesStart(p) < 0x1_0000_0000
  {
    hide StringData;
  }

  /** The tables and the data of a printed pool are where its header says. */
  lemma PrintedParts(p: Pool)
    ensures var c := PoolBytes(p);
            var es := EncodeAll(p.Utf8(), p.strings);
            var n, m := |p.strings|, |p.styleOffsets|;
            && c[28..28 + 4 * n] == OffsetTable(es, 0)
            && c[28 + 4 * n..28 + 4 * n + 4 * m] == WordBytes(p.styleOffsets)
            && c[StringsStart(p)..StringsStart(p) + |StringData(p)|] == StringData(p)
            && c[StringsStart(p) + |StringData(p)|..] == p.styleData
  {
    hide PoolHeader, OffsetTable, WordBytes, StringData, EncodeAll;
  }

  /** The offset stored for the k-th string. */
  lemma PrintedOffsetAt(p: Pool, k: nat)
    requires Printable(p) && k < |p.strings|
    ensures U32(PoolBytes(p), 28 + 4 * k) == |Concat(EncodeAll(p.Utf8(), p.strings[..k]))|
    ensures EncodeAll(p.Utf8(), p.strings)[..k] == EncodeAll(p.Utf8(), p.strings[..k])
    ensures |Concat(EncodeAll(p.Utf8(), p.strings)[..k])| <= |StringData(p)|
  {
    hide Le32, U32, OffsetTable, PoolBytes, Encode, Storable, Concat;
    var es := EncodeAll(p.Utf8(), p.strings);
    PrintedParts(p);
    OffsetTableAt(es, 0, k);
    ConcatSplit(es, k);
    assert es[..k] == EncodeAll(p.Utf8(), p.strings[..k]);
    PartField32(PoolBytes(p), 28, OffsetTable(es, 0), 4 * k, |Concat(es[..k])|);
  }

  lemma StringRegion(p: Pool)
    ensures StringsStart(p) + |StringData(p)| <= |PoolBytes(p)|
    ensures PoolBytes(p)[StringsStart(p)..StringsStart(p) + |StringData(p)|] == StringData(p)
  {
    PrintedParts(p);
  }

  /** From its offset on, the string data is the k-th encoded string and something behind it. */
  lemma StringDataAt(p: Pool, k: nat) returns (tail: bytes)
    requires k < |p.strings|
    ensures var run := |Concat(EncodeAll(p.Utf8(), p.strings[..k]))|;
            && run < |StringData(p)|
            && StringData(p)[run..|StringData(p)|] == Encode(p.Utf8(), p.strings[k]) + tail
  {
    hide Encode;
    var es := EncodeAll(p.Utf8(), p.strings);
    assert es[..k] == EncodeAll(p.Utf8(), p.strings[..k]);
    ConcatSplit(es, k);
    EncodedNotEmpty(p.Utf8(), p.strings[k]);
    tail := Concat(es[k + 1..]) + Zeros(Padding(|Concat(es)|));
  }

  /** Reading the k-th string of a printed pool. */
  lemma PrintedStringAt(p: Pool, k: nat)
    requires Printable(p) && k < |p.strings|
    ensures var c := PoolBytes(p);
            var end := StringsStart(p) + |StringData(p)|;
            var pos := StringsStart(p) + U32(c, 28 + 4 * k);
            pos < end && Decode(p.Utf8(), c[pos..end]) == Ok(p.strings[k])
  {
    hide *;
    PrintedOffsetAt(p, k);
    StringRegion(p);
    PrintableString(p, k);
    var run := |Concat(EncodeAll(p.Utf8(), p.strings[..k]))|;
    var start := StringsStart(p);
    var size := |StringData(p)|;
    var tail := StringDataAt(p, k);
    SubSlice(PoolBytes(p), start, start + size, run, size);
    StringRoundTrip(p.Utf8(), p.strings[k], tail);
  }

  lemma PrintableString(p: Pool, k: nat)
    requires Printable(p) && k < |p.strings|
    ensures Storable(p.Utf8(), p.strings[k])
  {
  }

  lemma EncodedNotEmpty(utf8: bool, s: text)
    ensures |Encode(utf8, s)| > 0
  {
  }

  lemma {:induction false} PrintedStrings(p: Pool, k: nat)
    requires Printable(p) && k <= |p.strings|
    ensures ReadStrings(PoolBytes(p), 28, k, |p.strings|, StringsStart(p), StringsStart(p) + |StringData(p)|, p.Utf8())
         == Ok(p.strings[k..])
    decreases |p.strings| - k
  {
    hide PoolBytes, StringData, Decode, U32, Storable;
    if k < |p.strings| {
      PrintedStringAt(p, k);
      PrintedStrings(p, k + 1);
      assert p.strings[k..] == [p.strings[k]] + p.strings[k + 1..];
    } else {
      assert p.strings[k..] == [];
    }
  }

  lemma PrintedStyles(p: Pool)
    requires Printable(p)
    ensures Words(PoolBytes(p), 28 + 4 * |p.strings|, 0, |p.styleOffsets|) == p.styleOffsets
  {
    hide PoolBytes, StringData, U32, Printable, EncodeAll, OffsetTable, WordBytes;
    PrintedParts(p);
    forall k | 0 <= k < |p.styleOffsets|
      ensures U32(PoolBytes(p), 28 + 4 * |p.strings| + 4 * k) == p.styleOffsets[k]
    {
      PrintedStyleAt(p, k);
    }
  }

  lemma PrintedStyleAt(p: Pool, k: nat)
    requires Printable(p) && k < |p.styleOffsets|
    ensures |PoolBytes(p)| >= 28 + 4 * |p.strings| + 4 * |p.styleOffsets|
    ensures U32(PoolBytes(p), 28 + 4 * |p.strings| + 4 * k) == p.styleOffsets[k]
  {
    hide *;
    StyleRegion(p, k);
    WordField(PoolBytes(p), 28 + 4 * |p.strings|, p.styleOffsets, k);
  }

  lemma WordField(c: bytes, base: nat, ws: seq<nat>, k: nat)
    requires base + |WordBytes(ws)| <= |c| && c[base..base + |WordBytes(ws)|] == WordBytes(ws)
    requires k < |ws| && ws[k] < 0x1_0000_0000
    ensures base + 4 * k + 4 <= |c| && U32(c, base + 4 * k) == ws[k]
  {
    hide *;
    WordBytesAt(ws, k);
    PartField32(c, base, WordBytes(ws), 4 * k, ws[k]);
  }

  lemma StyleRegion(p: Pool, k: nat)
    requires Printable(p) && k < |p.styleOffsets|
    ensures var base := 28 + 4 * |p.strings|;
            && |PoolBytes(p)| >= base + 4 * |p.styleOffsets|
            && PoolBytes(p)[base..base + |WordBytes(p.styleOffsets)|] == WordBytes(p.styleOffsets)
    ensures p.styleOffsets[k] < 0x1_0000_0000
  {
    hide PoolHeader, StringData, OffsetTable, EncodeAll, WordBytes;
    PrintedParts(p);
  }

  /** The patcher reads a printed pool back as it was, both encodings, with and without styles. */
  lemma PoolRoundTrip(p: Pool)
    requires Printable(p)
    ensures PoolOfChunk(PoolBytes(p)) == Ok(p.(chunkSize := PrintedSize(p)))
  {
    hide PoolBytes, StringData, Storable, ReadStrings, Words, U16, U32, EncodeAll, OffsetTable, WordBytes;
    PrintedHeader(p);
    PrintedStrings(p, 0);
    PrintedStyles(p);
    PrintedParts(p);
    assert p.strings[0..] == p.strings;
  }

  /** The same, with the pool anywhere inside a manifest. */
  lemma PoolRoundTripAt(before: bytes, p: Pool, after: bytes)
    requires Printable(p)
    ensures PatchPool(before + PoolBytes(p) + after, |before|) == Ok(p.(chunkSize := PrintedSize(p)))
  {
    hide PoolBytes, PoolOfChunk, Printable, U16, U32;
    var data := before + PoolBytes(p) + after;
    var size := |PoolBytes(p)|;
    assert data[|before|..|before| + size] == PoolBytes(p);
    FieldOfSlice(data, |before|, |before| + size, 2);
    FieldOfSlice(data, |before|, |before| + size, 4);
    PrintedHeader(p);
    PoolRoundTrip(p);
  }

  // ----- Pools that were read -----

  lemma {:induction false} ReadStringsStorable(
    c: bytes, table: nat, first: nat, count: nat, start: nat, end: nat, utf8: bool, i: nat)
    requires first <= count && table + 4 * count <= |c| && start <= end <= |c|
    requires ReadStrings(c, table, first, count, start, end, utf8).Ok?
    requires i < count - first
    ensures Storable(utf8, ReadStrings(c, table, first, count, start, end, utf8).value[i])
    decreases i
  {
    hide Decode, Storable, U32;
    var pos := start + U32(c, table + 4 * first);
    ReadIsStorable(utf8, c[pos..end]);
    if i > 0 { ReadStringsStorable(c, table, first + 1, count, start, end, utf8, i - 1); }
  }

  /** Every pool the patcher reads can be printed, if it does not outgrow its 32 bit size field. */
  lemma ReadIsPrintable(c: bytes)
    requires |c| >= 28 && PoolOfChunk(c).Ok?
    ensures PrintedSize(PoolOfChunk(c).value) < 0x1_0000_0000 ==> Printable(PoolOfChunk(c).value)
  {
    hide Storable, PrintedSize;
    var p := PoolOfChunk(c).value;
    var stylesStart := U32(c, 24);
    forall i | 0 <= i < |p.strings| ensures Storable(p.Utf8(), p.strings[i]) {
      ReadStringsStorable(c, U16(c, 2), 0, U32(c, 8), U32(c, 20), if stylesStart > 0 then stylesStart else |c|, p.Utf8(), i);
    }
  }

  /** Adding storable strings keeps a pool printable, within the size field. */
  lemma AppendPrintable(p: Pool, more: seq<text>)
    requires Printable(p) && forall i :: 0 <= i < |more| ==> Storable(p.Utf8(), more[i])
    requires PrintedSize(p.(strings := p.strings + more)) < 0x1_0000_0000
    ensures Printable(p.(strings := p.strings + more))
  {
    hide Storable, PrintedSize;
  }

  // ----- The previewer's reader -----

  /** Strings first to count of the pool at off, each located from start and read up to the end of the chunk. */
  function PreviewStrings(data: bytes, off: nat, size: nat, table: nat, first: nat, count: nat, start: nat, utf8: bool): Result<seq<text>>
    requires first <= count && off + size <= |data| && table + 4 * count <= |data|
    decreases count - first
  {
    if first == count then Ok([])
    else
      var pos := off + start + U32(data, table + 4 * first);
      if pos >= off + size then Err("invalid string offset")
      else
        match Decode(utf8, data[pos..off + size])
        case Err(e) => Err(e)
        case Ok(s) =>
          match PreviewStrings(data, off, size, table, first + 1, count, start, utf8)
          case Err(e) => Err(e)
          case Ok(rest) => Ok([s] + rest)
  }

  /** parseStringPool: the strings and the chunk size. */
  function PreviewPool(data: bytes, off: nat): Result<(seq<text>, nat)> {
    if |data| < off + 28 then Err("short string-pool chunk")
    else if U16(data, off) != 1 then Err("not a string pool")
    else
      var size := U32(data, off + 4);
      var count := U32(data, off + 8);
      var start := U32(data, off + 20);
      var table := off + U16(data, off + 2);
      if size == 0 || off + size > |data| then Err("invalid string-pool size")
      else if table + 4 * count > off + size || start > size then Err("invalid string-pool offsets")
      else
        match PreviewStrings(data, off, size, table, 0, count, start, IsUtf8(U32(data, off + 16)))
        case Err(e) => Err(e)
        case Ok(strings) => Ok((strings, size))
  }

  /** parseStringPool, as the loop that fills the string slice. */
  method ParseStringPool(data: bytes, off: nat) returns (r: Result<(seq<text>, nat)>)
    ensures r.Ok? == PreviewPool(data, off).Ok?
    ensures r.Ok? ==> r == PreviewPool(data, off)
  {
    hide PreviewStrings, U16, U32;
    if |data| < off + 28 {
      return Err("short string-pool chunk");
    }
    if U16(data, off) != 1 {
      return Err("not a string pool");
    }
    var size := U32(data, off + 4);
    if size == 0 || off + size > |data| {
      return Err("invalid string-pool size");
    }
    var count := U32(data, off + 8);
    var utf8 := IsUtf8(U32(data, off + 16));
    var start := U32(data, off + 20);
    var table := off + U16(data, off + 2);
    if table + 4 * count > off + size || start > size {
      return Err("invalid string-pool offsets");
    }
    var strings := ReadPreviewStrings(data, off, size, table, count, start, utf8);
    if strings.Err? {
      return Err(strings.reason);
    }
    return Ok((strings.value, size));
  }

  method ReadPreviewStrings(data: bytes, off: nat, size: nat, table: nat, count: nat, start: nat, utf8: bool)
    returns (r: Result<seq<text>>)
    requires off + size <= |data| && table + 4 * count <= |data|
    ensures r.Ok? == PreviewStrings(data, off, size, table, 0, count, start, utf8).Ok?
    ensures r.Ok? ==> r == PreviewStrings(data, off, size, table, 0, count, start, utf8)
  {
    hide Decode, U32;
    var strings: seq<text> := [];
    for i := 0 to count
      invariant var all := PreviewStrings(data, off, size, table, 0, count, start, utf8);
                var rest := PreviewStrings(data, off, size, table, i, count, start, utf8);
                all.Ok? == rest.Ok? && (all.Ok? ==> all.value == strings + rest.value)
    {
      var pos := off + start + U32(data, table + i * 4);
      if pos >= off + size {
        return Err("invalid string offset");
      }
      var s := Decode(utf8, data[pos..off + size]);
      if s.Err? {
        return Err(s.reason);
      }
      strings := strings + [s.value];
    }
    assert strings + [] == strings;
    return Ok(strings);
  }

  lemma {:induction false} PreviewAgrees(
    data: bytes, off: nat, size: nat, table: nat, first: nat, count: nat, start: nat, end: nat, utf8: bool)
    requires off + size <= |data| && first <= count && table + 4 * count <= size && start <= end <= size
    requires ReadStrings(data[off..off + size], table, first, count, start, end, utf8).Ok?
    ensures PreviewStrings(data, off, size, off + table, first, count, start, utf8)
         == ReadStrings(data[off..off + size], table, first, count, start, end, utf8)
    decreases count - first
  {
    hide Decode, U32;
    if first < count {
      var c := data[off..off + size];
      FieldOfSlice(data, off, off + size, table + 4 * first);
      var pos := start + U32(c, table + 4 * first);
      assert data[off + pos..off + size] == c[pos..end] + c[end..];
      DecodeOfPrefix(utf8, c[pos..end], c[end..]);
      PreviewAgrees(data, off, size, table, first + 1, count, start, end, utf8);
    }
  }

  /** Whatever the patcher reads as a pool, the previewer reads as the same strings. */
  lemma ReadersAgree(data: bytes, off: nat)
    requires off + 28 <= |data| && U16(data, off) == 1
    requires PatchPool(data, off).Ok?
    ensures PreviewPool(data, off) == Ok((PatchPool(data, off).value.strings, PatchPool(data, off).value.chunkSize))
  {
    hide ReadStrings, PreviewStrings, Words, U16, U32;
    var size := U32(data, off + 4);
    var c := data[off..off + size];
    FieldOfSlice(data, off, off + size, 2);
    FieldOfSlice(data, off, off + size, 8);
    FieldOfSlice(data, off, off + size, 16);
    FieldOfSlice(data, off, off + size, 20);
    var stylesStart := U32(c, 24);
    PreviewAgrees(data, off, size, U16(c, 2), 0, U32(c, 8), U32(c, 20),
                  if stylesStart > 0 then stylesStart else size, IsUtf8(U32(c, 16)));
  }
}
