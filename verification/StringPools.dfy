/**
 The string pool chunk of a binary manifest: how the patcher reads and prints it, and how
 the previewer reads it.
 */
module StringPools {
  import opened LittleEndian
  import opened Options
  import Utf8
  import Utf16

  type text = bytes

  const UTF8_FLAG := 0x100

  // ----- Lengths -----

  function WriteLength8(n: nat): bytes {
    if n > 0x7f then [n / 0x100 % 0x80 + 0x80, n % 0x100] else [n]
  }

  /** A length and the number of bytes it takes. */
  function ReadLength8(data: bytes): (r: Result<(nat, nat)>)
    ensures r.Ok? ==> 1 <= r.value.1 <= 2 && r.value.1 <= |data| && r.value.0 <= 0x7fff
  {
    if data == [] then Err("short utf8 length")
    else if data[0] < 0x80 then Ok((data[0], 1))
    else if |data| < 2 then Err("short utf8 long length")
    else
      var hi: int, lo: int := data[0] - 0x80, data[1];
      Ok((hi * 0x100 + lo, 2))
  }

  function WriteLength16(n: nat): bytes {
    if n > 0x7fff then Le16(n / 0x1_0000 % 0x8000 + 0x8000) + Le16(n) else Le16(n)
  }

  function ReadLength16(data: bytes): (r: Result<(nat, nat)>)
    ensures r.Ok? ==> (r.value.1 == 2 || r.value.1 == 4) && r.value.1 <= |data| && r.value.0 <= 0x7fff_ffff
  {
    if |data| < 2 then Err("short utf16 length")
    else if U16(data, 0) < 0x8000 then Ok((U16(data, 0), 2))
    else if |data| < 4 then Err("short utf16 long length")
    else Ok(((U16(data, 0) - 0x8000) * 0x1_0000 + U16(data, 2), 4))
  }

  /** An 8 bit length is read back exactly if it is at most 0x7fff; beyond, its upper bits are lost. */
  lemma Length8RoundTrip(n: nat, tail: bytes)
    ensures var r := ReadLength8(WriteLength8(n) + tail);
            && r.Ok? && r.value.1 == |WriteLength8(n)|
            && r.value.0 == (if n > 0x7f then n % 0x8000 else n)
            && (r.value.0 == n <==> n <= 0x7fff)
  {
    var s := WriteLength8(n) + tail;
    assert s[0] == WriteLength8(n)[0];
    if n > 0x7f {
      assert s[1] == WriteLength8(n)[1];
      assert n / 0x100 % 0x80 * 0x100 + n % 0x100 == n % 0x8000;
    }
  }

  lemma LongLength16(n: nat, tail: bytes)
    requires n > 0x7fff
    ensures ReadLength16(WriteLength16(n) + tail) == Ok((n % 0x8000_0000, 4))
  {
    hide Le16;
    hide U16;
    var hi := n / 0x1_0000 % 0x8000;
    var s := WriteLength16(n) + tail;
    assert s[0..2] == Le16(hi + 0x8000) && s[2..4] == Le16(n);
    FieldAt16(s, 0, hi + 0x8000);
    FieldAt16(s, 2, n);
    SplitAt31(n);
  }

  lemma SplitAt31(n: nat)
    ensures n / 0x1_0000 % 0x8000 * 0x1_0000 + n % 0x1_0000 == n % 0x8000_0000
  {
  }

  lemma Length16RoundTrip(n: nat, tail: bytes)
    ensures var r := ReadLength16(WriteLength16(n) + tail);
            && r.Ok? && r.value.1 == |WriteLength16(n)|
            && r.value.0 == (if n > 0x7fff then n % 0x8000_0000 else n)
            && (r.value.0 == n <==> n <= 0x7fff_ffff)
  {
    hide Le16, ReadLength16;
    if n > 0x7fff {
      LongLength16(n, tail);
    } else {
      ShortLength16(n, tail);
    }
  }

  lemma ShortLength16(n: nat, tail: bytes)
    requires n <= 0x7fff
    ensures ReadLength16(WriteLength16(n) + tail) == Ok((n, 2))
  {
    hide U16, Le16;
    var s := WriteLength16(n) + tail;
    assert s[0..2] == Le16(n);
    FieldAt16(s, 0, n);
  }

  // ----- Strings -----

  function EncodeUtf8String(s: text): bytes {
    WriteLength8(|Utf8.Runes(s)|) + (WriteLength8(|s|) + (s + [0]))
  }

  function DecodeUtf8String(data: bytes): Result<text> {
    match ReadLength8(data)
    case Err(e) => Err(e)
    case Ok((_, n)) =>
      match ReadLength8(data[n..])
      case Err(e) => Err(e)
      case Ok((byteLen, m)) =>
        if n + m + byteLen > |data| then Err("utf8 string out of bounds")
        else Ok(data[n + m..n + m + byteLen])
  }

  function UnitBytes(us: seq<Utf16.unit>): (s: bytes)
    ensures |s| == 2 * |us|
  {
    if us == [] then [] else Le16(us[0]) + UnitBytes(us[1..])
  }

  function ReadUnits(data: bytes, off: nat, n: nat): (us: seq<Utf16.unit>)
    requires off + 2 * n <= |data|
    ensures |us| == n
    ensures forall i :: 0 <= i < n ==> us[i] == U16(data, off + 2 * i)
    decreases n
  {
    if n == 0 then [] else [U16(data, off)] + ReadUnits(data, off + 2, n - 1)
  }

  function EncodeUtf16String(s: text): bytes {
    var us := Utf16.EncodeUnits(Utf8.Runes(s));
    WriteLength16(|us|) + (UnitBytes(us) + Le16(0))
  }

  function DecodeUtf16String(data: bytes): Result<text> {
    match ReadLength16(data)
    case Err(e) => Err(e)
    case Ok((units, n)) =>
      if n + units * 2 > |data| then Err("utf16 string out of bounds")
      else Ok(Utf8.OfRunes(Utf16.DecodeUnits(ReadUnits(data, n, units))))
  }

  function Encode(utf8: bool, s: text): bytes {
    if utf8 then EncodeUtf8String(s) else EncodeUtf16String(s)
  }

  function Decode(utf8: bool, data: bytes): Result<text> {
    if utf8 then DecodeUtf8String(data) else DecodeUtf16String(data)
  }

  /** decodeUTF16String, with the unit array it fills. */
  method DecodeUtf16Units(data: bytes) returns (r: Result<text>)
    ensures r == DecodeUtf16String(data)
  {
    var len := ReadLength16(data);
    if len.Err? {
      return Err(len.reason);
    }
    var (units, n) := len.value;
    if n + units * 2 > |data| {
      return Err("utf16 string out of bounds");
    }
    var raw := new Utf16.unit[units](_ => 0);
    for i := 0 to units
      invariant forall k :: 0 <= k < i ==> raw[k] == U16(data, n + 2 * k)
    {
      raw[i] := U16(data, n + i * 2);
    }
    assert raw[..] == ReadUnits(data, n, units);
    return Ok(Utf8.OfRunes(Utf16.DecodeUnits(raw[..])));
  }

  /** A string the pool can hold: short enough for its length field, and representable in the pool's encoding. */
  predicate Storable(utf8: bool, s: text) {
    if utf8 then |s| <= 0x7fff
    else Utf8.Valid(s) && |Utf16.EncodeUnits(Utf8.Runes(s))| <= 0x7fff_ffff
  }

  lemma {:induction false} UnitsRoundTrip(data: bytes, off: nat, us: seq<Utf16.unit>)
    requires off + 2 * |us| <= |data| && data[off..off + 2 * |us|] == UnitBytes(us)
    ensures ReadUnits(data, off, |us|) == us
    decreases |us|
  {
    hide Le16;
    if us != [] {
      var part := data[off..off + 2 * |us|];
      assert data[off..off + 2] == part[..2] == Le16(us[0]);
      assert data[off + 2..off + 2 * |us|] == part[2..] == UnitBytes(us[1..]);
      FieldAt16(data, off, us[0]);
      UnitsRoundTrip(data, off + 2, us[1..]);
    }
  }

  lemma Utf8RoundTrip(s: text, tail: bytes)
    ensures DecodeUtf8String(EncodeUtf8String(s) + tail) == Ok(s) <==> |s| <= 0x7fff
  {
    hide ReadLength8, WriteLength8, Utf8.Runes;
    var first := WriteLength8(|Utf8.Runes(s)|);
    var second := WriteLength8(|s|);
    var data := EncodeUtf8String(s) + tail;
    Length8RoundTrip(|Utf8.Runes(s)|, second + (s + [0]) + tail);
    assert data == first + (second + (s + [0]) + tail);
    Length8RoundTrip(|s|, s + [0] + tail);
    assert data[|first|..] == second + (s + [0] + tail);
    var n := |first| + |second|;
    if |s| <= 0x7fff {
      assert data[n..n + |s|] == s;
    }
  }

  lemma Utf16RoundTrip(s: text, tail: bytes)
    requires |Utf16.EncodeUnits(Utf8.Runes(s))| <= 0x7fff_ffff
    ensures DecodeUtf16String(EncodeUtf16String(s) + tail) == Ok(s) <==> Utf8.Valid(s)
  {
    hide ReadLength16, WriteLength16, Utf16.EncodeUnits, Utf8.Runes, Le16;
    var us := Utf16.EncodeUnits(Utf8.Runes(s));
    var len := WriteLength16(|us|);
    var data := EncodeUtf16String(s) + tail;
    Length16RoundTrip(|us|, UnitBytes(us) + Le16(0) + tail);
    assert data == len + (UnitBytes(us) + Le16(0) + tail);
    assert data[|len|..|len| + 2 * |us|] == UnitBytes(us);
    UnitsRoundTrip(data, |len|, us);
    Utf16.DecodeEncodedUnits(Utf8.Runes(s));
  }

  /** Every storable string is read back from its encoding, whatever follows it. */
  lemma StringRoundTrip(utf8: bool, s: text, tail: bytes)
    requires Storable(utf8, s)
    ensures Decode(utf8, Encode(utf8, s) + tail) == Ok(s)
  {
    if utf8 { Utf8RoundTrip(s, tail); } else { Utf16RoundTrip(s, tail); }
  }

  /** Every string that was read can be stored again. */
  lemma ReadIsStorable(utf8: bool, data: bytes)
    requires Decode(utf8, data).Ok?
    ensures Storable(utf8, Decode(utf8, data).value)
  {
    if !utf8 {
      var (units, n) := ReadLength16(data).value;
      var us := ReadUnits(data, n, units);
      var rs := Utf16.DecodeUnits(us);
      Utf8.OfRunesValid(rs);
      Utf8.RunesOfRunes(rs);
      Utf16.UnitCountKept(us);
    }
  }

  lemma {:induction false} ReadUnitsOfPrefix(data: bytes, more: bytes, off: nat, n: nat)
    requires off + 2 * n <= |data|
    ensures ReadUnits(data + more, off, n) == ReadUnits(data, off, n)
    decreases n
  {
    if n > 0 { ReadUnitsOfPrefix(data, more, off + 2, n - 1); }
  }

  lemma DropOfConcat(data: bytes, more: bytes, n: nat)
    requires n <= |data|
    ensures (data + more)[n..] == data[n..] + more
  {
  }

  lemma Length8OfPrefix(data: bytes, more: bytes)
    requires ReadLength8(data).Ok?
    ensures ReadLength8(data + more) == ReadLength8(data)
  {
  }

  lemma Utf8OfPrefix(data: bytes, more: bytes)
    requires DecodeUtf8String(data).Ok?
    ensures DecodeUtf8String(data + more) == DecodeUtf8String(data)
  {
    hide ReadLength8;
    var (_, n) := ReadLength8(data).value;
    Length8OfPrefix(data, more);
    DropOfConcat(data, more, n);
    var (byteLen, m) := ReadLength8(data[n..]).value;
    Length8OfPrefix(data[n..], more);
    assert (data + more)[n + m..n + m + byteLen] == data[n + m..n + m + byteLen];
  }

  /** Reading a string does not look past its end. */
  lemma DecodeOfPrefix(utf8: bool, data: bytes, more: bytes)
    requires Decode(utf8, data).Ok?
    ensures Decode(utf8, data + more) == Decode(utf8, data)
  {
    if utf8 {
      Utf8OfPrefix(data, more);
    } else {
      var (units, n) := ReadLength16(data).value;
      ReadUnitsOfPrefix(data, more, n, units);
    }
  }

  // ----- Reading a pool -----

  /** What the patcher keeps of a string pool chunk. */
  datatype Pool = Pool(chunkSize: nat, flags: nat, styleOffsets: seq<nat>, styleData: bytes, strings: seq<text>) {
    predicate Utf8() {
      IsUtf8(flags)
    }
  }

  predicate IsUtf8(flags: nat) {
    flags / UTF8_FLAG % 2 == 1
  }

  /** Fields first to last of a table of 32 bit values. */
  function Words(data: bytes, base: nat, first: nat, last: nat): (ws: seq<nat>)
    requires first <= last && base + 4 * last <= |data|
    ensures |ws| == last - first
    ensures forall i :: 0 <= i < |ws| ==> ws[i] == U32(data, base + 4 * (first + i))
    decreases last - first
  {
    if first == last then [] else [U32(data, base + 4 * first)] + Words(data, base, first + 1, last)
  }

  /** Strings first to count of chunk c, each located by its offset from start and ending before end. */
  function ReadStrings(c: bytes, table: nat, first: nat, count: nat, start: nat, end: nat, utf8: bool): (r: Result<seq<text>>)
    requires first <= count && table + 4 * count <= |c| && start <= end <= |c|
    ensures r.Ok? ==> |r.value| == count - first
    decreases count - first
  {
    if first == count then Ok([])
    else
      var pos := start + U32(c, table + 4 * first);
      if pos >= end then Err("string offset is malformed")
      else
        match Decode(utf8, c[pos..end])
        case Err(e) => Err(e)
        case Ok(s) =>
          match ReadStrings(c, table, first + 1, count, start, end, utf8)
          case Err(e) => Err(e)
          case Ok(rest) => Ok([s] + rest)
  }

  /** The patcher's view of a whole string pool chunk. */
  function PoolOfChunk(c: bytes): (r: Result<Pool>)
    requires |c| >= 28
    ensures r.Ok? ==> r.value.chunkSize == |c|
  {
    var headerSize := U16(c, 2);
    var count := U32(c, 8);
    var styleCount := U32(c, 12);
    var flags := U32(c, 16);
    var stringsStart := U32(c, 20);
    var stylesStart := U32(c, 24);
    var styleTable := headerSize + 4 * count;
    if headerSize < 28 || |c| < headerSize then Err("string pool header is malformed")
    else if styleTable + 4 * styleCount > |c| then Err("string pool offsets are malformed")
    else
      var end := if stylesStart > 0 then stylesStart else |c|;
      if stringsStart > end || end > |c| then Err("string pool data is malformed")
      else
        match ReadStrings(c, headerSize, 0, count, stringsStart, end, IsUtf8(flags))
        case Err(e) => Err(e)
        case Ok(strings) =>
          Ok(Pool(|c|, flags, Words(c, styleTable, 0, styleCount),
                  if styleCount > 0 && stylesStart > 0 then c[stylesStart..] else [], strings))
  }

  /** parsePatchStringPool at an offset of a manifest. */
  function PatchPool(data: bytes, off: nat): Result<Pool>
    requires off + 28 <= |data|
  {
    var chunkSize := U32(data, off + 4);
    if U16(data, off + 2) < 28 || chunkSize < U16(data, off + 2) || off + chunkSize > |data| then
      Err("string pool header is malformed")
    else PoolOfChunk(data[off..off + chunkSize])
  }

  // ----- Printing a pool -----

  function EncodeAll(utf8: bool, strings: seq<text>): (es: seq<bytes>)
    ensures |es| == |strings|
    ensures forall i :: 0 <= i < |es| ==> es[i] == Encode(utf8, strings[i])
  {
    if strings == [] then [] else [Encode(utf8, strings[0])] + EncodeAll(utf8, strings[1..])
  }

  function Concat(es: seq<bytes>): bytes {
    if es == [] then [] else es[0] + Concat(es[1..])
  }

  /** The offsets of the encoded strings, the first at running. */
  function OffsetTable(es: seq<bytes>, running: nat): (t: bytes)
    ensures |t| == 4 * |es|
  {
    if es == [] then [] else Le32(running) + OffsetTable(es[1..], running + |es[0]|)
  }

  function WordBytes(ws: seq<nat>): (t: bytes)
    ensures |t| == 4 * |ws|
  {
    if ws == [] then [] else Le32(ws[0]) + WordBytes(ws[1..])
  }

  function Padding(n: nat): (p: nat)
    ensures p < 4 && (n + p) % 4 == 0
  {
    (4 - n % 4) % 4
  }

  function PoolHeader(p: Pool, size: nat, stringsStart: nat, stylesStart: nat): (h: bytes)
    ensures |h| == 28
  {
    Le16(1) + Le16(28) + Le32(size) + Le32(|p.strings|) + Le32(|p.styleOffsets|)
    + Le32(p.flags) + Le32(stringsStart) + Le32(stylesStart)
  }

  /** The string data, padded to a multiple of four bytes. */
  function StringData(p: Pool): bytes {
    var data := Concat(EncodeAll(p.Utf8(), p.strings));
    data + Zeros(Padding(|data|))
  }

  function StringsStart(p: Pool): nat {
    28 + 4 * |p.strings| + 4 * |p.styleOffsets|
  }

  function PrintedSize(p: Pool): nat {
    StringsStart(p) + |StringData(p)| + |p.styleData|
  }

  function PoolBytes(p: Pool): (s: bytes)
    ensures |s| == PrintedSize(p)
  {
    var es := EncodeAll(p.Utf8(), p.strings);
    var stylesStart := if |p.styleOffsets| > 0 then StringsStart(p) + |StringData(p)| else 0;
    PoolHeader(p, PrintedSize(p), StringsStart(p), stylesStart)
    + OffsetTable(es, 0) + WordBytes(p.styleOffsets) + StringData(p) + p.styleData
  }

  // ----- The loops -----

  /** parsePatchStringPool: one loop reads the strings through their offsets, one copies the style offsets. */
  method ParsePatchStringPool(data: bytes, off: nat) returns (r: Result<Pool>)
    requires off + 28 <= |data|
    ensures r.Ok? == PatchPool(data, off).Ok?
    ensures r.Ok? ==> r == PatchPool(data, off)
  {
    hide ReadStrings, U16, U32, Words;
    var headerSize := U16(data, off + 2);
    var chunkSize := U32(data, off + 4);
    if headerSize < 28 || chunkSize < headerSize || off + chunkSize > |data| {
      return Err("string pool header is malformed");
    }
    var count, styleCount := U32(data, off + 8), U32(data, off + 12);
    var flags := U32(data, off + 16);
    var stringsStart, stylesStart := U32(data, off + 20), U32(data, off + 24);
    ghost var c := data[off..off + chunkSize];
    HeaderOfChunk(data, off, chunkSize);
    var table := off + headerSize;
    var styleTable := table + count * 4;
    if styleTable + styleCount * 4 > off + chunkSize {
      return Err("string pool offsets are malformed");
    }
    var end := if stylesStart > 0 then off + stylesStart else off + chunkSize;
    if off + stringsStart > end || end > off + chunkSize {
      return Err("string pool data is malformed");
    }
    var strings := ReadPoolStrings(data, off, chunkSize, table, count, off + stringsStart, end, IsUtf8(flags));
    if strings.Err? {
      return Err(strings.reason);
    }
    var styleOffsets := ReadStyleOffsets(data, off, chunkSize, styleTable, styleCount);
    var styleData := if styleCount > 0 && stylesStart > 0 then data[off + stylesStart..off + chunkSize] else [];
    if styleCount > 0 && stylesStart > 0 { SubSlice(data, off, off + chunkSize, stylesStart, chunkSize); }
    return Ok(Pool(chunkSize, flags, styleOffsets, styleData, strings.value));
  }

  lemma HeaderOfChunk(data: bytes, off: nat, size: nat)
    requires off + size <= |data| && size >= 28
    ensures var c := data[off..off + size];
            && U16(c, 2) == U16(data, off + 2) && U32(c, 8) == U32(data, off + 8) && U32(c, 12) == U32(data, off + 12)
            && U32(c, 16) == U32(data, off + 16) && U32(c, 20) == U32(data, off + 20) && U32(c, 24) == U32(data, off + 24)
  {
    hide U16, U32;
    FieldOfSlice(data, off, off + size, 2);
    FieldOfSlice(data, off, off + size, 8);
    FieldOfSlice(data, off, off + size, 12);
    FieldOfSlice(data, off, off + size, 16);
    FieldOfSlice(data, off, off + size, 20);
    FieldOfSlice(data, off, off + size, 24);
  }

  method ReadPoolStrings(data: bytes, off: nat, size: nat, table: nat, count: nat, start: nat, end: nat, utf8: bool)
    returns (r: Result<seq<text>>)
    requires off <= table && table + 4 * count <= off + size <= |data| && off <= start <= end <= off + size
    ensures var spec := ReadStrings(data[off..off + size], table - off, 0, count, start - off, end - off, utf8);
            r.Ok? == spec.Ok? && (r.Ok? ==> r == spec)
  {
    hide Decode, U32, ReadStrings;
    ghost var c := data[off..off + size];
    assert |c| == size;
    ghost var all := ReadStrings(c, table - off, 0, count, start - off, end - off, utf8);
    var strings: seq<text> := [];
    PrefixedByNothing(all);
    for i := 0 to count
      invariant PrefixedBy(strings, ReadStrings(c, table - off, i, count, start - off, end - off, utf8), all)
    {
      var pos := start + U32(data, table + i * 4);
      ReadStringsStep(c, table - off, i, count, start - off, end - off, utf8);
      FieldOfSlice(data, off, off + size, table - off + 4 * i);
      if pos >= end {
        return Err("string offset is malformed");
      }
      SubSlice(data, off, off + size, pos - off, end - off);
      var s := Decode(utf8, data[pos..end]);
      if s.Err? {
        return Err(s.reason);
      }
      PrefixedByMore(strings, s.value, ReadStrings(c, table - off, i + 1, count, start - off, end - off, utf8), all);
      strings := strings + [s.value];
    }
    ReadStringsEnd(c, table - off, count, start - off, end - off, utf8);
    assert strings + [] == strings;
    return Ok(strings);
  }

  /** What is read in all, if so much of it has been read and the rest is yet to come. */
  ghost predicate PrefixedBy(strings: seq<text>, rest: Result<seq<text>>, all: Result<seq<text>>) {
    all.Ok? == rest.Ok? && (all.Ok? ==> all.value == strings + rest.value)
  }

  lemma PrefixedByNothing(all: Result<seq<text>>)
    ensures PrefixedBy([], all, all)
  {
    if all.Ok? { assert [] + all.value == all.value; }
  }

  lemma PrefixedByMore(strings: seq<text>, s: text, rest: Result<seq<text>>, all: Result<seq<text>>)
    requires PrefixedBy(strings, if rest.Ok? then Ok([s] + rest.value) else rest, all)
    ensures PrefixedBy(strings + [s], rest, all)
  {
    if rest.Ok? { assert strings + ([s] + rest.value) == (strings + [s]) + rest.value; }
  }

  lemma ReadStringsStep(c: bytes, table: nat, first: nat, count: nat, start: nat, end: nat, utf8: bool)
    requires first < count && table + 4 * count <= |c| && start <= end <= |c|
    ensures var pos := start + U32(c, table + 4 * first);
            var r := ReadStrings(c, table, first, count, start, end, utf8);
            var rest := ReadStrings(c, table, first + 1, count, start, end, utf8);
            if pos >= end || Decode(utf8, c[pos..end]).Err? then r.Err?
            else r == if rest.Ok? then Ok([Decode(utf8, c[pos..end]).value] + rest.value) else rest
  {
    hide Decode, U32;
  }

  lemma ReadStringsEnd(c: bytes, table: nat, count: nat, start: nat, end: nat, utf8: bool)
    requires table + 4 * count <= |c| && start <= end <= |c|
    ensures ReadStrings(c, table, count, count, start, end, utf8) == Ok([])
  {
  }

  method ReadStyleOffsets(data: bytes, off: nat, size: nat, table: nat, count: nat) returns (ws: seq<nat>)
    requires off <= table && table + 4 * count <= off + size <= |data|
    ensures ws == Words(data[off..off + size], table - off, 0, count)
  {
    hide U32;
    ghost var c := data[off..off + size];
    ws := [];
    for i := 0 to count
      invariant |ws| == i
      invariant forall k :: 0 <= k < i ==> ws[k] == U32(c, table - off + 4 * k)
    {
      FieldOfSlice(data, off, off + size, table - off + 4 * i);
      ws := ws + [U32(data, table + i * 4)];
    }
  }

  /** toBytes: the header, the offsets, the style offsets, the strings, padding and the style data, appended in turn. */
  method PrintPool(p: Pool) returns (out: bytes)
    ensures out == PoolBytes(p)
  {
    hide Encode, EncodeAll, PoolHeader, PoolBytes, PrintedSize, StringData, OffsetTable, WordBytes, Concat, Padding, Zeros;
    var encoded := EncodeStrings(p);
    var stringsBytes := TotalSize(encoded);
    var stringsStart := 28 + |p.strings| * 4 + |p.styleOffsets| * 4;
    var padded := stringsBytes + Padding(stringsBytes);
    var stylesStart := if |p.styleOffsets| > 0 then stringsStart + padded else 0;
    var header := PoolHeader(p, stringsStart + padded + |p.styleData|, stringsStart, stylesStart);
    var table := AppendOffsets(encoded);
    var styles := AppendStyleOffsets(p.styleOffsets);
    var data := AppendStrings(encoded);
    PoolParts(p);
    Joined(header, table, styles, data, Zeros(Padding(stringsBytes)), p.styleData);
    out := header + table + styles + data;
    PaddingOf(|header + table + styles|, stringsBytes);
    out := PadToWord(out);
    out := out + p.styleData;
  }

  /** The parts of a printed pool as they are appended; the strings begin at a multiple of 4. */
  lemma PoolParts(p: Pool)
    ensures var es := EncodeAll(p.Utf8(), p.strings);
            var n := |Concat(es)|;
            var start := 28 + |p.strings| * 4 + |p.styleOffsets| * 4;
            var header := PoolHeader(p, start + (n + Padding(n)) + |p.styleData|, start,
                                     if |p.styleOffsets| > 0 then start + (n + Padding(n)) else 0);
            && PoolBytes(p) == header + OffsetTable(es, 0) + WordBytes(p.styleOffsets)
                               + (Concat(es) + Zeros(Padding(n))) + p.styleData
            && |header + OffsetTable(es, 0) + WordBytes(p.styleOffsets)| % 4 == 0
  {
    hide Encode, PoolHeader, Concat, Padding, Zeros;
  }

  lemma Joined(a: bytes, b: bytes, c: bytes, d: bytes, z: bytes, e: bytes)
    ensures a + b + c + d + z + e == a + b + c + (d + z) + e
  {
    assert a + b + c + d + z == a + b + c + (d + z);
  }

  lemma PaddingOf(front: nat, n: nat)
    requires front % 4 == 0
    ensures Padding(front + n) == Padding(n)
  {
  }

  method PadToWord(s: bytes) returns (out: bytes)
    ensures out == s + Zeros(Padding(|s|))
  {
    hide Zeros, Padding;
    out := s;
    ghost var n: nat := 0;
    NoZeros(s);
    while |out| % 4 != 0
      invariant n <= Padding(|s|) && out == s + Zeros(n)
      decreases Padding(|s|) - n
    {
      OneMoreZero(s, n);
      out, n := out + [0], n + 1;
    }
    PaddingIsLeast(|s|, n);
  }

  lemma NoZeros(s: bytes)
    ensures s + Zeros(0) == s
  {
  }

  lemma OneMoreZero(s: bytes, n: nat)
    requires n <= Padding(|s|) && (|s| + n) % 4 != 0
    ensures s + Zeros(n) + [0] == s + Zeros(n + 1) && n < Padding(|s|)
  {
    assert Zeros(n) + [0] == Zeros(n + 1);
    assert s + Zeros(n) + [0] == s + (Zeros(n) + [0]);
  }

  lemma PaddingIsLeast(m: nat, n: nat)
    requires n <= Padding(m) && (m + n) % 4 == 0
    ensures n == Padding(m)
  {
  }

  method EncodeStrings(p: Pool) returns (encoded: seq<bytes>)
    ensures encoded == EncodeAll(p.Utf8(), p.strings)
  {
    hide Encode;
    encoded := [];
    for i := 0 to |p.strings|
      invariant |encoded| == i
      invariant forall k :: 0 <= k < i ==> encoded[k] == Encode(p.Utf8(), p.strings[k])
    {
      encoded := encoded + [Encode(p.Utf8(), p.strings[i])];
    }
  }

  method TotalSize(encoded: seq<bytes>) returns (n: nat)
    ensures n == |Concat(encoded)|
  {
    n := 0;
    for i := 0 to |encoded|
      invariant n + |Concat(encoded[i..])| == |Concat(encoded)|
    {
      assert encoded[i..][1..] == encoded[i + 1..];
      n := n + |encoded[i]|;
    }
  }

  method AppendOffsets(encoded: seq<bytes>) returns (table: bytes)
    ensures table == OffsetTable(encoded, 0)
  {
    hide Le32;
    table := [];
    var running := 0;
    for i := 0 to |encoded|
      invariant running >= 0
      invariant OffsetTable(encoded, 0) == table + OffsetTable(encoded[i..], running)
    {
      assert encoded[i..][1..] == encoded[i + 1..];
      table := table + Le32(running);
      running := running + |encoded[i]|;
    }
  }

  method AppendStyleOffsets(ws: seq<nat>) returns (table: bytes)
    ensures table == WordBytes(ws)
  {
    hide Le32;
    table := [];
    for i := 0 to |ws|
      invariant WordBytes(ws) == table + WordBytes(ws[i..])
    {
      assert ws[i..][1..] == ws[i + 1..];
      table := table + Le32(ws[i]);
    }
  }

  method AppendStrings(encoded: seq<bytes>) returns (data: bytes)
    ensures data == Concat(encoded)
  {
    data := [];
    for i := 0 to |encoded|
      invariant Concat(encoded) == data + Concat(encoded[i..])
    {
      assert encoded[i..][1..] == encoded[i + 1..];
      data := data + encoded[i];
    }
  }
}
