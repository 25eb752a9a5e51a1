/** Writing an APK as a ZIP archive: sorted entries, local headers, aligned data, central directory, end record. */
module ZipWriter {
  import opened LittleEndian
  import opened Options
  import opened Sorting

  const STORE := 0
  const DEFLATE := 8
  const LOCAL_SIGNATURE := 0x0403_4b50
  const CENTRAL_SIGNATURE := 0x0201_4b50
  const END_SIGNATURE := 0x0605_4b50
  const ALIGN_ID := 0xcafe

  /** An entry to write, its modification time already in the two 16 bit fields of the format. */
  datatype Entry = Entry(name: bytes, data: bytes, coding: nat, time: nat, date: nat, align4: bool)

  /** The checksum and the compression the writer uses, and the decompression a reader uses. */
  datatype Codec = Codec(crc: bytes -> nat, deflate: bytes -> bytes, inflate: bytes -> Option<bytes>)

  ghost predicate Faithful(codec: Codec) {
    forall d: bytes :: codec.crc(d) < 0x1_0000_0000 && codec.inflate(codec.deflate(d)) == Some(d)
  }

  // ----- Names -----

  const SLASH: byte := 0x2f
  const DOT: byte := 0x2e

  /** The parts of a name between slashes. */
  function Split(name: bytes): (parts: seq<bytes>)
    ensures parts != []
  {
    if name == [] then [[]]
    else
      var rest := Split(name[1..]);
      if name[0] == SLASH then [[]] + rest else [[name[0]] + rest[0]] + rest[1..]
  }

  function Join(parts: seq<bytes>): bytes {
    if parts == [] then []
    else if |parts| == 1 then parts[0]
    else parts[0] + [SLASH] + Join(parts[1..])
  }

  predicate IsPlain(part: bytes) {
    part != [] && part != [DOT] && part != [DOT, DOT]
  }

  function Plain(parts: seq<bytes>): seq<bytes> {
    if parts == [] then [] else (if IsPlain(parts[0]) then [parts[0]] else []) + Plain(parts[1..])
  }

  function TrimSlash(name: bytes): bytes {
    if name != [] && name[0] == SLASH then name[1..] else name
  }

  function CleanName(name: bytes): bytes {
    Join(Plain(Split(TrimSlash(name))))
  }

  /** cleanZipName. */
  method CleanZipName(name: bytes) returns (r: bytes)
    ensures r == CleanName(name)
  {
    var parts := Split(TrimSlash(name));
    var clean: seq<bytes> := [];
    hide IsPlain;
    assert parts[0..] == parts;
    for i := 0 to |parts|
      invariant Plain(parts) == clean + Plain(parts[i..])
    {
      assert parts[i..][1..] == parts[i + 1..];
      if IsPlain(parts[i]) {
        clean := clean + [parts[i]];
      }
    }
    assert clean + [] == clean;
    r := Join(clean);
  }

  // ----- Alignment -----

  function AlignmentPad(offset: nat, nameLength: nat, existing: nat): (pad: nat)
    ensures pad < 4 && (offset + 30 + nameLength + existing + pad) % 4 == 0
  {
    (4 - (offset + 30 + nameLength + existing) % 4) % 4
  }

  /** The extra field of a local header: what there is, and a padding record where the data would not be aligned. */
  function AlignmentExtra(offset: nat, nameLength: nat, existing: bytes, align: bool): bytes {
    var pad := AlignmentPad(offset, nameLength, |existing|);
    if !align || pad == 0 then existing else existing + (Le16(ALIGN_ID) + Le16(pad) + Zeros(pad))
  }

  /** alignmentExtra: room for a record header and the padding, filled in place. */
  method MakeAlignmentExtra(offset: nat, nameLength: nat, existing: bytes, align: bool) returns (r: bytes)
    ensures r == AlignmentExtra(offset, nameLength, existing, align)
  {
    if !align {
      return existing;
    }
    var base := offset + 30 + nameLength + |existing|;
    var pad := (4 - base % 4) % 4;
    if pad == 0 {
      return existing;
    }
    var total := pad;
    if total < 4 {
      total := total + 4;
    }
    // The source goes on raising the total until it has the padding's remainder, which it has already.
    assert total % 4 == pad;
    hide Le16;
    var n := |existing|;
    var extra := new byte[n + total](k => if 0 <= k < n then existing[k] else 0);
    var id, size := Le16(ALIGN_ID), Le16(total - 4);
    extra[n], extra[n + 1], extra[n + 2], extra[n + 3] := id[0], id[1], size[0], size[1];
    r := extra[..];
    assert r == existing + (id + size + Zeros(pad));
  }

  // ----- The records -----

  /** The method an entry is written with: stored or deflated, nothing else. */
  function WrittenMethod(e: Entry): nat {
    if e.coding == STORE then STORE else DEFLATE
  }

  function Payload(e: Entry, codec: Codec): bytes {
    if WrittenMethod(e) == DEFLATE then codec.deflate(e.data) else e.data
  }

  function ExtraAt(e: Entry, offset: nat): bytes {
    AlignmentExtra(offset, |CleanName(e.name)|, [], e.align4)
  }

  /** What the central directory records of an entry. */
  datatype Central = Central(
    name: bytes, coding: nat, time: nat, date: nat, crc: nat, compressed: nat, uncompressed: nat, offset: nat, extra: bytes)

  function CentralOf(e: Entry, offset: nat, codec: Codec): Central {
    Central(CleanName(e.name), WrittenMethod(e), e.time, e.date, codec.crc(e.data),
            |Payload(e, codec)|, |e.data|, offset, ExtraAt(e, offset))
  }

  /** The fields that local and central headers share. */
  function SharedFields(c: Central): (h: bytes)
    ensures |h| == 22
  {
    Le16(c.coding) + Le16(c.time) + Le16(c.date) + Le32(c.crc) + Le32(c.compressed) + Le32(c.uncompressed)
    + Le16(|c.name|) + Le16(|c.extra|)
  }

  function LocalHeader(c: Central): (h: bytes)
    ensures |h| == 30
  {
    Le32(LOCAL_SIGNATURE) + Le16(20) + Le16(0) + SharedFields(c)
  }

  function CentralHeader(c: Central): (h: bytes)
    ensures |h| == 46
  {
    Le32(CENTRAL_SIGNATURE) + Le16(20) + Le16(20) + Le16(0) + SharedFields(c)
    + Le16(0) + Le16(0) + Le16(0) + Le32(0) + Le32(c.offset)
  }

  function LocalRecord(c: Central, payload: bytes): (r: bytes)
    ensures |r| == 30 + |c.name| + |c.extra| + |payload|
  {
    LocalHeader(c) + c.name + c.extra + payload
  }

  function CentralRecord(c: Central): (r: bytes)
    ensures |r| == 46 + |c.name| + |c.extra|
  {
    CentralHeader(c) + c.name + c.extra
  }

  function EndRecord(count: nat, size: nat, start: nat): (r: bytes)
    ensures |r| == 22
  {
    Le32(END_SIGNATURE) + Le16(0) + Le16(0) + Le16(count) + Le16(count) + Le32(size) + Le32(start) + Le16(0)
  }

  function LocalAt(e: Entry, offset: nat, codec: Codec): bytes {
    LocalRecord(CentralOf(e, offset, codec), Payload(e, codec))
  }

  /** The central records of the entries, whose local records are written from the given offset on. */
  function Centrals(es: seq<Entry>, offset: nat, codec: Codec): (cs: seq<Central>)
    ensures |cs| == |es|
  {
    if es == [] then []
    else [CentralOf(es[0], offset, codec)] + Centrals(es[1..], offset + |LocalAt(es[0], offset, codec)|, codec)
  }

  function Locals(es: seq<Entry>, offset: nat, codec: Codec): bytes {
    if es == [] then []
    else LocalAt(es[0], offset, codec) + Locals(es[1..], offset + |LocalAt(es[0], offset, codec)|, codec)
  }

  function Directory(cs: seq<Central>): bytes {
    if cs == [] then [] else CentralRecord(cs[0]) + Directory(cs[1..])
  }

  /** The whole archive of entries in the given order. */
  function Archive(es: seq<Entry>, codec: Codec): bytes {
    var locals := Locals(es, 0, codec);
    var directory := Directory(Centrals(es, 0, codec));
    locals + directory + EndRecord(|es|, |directory|, |locals|)
  }

  // ----- The order of the entries -----

  /** Bytewise lexicographic order, the order of Go strings. */
  predicate Less(a: bytes, b: bytes) {
    b != [] && (a == [] || a[0] < b[0] || (a[0] == b[0] && Less(a[1..], b[1..])))
  }

  function NameOrder(): (Entry, Entry) -> bool {
    (a: Entry, b: Entry) => Less(a.name, b.name)
  }

  function InOrder(es: seq<Entry>): (r: seq<Entry>)
    ensures |r| == |es|
  {
    StableSort(es, NameOrder())
  }

  lemma {:induction false} LessAsymmetric(a: bytes, b: bytes)
    ensures !(Less(a, b) && Less(b, a))
    decreases |a|
  {
    if a != [] && b != [] { LessAsymmetric(a[1..], b[1..]); }
  }

  lemma {:induction false} NotLessTransitive(a: bytes, b: bytes, c: bytes)
    requires !Less(b, a) && !Less(c, b)
    ensures !Less(c, a)
    decreases |a|
  {
    if a != [] && b != [] && c != [] && a[0] == b[0] && b[0] == c[0] {
      NotLessTransitive(a[1..], b[1..], c[1..]);
    }
  }

  /** Names that are not told apart are equal. */
  lemma {:induction false} LessIsTotal(a: bytes, b: bytes)
    requires !Less(a, b) && !Less(b, a)
    ensures a == b
    decreases |a|
  {
    if a != [] && b != [] { LessIsTotal(a[1..], b[1..]); }
  }

  lemma NameOrderIsWeak()
    ensures StrictWeak(NameOrder())
  {
    hide Less;
    var before := NameOrder();
    forall a, b | before(a, b) ensures !before(b, a) {
      LessAsymmetric(a.name, b.name);
    }
    forall a, b, c | !before(b, a) && !before(c, b) ensures !before(c, a) {
      NotLessTransitive(a.name, b.name, c.name);
    }
  }

  // ----- The writer -----

  /** Everything that was written, and the running count of its bytes. */
  class CountingWriter {
    var out: bytes
    var n: nat

    ghost predicate Valid()
      reads this
    {
      n == |out|
    }

    constructor ()
      ensures Valid() && out == [] && n == 0
    {
      out, n := [], 0;
    }

    method Write(p: bytes)
      requires Valid()
      modifies this
      ensures Valid() && out == old(out) + p
    {
      out := out + p;
      n := n + |p|;
    }

    method WriteU16(v: nat)
      requires Valid()
      modifies this
      ensures Valid() && out == old(out) + Le16(v)
    {
      Write(Le16(v));
    }

    method WriteU32(v: nat)
      requires Valid()
      modifies this
      ensures Valid() && out == old(out) + Le32(v)
    {
      Write(Le32(v));
    }
  }

  method WriteSharedFields(w: CountingWriter, c: Central)
    requires w.Valid()
    modifies w
    ensures w.Valid() && w.out == old(w.out) + SharedFields(c)
  {
    hide Le16, Le32;
    ghost var was := w.out;
    w.WriteU16(c.coding);
    w.WriteU16(c.time);
    w.WriteU16(c.date);
    w.WriteU32(c.crc);
    w.WriteU32(c.compressed);
    w.WriteU32(c.uncompressed);
    w.WriteU16(|c.name|);
    w.WriteU16(|c.extra|);
    assert w.out == was + SharedFields(c);
  }

  method WriteLocalHeader(w: CountingWriter, c: Central)
    requires w.Valid()
    modifies w
    ensures w.Valid() && w.out == old(w.out) + LocalHeader(c)
  {
    hide Le16, Le32, SharedFields;
    ghost var was := w.out;
    w.WriteU32(LOCAL_SIGNATURE);
    w.WriteU16(20);
    w.WriteU16(0);
    WriteSharedFields(w, c);
    assert w.out == was + LocalHeader(c);
  }

  /** writeLocal: the header, the name, the padding and the data; what the directory needs is given back. */
  method WriteLocal(w: CountingWriter, e: Entry, codec: Codec) returns (c: Central)
    requires w.Valid()
    modifies w
    ensures w.Valid() && w.out == old(w.out) + LocalAt(e, old(w.n), codec)
    ensures c == CentralOf(e, old(w.n), codec)
  {
    hide Le16, Le32, LocalHeader, AlignmentExtra, CleanName;
    ghost var was, at := w.out, w.n;
    var coding := if e.coding != STORE then DEFLATE else STORE;
    var name := CleanZipName(e.name);
    var extra := MakeAlignmentExtra(w.n, |name|, [], e.align4);
    var payload := if coding == DEFLATE then codec.deflate(e.data) else e.data;
    c := Central(name, coding, e.time, e.date, codec.crc(e.data), |payload|, |e.data|, w.n, extra);
    WriteLocalHeader(w, c);
    w.Write(name);
    w.Write(extra);
    w.Write(payload);
    assert c == CentralOf(e, at, codec);
    assert w.out == was + LocalAt(e, at, codec);
  }

  method WriteCentralHeader(w: CountingWriter, c: Central)
    requires w.Valid()
    modifies w
    ensures w.Valid() && w.out == old(w.out) + CentralHeader(c)
  {
    hide Le16, Le32, SharedFields;
    ghost var was := w.out;
    w.WriteU32(CENTRAL_SIGNATURE);
    w.WriteU16(20);
    w.WriteU16(20);
    w.WriteU16(0);
    WriteSharedFields(w, c);
    w.WriteU16(0);
    w.WriteU16(0);
    w.WriteU16(0);
    w.WriteU32(0);
    w.WriteU32(c.offset);
    assert w.out == was + CentralHeader(c);
  }

  method WriteCentral(w: CountingWriter, c: Central)
    requires w.Valid()
    modifies w
    ensures w.Valid() && w.out == old(w.out) + CentralRecord(c)
  {
    hide CentralHeader;
    WriteCentralHeader(w, c);
    w.Write(c.name);
    w.Write(c.extra);
  }

  method WriteEnd(w: CountingWriter, count: nat, size: nat, start: nat)
    requires w.Valid()
    modifies w
    ensures w.Valid() && w.out == old(w.out) + EndRecord(count, size, start)
  {
    hide Le16, Le32;
    ghost var was := w.out;
    w.WriteU32(END_SIGNATURE);
    w.WriteU16(0);
    w.WriteU16(0);
    w.WriteU16(count);
    w.WriteU16(count);
    w.WriteU32(size);
    w.WriteU32(start);
    w.WriteU16(0);
    assert w.out == was + EndRecord(count, size, start);
  }

  method WriteLocals(w: CountingWriter, es: seq<Entry>, codec: Codec) returns (central: seq<Central>)
    requires w.Valid()
    modifies w
    ensures w.Valid() && w.out == old(w.out) + Locals(es, old(w.n), codec)
    ensures central == Centrals(es, old(w.n), codec)
  {
    hide LocalAt, CentralOf;
    ghost var was, at := w.out, w.n;
    central := [];
    assert es[0..] == es;
    for i := 0 to |es|
      invariant w.Valid() && |central| == i
      invariant was + Locals(es, at, codec) == w.out + Locals(es[i..], w.n, codec)
      invariant Centrals(es, at, codec) == central + Centrals(es[i..], w.n, codec)
    {
      assert es[i..][1..] == es[i + 1..];
      var c := WriteLocal(w, es[i], codec);
      central := central + [c];
    }
  }

  method WriteDirectory(w: CountingWriter, central: seq<Central>)
    requires w.Valid()
    modifies w
    ensures w.Valid() && w.out == old(w.out) + Directory(central)
  {
    hide CentralRecord;
    ghost var was := w.out;
    assert central[0..] == central;
    for i := 0 to |central|
      invariant w.Valid()
      invariant was + Directory(central) == w.out + Directory(central[i..])
    {
      assert central[i..][1..] == central[i + 1..];
      WriteCentral(w, central[i]);
    }
  }

  /** WriteAPK: sort, write every local record, then the directory from what was collected, then the end. */
  method WriteApk(entries: seq<Entry>, codec: Codec) returns (archive: bytes)
    ensures archive == Archive(InOrder(entries), codec)
  {
    hide Locals, Directory, Centrals, EndRecord, InOrder;
    var sorted := InOrder(entries);
    var w := new CountingWriter();
    var central := WriteLocals(w, sorted, codec);
    var centralStart := w.n;
    WriteDirectory(w, central);
    var centralSize := w.n - centralStart;
    WriteEnd(w, |central|, centralSize, centralStart);
    archive := w.out;
  }
}
