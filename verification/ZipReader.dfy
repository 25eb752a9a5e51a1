/** Reading an archive back, from the end record through the central directory to the local records. */
module ZipReader {
  import opened LittleEndian
  import opened Options
  import opened ZipWriter

  /** An entry as it was found: what the directory says of it, its data, and where the stored bytes begin. */
  datatype Item = Item(central: Central, data: bytes, at: nat)

  /** The end record: the last place where a record stands whose comment reaches to the end of the archive. */
  function FindEnd(z: bytes, pos: nat): (r: Option<nat>)
    requires pos + 22 <= |z|
    ensures r.Some? ==> r.value <= pos
  {
    if U32(z, pos) == END_SIGNATURE && pos + 22 + U16(z, pos + 20) == |z| then Some(pos)
    else if pos == 0 then None
    else FindEnd(z, pos - 1)
  }

  /** The directory record at pos, and where it ends. */
  function ReadCentral(z: bytes, pos: nat): (r: Option<(Central, nat)>)
    ensures r.Some? ==> pos < r.value.1 <= |z|
  {
    if pos + 46 > |z| || U32(z, pos) != CENTRAL_SIGNATURE then None
    else
      var names := pos + 46;
      var extras := names + U16(z, pos + 28);
      var comments := extras + U16(z, pos + 30);
      var end := comments + U16(z, pos + 32);
      if end > |z| then None
      else
        Some((Central(z[names..extras], U16(z, pos + 10), U16(z, pos + 12), U16(z, pos + 14), U32(z, pos + 16),
                      U32(z, pos + 20), U32(z, pos + 24), U32(z, pos + 42), z[extras..comments]), end))
  }

  /** A local header that agrees with the directory. */
  predicate Agrees(z: bytes, c: Central) {
    var pos := c.offset;
    && pos + 30 <= |z| && U32(z, pos) == LOCAL_SIGNATURE
    && U16(z, pos + 8) == c.coding && U16(z, pos + 10) == c.time && U16(z, pos + 12) == c.date
    && U32(z, pos + 14) == c.crc && U32(z, pos + 18) == c.compressed && U32(z, pos + 22) == c.uncompressed
    && U16(z, pos + 26) == |c.name| && U16(z, pos + 28) == |c.extra|
    && pos + 30 + |c.name| + |c.extra| + c.compressed <= |z|
    && z[pos + 30..pos + 30 + |c.name|] == c.name
    && z[pos + 30 + |c.name|..pos + 30 + |c.name| + |c.extra|] == c.extra
  }

  function Unpacked(raw: bytes, coding: nat, codec: Codec): Option<bytes> {
    if coding == STORE then Some(raw) else if coding == DEFLATE then codec.inflate(raw) else None
  }

  /** The data behind a local header, if header, size and checksum are those of the directory. */
  function ReadLocal(z: bytes, c: Central, codec: Codec): Option<Item> {
    if !Agrees(z, c) then None
    else
      var at := c.offset + 30 + |c.name| + |c.extra|;
      match Unpacked(z[at..at + c.compressed], c.coding, codec)
      case None => None
      case Some(data) => if |data| != c.uncompressed || codec.crc(data) != c.crc then None else Some(Item(c, data, at))
  }

  function ReadItems(z: bytes, pos: nat, count: nat, codec: Codec): Option<seq<Item>>
    decreases count
  {
    if count == 0 then Some([])
    else
      match ReadCentral(z, pos)
      case None => None
      case Some((c, next)) =>
        match ReadLocal(z, c, codec)
        case None => None
        case Some(item) =>
          match ReadItems(z, next, count - 1, codec)
          case None => None
          case Some(rest) => Some([item] + rest)
  }

  function ReadArchive(z: bytes, codec: Codec): Option<seq<Item>> {
    if |z| < 22 then None
    else
      match FindEnd(z, |z| - 22)
      case None => None
      case Some(end) =>
        if U32(z, end + 16) + U32(z, end + 12) > end then None
        else ReadItems(z, U32(z, end + 16), U16(z, end + 10), codec)
  }

  /** Extra fields are records of an identifier, a size and that many bytes, one after the other. */
  predicate WellFormedExtra(x: bytes)
    decreases |x|
  {
    x == [] || (|x| >= 4 && 4 + U16(x, 2) <= |x| && WellFormedExtra(x[4 + U16(x, 2)..]))
  }

  // ----- Reading one entry back -----

  /** Everything of the entry fits its field. */
  predicate Fits(e: Entry, codec: Codec) {
    && |CleanName(e.name)| < 0x1_0000 && e.time < 0x1_0000 && e.date < 0x1_0000
    && |Payload(e, codec)| < 0x1_0000_0000 && |e.data| < 0x1_0000_0000
  }

  predicate RecordFits(c: Central) {
    && |c.name| < 0x1_0000 && |c.extra| < 0x1_0000 && c.coding < 0x1_0000 && c.time < 0x1_0000 && c.date < 0x1_0000
    && c.crc < 0x1_0000_0000 && c.compressed < 0x1_0000_0000 && c.uncompressed < 0x1_0000_0000 && c.offset < 0x1_0000_0000
  }

  lemma CentralFits(e: Entry, offset: nat, codec: Codec)
    requires Fits(e, codec) && Faithful(codec) && offset < 0x1_0000_0000
    ensures RecordFits(CentralOf(e, offset, codec))
  {
    hide CleanName;
  }

  lemma SharedBytes(c: Central)
    ensures var h := SharedFields(c);
            && h[0..2] == Le16(c.coding) && h[2..4] == Le16(c.time) && h[4..6] == Le16(c.date) && h[6..10] == Le32(c.crc)
            && h[10..14] == Le32(c.compressed) && h[14..18] == Le32(c.uncompressed)
            && h[18..20] == Le16(|c.name|) && h[20..22] == Le16(|c.extra|)
  {
    hide Le16, Le32;
  }

  /** The shared fields, read where they stand. */
  lemma SharedRead(z: bytes, at: nat, c: Central)
    requires at + 22 <= |z| && z[at..at + 22] == SharedFields(c) && RecordFits(c)
    ensures U16(z, at) == c.coding && U16(z, at + 2) == c.time && U16(z, at + 4) == c.date && U32(z, at + 6) == c.crc
    ensures U32(z, at + 10) == c.compressed && U32(z, at + 14) == c.uncompressed
    ensures U16(z, at + 18) == |c.name| && U16(z, at + 20) == |c.extra|
  {
    hide *;
    RecordSizes(c);
    SharedBytes(c);
    PartField16(z, at, SharedFields(c), 0, c.coding);
    PartField16(z, at, SharedFields(c), 2, c.time);
    PartField16(z, at, SharedFields(c), 4, c.date);
    PartField32(z, at, SharedFields(c), 6, c.crc);
    PartField32(z, at, SharedFields(c), 10, c.compressed);
    PartField32(z, at, SharedFields(c), 14, c.uncompressed);
    PartField16(z, at, SharedFields(c), 18, |c.name|);
    PartField16(z, at, SharedFields(c), 20, |c.extra|);
  }

  lemma RecordSizes(c: Central)
    requires RecordFits(c)
    ensures |c.name| < 0x1_0000 && |c.extra| < 0x1_0000 && c.coding < 0x1_0000 && c.time < 0x1_0000 && c.date < 0x1_0000
    ensures c.crc < 0x1_0000_0000 && c.compressed < 0x1_0000_0000 && c.uncompressed < 0x1_0000_0000 && c.offset < 0x1_0000_0000
  {
  }

  lemma LocalParts(c: Central, payload: bytes)
    ensures var r := LocalRecord(c, payload);
            var names, extras := 30 + |c.name|, 30 + |c.name| + |c.extra|;
            && r[0..4] == Le32(LOCAL_SIGNATURE) && r[8..30] == SharedFields(c)
            && r[30..names] == c.name && r[names..extras] == c.extra && r[extras..] == payload
  {
    hide Le16, Le32, SharedFields;
    var r := LocalRecord(c, payload);
    assert r == LocalHeader(c) + c.name + c.extra + payload;
    assert r[0..4] == LocalHeader(c)[0..4] && r[8..30] == LocalHeader(c)[8..30];
  }

  lemma CentralParts(c: Central)
    ensures var r := CentralRecord(c);
            && r[0..4] == Le32(CENTRAL_SIGNATURE) && r[10..32] == SharedFields(c) && r[32..34] == Le16(0)
            && r[42..46] == Le32(c.offset) && r[46..46 + |c.name|] == c.name && r[46 + |c.name|..] == c.extra
  {
    hide Le16, Le32, SharedFields;
    var r, h := CentralRecord(c), CentralHeader(c);
    assert r == h + c.name + c.extra;
    assert r[0..4] == h[0..4] && r[10..32] == h[10..32] && r[32..34] == h[32..34] && r[42..46] == h[42..46];
  }

  /** A directory record is read back as it was written. */
  lemma CentralReadBack(z: bytes, pos: nat, c: Central)
    requires RecordFits(c) && pos + |CentralRecord(c)| <= |z| && z[pos..pos + |CentralRecord(c)|] == CentralRecord(c)
    ensures ReadCentral(z, pos) == Some((c, pos + |CentralRecord(c)|))
  {
    hide U16, U32, Le16, Le32, CentralHeader, SharedFields, RecordFits;
    var r := CentralRecord(c);
    var end := pos + |r|;
    CentralParts(c);
    RecordSizes(c);
    PartField32(z, pos, r, 0, CENTRAL_SIGNATURE);
    PartField16(z, pos, r, 32, 0);
    PartField32(z, pos, r, 42, c.offset);
    SubSlice(z, pos, end, 10, 32);
    SharedRead(z, pos + 10, c);
    SubSlice(z, pos, end, 46, 46 + |c.name|);
    SubSlice(z, pos, end, 46 + |c.name|, |r|);
    assert r[46 + |c.name|..|r|] == r[46 + |c.name|..];
  }

  /** A local record agrees with its directory record, and its data follows. */
  lemma LocalAgrees(z: bytes, c: Central, payload: bytes)
    requires RecordFits(c) && |payload| == c.compressed
    requires c.offset + |LocalRecord(c, payload)| <= |z|
    requires z[c.offset..c.offset + |LocalRecord(c, payload)|] == LocalRecord(c, payload)
    ensures Agrees(z, c)
    ensures var at := c.offset + 30 + |c.name| + |c.extra|;
            at + |payload| <= |z| && z[at..at + |payload|] == payload
  {
    hide U16, U32, Le16, Le32, LocalHeader, SharedFields, RecordFits;
    var pos, r := c.offset, LocalRecord(c, payload);
    var end := pos + |r|;
    LocalParts(c, payload);
    RecordSizes(c);
    PartField32(z, pos, r, 0, LOCAL_SIGNATURE);
    SubSlice(z, pos, end, 8, 30);
    SharedRead(z, pos + 8, c);
    SubSlice(z, pos, end, 30, 30 + |c.name|);
    SubSlice(z, pos, end, 30 + |c.name|, 30 + |c.name| + |c.extra|);
    SubSlice(z, pos, end, 30 + |c.name| + |c.extra|, |r|);
    assert r[30 + |c.name| + |c.extra|..|r|] == payload;
  }

  /** What a reader should find of an entry whose local record is written at offset. */
  function ItemOf(e: Entry, offset: nat, codec: Codec): Item {
    var c := CentralOf(e, offset, codec);
    Item(c, e.data, offset + 30 + |c.name| + |c.extra|)
  }

  lemma UnpackedPayload(e: Entry, codec: Codec)
    requires Faithful(codec)
    ensures Unpacked(Payload(e, codec), WrittenMethod(e), codec) == Some(e.data)
  {
  }

  lemma LocalReadBack(z: bytes, e: Entry, offset: nat, codec: Codec)
    requires Faithful(codec) && Fits(e, codec) && offset < 0x1_0000_0000
    requires offset + |LocalAt(e, offset, codec)| <= |z| && z[offset..offset + |LocalAt(e, offset, codec)|] == LocalAt(e, offset, codec)
    ensures ReadLocal(z, CentralOf(e, offset, codec), codec) == Some(ItemOf(e, offset, codec))
  {
    hide Faithful, Fits, Agrees, LocalRecord, Payload, WrittenMethod, CleanName, ExtraAt, RecordFits, Unpacked;
    var c := CentralOf(e, offset, codec);
    CentralFits(e, offset, codec);
    LocalAgrees(z, c, Payload(e, codec));
    UnpackedPayload(e, codec);
  }
}
