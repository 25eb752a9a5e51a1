module PrintedChunks {
  // The chunks of a binary manifest, laid out from their parts, and read back by the previewer.
  import opened LittleEndian
  import opened Options
  import opened StringPools
  import opened AttributeTables
  import opened ManifestDecoder

  /** The common header of all node chunks: type, header size, size, line and comment. */
  function NodeHeader(kind: nat, size: nat, line: nat, comment: nat): (h: bytes)
    ensures |h| == 16
  {
    Le16(kind) + Le16(16) + Le32(size) + Le32(line) + Le32(comment)
  }

  function NamespaceChunk(kind: nat, line: nat, comment: nat, prefix: nat, uri: nat): bytes {
    NodeHeader(kind, 24, line, comment) + Le32(prefix) + Le32(uri)
  }

  function EndChunk(line: nat, comment: nat, uri: nat, name: nat): bytes {
    NodeHeader(END_ELEMENT, 24, line, comment) + Le32(uri) + Le32(name)
  }

  function TextChunk(line: nat, comment: nat, t: nat, kind: byte, data: nat): bytes {
    NodeHeader(CHARACTERS, 28, line, comment) + Le32(t) + (Le16(8) + [0, kind] + Le32(data))
  }

  /** An attribute by its indexes, with the type and the data of its value. */
  datatype RawAttribute = RawAttribute(uri: nat, name: nat, raw: nat, kind: byte, data: nat)

  function AttributeBytes(a: RawAttribute): (b: bytes)
    ensures |b| == 20
  {
    Le32(a.uri) + Le32(a.name) + Le32(a.raw) + (Le16(8) + [0, a.kind]) + Le32(a.data)
  }

  function TableBytes(attributes: seq<RawAttribute>): (b: bytes)
    ensures |b| == 20 * |attributes|
  {
    if attributes == [] then [] else AttributeBytes(attributes[0]) + TableBytes(attributes[1..])
  }

  function StartChunk(line: nat, comment: nat, uri: nat, name: nat, attributes: seq<RawAttribute>): bytes {
    NodeHeader(START_ELEMENT, 36 + 20 * |attributes|, line, comment)
    + (Le32(uri) + Le32(name) + Le16(20) + Le16(20) + Le16(|attributes|) + Le16(0) + Le16(0) + Le16(0))
    + TableBytes(attributes)
  }

  predicate Fits32(n: nat) {
    n < 0x1_0000_0000
  }

  predicate AttributeFits(a: RawAttribute) {
    Fits32(a.uri) && Fits32(a.name) && Fits32(a.raw) && Fits32(a.data)
  }

  // ----- Reading back -----

  lemma HeaderRead(c: bytes, kind: nat, size: nat, line: nat, comment: nat)
    requires |c| >= 16 && c[0..16] == NodeHeader(kind, size, line, comment) && kind < 0x1_0000 && Fits32(size)
    ensures U16(c, 0) == kind && U16(c, 2) == 16 && U32(c, 4) == size
  {
    hide U16, U32, Le16, Le32;
    var h := NodeHeader(kind, size, line, comment);
    assert h[0..2] == Le16(kind) && h[2..4] == Le16(16) && h[4..8] == Le32(size);
    PartField16(c, 0, h, 0, kind);
    PartField16(c, 0, h, 2, 16);
    PartField32(c, 0, h, 4, size);
  }

  lemma TwoIndexes(h: bytes, a: nat, b: nat)
    requires |h| == 16 && Fits32(a) && Fits32(b)
    ensures var c := h + Le32(a) + Le32(b);
            |c| == 24 && c[0..16] == h && U32(c, 16) == a && U32(c, 20) == b
  {
    hide U32, Le32;
    var c := h + Le32(a) + Le32(b);
    assert c[16..20] == Le32(a) && c[20..24] == Le32(b);
    FieldAt32(c, 16, a);
    FieldAt32(c, 20, b);
  }

  /** A namespace chunk holds the prefix and then the URI, for the declaration and for its end. */
  lemma NamespaceReadBack(line: nat, comment: nat, prefix: nat, uri: nat, strings: seq<text>)
    requires Fits32(prefix) && Fits32(uri)
    ensures var c := NamespaceChunk(START_NAMESPACE, line, comment, prefix, uri);
            |c| == 24 && ItemAt(c, 0, 24, strings) == Ok(Declares(Get(strings, prefix), Get(strings, uri)))
    ensures var c := NamespaceChunk(END_NAMESPACE, line, comment, prefix, uri);
            |c| == 24 && ItemAt(c, 0, 24, strings) == Ok(Retracts(Get(strings, prefix), Get(strings, uri)))
  {
    hide U32, U16, Le16, Le32, NodeHeader, Get;
    HeaderOfTwo(START_NAMESPACE, line, comment, prefix, uri);
    HeaderOfTwo(END_NAMESPACE, line, comment, prefix, uri);
  }

  lemma HeaderOfTwo(kind: nat, line: nat, comment: nat, a: nat, b: nat)
    requires kind < 0x1_0000 && Fits32(a) && Fits32(b)
    ensures var c := NodeHeader(kind, 24, line, comment) + Le32(a) + Le32(b);
            |c| == 24 && U16(c, 0) == kind && U16(c, 2) == 16 && U32(c, 4) == 24 && U32(c, 16) == a && U32(c, 20) == b
  {
    hide U32, U16, Le16, Le32, NodeHeader;
    TwoIndexes(NodeHeader(kind, 24, line, comment), a, b);
    HeaderRead(NodeHeader(kind, 24, line, comment) + Le32(a) + Le32(b), kind, 24, line, comment);
  }

  /** The end of an element holds its namespace and then its name. */
  lemma EndReadBack(line: nat, comment: nat, uri: nat, name: nat, strings: seq<text>)
    requires Fits32(uri) && Fits32(name)
    ensures var c := EndChunk(line, comment, uri, name);
            |c| == 24 && ItemAt(c, 0, 24, strings) == Ok(Closes(Get(strings, uri), Get(strings, name)))
  {
    hide U32, U16, Le16, Le32, NodeHeader, Get;
    HeaderOfTwo(END_ELEMENT, line, comment, uri, name);
  }

  lemma TextReadBack(line: nat, comment: nat, t: nat, kind: byte, data: nat, strings: seq<text>)
    requires Fits32(t)
    ensures var c := TextChunk(line, comment, t, kind, data);
            |c| == 28 && ItemAt(c, 0, 28, strings) == Ok(Says(Get(strings, t)))
  {
    hide U32, U16, Le16, Le32, NodeHeader, Get;
    var h := NodeHeader(CHARACTERS, 28, line, comment);
    var c := TextChunk(line, comment, t, kind, data);
    assert c[0..16] == h && c[16..20] == Le32(t);
    HeaderRead(c, CHARACTERS, 28, line, comment);
    FieldAt32(c, 16, t);
  }

  // ----- Attributes and start elements -----

  /** How an attribute is shown: its raw text, or else its typed value. */
  function ShownAs(a: RawAttribute, strings: seq<text>): Attribute {
    Attribute(Get(strings, a.uri), Get(strings, a.name),
              if Get(strings, a.raw) != [] then Plain(Get(strings, a.raw))
              else if a.kind == 0 then Plain([])
              else if a.kind == 3 then Plain(Get(strings, a.data))
              else Rendered(a.kind, a.data))
  }

  lemma AttributeReadBack(c: bytes, at: nat, a: RawAttribute, strings: seq<text>)
    requires at + 20 <= |c| && c[at..at + 20] == AttributeBytes(a) && AttributeFits(a)
    ensures AttributeAt(c, at, strings) == ShownAs(a, strings)
  {
    hide U32, Le32, Le16, Get;
    var b := AttributeBytes(a);
    assert b[0..4] == Le32(a.uri) && b[4..8] == Le32(a.name) && b[8..12] == Le32(a.raw) && b[15] == a.kind && b[16..20] == Le32(a.data);
    PartField32(c, at, b, 0, a.uri);
    PartField32(c, at, b, 4, a.name);
    PartField32(c, at, b, 8, a.raw);
    PartField32(c, at, b, 16, a.data);
    assert c[at..at + 20][15] == c[at + 15];
  }

  function AllShown(attributes: seq<RawAttribute>, strings: seq<text>): seq<Attribute> {
    seq(|attributes|, i requires 0 <= i < |attributes| => ShownAs(attributes[i], strings))
  }

  lemma {:induction false} TableReadBack(c: bytes, at: nat, attributes: seq<RawAttribute>, strings: seq<text>)
    requires at + 20 * |attributes| <= |c| && c[at..at + 20 * |attributes|] == TableBytes(attributes)
    requires forall i :: 0 <= i < |attributes| ==> AttributeFits(attributes[i])
    ensures AttributesAt(c, at, 20, |attributes|, strings) == Some(AllShown(attributes, strings))
    decreases |attributes|
  {
    hide AttributeAt, AttributeBytes, ShownAs, AttributeFits;
    if attributes != [] {
      var n := 20 * |attributes|;
      var table := TableBytes(attributes);
      SubSlice(c, at, at + n, 0, 20);
      SubSlice(c, at, at + n, 20, n);
      assert table[0..20] == AttributeBytes(attributes[0]) && table[20..n] == TableBytes(attributes[1..]);
      AttributeReadBack(c, at, attributes[0], strings);
      TableReadBack(c, at + 20, attributes[1..], strings);
      assert AllShown(attributes, strings) == [ShownAs(attributes[0], strings)] + AllShown(attributes[1..], strings);
    }
  }

  lemma StartFields(c: bytes, head: bytes, uri: nat, name: nat, count: nat, table: bytes)
    requires |head| == 16 && Fits32(uri) && Fits32(name) && count < 0x1_0000
    requires c == head + (Le32(uri) + Le32(name) + Le16(20) + Le16(20) + Le16(count) + Le16(0) + Le16(0) + Le16(0)) + table
    ensures |c| == 36 + |table| && c[0..16] == head && c[36..36 + |table|] == table
    ensures U32(c, 16) == uri && U32(c, 20) == name && U16(c, 24) == 20 && U16(c, 26) == 20 && U16(c, 28) == count
  {
    hide U32, U16, Le32, Le16;
    assert c[16..20] == Le32(uri) && c[20..24] == Le32(name) && c[24..26] == Le16(20) && c[26..28] == Le16(20) && c[28..30] == Le16(count);
    FieldAt32(c, 16, uri);
    FieldAt32(c, 20, name);
    FieldAt16(c, 24, 20);
    FieldAt16(c, 26, 20);
    FieldAt16(c, 28, count);
  }

  /** A start element holds its namespace, its name and its attributes, and each attribute its namespace, name, raw text and value. */
  lemma StartReadBack(line: nat, comment: nat, uri: nat, name: nat, attributes: seq<RawAttribute>, strings: seq<text>)
    requires Fits32(uri) && Fits32(name) && |attributes| < 0x1_0000
    requires forall i :: 0 <= i < |attributes| ==> AttributeFits(attributes[i])
    ensures var c := StartChunk(line, comment, uri, name, attributes);
            && |c| == 36 + 20 * |attributes| && U32(c, 4) == |c|
            && ItemAt(c, 0, |c|, strings) == Ok(Opens(Get(strings, uri), Get(strings, name), AllShown(attributes, strings)))
  {
    hide U32, U16, Le16, Le32, NodeHeader, Get, TableBytes, AttributesAt, AttributeFits, AllShown, Area;
    var n := |attributes|;
    var c := StartChunk(line, comment, uri, name, attributes);
    var head := NodeHeader(START_ELEMENT, 36 + 20 * n, line, comment);
    StartFields(c, head, uri, name, n, TableBytes(attributes));
    HeaderRead(c, START_ELEMENT, 36 + 20 * n, line, comment);
    TableReadBack(c, 36, attributes, strings);
    AreaOf(n);
  }

  lemma AreaOf(n: nat)
    ensures Area(n, 20) == 20 * n
  {
  }
}
