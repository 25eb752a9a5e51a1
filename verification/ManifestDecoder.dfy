/**
 The previewer's reading of a binary manifest: the pool, and then chunk by chunk what is shown of each. How names are
 written is the namespace stack's part.
 */
module ManifestDecoder {
  import opened LittleEndian
  import opened Options
  import opened StringPools
  import opened StringPoolRoundTrip
  import opened AttributeTables
  import Namespaces

  const XML_TYPE := 0x0003
  const START_NAMESPACE := 0x0100
  const END_NAMESPACE := 0x0101
  const START_ELEMENT := 0x0102
  const END_ELEMENT := 0x0103
  const CHARACTERS := 0x0104
  const STRING_VALUE := 3

  // ----- Values and attributes -----

  /** A value as it is shown: a text, or a rendering of its type and data. */
  datatype Shown = Plain(t: text) | Rendered(kind: byte, data: nat)

  /** The string lookup. */
  function Get(strings: seq<text>, i: nat): text {
    if i == NO_INDEX || i >= |strings| then [] else strings[i]
  }

  function FormatValue(strings: seq<text>, raw: text, kind: byte, data: nat): Shown {
    if raw != [] then Plain(raw)
    else if kind == 0 then Plain([])
    else if kind == STRING_VALUE then Plain(Get(strings, data))
    else Rendered(kind, data)
  }

  datatype Attribute = Attribute(uri: text, name: text, value: Shown)

  function AttributeAt(data: bytes, a: nat, strings: seq<text>): Attribute
    requires a + 20 <= |data|
  {
    Attribute(Get(strings, U32(data, a)), Get(strings, U32(data, a + 4)),
              FormatValue(strings, Get(strings, U32(data, a + 8)), data[a + 15], U32(data, a + 16)))
  }

  /** So many attributes from a on; None if one reaches beyond the data, where reading it panics. */
  function AttributesAt(data: bytes, a: nat, size: nat, count: nat, strings: seq<text>): (r: Option<seq<Attribute>>)
    ensures r.Some? ==> |r.value| == count
    decreases count
  {
    if count == 0 then Some([])
    else if a + 20 > |data| then None
    else
      match AttributesAt(data, a + size, size, count - 1, strings)
      case None => None
      case Some(rest) => Some([AttributeAt(data, a, strings)] + rest)
  }

  // ----- Chunks -----

  /** What a chunk is shown as. */
  datatype Item =
    | Declares(prefix: text, uri: text)
    | Retracts(prefix: text, uri: text)
    | Opens(uri: text, name: text, attributes: seq<Attribute>)
    | Closes(uri: text, name: text)
    | Says(t: text)
    | Passed

  function StartItem(data: bytes, off: nat, size: nat, strings: seq<text>): Result<Item>
    requires off + 36 <= |data|
  {
    var attrSize, count := U16(data, off + 26), U16(data, off + 28);
    var a := off + 16 + U16(data, off + 24);
    if attrSize == 0 || a + Area(count, attrSize) > off + size then Err("invalid attributes")
    else
      match AttributesAt(data, a, attrSize, count, strings)
      case None => Err("index out of range")
      case Some(attributes) => Ok(Opens(Get(strings, U32(data, off + 16)), Get(strings, U32(data, off + 20)), attributes))
  }

  /** The chunk of the given size at off. */
  function ItemAt(data: bytes, off: nat, size: nat, strings: seq<text>): Result<Item>
    requires off + size <= |data| && size >= 8
  {
    var kind := U16(data, off);
    if kind == START_NAMESPACE && size >= 24 then Ok(Declares(Get(strings, U32(data, off + 16)), Get(strings, U32(data, off + 20))))
    else if kind == END_NAMESPACE && size >= 24 then Ok(Retracts(Get(strings, U32(data, off + 16)), Get(strings, U32(data, off + 20))))
    else if kind == START_ELEMENT then if size < 36 then Err("short start element chunk") else StartItem(data, off, size, strings)
    else if kind == END_ELEMENT then
      if size < 24 then Err("short end element chunk") else Ok(Closes(Get(strings, U32(data, off + 16)), Get(strings, U32(data, off + 20))))
    else if kind == CHARACTERS && size >= 28 then Ok(Says(Get(strings, U32(data, off + 16))))
    else Ok(Passed)
  }

  /** The chunks from off to total. */
  function Items(data: bytes, off: nat, total: nat, strings: seq<text>): Result<seq<Item>>
    requires total <= |data|
    decreases if off < total then total - off else 0
  {
    if off + 8 > total then Ok([])
    else
      var header, size := U16(data, off + 2), U32(data, off + 4);
      if header < 8 || size < header || off + size > total then Err("invalid XML chunk")
      else
        match ItemAt(data, off, size, strings)
        case Err(e) => Err(e)
        case Ok(item) =>
          match Items(data, off + size, total, strings)
          case Err(e) => Err(e)
          case Ok(rest) => Ok([item] + rest)
  }

  /** DecodeManifest, up to how the items are printed. */
  function DecodeItems(data: bytes): Result<seq<Item>> {
    if |data| < 8 then Err("short binary XML")
    else if U16(data, 0) != XML_TYPE then Err("not an Android binary XML document")
    else
      var total, off := U32(data, 4), U16(data, 2);
      if total == 0 || total > |data| then Err("invalid binary XML size")
      else if off < 8 || off > total then Err("invalid binary XML header size")
      else
        match PreviewPool(data, off)
        case Err(e) => Err(e)
        case Ok((strings, consumed)) => Items(data, off + consumed, total, strings)
  }

  /** The part of an item that decides which tags are printed. */
  function TagPart(item: Item): Namespaces.Chunk {
    match item
    case Declares(prefix, uri) => Namespaces.StartNamespace(prefix, uri)
    case Retracts(prefix, uri) => Namespaces.EndNamespace(prefix, uri)
    case Opens(uri, name, attributes) =>
      Namespaces.StartElement(uri, name, seq(|attributes|, i requires 0 <= i < |attributes| => (attributes[i].uri, attributes[i].name)))
    case Closes(uri, name) => Namespaces.EndElement(uri, name)
    case _ => Namespaces.Other
  }

  // ----- The loops -----

  /** The attribute loop. */
  method ReadAttributes(data: bytes, a: nat, size: nat, count: nat, strings: seq<text>) returns (r: Option<seq<Attribute>>)
    ensures r == AttributesAt(data, a, size, count, strings)
  {
    hide U32, FormatValue;
    BehindNothing(AttributesAt(data, a, size, count, strings));
    var attributes: seq<Attribute> := [];
    var p := a;
    for i := 0 to count
      invariant p >= 0
      invariant Behind(attributes, AttributesAt(data, p, size, count - i, strings)) == AttributesAt(data, a, size, count, strings)
    {
      if p + 20 > |data| {
        return None;
      }
      BehindOneMore(attributes, AttributeAt(data, p, strings), AttributesAt(data, p + size, size, count - i - 1, strings));
      attributes := attributes + [AttributeAt(data, p, strings)];
      p := p + size;
    }
    assert attributes + [] == attributes;
    return Some(attributes);
  }

  ghost function Behind<T>(front: seq<T>, rest: Option<seq<T>>): Option<seq<T>> {
    if rest.None? then None else Some(front + rest.value)
  }

  lemma BehindNothing<T>(rest: Option<seq<T>>)
    ensures Behind([], rest) == rest
  {
    if rest.Some? { assert [] + rest.value == rest.value; }
  }

  lemma BehindOneMore<T>(front: seq<T>, x: T, rest: Option<seq<T>>)
    ensures Behind(front, Behind([x], rest)) == Behind(front + [x], rest)
  {
    if rest.Some? { assert front + ([x] + rest.value) == front + [x] + rest.value; }
  }

  method ReadItem(data: bytes, off: nat, size: nat, strings: seq<text>) returns (r: Result<Item>)
    requires off + size <= |data| && size >= 8
    ensures r == ItemAt(data, off, size, strings)
  {
    hide U16, U32, AttributesAt;
    if U16(data, off) != START_ELEMENT || size < 36 {
      return ItemAt(data, off, size, strings);
    }
    var attrSize, count := U16(data, off + 26), U16(data, off + 28);
    var a := off + 16 + U16(data, off + 24);
    if attrSize == 0 || a + Area(count, attrSize) > off + size {
      return Err("invalid attributes");
    }
    var attributes := ReadAttributes(data, a, attrSize, count, strings);
    if attributes.None? {
      return Err("index out of range");
    }
    return Ok(Opens(Get(strings, U32(data, off + 16)), Get(strings, U32(data, off + 20)), attributes.value));
  }

  /** The chunk loop of DecodeManifest. */
  method ReadItems(data: bytes) returns (r: Result<seq<Item>>)
    ensures r.Ok? == DecodeItems(data).Ok?
    ensures r.Ok? ==> r == DecodeItems(data)
  {
    hide U16, U32, PreviewPool, ItemAt;
    if |data| < 8 {
      return Err("short binary XML");
    }
    if U16(data, 0) != XML_TYPE {
      return Err("not an Android binary XML document");
    }
    var total, off := U32(data, 4), U16(data, 2);
    if total == 0 || total > |data| {
      return Err("invalid binary XML size");
    }
    if off < 8 || off > total {
      return Err("invalid binary XML header size");
    }
    var pool := ParseStringPool(data, off);
    if pool.Err? {
      return Err(pool.reason);
    }
    var (strings, consumed) := pool.value;
    off := off + consumed;
    ghost var start := off;
    var items: seq<Item> := [];
    while off + 8 <= total
      invariant Follows(items, Items(data, off, total, strings), Items(data, start, total, strings))
      decreases if off < total then total - off else 0
    {
      var header, size := U16(data, off + 2), U32(data, off + 4);
      if header < 8 || size < header || off + size > total {
        return Err("invalid XML chunk");
      }
      var item := ReadItem(data, off, size, strings);
      if item.Err? {
        return Err(item.reason);
      }
      FollowsStep(items, item.value, Items(data, off + size, total, strings), Items(data, start, total, strings));
      items := items + [item.value];
      off := off + size;
    }
    assert items + [] == items;
    return Ok(items);
  }

  /** All items are those read so far and the rest; a refusal of the rest is one of all. */
  ghost predicate Follows(items: seq<Item>, rest: Result<seq<Item>>, all: Result<seq<Item>>) {
    rest.Ok? == all.Ok? && (rest.Ok? ==> all.value == items + rest.value)
  }

  lemma FollowsStep(items: seq<Item>, item: Item, rest: Result<seq<Item>>, all: Result<seq<Item>>)
    requires Follows(items, if rest.Err? then rest else Ok([item] + rest.value), all)
    ensures Follows(items + [item], rest, all)
  {
    if rest.Ok? { assert items + ([item] + rest.value) == items + [item] + rest.value; }
  }
}
