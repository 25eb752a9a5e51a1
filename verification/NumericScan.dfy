/** Scanning ranges of memory for numbers, chunk by chunk. */
module NumericScan {
  import opened LittleEndian
  import opened Options
  import opened SearchResults
  import opened Arithmetic

  /** The memory of a process; every read gives all the bytes asked for. */
  type memory = nat -> byte

  function Fetch(mem: memory, addr: nat, n: nat): (b: bytes)
    ensures |b| == n
    ensures forall i :: 0 <= i < n ==> b[i] == mem(addr + i)
  {
    seq(n, i requires 0 <= i < n => mem(addr + i))
  }

  predicate IsWidth(width: nat) {
    width == 2 || width == 4 || width == 8
  }

  /** readUintFromBytes, for the widths there are. */
  function ReadUint(data: bytes, width: nat): nat
    requires IsWidth(width) && |data| >= width
  {
    if width == 2 then U16(data, 0)
    else if width == 4 then U32(data, 0)
    else U32(data, 0) + 0x1_0000_0000 * U32(data, 4)
  }

  datatype Comparison = GreaterThan | LessThan | NotEqual | Equal

  /** numericCompare. */
  predicate Compare(current: nat, target: nat, op: Comparison) {
    match op
    case GreaterThan => current > target
    case LessThan => current < target
    case NotEqual => current != target
    case Equal => current == target
  }

  /** What is looked for; without a target every number is a match. */
  datatype Query = Query(width: nat, target: Option<nat>, op: Comparison)

  datatype Hit = Hit(addr: nat, value: nat)

  predicate Passes(value: nat, q: Query) {
    q.target.None? || Compare(value, q.target.value, q.op)
  }

  function HitAt(mem: memory, addr: nat, q: Query): seq<Hit>
    requires IsWidth(q.width)
  {
    var value := ReadUint(Fetch(mem, addr, q.width), q.width);
    if Passes(value, q) then [Hit(addr, value)] else []
  }

  /** The matches of a range: every number that lies wholly in it, one behind the other from its beginning. */
  function ScanRange(mem: memory, begin: nat, end: nat, q: Query): seq<Hit>
    requires IsWidth(q.width)
    decreases if begin < end then end - begin else 0
  {
    if begin + q.width > end then [] else HitAt(mem, begin, q) + ScanRange(mem, begin + q.width, end, q)
  }

  function ScanRanges(mem: memory, ranges: seq<(nat, nat)>, q: Query): seq<Hit>
    requires IsWidth(q.width)
  {
    if ranges == [] then [] else ScanRange(mem, ranges[0].0, ranges[0].1, q) + ScanRanges(mem, ranges[1..], q)
  }

  /** splitAlignedSize, and at least one number. */
  function BufferSize(split: nat, width: nat): (size: nat)
    requires width > 0
    ensures size > 0 && size % width == 0
  {
    var size := split - split % width;
    assert size == width * (split / width);
    WholeNumbers(split / width, width);
    if size <= 0 then width else size
  }

  lemma WholeNumbers(k: nat, width: nat)
    requires width > 0
    ensures width * k % width == 0 && width % width == 0
  {
    MultipleOf(k, width);
    MultipleOf(1, width);
  }

  lemma OneWidthLess(n: nat, width: nat)
    requires width > 0 && n % width == 0 && n > 0
    ensures n >= width && (n - width) % width == 0
  {
    assert n == width * (n / width);
    WholeNumbers(n / width - 1, width);
    assert n - width == width * (n / width - 1);
  }

  /** A range may be cut at any number: what is cut are whole numbers. */
  lemma {:induction false} ScanInParts(mem: memory, begin: nat, cut: nat, end: nat, q: Query)
    requires IsWidth(q.width) && begin <= cut <= end && (cut - begin) % q.width == 0
    ensures ScanRange(mem, begin, end, q) == ScanRange(mem, begin, cut, q) + ScanRange(mem, cut, end, q)
    decreases cut - begin
  {
    hide HitAt;
    if begin < cut {
      OneWidthLess(cut - begin, q.width);
      ScanInParts(mem, begin + q.width, cut, end, q);
    }
  }

  lemma FirstOfRange(mem: memory, begin: nat, end: nat, q: Query)
    requires IsWidth(q.width) && begin + q.width <= end
    ensures ScanRange(mem, begin, end, q) == HitAt(mem, begin, q) + ScanRange(mem, begin + q.width, end, q)
  {
    hide HitAt;
  }

  lemma NothingFits(mem: memory, begin: nat, end: nat, q: Query)
    requires IsWidth(q.width) && begin + q.width > end
    ensures ScanRange(mem, begin, end, q) == []
  {
  }

  /** One chunk: the matches among its numbers are offered; true if no more are wanted. */
  method ScanChunk(data: bytes, begin: nat, ghost mem: memory, q: Query, c: Collector<Hit>) returns (full: bool)
    requires IsWidth(q.width) && data == Fetch(mem, begin, |data|) && !Full(|c.results|, c.max)
    modifies c
    ensures (c.results, c.skip) == Collected(old(c.results), old(c.skip), c.max, ScanRange(mem, begin, begin + |data|, q))
    ensures full == Full(|c.results|, c.max)
  {
    hide ReadUint, Compare, ScanRange;
    var off: nat := 0;
    ghost var end := begin + |data|;
    ghost var all := Collected(c.results, c.skip, c.max, ScanRange(mem, begin, end, q));
    while off + q.width <= |data|
      invariant off <= |data| && !Full(|c.results|, c.max)
      invariant all == Collected(c.results, c.skip, c.max, ScanRange(mem, begin + off, end, q))
    {
      assert data[off..off + q.width] == Fetch(mem, begin + off, q.width);
      FirstOfRange(mem, begin + off, end, q);
      var current := ReadUint(data[off..off + q.width], q.width);
      ghost var rest := ScanRange(mem, begin + (off + q.width), end, q);
      if Passes(current, q) {
        CollectedInParts(c.results, c.skip, c.max, [Hit(begin + off, current)], rest);
        full := c.Offer(Hit(begin + off, current));
        if full {
          return;
        }
      } else {
        assert [] + rest == rest;
      }
      off := off + q.width;
    }
    NothingFits(mem, begin + off, end, q);
    return false;
  }

  /** One range, in chunks of the buffer's size; a last chunk shorter than a number is passed over. */
  method ScanOneRange(mem: memory, begin: nat, end: nat, size: nat, q: Query, c: Collector<Hit>) returns (full: bool)
    requires IsWidth(q.width) && size > 0 && size % q.width == 0 && !Full(|c.results|, c.max)
    modifies c
    ensures (c.results, c.skip) == Collected(old(c.results), old(c.skip), c.max, ScanRange(mem, begin, end, q))
    ensures full == Full(|c.results|, c.max)
  {
    hide HitAt;
    ghost var all := Collected(c.results, c.skip, c.max, ScanRange(mem, begin, end, q));
    var chunkBegin := begin;
    while chunkBegin < end
      invariant !Full(|c.results|, c.max)
      invariant all == Collected(c.results, c.skip, c.max, ScanRange(mem, chunkBegin, end, q))
      decreases if chunkBegin < end then end - chunkBegin else 0
    {
      var chunkEnd := if chunkBegin + size > end then end else chunkBegin + size;
      if chunkEnd - chunkBegin >= q.width {
        if chunkEnd < end { ScanInParts(mem, chunkBegin, chunkEnd, end, q); }
        ghost var rest := ScanRange(mem, chunkEnd, end, q);
        ghost var here := ScanRange(mem, chunkBegin, chunkEnd, q);
        WholeChunk(mem, chunkBegin, chunkEnd, end, size, q);
        CollectedInParts(c.results, c.skip, c.max, here, rest);
        full := ScanChunk(Fetch(mem, chunkBegin, chunkEnd - chunkBegin), chunkBegin, mem, q, c);
        if full {
          return;
        }
      } else {
        ShortChunk(mem, chunkBegin, chunkEnd, end, size, q);
      }
      chunkBegin := chunkBegin + size;
    }
    return false;
  }

  lemma NothingBehind(mem: memory, begin: nat, end: nat, q: Query)
    requires IsWidth(q.width) && begin >= end
    ensures ScanRange(mem, begin, end, q) == []
  {
  }

  lemma WholeChunk(mem: memory, begin: nat, cut: nat, end: nat, size: nat, q: Query)
    requires IsWidth(q.width) && size % q.width == 0 && begin < end && cut == if begin + size > end then end else begin + size
    ensures ScanRange(mem, begin, end, q) == ScanRange(mem, begin, cut, q) + ScanRange(mem, cut, end, q)
    ensures ScanRange(mem, cut, end, q) == ScanRange(mem, begin + size, end, q)
  {
    hide HitAt;
    if begin + size > end {
      NothingBehind(mem, cut, end, q);
      NothingBehind(mem, begin + size, end, q);
    } else {
      assert (cut - begin) % q.width == 0;
      ScanInParts(mem, begin, cut, end, q);
    }
  }

  lemma ShortChunk(mem: memory, begin: nat, cut: nat, end: nat, size: nat, q: Query)
    requires IsWidth(q.width) && size > 0 && size % q.width == 0 && begin < end && cut == if begin + size > end then end else begin + size
    requires cut - begin < q.width
    ensures ScanRange(mem, begin, end, q) == ScanRange(mem, begin + size, end, q)
  {
    hide HitAt;
    OneWidthLess(size, q.width);
    NothingBehind(mem, begin + size, end, q);
  }

  /**
   scanNumericRange, for the given ranges: in chunks of a size that is a multiple of the width, so that
   no number is cut, and what is collected is what the scan of the whole ranges would give.
   */
  method ScanNumericRanges(mem: memory, ranges: seq<(nat, nat)>, split: nat, q: Query, c: Collector<Hit>)
    requires IsWidth(q.width) && c.results == []
    modifies c
    ensures (c.results, c.skip) == Collected([], old(c.skip), c.max, ScanRanges(mem, ranges, q))
  {
    hide ScanRange, BufferSize;
    var size := BufferSize(split, q.width);
    ghost var all := Collected([], c.skip, c.max, ScanRanges(mem, ranges, q));
    assert ranges[0..] == ranges;
    for i := 0 to |ranges|
      invariant !Full(|c.results|, c.max)
      invariant all == Collected(c.results, c.skip, c.max, ScanRanges(mem, ranges[i..], q))
    {
      assert ranges[i..][1..] == ranges[i + 1..];
      var (begin, end) := ranges[i];
      CollectedInParts(c.results, c.skip, c.max, ScanRange(mem, begin, end, q), ScanRanges(mem, ranges[i + 1..], q));
      var full := ScanOneRange(mem, begin, end, size, q, c);
      if full {
        return;
      }
    }
  }

  /** The matches of a range are exactly the numbers of the wanted kind at whole multiples of the width that lie in it, in ascending order. */
  lemma {:induction false} ScanIsExact(mem: memory, begin: nat, end: nat, q: Query, h: Hit)
    requires IsWidth(q.width)
    ensures h in ScanRange(mem, begin, end, q) <==>
            && begin <= h.addr && h.addr + q.width <= end && (h.addr - begin) % q.width == 0
            && h.value == ReadUint(Fetch(mem, h.addr, q.width), q.width) && Passes(h.value, q)
    decreases if begin < end then end - begin else 0
  {
    hide ReadUint, Compare;
    if begin + q.width <= end {
      ScanIsExact(mem, begin + q.width, end, q, h);
      var n: int := h.addr - begin;
      if n > 0 && n % q.width == 0 { OneWidthLess(n, q.width); }
      if n >= q.width { WidthMore(n - q.width, q.width); }
    }
  }

  lemma WidthMore(n: nat, width: nat)
    requires IsWidth(width)
    ensures n % width == 0 <==> (n + width) % width == 0
  {
  }

  /** Hits in ascending order from a place on, each at least a width behind the one before. */
  predicate Ascends(hits: seq<Hit>, from: nat, width: nat) {
    hits == [] || (from <= hits[0].addr && Ascends(hits[1..], hits[0].addr + width, width))
  }

  lemma AscendsEarlier(hits: seq<Hit>, from: nat, earlier: nat, width: nat)
    requires Ascends(hits, from, width) && earlier <= from
    ensures Ascends(hits, earlier, width)
  {
  }

  lemma {:induction false} ScanAscends(mem: memory, begin: nat, end: nat, q: Query)
    requires IsWidth(q.width)
    ensures Ascends(ScanRange(mem, begin, end, q), begin, q.width)
    decreases if begin < end then end - begin else 0
  {
    hide ReadUint, Passes;
    if begin + q.width <= end {
      ScanAscends(mem, begin + q.width, end, q);
      var rest, here := ScanRange(mem, begin + q.width, end, q), HitAt(mem, begin, q);
      if here == [] {
        assert here + rest == rest;
        AscendsEarlier(rest, begin + q.width, begin, q.width);
      } else {
        assert (here + rest)[1..] == rest;
      }
    }
  }
}
