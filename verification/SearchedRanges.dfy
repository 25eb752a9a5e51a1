module SearchedRanges {
  // What the searches and scans find over all ranges together, in terms of the bytes of memory alone.
  import opened LittleEndian
  import opened Options
  import opened SearchResults
  import opened MemorySearch
  import opened NumericScan
  import opened SearchRanges
  import opened PatchedRanges

  // ----- Numbers -----

  function Power(n: nat): nat {
    if n == 0 then 1 else 256 * Power(n - 1)
  }

  /** The number that so many bytes of memory stand for, the lowest first. */
  function Number(mem: memory, addr: nat, n: nat): nat {
    if n == 0 then 0 else Number(mem, addr, n - 1) + mem(addr + n - 1) * Power(n - 1)
  }

  lemma NumberOfTwo(mem: memory, addr: nat)
    ensures Number(mem, addr, 2) == mem(addr) + 0x100 * mem(addr + 1)
  {
    assert Power(0) == 1 && Power(1) == 256;
    assert Number(mem, addr, 1) == mem(addr);
  }

  lemma NumberOfFour(mem: memory, addr: nat)
    ensures Number(mem, addr, 4) == mem(addr) + 0x100 * mem(addr + 1) + 0x1_0000 * mem(addr + 2) + 0x100_0000 * mem(addr + 3)
  {
    NumberOfTwo(mem, addr);
    assert Power(0) == 1 && Power(1) == 256 && Power(2) == 0x1_0000 && Power(3) == 0x100_0000;
    assert Number(mem, addr, 3) == Number(mem, addr, 2) + 0x1_0000 * mem(addr + 2);
  }

  lemma NumberOfEight(mem: memory, addr: nat)
    ensures Number(mem, addr, 8) == Number(mem, addr, 4) + 0x1_0000_0000 * Number(mem, addr + 4, 4)
  {
    hide Power;
    NumberOfFour(mem, addr + 4);
    Powers();
    assert Number(mem, addr, 5) == Number(mem, addr, 4) + mem(addr + 4) * Power(4);
    assert Number(mem, addr, 6) == Number(mem, addr, 5) + mem(addr + 5) * Power(5);
    assert Number(mem, addr, 7) == Number(mem, addr, 6) + mem(addr + 6) * Power(6);
    assert Number(mem, addr, 8) == Number(mem, addr, 7) + mem(addr + 7) * Power(7);
  }

  lemma Powers()
    ensures Power(4) == 0x1_0000_0000 && Power(5) == 0x100_0000_0000 && Power(6) == 0x1_0000_0000_0000
    ensures Power(7) == 0x100_0000_0000_0000
  {
    assert Power(0) == 1 && Power(1) == 256 && Power(2) == 0x1_0000 && Power(3) == 0x100_0000;
    assert Power(4) == 256 * Power(3) && Power(5) == 256 * Power(4) && Power(6) == 256 * Power(5) && Power(7) == 256 * Power(6);
  }

  /** What is read at an address is the number its bytes stand for. */
  lemma ReadsNumber(mem: memory, addr: nat, width: nat)
    requires IsWidth(width)
    ensures ReadUint(Fetch(mem, addr, width), width) == Number(mem, addr, width)
  {
    hide Number;
    var data := Fetch(mem, addr, width);
    if width == 2 {
      NumberOfTwo(mem, addr);
    } else if width == 4 {
      NumberOfFour(mem, addr);
    } else {
      NumberOfEight(mem, addr);
      NumberOfFour(mem, addr);
      NumberOfFour(mem, addr + 4);
    }
  }

  /** A number is looked for if there is no target, or it is larger, smaller, different or equal, as asked. */
  predicate Wanted(value: nat, q: Query) {
    q.target.None?
    || (var target := q.target.value;
        || (q.op == GreaterThan && value > target) || (q.op == LessThan && value < target)
        || (q.op == NotEqual && value != target) || (q.op == Equal && value == target))
  }

  /** A hit lies wholly in the range, a multiple of the width from its beginning, and is a number looked for. */
  predicate HitIn(mem: memory, range: (nat, nat), q: Query, h: Hit)
    requires IsWidth(q.width)
  {
    && range.0 <= h.addr && h.addr + q.width <= range.1 && (h.addr - range.0) % q.width == 0
    && h.value == Number(mem, h.addr, q.width) && Wanted(h.value, q)
  }

  lemma HitInRange(mem: memory, range: (nat, nat), q: Query, h: Hit)
    requires IsWidth(q.width)
    ensures h in ScanRange(mem, range.0, range.1, q) <==> HitIn(mem, range, q, h)
  {
    hide ScanRange, ReadUint, Number;
    ScanIsExact(mem, range.0, range.1, q, h);
    ReadsNumber(mem, h.addr, q.width);
  }

  /** Scanning all ranges finds exactly the hits of each of them. */
  lemma {:induction false} ScanFindsAll(mem: memory, ranges: seq<(nat, nat)>, q: Query, h: Hit)
    requires IsWidth(q.width)
    ensures h in ScanRanges(mem, ranges, q) <==> exists i :: 0 <= i < |ranges| && HitIn(mem, ranges[i], q, h)
    decreases |ranges|
  {
    hide ScanRange, HitIn;
    if ranges != [] {
      HitInRange(mem, ranges[0], q, h);
      ScanFindsAll(mem, ranges[1..], q, h);
      if exists i :: 0 <= i < |ranges| && HitIn(mem, ranges[i], q, h) {
        var i :| 0 <= i < |ranges| && HitIn(mem, ranges[i], q, h);
        if i > 0 { assert ranges[1..][i - 1] == ranges[i]; }
      }
      if exists i :: 0 <= i < |ranges[1..]| && HitIn(mem, ranges[1..][i], q, h) {
        var i :| 0 <= i < |ranges[1..]| && HitIn(mem, ranges[1..][i], q, h);
        assert ranges[i + 1] == ranges[1..][i];
      }
    }
  }

  // ----- Bytes -----

  predicate AllForward(ranges: seq<(nat, nat)>) {
    forall i :: 0 <= i < |ranges| ==> ranges[i].0 <= ranges[i].1
  }

  lemma {:induction false} FoundInSome(find: Finder, ranges: seq<(nat, nat)>, split: nat, x: nat)
    requires split > 0 && AllForward(ranges)
    ensures x in InRanges(find, ranges, split)
       <==> exists i :: 0 <= i < |ranges| && x in InChunks(find, ranges[i].0, ranges[i].1, split)
    decreases |ranges|
  {
    hide InChunks;
    if ranges != [] {
      FoundInSome(find, ranges[1..], split, x);
      if exists i :: 0 <= i < |ranges| && x in InChunks(find, ranges[i].0, ranges[i].1, split) {
        var i :| 0 <= i < |ranges| && x in InChunks(find, ranges[i].0, ranges[i].1, split);
        if i > 0 { assert ranges[1..][i - 1] == ranges[i]; }
      }
      if exists i :: 0 <= i < |ranges[1..]| && x in InChunks(find, ranges[1..][i].0, ranges[1..][i].1, split) {
        var i :| 0 <= i < |ranges[1..]| && x in InChunks(find, ranges[1..][i].0, ranges[1..][i].1, split);
        assert ranges[i + 1] == ranges[1..][i];
      }
    }
  }

  /** A match of the masked target, inside one chunk of the range. */
  ghost predicate MatchIn(mem: memory, range: (nat, nat), split: nat, target: bytes, mask: bytes, x: nat)
    requires split > 0 && |mask| == |target| && target != []
  {
    x + |target| <= range.1 && InOneChunk(x, |target|, range.0, split) && MatchesMemory(mem, x, target, mask)
  }

  /** The masked search of all ranges finds exactly the matches of each of them. */
  lemma MaskedFindsAll(mem: memory, ranges: seq<(nat, nat)>, split: nat, target: bytes, mask: bytes, x: nat)
    requires split > 0 && AllForward(ranges) && |mask| == |target| && target != []
    ensures x in InRanges(Masked(mem, target, mask), ranges, split)
       <==> exists i :: 0 <= i < |ranges| && MatchIn(mem, ranges[i], split, target, mask, x)
  {
    hide InChunks, InRanges, Masked, MatchesMemory, InOneChunk;
    FoundInSome(Masked(mem, target, mask), ranges, split, x);
    forall i | 0 <= i < |ranges|
      ensures x in InChunks(Masked(mem, target, mask), ranges[i].0, ranges[i].1, split)
         <==> MatchIn(mem, ranges[i], split, target, mask, x)
    {
      RangeIsExact(mem, ranges[i].0, ranges[i].1, split, target, mask, x);
    }
  }

  /** The plain search of all ranges misses nothing: an occurrence inside one chunk of any range is found, or overlaps one that is. */
  lemma {:induction false} PlainMissesNothing(mem: memory, ranges: seq<(nat, nat)>, split: nat, target: bytes, i: nat, x: nat)
    requires split > 0 && AllForward(ranges) && target != [] && i < |ranges| && Occurs(mem, x, target)
    requires ranges[i].0 <= x && x + |target| <= ranges[i].1 && InOneChunk(x, |target|, ranges[i].0, split)
    ensures Near(InRanges(Plain(mem, target), ranges, split), x, |target|)
    decreases i
  {
    hide InChunks, Plain, Near, Occurs, InOneChunk;
    var (begin, end) := ranges[0];
    var here, later := InChunks(Plain(mem, target), begin, end, split), InRanges(Plain(mem, target), ranges[1..], split);
    if i == 0 {
      RangeMissesNothing(mem, begin, end, split, target, x);
    } else {
      PlainMissesNothing(mem, ranges[1..], split, target, i - 1, x);
    }
    NearOfParts(here, later, x, |target|);
  }
}
