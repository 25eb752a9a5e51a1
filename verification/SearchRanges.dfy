/** The masked search over whole ranges of memory, which are searched in chunks. */
module SearchRanges {
  import opened LittleEndian
  import opened Options
  import opened SearchResults
  import opened MemorySearch
  import opened NumericScan
  import Arithmetic

  /** The addresses found in one chunk of memory, from its beginning to its end. */
  type Finder = (nat, nat) -> seq<nat>

  /** What is found in the chunks from a on; the last chunk ends with the range. */
  function InChunks(find: Finder, a: nat, end: nat, split: nat): seq<nat>
    requires a <= end && split > 0
    decreases end - a
  {
    if a + split < end then find(a, a + split) + InChunks(find, a + split, end, split) else find(a, end)
  }

  function InRanges(find: Finder, ranges: seq<(nat, nat)>, split: nat): seq<nat>
    requires split > 0 && forall i :: 0 <= i < |ranges| ==> ranges[i].0 <= ranges[i].1
  {
    if ranges == [] then []
    else InChunks(find, ranges[0].0, ranges[0].1, split) + InRanges(find, ranges[1..], split)
  }

  /** The matches of one chunk, as addresses. */
  function ChunkMatches(mem: memory, a: nat, b: nat, target: bytes, mask: bytes): seq<nat>
    requires a <= b && |mask| == |target|
  {
    Addresses(Matches(Fetch(mem, a, b - a), target, mask, 0), a)
  }

  /** The masked search of a chunk. */
  function Masked(mem: memory, target: bytes, mask: bytes): Finder {
    (a: nat, b: nat) => if a <= b && |mask| == |target| then ChunkMatches(mem, a, b, target, mask) else []
  }

  /** The plain search of a chunk: occurrences that do not overlap. */
  function Plain(mem: memory, target: bytes): Finder {
    (a: nat, b: nat) => if a <= b && target != [] then Addresses(Greedy(Fetch(mem, a, b - a), target, 0), a) else []
  }

  // ----- The loops -----

  lemma LastChunks(begin: nat, end: nat, split: nat, i: nat)
    requires begin <= end && split > 0
    ensures var size := end - begin;
            && (split * (i + 1) < size ==> i < size / split)
            && (i >= size / split ==> split * (i + 1) >= size)
            && split * (i + 1) == split * i + split
            && (i == size / split ==> split * i <= size)
  {
    var size := end - begin;
    assert size == split * (size / split) + size % split;
    Arithmetic.ProductOrder(split, i, size / split);
    Arithmetic.ProductOrder(split, size / split, i);
    Arithmetic.ProductOrder(split, size / split + 1, i + 1);
    if split * (i + 1) < size && i >= size / split {
      assert false;
    }
  }

  /** An empty chunk is searched in vain. */
  ghost predicate FindsInside(find: Finder) {
    forall a: nat :: find(a, a) == []
  }

  lemma SearchesInside(mem: memory, target: bytes, mask: bytes)
    ensures FindsInside(Masked(mem, target, mask)) && FindsInside(Plain(mem, target))
  {
    forall a: nat ensures Masked(mem, target, mask)(a, a) == [] && Plain(mem, target)(a, a) == [] {
      if target != [] {
        assert NextOccurrence(Fetch(mem, a, 0), target, 0).None?;
        assert Addresses([], a) == [];
      }
    }
  }

  /**
   What is still to come when chunk i is about to be searched: the chunks from its beginning on, or nothing behind
   the last one, where a range of whole chunks has an empty one.
   */
  ghost function ToCome(find: Finder, begin: nat, end: nat, split: nat, i: nat): seq<nat>
    requires begin <= end && split > 0
  {
    var a := begin + split * i;
    if a <= end && (i == 0 || a < end) then InChunks(find, a, end, split) else []
  }

  lemma ChunkStep(find: Finder, begin: nat, end: nat, split: nat, i: nat)
    requires begin <= end && split > 0 && i <= (end - begin) / split && FindsInside(find)
    ensures var a := begin + split * i;
            var b := if split * (i + 1) < end - begin then begin + split * (i + 1) else end;
            && a <= b <= end
            && ToCome(find, begin, end, split, i) == find(a, b) + ToCome(find, begin, end, split, i + 1)
  {
    LastChunks(begin, end, split, i);
    var size := end - begin;
    var a := begin + split * i;
    Arithmetic.ProductOrder(split, i, size / split);
    assert split * (size / split) <= size;
    assert a <= end;
    if a == end {
      assert find(end, end) == [];
      if i == 0 { assert InChunks(find, end, end, split) == find(end, end); }
    } else if a + split < end {
      assert begin + split * (i + 1) == a + split;
    } else {
      assert find(a, end) + [] == find(a, end);
    }
  }

  lemma NothingToCome(find: Finder, begin: nat, end: nat, split: nat)
    requires begin <= end && split > 0
    ensures ToCome(find, begin, end, split, (end - begin) / split + 1) == []
    ensures ToCome(find, begin, end, split, 0) == InChunks(find, begin, end, split)
  {
    LastChunks(begin, end, split, (end - begin) / split);
  }

  /** The chunks of one range. */
  method SearchRange(mem: memory, begin: nat, end: nat, split: nat, target: bytes, mask: bytes, start: nat, anchor: bytes, c: Collector<nat>)
    requires begin <= end && split > 0 && IsAnchor(target, mask, start, anchor)
    modifies c
    ensures (c.results, c.skip)
         == Collected(old(c.results), old(c.skip), c.max, InChunks(Masked(mem, target, mask), begin, end, split))
  {
    hide ToCome, InChunks, IsAnchor, Collected, Masked, FindsInside;
    ghost var find := Masked(mem, target, mask);
    SearchesInside(mem, target, mask);
    NothingToCome(find, begin, end, split);
    ghost var all := Collected(c.results, c.skip, c.max, InChunks(find, begin, end, split));
    var size := end - begin;
    for i := 0 to size / split + 1
      invariant all == Collected(c.results, c.skip, c.max, ToCome(find, begin, end, split, i))
    {
      var a := begin + split * i;
      var b := if split * (i + 1) < size then begin + split * (i + 1) else end;
      ChunkStep(find, begin, end, split, i);
      ghost var later := ToCome(find, begin, end, split, i + 1);
      CollectedInParts(c.results, c.skip, c.max, find(a, b), later);
      SearchChunk(mem, a, b, target, mask, start, anchor, c);
      if Full(|c.results|, c.max) {
        FullStays(c.results, c.skip, c.max, later);
        return;
      }
    }
    NothingCollected(c.results, c.skip, c.max);
  }

  lemma NothingCollected<T>(results: seq<T>, skip: nat, max: nat)
    ensures Collected(results, skip, max, []) == (results, skip)
  {
  }

  method SearchChunk(mem: memory, a: nat, b: nat, target: bytes, mask: bytes, start: nat, anchor: bytes, c: Collector<nat>)
    requires a <= b && IsAnchor(target, mask, start, anchor)
    modifies c
    ensures (c.results, c.skip) == Collected(old(c.results), old(c.skip), c.max, Masked(mem, target, mask)(a, b))
  {
    hide IsAnchor, Matches, Collected;
    AnchorFits(target, mask, start, anchor);
    FindMaskedData(Fetch(mem, a, b - a), target, mask, start, anchor, a, c);
  }

  datatype Refusal = Accepted | Mismatched | NothingFixed

  /** FindDataInAddrRangesMasked, on memory that can be read. */
  method SearchMasked(mem: memory, ranges: seq<(nat, nat)>, split: nat, target: bytes, mask: bytes, c: Collector<nat>) returns (r: Refusal)
    requires split > 0 && forall i :: 0 <= i < |ranges| ==> ranges[i].0 <= ranges[i].1
    requires c.results == []
    modifies c
    ensures r == if target == [] then Accepted
                 else if |mask| != |target| then Mismatched
                 else if forall j :: 0 <= j < |mask| ==> mask[j] == 0 then NothingFixed
                 else Accepted
    ensures target == [] || !r.Accepted? ==> c.results == []
    ensures target != [] && r.Accepted? ==>
              (c.results, c.skip) == Collected([], old(c.skip), c.max, InRanges(Masked(mem, target, mask), ranges, split))
  {
    if target == [] {
      return Accepted;
    }
    if |mask| != |target| {
      return Mismatched;
    }
    var start, anchor := LongestFixedMaskRun(target, mask);
    if anchor == [] {
      return NothingFixed;
    }
    assert IsAnchor(target, mask, start, anchor);
    r := Accepted;
    SearchAll(mem, ranges, split, target, mask, start, anchor, c);
  }

  method SearchAll(mem: memory, ranges: seq<(nat, nat)>, split: nat, target: bytes, mask: bytes, start: nat, anchor: bytes, c: Collector<nat>)
    requires split > 0 && forall i :: 0 <= i < |ranges| ==> ranges[i].0 <= ranges[i].1
    requires IsAnchor(target, mask, start, anchor)
    modifies c
    ensures (c.results, c.skip)
         == Collected(old(c.results), old(c.skip), c.max, InRanges(Masked(mem, target, mask), ranges, split))
  {
    hide InChunks, IsAnchor, Collected, Masked;
    ghost var find := Masked(mem, target, mask);
    ghost var all := Collected(c.results, c.skip, c.max, InRanges(find, ranges, split));
    assert ranges[0..] == ranges;
    for i := 0 to |ranges|
      invariant all == Collected(c.results, c.skip, c.max, InRanges(find, ranges[i..], split))
    {
      assert ranges[i..][1..] == ranges[i + 1..];
      var (begin, end) := ranges[i];
      CollectedInParts(c.results, c.skip, c.max, InChunks(find, begin, end, split), InRanges(find, ranges[i + 1..], split));
      SearchRange(mem, begin, end, split, target, mask, start, anchor, c);
    }
    NothingCollected(c.results, c.skip, c.max);
  }

  // ----- The plain search -----

  /** FindDataInAddrRanges, on memory that can be read: every range, chunk by chunk, until the cap is reached. */
  method SearchPlain(mem: memory, ranges: seq<(nat, nat)>, split: nat, target: bytes, c: Collector<nat>)
    requires split > 0 && target != [] && forall i :: 0 <= i < |ranges| ==> ranges[i].0 <= ranges[i].1
    modifies c
    ensures (c.results, c.skip) == Collected(old(c.results), old(c.skip), c.max, InRanges(Plain(mem, target), ranges, split))
  {
    hide InChunks, Collected, Plain;
    ghost var find := Plain(mem, target);
    ghost var all := Collected(c.results, c.skip, c.max, InRanges(find, ranges, split));
    assert ranges[0..] == ranges;
    for i := 0 to |ranges|
      invariant all == Collected(c.results, c.skip, c.max, InRanges(find, ranges[i..], split))
    {
      assert ranges[i..][1..] == ranges[i + 1..];
      var (begin, end) := ranges[i];
      ghost var later := InRanges(find, ranges[i + 1..], split);
      CollectedInParts(c.results, c.skip, c.max, InChunks(find, begin, end, split), later);
      var full := SearchPlainRange(mem, begin, end, split, target, c);
      if full {
        FullStays(c.results, c.skip, c.max, later);
        return;
      }
    }
    NothingCollected(c.results, c.skip, c.max);
  }

  /** The chunks of one range; true if no more results are wanted. */
  method SearchPlainRange(mem: memory, begin: nat, end: nat, split: nat, target: bytes, c: Collector<nat>) returns (full: bool)
    requires begin <= end && split > 0 && target != []
    modifies c
    ensures (c.results, c.skip) == Collected(old(c.results), old(c.skip), c.max, InChunks(Plain(mem, target), begin, end, split))
    ensures full ==> Full(|c.results|, c.max)
  {
    hide ToCome, InChunks, Collected, Plain, Greedy, FindsInside;
    ghost var find := Plain(mem, target);
    SearchesInside(mem, target, []);
    NothingToCome(find, begin, end, split);
    ghost var all := Collected(c.results, c.skip, c.max, InChunks(find, begin, end, split));
    var size := end - begin;
    for i := 0 to size / split + 1
      invariant all == Collected(c.results, c.skip, c.max, ToCome(find, begin, end, split, i))
    {
      var a := begin + split * i;
      var b := if split * (i + 1) < size then begin + split * (i + 1) else end;
      ChunkStep(find, begin, end, split, i);
      ghost var later := ToCome(find, begin, end, split, i + 1);
      CollectedInParts(c.results, c.skip, c.max, find(a, b), later);
      PlainIs(mem, a, b, target);
      FindData(Fetch(mem, a, b - a), target, a, 0, c);
      if Full(|c.results|, c.max) {
        FullStays(c.results, c.skip, c.max, later);
        return true;
      }
    }
    NothingCollected(c.results, c.skip, c.max);
    return false;
  }

  lemma PlainIs(mem: memory, a: nat, b: nat, target: bytes)
    requires a <= b && target != []
    ensures Plain(mem, target)(a, b) == Addresses(Greedy(Fetch(mem, a, b - a), target, 0), a)
  {
  }

  // ----- What is found -----

  /** The target matches at an address of memory. */
  ghost predicate MatchesMemory(mem: memory, x: nat, target: bytes, mask: bytes)
    requires |mask| == |target|
  {
    forall j :: 0 <= j < |target| && mask[j] != 0 ==> mem(x + j) == target[j]
  }

  lemma ChunkIsExact(mem: memory, a: nat, b: nat, target: bytes, mask: bytes, x: nat)
    requires a <= b && |mask| == |target| && target != []
    ensures x in ChunkMatches(mem, a, b, target, mask) <==>
            a <= x && x + |target| <= b && MatchesMemory(mem, x, target, mask)
  {
    var buffer := Fetch(mem, a, b - a);
    var places := Matches(buffer, target, mask, 0);
    MatchesAreAll(buffer, target, mask, 0);
    if x in ChunkMatches(mem, a, b, target, mask) {
      var i :| 0 <= i < |places| && x == a + places[i];
      assert MatchesAt(buffer, places[i], target, mask);
      forall j | 0 <= j < |target| && mask[j] != 0 ensures mem(x + j) == target[j] {
        assert buffer[places[i] + j] == mem(a + (places[i] + j));
      }
    }
    if a <= x && x + |target| <= b && MatchesMemory(mem, x, target, mask) {
      assert MatchesAt(buffer, x - a, target, mask);
      var i :| 0 <= i < |places| && places[i] == x - a;
      assert Addresses(places, a)[i] == x;
    }
  }

  /** The bytes from x on, so many of them, lie in one chunk of a range cut from a on. */
  predicate InOneChunk(x: nat, length: nat, a: nat, split: nat)
    requires split > 0 && length > 0
  {
    a <= x && (x - a) / split == (x + length - 1 - a) / split
  }

  lemma SameQuotient(n: nat, m: nat, split: nat)
    requires split > 0 && n <= m
    ensures n < split && m < split ==> n / split == m / split
    ensures n < split <= m ==> n / split != m / split
    ensures n >= split ==> (n / split == m / split <==> (n - split) / split == (m - split) / split)
  {
    Less(n, split);
    Less(m, split);
    if n >= split {
      OneLess(n, split);
      OneLess(m, split);
    }
  }

  lemma Less(n: nat, split: nat)
    requires split > 0
    ensures n < split <==> n / split == 0
  {
    var q := n / split;
    assert n == split * q + n % split;
    if q >= 1 { Arithmetic.ProductOrder(split, 1, q); }
  }

  lemma OneLess(n: nat, split: nat)
    requires split > 0 && n >= split
    ensures (n - split) / split == n / split - 1
  {
    var q := n / split;
    assert n == split * q + n % split;
    Arithmetic.ProductOrder(split, q - 1, q);
    assert n - split == split * (q - 1) + n % split;
    UniqueQuotient(n - split, split, q - 1, n % split);
  }

  lemma UniqueQuotient(n: nat, m: nat, q: int, r: nat)
    requires m > 0 && n == m * q + r && r < m
    ensures n / m == q
  {
    Arithmetic.UniqueRemainder(n, m, q, r);
    assert n == m * (n / m) + n % m;
    Arithmetic.OneMoreTimes(m, q, n / m);
    Arithmetic.OneMoreTimes(m, n / m, q);
  }

  /** An address of a range is found if and only if the target matches there, inside the range and not across two chunks. */
  lemma {:induction false} RangeIsExact(mem: memory, a: nat, end: nat, split: nat, target: bytes, mask: bytes, x: nat)
    requires a <= end && split > 0 && |mask| == |target| && target != []
    ensures x in InChunks(Masked(mem, target, mask), a, end, split) <==>
            x + |target| <= end && InOneChunk(x, |target|, a, split) && MatchesMemory(mem, x, target, mask)
    decreases end - a
  {
    hide ChunkMatches, MatchesMemory;
    var last := x + |target| - 1;
    if a <= x { SameQuotient(x - a, last - a, split); }
    if a + split < end {
      ChunkIsExact(mem, a, a + split, target, mask, x);
      RangeIsExact(mem, a + split, end, split, target, mask, x);
    } else {
      ChunkIsExact(mem, a, end, target, mask, x);
      if a <= x && x + |target| <= end {
        assert last - a < split;
      }
    }
  }
}
