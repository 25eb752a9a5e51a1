module PatchedRanges {
  // What a plain search finds over ranges that are searched in chunks, and what patching every address found does to memory.

  import opened LittleEndian
  import opened Options
  import opened SearchResults
  import opened MemorySearch
  import opened NumericScan
  import opened SearchRanges
  import opened MemoryPatch
  import Utf8

  ghost predicate Occurs(mem: memory, x: nat, target: bytes) {
    forall j :: 0 <= j < |target| ==> mem(x + j) == target[j]
  }

  /** Places between two addresses where the target occurs, none overlapping another, in order. */
  ghost predicate Spread(places: seq<nat>, lo: nat, hi: nat, mem: memory, target: bytes) {
    && (forall i :: 0 <= i < |places| ==> lo <= places[i] && places[i] + |target| <= hi && Occurs(mem, places[i], target))
    && (forall i, j :: 0 <= i < j < |places| ==> places[i] + |target| <= places[j])
  }

  lemma SpreadConcat(p: seq<nat>, q: seq<nat>, lo: nat, mid: nat, hi: nat, mem: memory, target: bytes)
    requires lo <= mid <= hi && Spread(p, lo, mid, mem, target) && Spread(q, mid, hi, mem, target)
    ensures Spread(p + q, lo, hi, mem, target)
  {
    hide Occurs;
  }

  lemma SpreadWider(p: seq<nat>, lo: nat, hi: nat, below: nat, above: nat, mem: memory, target: bytes)
    requires below <= lo && hi <= above && Spread(p, lo, hi, mem, target)
    ensures Spread(p, below, above, mem, target)
  {
    hide Occurs;
  }

  /** The target occurs in a chunk where it occurs in memory. */
  lemma OccursInChunk(mem: memory, a: nat, b: nat, target: bytes, i: nat)
    requires a <= b
    ensures OccursAt(Fetch(mem, a, b - a), i, target) <==> a + i + |target| <= b && Occurs(mem, a + i, target)
  {
    var buffer := Fetch(mem, a, b - a);
    if OccursAt(buffer, i, target) {
      forall j | 0 <= j < |target| ensures mem(a + i + j) == target[j] {
        assert buffer[i..i + |target|][j] == buffer[i + j];
      }
    }
    if a + i + |target| <= b && Occurs(mem, a + i, target) {
      assert buffer[i..i + |target|] == target by {
        forall j | 0 <= j < |target| ensures buffer[i..i + |target|][j] == target[j] {
          assert mem(a + i + j) == target[j];
        }
      }
    }
  }

  lemma ChunkSpread(mem: memory, a: nat, b: nat, target: bytes)
    requires a <= b && target != []
    ensures Spread(Plain(mem, target)(a, b), a, b, mem, target)
  {
    hide Greedy, OccursAt, Occurs, Plain;
    PlainIs(mem, a, b, target);
    var buffer := Fetch(mem, a, b - a);
    var places, r := Greedy(buffer, target, 0), Plain(mem, target)(a, b);
    forall i | 0 <= i < |r| ensures a <= r[i] && r[i] + |target| <= b && Occurs(mem, r[i], target) {
      GreedyFinds(buffer, target, 0, i);
      OccursInChunk(mem, a, b, target, places[i]);
    }
    forall i, j | 0 <= i < j < |r| ensures r[i] + |target| <= r[j] {
      GreedyIsSpaced(buffer, target, 0, i, j);
    }
  }

  lemma {:induction false} ChunksSpread(mem: memory, a: nat, end: nat, split: nat, target: bytes)
    requires a <= end && split > 0 && target != []
    ensures Spread(InChunks(Plain(mem, target), a, end, split), a, end, mem, target)
    decreases end - a
  {
    hide Plain, Spread;
    if a + split < end {
      ChunkSpread(mem, a, a + split, target);
      ChunksSpread(mem, a + split, end, split, target);
      SpreadConcat(Plain(mem, target)(a, a + split), InChunks(Plain(mem, target), a + split, end, split), a, a + split, end, mem, target);
    } else {
      ChunkSpread(mem, a, end, target);
    }
  }

  /** Ranges that follow each other, between two addresses. */
  predicate Ascending(ranges: seq<(nat, nat)>, lo: nat, hi: nat) {
    if ranges == [] then lo <= hi
    else lo <= ranges[0].0 <= ranges[0].1 && Ascending(ranges[1..], ranges[0].1, hi)
  }

  lemma {:induction false} AscendingRanges(ranges: seq<(nat, nat)>, lo: nat, hi: nat)
    requires Ascending(ranges, lo, hi)
    ensures lo <= hi && forall i :: 0 <= i < |ranges| ==> lo <= ranges[i].0 <= ranges[i].1 <= hi
  {
    if ranges != [] { AscendingRanges(ranges[1..], ranges[0].1, hi); }
  }

  /** Over ranges that follow each other, no two of the places found overlap, and each holds the target. */
  lemma {:induction false} RangesSpread(mem: memory, ranges: seq<(nat, nat)>, split: nat, target: bytes, lo: nat, hi: nat)
    requires split > 0 && target != [] && Ascending(ranges, lo, hi)
    ensures forall i :: 0 <= i < |ranges| ==> ranges[i].0 <= ranges[i].1
    ensures Spread(InRanges(Plain(mem, target), ranges, split), lo, hi, mem, target)
    decreases |ranges|
  {
    hide Plain;
    AscendingRanges(ranges, lo, hi);
    if ranges != [] {
      var (begin, end) := ranges[0];
      AscendingRanges(ranges[1..], end, hi);
      ChunksSpread(mem, begin, end, split, target);
      RangesSpread(mem, ranges[1..], split, target, end, hi);
      hide Spread;
      SpreadWider(InChunks(Plain(mem, target), begin, end, split), begin, end, lo, end, mem, target);
      SpreadConcat(InChunks(Plain(mem, target), begin, end, split), InRanges(Plain(mem, target), ranges[1..], split), lo, end, hi, mem, target);
    }
  }

  // ----- Nothing is missed -----

  predicate Near(places: seq<nat>, x: nat, length: nat) {
    exists i :: 0 <= i < |places| && places[i] <= x < places[i] + length
  }

  lemma NearOfParts(p: seq<nat>, q: seq<nat>, x: nat, length: nat)
    requires Near(p, x, length) || Near(q, x, length)
    ensures Near(p + q, x, length)
  {
    if Near(p, x, length) {
      var i :| 0 <= i < |p| && p[i] <= x < p[i] + length;
      assert (p + q)[i] == p[i];
    } else {
      var i :| 0 <= i < |q| && q[i] <= x < q[i] + length;
      assert (p + q)[|p| + i] == q[i];
    }
  }

  lemma ChunkMissesNothing(mem: memory, a: nat, b: nat, target: bytes, x: nat)
    requires a <= x && x + |target| <= b && target != [] && Occurs(mem, x, target)
    ensures Near(Plain(mem, target)(a, b), x, |target|)
  {
    hide Greedy, OccursAt, Occurs, Plain;
    PlainIs(mem, a, b, target);
    var buffer := Fetch(mem, a, b - a);
    OccursInChunk(mem, a, b, target, x - a);
    GreedyIsMaximal(buffer, target, 0, x - a);
    var places := Greedy(buffer, target, 0);
    var i :| 0 <= i < |places| && places[i] <= x - a < places[i] + |target|;
    var r := Plain(mem, target)(a, b);
    assert 0 <= i < |r| && r[i] <= x < r[i] + |target|;
  }

  /** Every occurrence inside one chunk of a range is found, or overlaps the end of one that is. */
  lemma {:induction false} RangeMissesNothing(mem: memory, a: nat, end: nat, split: nat, target: bytes, x: nat)
    requires split > 0 && target != [] && Occurs(mem, x, target)
    requires a <= x && x + |target| <= end && InOneChunk(x, |target|, a, split)
    ensures Near(InChunks(Plain(mem, target), a, end, split), x, |target|)
    decreases end - a
  {
    hide Plain, Near, Occurs;
    var last := x + |target| - 1;
    SameQuotient(x - a, last - a, split);
    if a + split < end {
      var here, later := Plain(mem, target)(a, a + split), InChunks(Plain(mem, target), a + split, end, split);
      if x < a + split {
        ChunkMissesNothing(mem, a, a + split, target, x);
      } else {
        RangeMissesNothing(mem, a + split, end, split, target, x);
      }
      NearOfParts(here, later, x, |target|);
    } else {
      ChunkMissesNothing(mem, a, end, target, x);
    }
  }

  // ----- Patching what was found -----

  /** Memory as it is read: what lies outside it does not matter. */
  function AsRead(m: bytes): memory {
    (x: nat) => if x < |m| then m[x] else 0
  }

  /** The addresses that a plain search keeps. */
  function FoundIn(m: bytes, ranges: seq<(nat, nat)>, split: nat, target: bytes, skip: nat, max: nat): seq<nat>
    requires split > 0 && forall i :: 0 <= i < |ranges| ==> ranges[i].0 <= ranges[i].1
  {
    Collected([], skip, max, InRanges(Plain(AsRead(m), target), ranges, split)).0
  }

  /** Skipping the first and keeping at most so many leaves a part of the places. */
  lemma FoundSpread(m: bytes, ranges: seq<(nat, nat)>, split: nat, target: bytes, skip: nat, max: nat)
    requires split > 0 && target != [] && Ascending(ranges, 0, |m|)
    ensures forall i :: 0 <= i < |ranges| ==> ranges[i].0 <= ranges[i].1
    ensures Spread(FoundIn(m, ranges, split, target, skip, max), 0, |m|, AsRead(m), target)
  {
    hide Plain, Occurs, AsRead, Collected;
    RangesSpread(AsRead(m), ranges, split, target, 0, |m|);
    CollectedIs(skip, max, InRanges(Plain(AsRead(m), target), ranges, split));
  }

  lemma SpreadIsApart(m: bytes, places: seq<nat>, mem: memory, target: bytes, patch: bytes)
    requires Spread(places, 0, |m|, mem, target) && |patch| == |target|
    ensures Inside(m, PatchesAt(places, patch)) && Apart(PatchesAt(places, patch))
  {
    hide Occurs;
  }

  /**
   Patching every address that a plain search kept, over all ranges and their chunks, with a text cut or filled to the length
   searched for: every one of them held the target and then holds the patch, and no other byte of memory has changed.
   */
  lemma PatchingRanges(m: bytes, ranges: seq<(nat, nat)>, split: nat, target: bytes, skip: nat, max: nat, value: bytes, k: nat)
    requires split > 0 && target != [] && Ascending(ranges, 0, |m|) && Utf8.Valid(value) && k < |m|
    ensures forall i :: 0 <= i < |ranges| ==> ranges[i].0 <= ranges[i].1
    ensures var places := FoundIn(m, ranges, split, target, skip, max);
            var patch := PatchBytes(value, |target|).0;
            var ps := PatchesAt(places, patch);
            && Inside(m, ps) && |patch| == |target|
            && (forall i :: 0 <= i < |places| && places[i] <= k < places[i] + |target| ==>
                  m[k] == target[k - places[i]] && WrittenAll(m, ps)[k] == patch[k - places[i]])
            && ((forall i :: 0 <= i < |places| ==> !(places[i] <= k < places[i] + |target|)) ==> WrittenAll(m, ps)[k] == m[k])
  {
    hide *;
    FoundSpread(m, ranges, split, target, skip, max);
    PatchBytesFit(value, |target|);
    PatchingSpread(m, FoundIn(m, ranges, split, target, skip, max), target, PatchBytes(value, |target|).0, k);
  }

  /** Writing something as long as the target at places where it occurs apart. */
  lemma PatchingSpread(m: bytes, places: seq<nat>, target: bytes, patch: bytes, k: nat)
    requires Spread(places, 0, |m|, AsRead(m), target) && |patch| == |target| && k < |m|
    ensures var ps := PatchesAt(places, patch);
            && Inside(m, ps)
            && (forall i :: 0 <= i < |places| && places[i] <= k < places[i] + |target| ==>
                  m[k] == target[k - places[i]] && WrittenAll(m, ps)[k] == patch[k - places[i]])
            && ((forall i :: 0 <= i < |places| ==> !(places[i] <= k < places[i] + |target|)) ==> WrittenAll(m, ps)[k] == m[k])
  {
    hide *;
    var ps := PatchesAt(places, patch);
    SpreadIsApart(m, places, AsRead(m), target, patch);
    PatchesChangeOnlyTheirRanges(m, ps, k);
    CoversPlaces(places, patch, k);
    SpreadBytes(m, places, target, k);
  }

  lemma CoversPlaces(places: seq<nat>, patch: bytes, k: nat)
    ensures var ps := PatchesAt(places, patch);
            |ps| == |places| && forall i :: 0 <= i < |ps| ==>
              ps[i].at == places[i] && ps[i].value == patch && (Covers(ps[i], k) <==> places[i] <= k < places[i] + |patch|)
  {
  }

  lemma SpreadBytes(m: bytes, places: seq<nat>, target: bytes, k: nat)
    requires Spread(places, 0, |m|, AsRead(m), target) && k < |m|
    ensures forall i :: 0 <= i < |places| && places[i] <= k < places[i] + |target| ==> m[k] == target[k - places[i]]
  {
    hide Occurs;
    forall i | 0 <= i < |places| && places[i] <= k < places[i] + |target| ensures m[k] == target[k - places[i]] {
      OccursByte(m, places[i], target, k);
    }
  }

  lemma OccursByte(m: bytes, x: nat, target: bytes, k: nat)
    requires Occurs(AsRead(m), x, target) && x <= k < x + |target| && k < |m|
    ensures m[k] == target[k - x]
  {
    assert AsRead(m)(x + (k - x)) == target[k - x];
  }
}
