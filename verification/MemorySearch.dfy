/** Searching memory for bytes, with and without a mask. */
module MemorySearch {
  import opened LittleEndian
  import opened Options
  import opened SearchResults

  // ----- Plain occurrences -----

  predicate OccursAt(memory: bytes, i: nat, target: bytes) {
    i + |target| <= |memory| && memory[i..i + |target|] == target
  }

  /** The first place at or behind from where the target occurs. */
  function NextOccurrence(memory: bytes, target: bytes, from: nat): (r: Option<nat>)
    ensures r.Some? ==> from <= r.value && OccursAt(memory, r.value, target)
    ensures r.Some? ==> forall i :: from <= i < r.value ==> !OccursAt(memory, i, target)
    ensures r.None? ==> forall i :: from <= i ==> !OccursAt(memory, i, target)
    decreases if from < |memory| then |memory| - from else 0
  {
    if from + |target| > |memory| then None
    else if OccursAt(memory, from, target) then Some(from)
    else if from == |memory| then None
    else NextOccurrence(memory, target, from + 1)
  }

  // ----- The greedy search -----

  /** Occurrences that do not overlap, each the first one behind the one before. */
  function Greedy(memory: bytes, target: bytes, from: nat): (r: seq<nat>)
    requires target != []
    decreases if from < |memory| then |memory| - from else 0
  {
    match NextOccurrence(memory, target, from)
    case None => []
    case Some(i) => [i] + Greedy(memory, target, i + |target|)
  }

  /** The addresses of places in a chunk of memory that begins at begin. */
  function Addresses(places: seq<nat>, begin: nat): (r: seq<nat>)
    ensures |r| == |places|
    ensures forall i :: 0 <= i < |r| ==> r[i] == begin + places[i]
  {
    seq(|places|, i requires 0 <= i < |places| => begin + places[i])
  }

  lemma GreedyStep(memory: bytes, target: bytes, from: nat)
    requires target != []
    ensures var next := NextOccurrence(memory, target, from);
            Greedy(memory, target, from) == if next.None? then [] else [next.value] + Greedy(memory, target, next.value + |target|)
  {
    hide NextOccurrence, OccursAt;
  }

  lemma NoneLeft(memory: bytes, target: bytes, offset: nat)
    requires target != [] && offset >= |memory|
    ensures NextOccurrence(memory, target, offset).None?
  {
  }

  lemma AddressesOfMore(place: nat, places: seq<nat>, begin: nat)
    ensures Addresses([place] + places, begin) == [begin + place] + Addresses(places, begin)
  {
  }

  /** findDataInSplittedMemory. */
  method FindData(memory: bytes, target: bytes, begin: nat, start: nat, c: Collector<nat>)
    requires target != []
    modifies c
    ensures (c.results, c.skip) == Collected(old(c.results), old(c.skip), c.max, Addresses(Greedy(memory, target, start), begin))
  {
    hide NextOccurrence, OccursAt, Greedy;
    if Full(|c.results|, c.max) {
      return;
    }
    var offset := start;
    ghost var all := Collected(c.results, c.skip, c.max, Addresses(Greedy(memory, target, start), begin));
    while offset < |memory|
      invariant !Full(|c.results|, c.max)
      invariant all == Collected(c.results, c.skip, c.max, Addresses(Greedy(memory, target, offset), begin))
      decreases if offset < |memory| then |memory| - offset else 0
    {
      GreedyStep(memory, target, offset);
      var index := NextOccurrence(memory, target, offset);
      if index.None? {
        return;
      }
      ghost var rest := Greedy(memory, target, index.value + |target|);
      AddressesOfMore(index.value, rest, begin);
      CollectedInParts(c.results, c.skip, c.max, [begin + index.value], Addresses(rest, begin));
      var full := c.Offer(begin + index.value);
      if full {
        return;
      }
      offset := index.value + |target|;
    }
    GreedyStep(memory, target, offset);
    NoneLeft(memory, target, offset);
  }

  /** The target occurs at every place found. */
  lemma {:induction false} GreedyFinds(memory: bytes, target: bytes, from: nat, i: nat)
    requires target != [] && i < |Greedy(memory, target, from)|
    ensures from <= Greedy(memory, target, from)[i] && OccursAt(memory, Greedy(memory, target, from)[i], target)
    decreases i
  {
    hide OccursAt, NextOccurrence, Greedy;
    GreedyStep(memory, target, from);
    if i > 0 {
      GreedyFinds(memory, target, NextOccurrence(memory, target, from).value + |target|, i - 1);
    }
  }

  /** The places found do not overlap. */
  lemma {:induction false} GreedyIsSpaced(memory: bytes, target: bytes, from: nat, i: nat, j: nat)
    requires target != [] && i < j < |Greedy(memory, target, from)|
    ensures Greedy(memory, target, from)[i] + |target| <= Greedy(memory, target, from)[j]
    decreases i
  {
    hide OccursAt, NextOccurrence, Greedy;
    GreedyStep(memory, target, from);
    var next := NextOccurrence(memory, target, from).value + |target|;
    if i > 0 {
      GreedyIsSpaced(memory, target, next, i - 1, j - 1);
    } else {
      GreedyFinds(memory, target, next, j - 1);
    }
  }

  lemma OccurrenceInside(memory: bytes, i: nat, target: bytes)
    requires OccursAt(memory, i, target)
    ensures i + |target| <= |memory|
  {
  }

  /** Every occurrence is found or overlaps the end of one that is. */
  lemma {:induction false} GreedyIsMaximal(memory: bytes, target: bytes, from: nat, place: nat)
    requires target != [] && from <= place && OccursAt(memory, place, target)
    ensures var r := Greedy(memory, target, from);
            exists i :: 0 <= i < |r| && r[i] <= place < r[i] + |target|
    decreases if from < |memory| then |memory| - from else 0
  {
    hide OccursAt, Greedy;
    GreedyStep(memory, target, from);
    var next := NextOccurrence(memory, target, from).value;
    var r, rest := Greedy(memory, target, from), Greedy(memory, target, next + |target|);
    if place < next + |target| {
      assert r[0] <= place < r[0] + |target|;
    } else {
      OccurrenceInside(memory, next, target);
      GreedyIsMaximal(memory, target, next + |target|, place);
      var i :| 0 <= i < |rest| && rest[i] <= place < rest[i] + |target|;
      assert r[i + 1] == rest[i];
    }
  }

  // ----- The masked search -----

  /** The target's bytes are there wherever the mask is set. */
  predicate MatchesAt(memory: bytes, i: nat, target: bytes, mask: bytes)
    requires |mask| == |target|
  {
    i + |target| <= |memory| && forall j :: 0 <= j < |target| && mask[j] != 0 ==> memory[i + j] == target[j]
  }

  /** All masked matches from a place on, overlapping or not, in order. */
  function Matches(memory: bytes, target: bytes, mask: bytes, from: nat): seq<nat>
    requires |mask| == |target|
    decreases if from < |memory| then |memory| - from else 0
  {
    if from >= |memory| then []
    else (if MatchesAt(memory, from, target, mask) then [from] else []) + Matches(memory, target, mask, from + 1)
  }

  predicate IsFixed(mask: bytes, a: nat, b: nat) {
    a <= b <= |mask| && forall j :: a <= j < b ==> mask[j] != 0
  }

  lemma FixedBefore(mask: bytes, a: nat, i: nat)
    ensures a <= i && IsFixed(mask, a, i + 1) ==> IsFixed(mask, a, i)
  {
  }

  /** longestFixedMaskRun: the first of the longest runs of fixed bytes; empty only if there is none. */
  method LongestFixedMaskRun(target: bytes, mask: bytes) returns (start: nat, anchor: bytes)
    requires |mask| == |target|
    ensures IsFixed(mask, start, start + |anchor|) && anchor == target[start..start + |anchor|]
    ensures forall a: nat, b: nat :: IsFixed(mask, a, b) ==> b - a <= |anchor|
    ensures forall a: nat, b: nat :: IsFixed(mask, a, b) && b - a == |anchor| > 0 ==> start <= a
    ensures anchor == [] <==> forall j :: 0 <= j < |mask| ==> mask[j] == 0
  {
    var bestStart, bestLength := 0, 0;
    var currentStart := 0;
    for i := 0 to |mask|
      invariant 0 <= currentStart <= i && IsFixed(mask, currentStart, i)
      invariant forall a: nat :: a < currentStart ==> !IsFixed(mask, a, i)
      invariant 0 <= bestStart && 0 <= bestLength && bestStart + bestLength <= i && IsFixed(mask, bestStart, bestStart + bestLength)
      invariant i - currentStart <= bestLength
      invariant forall a: nat, b: nat :: b <= i && IsFixed(mask, a, b) ==> b - a <= bestLength
      invariant forall a: nat, b: nat :: b <= i && IsFixed(mask, a, b) && b - a == bestLength > 0 ==> bestStart <= a
    {
      if mask[i] != 0 {
        assert IsFixed(mask, currentStart, i + 1);
        forall a: nat, b: nat | b <= i + 1 && IsFixed(mask, a, b) ensures b <= i || currentStart <= a {
          FixedBefore(mask, a, i);
        }
        if i + 1 - currentStart > bestLength {
          bestStart, bestLength := currentStart, i + 1 - currentStart;
        }
      } else {
        currentStart := i + 1;
      }
    }
    start, anchor := bestStart, target[bestStart..bestStart + bestLength];
    if bestLength == 0 {
      forall j | 0 <= j < |mask| ensures mask[j] == 0 {
        assert mask[j] != 0 ==> IsFixed(mask, j, j + 1);
      }
    } else {
      assert mask[bestStart] != 0;
    }
  }

  /** maskedBytesEqual. */
  method MaskedBytesEqual(memory: bytes, at: nat, target: bytes, mask: bytes) returns (r: bool)
    requires |mask| == |target| && at + |target| <= |memory|
    ensures r == MatchesAt(memory, at, target, mask)
  {
    for i := 0 to |target|
      invariant forall j :: 0 <= j < i && mask[j] != 0 ==> memory[at + j] == target[j]
    {
      if mask[i] != 0 && memory[at + i] != target[i] {
        return false;
      }
    }
    return true;
  }

  /** A run of fixed bytes of the target. */
  predicate IsAnchor(target: bytes, mask: bytes, start: nat, anchor: bytes) {
    && |mask| == |target| && anchor != [] && IsFixed(mask, start, start + |anchor|) && anchor == target[start..start + |anchor|]
  }

  /** Where the target matches, its anchor occurs. */
  lemma MatchHasAnchor(memory: bytes, target: bytes, mask: bytes, start: nat, anchor: bytes, i: nat)
    requires IsAnchor(target, mask, start, anchor) && MatchesAt(memory, i, target, mask)
    ensures OccursAt(memory, i + start, anchor)
  {
    forall k | 0 <= k < |anchor| ensures memory[i + start..i + start + |anchor|][k] == anchor[k] {
      assert mask[start + k] != 0;
    }
  }

  /** Without a match in between, the matches from one place on are those from a later one on. */
  lemma {:induction false} NoMatchBetween(memory: bytes, target: bytes, mask: bytes, from: nat, to: nat)
    requires |mask| == |target| && from <= to
    requires forall i :: from <= i < to ==> !MatchesAt(memory, i, target, mask)
    ensures Matches(memory, target, mask, from) == Matches(memory, target, mask, to)
    decreases if from < to then to - from else 0
  {
    hide MatchesAt;
    if from < to { NoMatchBetween(memory, target, mask, from + 1, to); }
  }

  /** The candidates that an anchor at or behind offset can belong to. */
  function FirstCandidate(offset: nat, start: nat): nat {
    if offset <= start then 0 else offset - start
  }

  /** The place that the anchor at the given place belongs to, if the target matches there. */
  function CandidateAt(memory: bytes, target: bytes, mask: bytes, start: nat, at: nat): seq<nat>
    requires |mask| == |target|
  {
    if start <= at && MatchesAt(memory, at - start, target, mask) then [at - start] else []
  }

  /** From one anchor to the next: only the candidate of the next one can match in between. */
  lemma UpToAnchor(memory: bytes, target: bytes, mask: bytes, start: nat, anchor: bytes, offset: nat)
    requires IsAnchor(target, mask, start, anchor)
    ensures var next := NextOccurrence(memory, anchor, offset);
            Matches(memory, target, mask, FirstCandidate(offset, start)) ==
            if next.None? then []
            else
              CandidateAt(memory, target, mask, start, next.value)
              + Matches(memory, target, mask, FirstCandidate(next.value + 1, start))
  {
    hide OccursAt, MatchesAt, IsAnchor;
    AnchorFits(target, mask, start, anchor);
    var next := NextOccurrence(memory, anchor, offset);
    var first := FirstCandidate(offset, start);
    var last := if next.None? then (if first < |memory| then |memory| else first) else FirstCandidate(next.value, start);
    forall i: nat | first <= i < last ensures !MatchesAt(memory, i, target, mask) {
      if MatchesAt(memory, i, target, mask) {
        MatchHasAnchor(memory, target, mask, start, anchor, i);
        assert false;
      }
    }
    NoMatchBetween(memory, target, mask, first, last);
    if next.Some? { OccurrenceInside(memory, next.value, anchor); }
    if next.Some? && start <= next.value { assert last == next.value - start; }
  }

  lemma FirstOfAll(start: nat)
    ensures FirstCandidate(0, start) == 0
  {
  }

  lemma AnchorFits(target: bytes, mask: bytes, start: nat, anchor: bytes)
    requires IsAnchor(target, mask, start, anchor)
    ensures |mask| == |target| && anchor != [] && start + |anchor| <= |target|
  {
  }

  method CheckCandidate(memory: bytes, target: bytes, mask: bytes, start: nat, at: nat) returns (r: seq<nat>)
    requires |mask| == |target|
    ensures r == CandidateAt(memory, target, mask, start, at) && |r| <= 1
  {
    r := [];
    if at >= start && at - start + |target| <= |memory| {
      var equal := MaskedBytesEqual(memory, at - start, target, mask);
      if equal {
        r := [at - start];
      }
    }
  }

  /** findMaskedDataInSplittedMemory: the search from anchor to anchor collects exactly all masked matches. */
  method FindMaskedData(memory: bytes, target: bytes, mask: bytes, start: nat, anchor: bytes, begin: nat, c: Collector<nat>)
    requires IsAnchor(target, mask, start, anchor)
    modifies c
    ensures (c.results, c.skip)
         == Collected(old(c.results), old(c.skip), c.max, Addresses(Matches(memory, target, mask, 0), begin))
  {
    hide IsAnchor, MatchesAt, OccursAt, CandidateAt, NextOccurrence, Matches, FirstCandidate;
    AnchorFits(target, mask, start, anchor);
    FirstOfAll(start);
    if Full(|c.results|, c.max) {
      return;
    }
    ghost var all := Collected(c.results, c.skip, c.max, Addresses(Matches(memory, target, mask, 0), begin));
    var offset: nat := 0;
    while offset < |memory|
      invariant !Full(|c.results|, c.max)
      invariant all == Collected(c.results, c.skip, c.max, Addresses(Matches(memory, target, mask, FirstCandidate(offset, start)), begin))
      decreases if offset < |memory| then |memory| - offset else 0
    {
      UpToAnchor(memory, target, mask, start, anchor, offset);
      var index := NextOccurrence(memory, anchor, offset);
      if index.None? {
        return;
      }
      var anchorIndex := index.value;
      ghost var rest := Matches(memory, target, mask, FirstCandidate(anchorIndex + 1, start));
      var candidates := CheckCandidate(memory, target, mask, start, anchorIndex);
      if candidates != [] {
        assert candidates == [candidates[0]];
        AddressesOfMore(candidates[0], rest, begin);
        CollectedInParts(c.results, c.skip, c.max, [begin + candidates[0]], Addresses(rest, begin));
        var full := c.Offer(begin + candidates[0]);
        if full {
          return;
        }
      } else {
        assert candidates + rest == rest;
      }
      offset := anchorIndex + 1;
    }
    UpToAnchor(memory, target, mask, start, anchor, offset);
    NoneLeft(memory, anchor, offset);
  }

  /** The matches are exactly the places where the target matches under its mask, in ascending order. */
  lemma {:induction false} MatchesAreAll(memory: bytes, target: bytes, mask: bytes, from: nat)
    requires |mask| == |target| && target != []
    ensures var r := Matches(memory, target, mask, from);
            && (forall i :: i in r <==> from <= i && MatchesAt(memory, i, target, mask))
            && (forall i, j :: 0 <= i < j < |r| ==> r[i] < r[j])
    decreases if from < |memory| then |memory| - from else 0
  {
    if from < |memory| {
      MatchesAreAll(memory, target, mask, from + 1);
      var r, rest := Matches(memory, target, mask, from), Matches(memory, target, mask, from + 1);
      if MatchesAt(memory, from, target, mask) {
        assert r == [from] + rest;
        forall j | 0 < j < |r| ensures from < r[j] { assert r[j] in rest; }
      }
    }
  }
}
