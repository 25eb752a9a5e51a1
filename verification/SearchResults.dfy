/** Collecting search results: the first ones are skipped, and at most so many are kept. */
module SearchResults {
  /** A cap of 0 is no cap. */
  predicate Full(count: nat, max: nat) {
    max > 0 && count >= max
  }

  /** What is collected, and what is still to be skipped, after the matches have been offered one by one. */
  function Collected<T>(results: seq<T>, skip: nat, max: nat, matches: seq<T>): (r: (seq<T>, nat))
    decreases |matches|
  {
    if matches == [] || Full(|results|, max) then (results, skip)
    else if skip > 0 then Collected(results, skip - 1, max, matches[1..])
    else Collected(results + [matches[0]], 0, max, matches[1..])
  }

  function Capped<T>(matches: seq<T>, max: nat): seq<T> {
    if max > 0 && |matches| > max then matches[..max] else matches
  }

  lemma {:induction false} CollectedOnto<T>(results: seq<T>, max: nat, matches: seq<T>)
    requires !Full(|results|, max)
    ensures Collected(results, 0, max, matches).0 == Capped(results + matches, max)
    decreases |matches|
  {
    if matches == [] {
      assert results + matches == results;
    } else {
      var more := results + [matches[0]];
      assert more + matches[1..] == results + matches;
      if Full(|more|, max) {
        assert (results + matches)[..max] == more;
        assert Collected(more, 0, max, matches[1..]) == (more, 0);
      } else {
        CollectedOnto(more, max, matches[1..]);
      }
    }
  }

  /** Collecting from the start drops the first matches and keeps as many of the others as the cap allows. */
  lemma {:induction false} CollectedIs<T>(skip: nat, max: nat, matches: seq<T>)
    ensures Collected([], skip, max, matches).0
         == Capped(if skip <= |matches| then matches[skip..] else [], max)
    decreases |matches|
  {
    if skip == 0 {
      CollectedOnto([], max, matches);
      assert [] + matches == matches && matches[0..] == matches;
    } else if matches != [] {
      CollectedIs(skip - 1, max, matches[1..]);
      assert skip <= |matches| ==> matches[1..][skip - 1..] == matches[skip..];
    }
  }

  /** Matches can be offered in parts. */
  lemma {:induction false} CollectedInParts<T>(results: seq<T>, skip: nat, max: nat, a: seq<T>, b: seq<T>)
    ensures var mid := Collected(results, skip, max, a);
            Collected(results, skip, max, a + b) == Collected(mid.0, mid.1, max, b)
    decreases |a|
  {
    if a == [] {
      assert a + b == b;
    } else {
      assert (a + b)[1..] == a[1..] + b;
      if !Full(|results|, max) {
        if skip > 0 {
          CollectedInParts(results, skip - 1, max, a[1..], b);
        } else {
          CollectedInParts(results + [a[0]], 0, max, a[1..], b);
        }
      }
    }
  }

  lemma FullStays<T>(results: seq<T>, skip: nat, max: nat, matches: seq<T>)
    requires Full(|results|, max)
    ensures Collected(results, skip, max, matches) == (results, skip)
  {
  }

  /** The counters that a search shares with everything it calls, and its results. */
  class Collector<T> {
    var skip: nat
    var skipped: nat
    const max: nat
    var results: seq<T>

    constructor (skip: nat, max: nat)
      ensures results == [] && this.skip == skip && skipped == 0 && this.max == max
    {
      this.skip, skipped, this.max, results := skip, 0, max, [];
    }

    /** KeepSearchResult: whether the next match is to be kept. */
    method Keep() returns (keep: bool)
      modifies this
      ensures keep == (old(skip) == 0) && results == old(results)
      ensures skip == (if old(skip) == 0 then 0 else old(skip) - 1) && skip + skipped == old(skip) + old(skipped)
    {
      if skip > 0 {
        skip := skip - 1;
        skipped := skipped + 1;
        return false;
      }
      return true;
    }

    /** A match is offered; true if no more are wanted. */
    method Offer(match_: T) returns (full: bool)
      requires !Full(|results|, max)
      modifies this
      ensures (results, skip) == Collected(old(results), old(skip), max, [match_])
      ensures full == Full(|results|, max) && skip + skipped == old(skip) + old(skipped)
    {
      var keep := Keep();
      if keep {
        results := results + [match_];
      }
      full := Full(|results|, max);
    }
  }
}
