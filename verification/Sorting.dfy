/** Stable sorting by a strict weak order. */
module Sorting {
  /** Neither of two elements need come before the other, and not coming before is transitive. */
  ghost predicate StrictWeak<T(!new)>(before: (T, T) -> bool) {
    && (forall a, b :: before(a, b) ==> !before(b, a))
    && (forall a, b, c :: !before(b, a) && !before(c, b) ==> !before(c, a))
  }

  function Insert<T>(e: T, es: seq<T>, before: (T, T) -> bool): (r: seq<T>)
    ensures |r| == |es| + 1
  {
    if es == [] || !before(es[0], e) then [e] + es else [es[0]] + Insert(e, es[1..], before)
  }

  /** Every element goes in front of the first one that does not come before it. */
  function StableSort<T>(es: seq<T>, before: (T, T) -> bool): (r: seq<T>)
    ensures |r| == |es|
  {
    if es == [] then [] else Insert(es[0], StableSort(es[1..], before), before)
  }

  predicate Sorted<T>(es: seq<T>, before: (T, T) -> bool) {
    forall i, j :: 0 <= i < j < |es| ==> !before(es[j], es[i])
  }

  lemma {:induction false} InsertPermutes<T>(e: T, es: seq<T>, before: (T, T) -> bool)
    ensures multiset(Insert(e, es, before)) == multiset{e} + multiset(es)
  {
    if es != [] {
      InsertPermutes(e, es[1..], before);
      assert es == [es[0]] + es[1..];
    }
  }

  lemma SortedCons<T>(e: T, es: seq<T>, before: (T, T) -> bool)
    requires Sorted(es, before) && forall x :: x in multiset(es) ==> !before(x, e)
    ensures Sorted([e] + es, before)
  {
    var r := [e] + es;
    forall i, j | 0 <= i < j < |r| ensures !before(r[j], r[i]) {
      assert es[j - 1] in multiset(es);
      if i > 0 { assert r[i] == es[i - 1] && r[j] == es[j - 1]; }
    }
  }

  lemma FirstIsLeast<T>(es: seq<T>, before: (T, T) -> bool, x: T)
    requires Sorted(es, before) && es != [] && x in multiset(es)
    ensures x == es[0] || !before(x, es[0])
  {
  }

  lemma SortedTail<T>(es: seq<T>, before: (T, T) -> bool)
    requires Sorted(es, before) && es != []
    ensures Sorted(es[1..], before)
    ensures forall x :: x in multiset(es[1..]) ==> !before(x, es[0])
  {
  }

  lemma {:induction false} InsertSorts<T(!new)>(e: T, es: seq<T>, before: (T, T) -> bool)
    requires StrictWeak(before) && Sorted(es, before)
    ensures Sorted(Insert(e, es, before), before)
  {
    hide Sorted;
    if es == [] {
      SortedCons(e, es, before);
    } else if !before(es[0], e) {
      forall x | x in multiset(es) ensures !before(x, e) {
        FirstIsLeast(es, before, x);
      }
      SortedCons(e, es, before);
    } else {
      SortedTail(es, before);
      InsertSorts(e, es[1..], before);
      InsertPermutes(e, es[1..], before);
      SortedCons(es[0], Insert(e, es[1..], before), before);
    }
  }

  /** Sorting permutes the elements into order. */
  lemma {:induction false} SortSorts<T(!new)>(es: seq<T>, before: (T, T) -> bool)
    requires StrictWeak(before)
    ensures Sorted(StableSort(es, before), before)
    ensures multiset(StableSort(es, before)) == multiset(es)
  {
    hide StrictWeak, Sorted, Insert;
    if es != [] {
      SortSorts(es[1..], before);
      InsertSorts(es[0], StableSort(es[1..], before), before);
      InsertPermutes(es[0], StableSort(es[1..], before), before);
      assert es == [es[0]] + es[1..];
    } else {
      Nothing(es, before);
    }
  }

  lemma Nothing<T>(es: seq<T>, before: (T, T) -> bool)
    requires es == []
    ensures Sorted(es, before)
  {
  }

  /** The elements that neither come before x nor after it, in their order. */
  function Alike<T>(es: seq<T>, x: T, before: (T, T) -> bool): seq<T> {
    if es == [] then []
    else if !before(es[0], x) && !before(x, es[0]) then [es[0]] + Alike(es[1..], x, before)
    else Alike(es[1..], x, before)
  }

  lemma {:induction false} InsertStable<T(!new)>(e: T, es: seq<T>, x: T, before: (T, T) -> bool)
    requires StrictWeak(before)
    ensures Alike(Insert(e, es, before), x, before) == Alike([e] + es, x, before)
  {
    assert ([e] + es)[1..] == es;
    if !(es == [] || !before(es[0], e)) {
      InsertStable(e, es[1..], x, before);
      assert ([e] + es[1..])[1..] == es[1..];
    }
  }

  /** Elements that are alike keep their order. */
  lemma {:induction false} SortStable<T(!new)>(es: seq<T>, x: T, before: (T, T) -> bool)
    requires StrictWeak(before)
    ensures Alike(StableSort(es, before), x, before) == Alike(es, x, before)
  {
    hide StrictWeak, Insert;
    if es != [] {
      SortStable(es[1..], x, before);
      InsertStable(es[0], StableSort(es[1..], before), x, before);
      assert ([es[0]] + StableSort(es[1..], before))[1..] == StableSort(es[1..], before);
    }
  }

  /** Sorting what is sorted changes nothing. */
  lemma {:induction false} SortOfSorted<T>(es: seq<T>, before: (T, T) -> bool)
    requires Sorted(es, before)
    ensures StableSort(es, before) == es
  {
    if es != [] {
      SortOfSorted(es[1..], before);
      assert es == [es[0]] + es[1..];
    }
  }
}
