/**
 * Ordering in underscore.ts: `max`/`min` (linear scans), `shuffle` (the
 * inside-out Fisher-Yates shuffle), `sample`, and `sortBy` (a stable
 * decorate-sort-undecorate).
 *
 * Scores are integers and `None` stands for `-Infinity`/`Infinity`, which
 * `max`/`min` return on an empty list. The random draws `shuffle` and `sample`
 * make through `random` are an oracle sequence of numbers in the range
 * `random` promises.
 */
module Ordering {
  import opened Wrappers

  /** The scoring callback of `max`/`min`: (value, index, list) -> number. */
  type Score<!T> = (T, nat, seq<T>) -> int

  // ---------------------------------------------------------------------------
  // max and min

  /** Position i holds the first of the highest scores. */
  ghost predicate IsFirstMax<T>(s: seq<T>, score: Score<T>, i: nat)
    requires i < |s|
  {
    (forall j :: 0 <= j < |s| ==> score(s[j], j, s) <= score(s[i], i, s)) &&
    (forall j :: 0 <= j < i ==> score(s[j], j, s) < score(s[i], i, s))
  }

  /** Position i holds the first of the lowest scores. */
  ghost predicate IsFirstMin<T>(s: seq<T>, score: Score<T>, i: nat)
    requires i < |s|
  {
    (forall j :: 0 <= j < |s| ==> score(s[j], j, s) >= score(s[i], i, s)) &&
    (forall j :: 0 <= j < i ==> score(s[j], j, s) > score(s[i], i, s))
  }

  /**
   * `max(obj, iterator)`: the element with the highest score, the first one on
   * ties (only a strictly higher score replaces the result); `-Infinity`
   * (None) on null or an empty list.
   */
  method Max<T>(obj: Option<seq<T>>, score: Score<T>) returns (result: Option<T>)
    ensures var s := if obj.None? then [] else obj.value;
      (result.None? <==> |s| == 0) &&
      (result.Some? ==> exists i :: 0 <= i < |s| && result.value == s[i] && IsFirstMax(s, score, i))
  {
    var s := if obj.None? then [] else obj.value;
    result := None;
    var lastComputed: Option<int> := None;
    ghost var at: nat := 0;
    for i := 0 to |s|
      invariant result.None? <==> i == 0
      invariant lastComputed.None? <==> i == 0
      invariant i > 0 ==> at < i && result == Some(s[at]) && lastComputed == Some(score(s[at], at, s))
      invariant i > 0 ==> forall j :: 0 <= j < i ==> score(s[j], j, s) <= score(s[at], at, s)
      invariant i > 0 ==> forall j :: 0 <= j < at ==> score(s[j], j, s) < score(s[at], at, s)
    {
      var computed := score(s[i], i, s);
      if lastComputed.None? || computed > lastComputed.value {
        result := Some(s[i]);
        lastComputed := Some(computed);
        at := i;
      }
    }
  }

  /**
   * `min(obj, iterator)`: the element with the lowest score, the first one on
   * ties; `Infinity` (None) on null or an empty list.
   */
  method Min<T>(obj: Option<seq<T>>, score: Score<T>) returns (result: Option<T>)
    ensures var s := if obj.None? then [] else obj.value;
      (result.None? <==> |s| == 0) &&
      (result.Some? ==> exists i :: 0 <= i < |s| && result.value == s[i] && IsFirstMin(s, score, i))
  {
    var s := if obj.None? then [] else obj.value;
    result := None;
    var lastComputed: Option<int> := None;
    ghost var at: nat := 0;
    for i := 0 to |s|
      invariant result.None? <==> i == 0
      invariant lastComputed.None? <==> i == 0
      invariant i > 0 ==> at < i && result == Some(s[at]) && lastComputed == Some(score(s[at], at, s))
      invariant i > 0 ==> forall j :: 0 <= j < i ==> score(s[j], j, s) >= score(s[at], at, s)
      invariant i > 0 ==> forall j :: 0 <= j < at ==> score(s[j], j, s) > score(s[at], at, s)
    {
      var computed := score(s[i], i, s);
      if lastComputed.None? || computed < lastComputed.value {
        result := Some(s[i]);
        lastComputed := Some(computed);
        at := i;
      }
    }
  }

  /** `max(list)` with no iterator on an array of numbers: its largest element, or `-Infinity`. */
  method MaxOfNumbers(list: seq<int>) returns (result: Option<int>)
    ensures result.None? <==> |list| == 0
    ensures result.Some? ==> result.value in list && forall j :: 0 <= j < |list| ==> list[j] <= result.value
  {
    result := None;
    for i := 0 to |list|
      invariant result.None? <==> i == 0
      invariant result.Some? ==> result.value in list[..i] && forall j :: 0 <= j < i ==> list[j] <= result.value
    {
      if result.None? || list[i] > result.value {
        result := Some(list[i]);
      }
    }
  }

  /** `min(list)` with no iterator on an array of numbers: its smallest element, or `Infinity`. */
  method MinOfNumbers(list: seq<int>) returns (result: Option<int>)
    ensures result.None? <==> |list| == 0
    ensures result.Some? ==> result.value in list && forall j :: 0 <= j < |list| ==> list[j] >= result.value
  {
    result := None;
    for i := 0 to |list|
      invariant result.None? <==> i == 0
      invariant result.Some? ==> result.value in list[..i] && forall j :: 0 <= j < i ==> list[j] >= result.value
    {
      if result.None? || list[i] < result.value {
        result := Some(list[i]);
      }
    }
  }

  // ---------------------------------------------------------------------------
  // shuffle and sample

  /** Every draw is one `random(index)` can return: a number in [0, index]. */
  ghost predicate ValidDraws(draws: seq<nat>) {
    forall i :: 0 <= i < |draws| ==> draws[i] <= i
  }

  /**
   * The shuffled array after the first `n` steps: step i draws r in [0, i],
   * moves the element at r to the end and puts the new element at r (when
   * r == i the new element just lands at the end).
   */
  function InsideOut<T>(s: seq<T>, draws: seq<nat>, n: nat): (r: seq<T>)
    requires n <= |s| && n <= |draws| && ValidDraws(draws)
    ensures |r| == n
  {
    if n == 0 then []
    else
      var prev := InsideOut(s, draws, n - 1);
      var rand := draws[n - 1];
      if rand == n - 1 then prev + [s[n - 1]] else prev[rand := s[n - 1]] + [prev[rand]]
  }

  /** Whatever the draws, the shuffle of the first `n` elements is a permutation of them. */
  lemma {:induction false} InsideOutPermutes<T>(s: seq<T>, draws: seq<nat>, n: nat)
    requires n <= |s| && n <= |draws| && ValidDraws(draws)
    ensures multiset(InsideOut(s, draws, n)) == multiset(s[..n])
  {
    if n > 0 {
      InsideOutPermutes(s, draws, n - 1);
      var prev := InsideOut(s, draws, n - 1);
      var rand := draws[n - 1];
      assert s[..n] == s[..n - 1] + [s[n - 1]];
      if rand != n - 1 {
        assert multiset(prev[rand := s[n - 1]]) == multiset(prev) - multiset{prev[rand]} + multiset{s[n - 1]};
      }
    }
  }

  /** Drawing r == i at every step leaves the order unchanged. */
  lemma {:induction false} InsideOutIdentity<T>(s: seq<T>, draws: seq<nat>, n: nat)
    requires n <= |s| && n <= |draws| && ValidDraws(draws)
    requires forall i :: 0 <= i < n ==> draws[i] == i
    ensures InsideOut(s, draws, n) == s[..n]
  {
    if n > 0 {
      InsideOutIdentity(s, draws, n - 1);
      assert s[..n] == s[..n - 1] + [s[n - 1]];
    }
  }

  /**
   * `shuffle(obj)`: the inside-out shuffle of the list; `[]` on null. For any
   * draws in range the result is a permutation of the input.
   */
  method Shuffle<T>(obj: Option<seq<T>>, draws: seq<nat>) returns (shuffled: seq<T>)
    requires ValidDraws(draws)
    requires obj.Some? ==> |obj.value| <= |draws|
    ensures obj.None? ==> shuffled == []
    ensures obj.Some? ==> shuffled == InsideOut(obj.value, draws, |obj.value|)
    ensures obj.Some? ==> |shuffled| == |obj.value| && multiset(shuffled) == multiset(obj.value)
  {
    shuffled := [];
    if obj.None? {
      return;
    }
    var s := obj.value;
    var index := 0;
    while index < |s|
      invariant 0 <= index <= |s|
      invariant shuffled == InsideOut(s, draws, index)
    {
      var rand := draws[index];
      index := index + 1;
      if rand == index - 1 {
        shuffled := shuffled + [s[index - 1]];
      } else {
        shuffled := shuffled + [shuffled[rand]];
        shuffled := shuffled[rand := s[index - 1]];
      }
      assert shuffled == InsideOut(s, draws, index);
    }
    InsideOutPermutes(s, draws, |s|);
    assert s[..|s|] == s;
  }

  /**
   * `sample(obj)` with no count: `obj[random(obj.length - 1)]`, an element at
   * a random position; on an empty list `random(-1)` is 0 and the result is
   * undefined.
   */
  function SampleOne<T>(obj: seq<T>, draw: nat): (r: Option<T>)
    requires |obj| == 0 ==> draw == 0
    requires |obj| > 0 ==> draw < |obj|
    ensures r.None? <==> |obj| == 0
    ensures r.Some? ==> r.value in obj
  {
    if |obj| == 0 then None else Some(obj[draw])
  }

  /**
   * `sample(obj, n)`: the first `max(0, n)` elements of the shuffled list
   * (all of them when n exceeds the length).
   */
  method SampleN<T>(obj: Option<seq<T>>, n: int, draws: seq<nat>) returns (r: seq<T>)
    requires ValidDraws(draws)
    requires obj.Some? ==> |obj.value| <= |draws|
    ensures var s := if obj.None? then [] else obj.value;
      var count := if n < 0 then 0 else if n > |s| then |s| else n;
      |r| == count && multiset(r) <= multiset(s) && r == InsideOut(s, draws, |s|)[..count]
  {
    var shuffled := Shuffle(obj, draws);
    var count := if n < 0 then 0 else if n > |shuffled| then |shuffled| else n;
    r := shuffled[..count];
    PrefixSubMultiset(shuffled, count);
  }

  /** A prefix holds no element more often than the whole sequence. */
  lemma PrefixSubMultiset<T>(s: seq<T>, k: nat)
    requires k <= |s|
    ensures multiset(s[..k]) <= multiset(s)
  {
    assert s == s[..k] + s[k..];
    assert multiset(s) == multiset(s[..k]) + multiset(s[k..]);
  }

  // ---------------------------------------------------------------------------
  // sortBy

  /** The record `sortBy` decorates each element with: `{value, index, criteria}`. */
  datatype Entry<T> = Entry(value: T, index: nat, criteria: Option<int>)

  /**
   * The comparator of `sortBy`, on criteria that are numbers or undefined
   * (None): `a > b || a === undefined` gives 1, `a < b || b === undefined`
   * gives -1, equal criteria compare by index. JavaScript's `>` and `<` are
   * false when either side is undefined.
   */
  function Compare<T(==)>(left: Entry<T>, right: Entry<T>): int {
    var a, b := left.criteria, right.criteria;
    if a != b && ((a.Some? && b.Some? && a.value > b.value) || a.None?) then 1
    else if a != b && ((a.Some? && b.Some? && a.value < b.value) || b.None?) then -1
    else left.index - right.index
  }

  /** Criterion `a` sorts before `b`: numbers ascending, undefined after every number. */
  predicate CriteriaBefore(a: Option<int>, b: Option<int>) {
    a.Some? && (b.None? || a.value < b.value)
  }

  /** The order the comparator sorts into: by criteria, then by original index. */
  predicate Precedes<T(==)>(left: Entry<T>, right: Entry<T>) {
    CriteriaBefore(left.criteria, right.criteria) ||
    (left.criteria == right.criteria && left.index < right.index)
  }

  /** The comparator answers "left first" exactly when `left` precedes `right`. */
  lemma CompareMeansPrecedes<T>(left: Entry<T>, right: Entry<T>)
    ensures Compare(left, right) < 0 <==> Precedes(left, right)
    ensures Compare(left, right) > 0 <==> Precedes(right, left)
    ensures Compare(left, right) == 0 <==> left.criteria == right.criteria && left.index == right.index
  {
  }

  ghost predicate Sorted<T>(es: seq<Entry<T>>) {
    forall i, j :: 0 <= i < j < |es| ==> Precedes(es[i], es[j])
  }

  /** Insert `e` before the first entry it does not come after. */
  function Insert<T(==)>(e: Entry<T>, sorted: seq<Entry<T>>): (r: seq<Entry<T>>)
    ensures multiset(r) == multiset(sorted) + multiset{e}
  {
    if |sorted| == 0 then [e]
    else if Compare(e, sorted[0]) <= 0 then [e] + sorted
    else
      assert sorted == [sorted[0]] + sorted[1..];
      [sorted[0]] + Insert(e, sorted[1..])
  }

  /** The sort: insertion of every entry, from the last one to the first. */
  function SortEntries<T(==)>(es: seq<Entry<T>>): (r: seq<Entry<T>>)
    ensures multiset(r) == multiset(es)
  {
    if |es| == 0 then []
    else
      assert es == [es[0]] + es[1..];
      Insert(es[0], SortEntries(es[1..]))
  }

  function Indices<T(==)>(es: seq<Entry<T>>): set<nat> {
    set e | e in es :: e.index
  }

  /** Inserting an entry whose index is new into a sorted list keeps it sorted. */
  lemma {:induction false} InsertSorted<T>(e: Entry<T>, sorted: seq<Entry<T>>)
    requires Sorted(sorted)
    requires e.index !in Indices(sorted)
    ensures Sorted(Insert(e, sorted))
  {
    if |sorted| > 0 {
      CompareMeansPrecedes(e, sorted[0]);
      if Compare(e, sorted[0]) <= 0 {
        assert Precedes(e, sorted[0]);
      } else {
        var tail := sorted[1..];
        assert Indices(tail) <= Indices(sorted) by {
          forall x | x in tail ensures x in sorted { }
        }
        InsertSorted(e, tail);
        var inserted := Insert(e, tail);
        var r := [sorted[0]] + inserted;
        forall j | 0 < j < |r|
          ensures Precedes(r[0], r[j])
        {
          assert r[j] in multiset(inserted);
          assert r[j] == e || r[j] in tail;
        }
      }
    }
  }

  /** The sort of entries with distinct indices is sorted. */
  lemma {:induction false} SortEntriesSorted<T>(es: seq<Entry<T>>)
    requires forall i, j :: 0 <= i < j < |es| ==> es[i].index != es[j].index
    ensures Sorted(SortEntries(es))
  {
    if |es| > 0 {
      var tail := es[1..];
      SortEntriesSorted(tail);
      var sorted := SortEntries(tail);
      forall x | x in sorted
        ensures x.index != es[0].index
      {
        assert x in multiset(tail);
      }
      InsertSorted(es[0], sorted);
    }
  }

  /** The entries the first loop of `sortBy` builds: each element with its index and criterion. */
  function Decorate<T>(s: seq<T>, criterion: (T, nat, seq<T>) -> Option<int>): seq<Entry<T>> {
    seq(|s|, j requires 0 <= j < |s| => Entry(s[j], j, criterion(s[j], j, s)))
  }

  /** Sorting the decorated entries gives each original entry once, in comparator order. */
  lemma SortDecorated<T>(s: seq<T>, criterion: (T, nat, seq<T>) -> Option<int>)
    ensures var sorted := SortEntries(Decorate(s, criterion));
      && |sorted| == |s|
      && (forall k :: 0 <= k < |sorted| ==> sorted[k].index < |s| && sorted[k] == Decorate(s, criterion)[sorted[k].index])
      && (forall k, l :: 0 <= k < l < |sorted| ==> Precedes(sorted[k], sorted[l]))
  {
    var decorated := Decorate(s, criterion);
    var sorted := SortEntries(decorated);
    SortEntriesSorted(decorated);
    assert |sorted| == |decorated| by {
      assert |multiset(sorted)| == |multiset(decorated)|;
    }
    forall k | 0 <= k < |sorted|
      ensures sorted[k].index < |s| && sorted[k] == decorated[sorted[k].index]
    {
      assert sorted[k] in multiset(decorated);
    }
  }

  /** The elements of a list of entries. */
  function Values<T>(es: seq<Entry<T>>): (r: seq<T>)
    ensures |r| == |es| && forall k :: 0 <= k < |es| ==> r[k] == es[k].value
  {
    seq(|es|, k requires 0 <= k < |es| => es[k].value)
  }

  /** The original indices of a list of entries. */
  function Indexes<T>(es: seq<Entry<T>>): (r: seq<nat>)
    ensures |r| == |es| && forall k :: 0 <= k < |es| ==> r[k] == es[k].index
  {
    seq(|es|, k requires 0 <= k < |es| => es[k].index)
  }

  /**
   * The elements of the sorted decoration, with their original indices as
   * `order`, are a stable sort of `s` by criterion.
   */
  lemma SortByOrders<T>(s: seq<T>, criterion: (T, nat, seq<T>) -> Option<int>)
    ensures var sorted := SortEntries(Decorate(s, criterion));
      var r, order := Values(sorted), Indexes(sorted);
      && |r| == |s| && |order| == |s|
      && (forall k :: 0 <= k < |s| ==> order[k] < |s| && r[k] == s[order[k]])
      && (forall k, l :: 0 <= k < l < |s| ==> order[k] != order[l])
      && (forall k, l :: 0 <= k < l < |s| ==>
            var a, b := criterion(s[order[k]], order[k], s), criterion(s[order[l]], order[l], s);
            CriteriaBefore(a, b) || (a == b && order[k] < order[l]))
  {
    SortDecorated(s, criterion);
  }

  /**
   * `sortBy(list, iterator)`: the elements by ascending criterion, those with
   * an undefined criterion last, equal criteria in their original order.
   * `order[k]` is the original index of the k-th result: a one-to-one map
   * onto the indices, so the result is a permutation of the input.
   */
  method SortBy<T(==)>(list: Option<seq<T>>, criterion: (T, nat, seq<T>) -> Option<int>)
    returns (r: seq<T>, ghost order: seq<nat>)
    ensures var s := if list.None? then [] else list.value;
      && |r| == |s| && |order| == |s|
      && (forall k :: 0 <= k < |s| ==> order[k] < |s| && r[k] == s[order[k]])
      && (forall k, l :: 0 <= k < l < |s| ==> order[k] != order[l])
      && (forall k, l :: 0 <= k < l < |s| ==>
            var a, b := criterion(s[order[k]], order[k], s), criterion(s[order[l]], order[l], s);
            CriteriaBefore(a, b) || (a == b && order[k] < order[l]))
  {
    var s := if list.None? then [] else list.value;
    var decorated: seq<Entry<T>> := [];
    for i := 0 to |s|
      invariant decorated == Decorate(s, criterion)[..i]
    {
      decorated := decorated + [Entry(s[i], i, criterion(s[i], i, s))];
    }
    assert decorated == Decorate(s, criterion);
    var sorted := SortEntries(decorated);
    r := [];
    for k := 0 to |sorted|
      invariant r == Values(sorted)[..k]
    {
      r := r + [sorted[k].value];
    }
    assert r == Values(sorted);
    order := Indexes(sorted);
    SortByOrders(s, criterion);
  }
}
