/**
 * The array functions of underscore.ts: the slicing family (`first`,
 * `initial`, `last`, `rest`), `compact`, `uniq`, `union`, `difference`,
 * `without`, `intersection`, `object` and `range`.
 *
 * Elements are compared with `===`, which is Dafny equality on a generic
 * element type, and `StrictEquals` on dynamic values.
 */
module Arrays {
  import opened Wrappers
  import opened Functions
  import opened Collections
  import opened Js

  // ---------------------------------------------------------------------------
  // Slicing

  /** Where a relative index of `slice` lands: from the end when negative, clamped to [0, length]. */
  function RelativeIndex(length: nat, k: int): (r: nat)
    ensures r <= length
    ensures k < 0 ==> r == if length + k < 0 then 0 else length + k
    ensures k >= 0 ==> r == if k > length then length else k
  {
    if k < 0 then (if length + k < 0 then 0 else length + k) else if k > length then length else k
  }

  /** `Array.prototype.slice(begin, end)`; an absent `end` is the length. */
  function Slice<T>(s: seq<T>, begin: int, end: Option<int>): (r: seq<T>)
    ensures var b := RelativeIndex(|s|, begin);
      var e := if end.None? then |s| else RelativeIndex(|s|, end.value);
      r == if b < e then s[b..e] else []
  {
    var b := RelativeIndex(|s|, begin);
    var e := if end.None? then |s| else RelativeIndex(|s|, end.value);
    if b < e then s[b..e] else []
  }

  /** Slicing from a point to the end, and up to that point, split the list. */
  lemma SliceSplits<T>(s: seq<T>, n: int)
    ensures Slice(s, 0, Some(n)) + Slice(s, n, None) == s
  {
    var k := RelativeIndex(|s|, n);
    assert Slice(s, 0, Some(n)) == s[..k];
    assert Slice(s, n, None) == s[k..];
    assert s[..k] + s[k..] == s;
  }

  /** What `first` and `last` return: one element (undefined as None) or a list. */
  datatype Picked<T> = One(elem: Option<T>) | Many(items: seq<T>)

  /** `list[i]`: the element, or undefined past the end. */
  function At<T>(s: seq<T>, i: int): (r: Option<T>)
    ensures r.Some? <==> 0 <= i < |s|
    ensures r.Some? ==> r.value == s[i]
  {
    if 0 <= i < |s| then Some(s[i]) else None
  }

  /**
   * `first(list, n)`: undefined on null; without n the first element; a
   * negative n gives `[]`; otherwise the first n elements (all when n exceeds
   * the length).
   */
  function First<T>(list: Option<seq<T>>, n: Option<int>): (r: Picked<T>)
    ensures list.None? ==> r == One(None)
    ensures list.Some? && n.None? ==> r == One(At(list.value, 0))
    ensures list.Some? && n.Some? && n.value < 0 ==> r == Many([])
    ensures list.Some? && n.Some? && n.value >= 0 ==>
      r == Many(list.value[..(if n.value > |list.value| then |list.value| else n.value)])
  {
    if list.None? then One(None)
    else if n.None? then One(At(list.value, 0))
    else if n.value < 0 then Many([])
    else Many(Slice(list.value, 0, Some(n.value)))
  }

  /** `initial(list, n)`: all but the last n elements (n defaults to 1; none are dropped for n <= 0). */
  function Initial<T>(list: seq<T>, n: Option<int>): (r: seq<T>)
    ensures var k := if n.None? then 1 else n.value;
      r == list[..(if k <= 0 then |list| else if k > |list| then 0 else |list| - k)]
  {
    var k := if n.None? then 1 else n.value;
    Slice(list, 0, Some(if |list| - k < 0 then 0 else |list| - k))
  }

  /**
   * `last(list, n)`: undefined on null; without n the last element;
   * otherwise the last n elements (none for n <= 0, all when n exceeds the length).
   */
  function Last<T>(list: Option<seq<T>>, n: Option<int>): (r: Picked<T>)
    ensures list.None? ==> r == One(None)
    ensures list.Some? && n.None? ==> r == One(At(list.value, |list.value| - 1))
    ensures list.Some? && n.Some? ==> var s, k := list.value, n.value;
      r == Many(s[(if k <= 0 then |s| else if k > |s| then 0 else |s| - k)..])
  {
    if list.None? then One(None)
    else if n.None? then One(At(list.value, |list.value| - 1))
    else
      var s := list.value;
      Many(Slice(s, if |s| - n.value < 0 then 0 else |s| - n.value, None))
  }

  /**
   * `rest(list, n)`: `slice(n)` with n defaulting to 1, so everything from
   * index n on; a negative n counts from the end and keeps the last -n elements.
   */
  function Rest<T>(list: seq<T>, n: Option<int>): (r: seq<T>)
    ensures var k := if n.None? then 1 else n.value;
      r == list[RelativeIndex(|list|, k)..]
    ensures n.Some? && 0 <= n.value <= |list| ==> |r| == |list| - n.value
  {
    Slice(list, if n.None? then 1 else n.value, None)
  }

  /** `first(list, n)` followed by `rest(list, n)` is the whole list, for n >= 0. */
  lemma FirstThenRest<T>(s: seq<T>, n: nat)
    ensures First(Some(s), Some(n)).items + Rest(s, Some(n)) == s
  {
    SliceSplits(s, n);
  }

  /** `initial(list, n)` followed by `last(list, n)` is the whole list, for n >= 0. */
  lemma InitialThenLast<T>(s: seq<T>, n: nat)
    ensures Initial(s, Some(n)) + Last(Some(s), Some(n)).items == s
  {
    var k := if n > |s| then 0 else |s| - n;
    if n == 0 {
      assert s[..|s|] == s;
    } else {
      assert s[..k] + s[k..] == s;
    }
  }

  /** Without a count, `first` and `last` are the two ends, and `rest`/`initial` drop exactly those. */
  lemma EndsAndTheRest<T>(s: seq<T>)
    requires |s| > 0
    ensures First(Some(s), None) == One(Some(s[0])) && [s[0]] + Rest(s, None) == s
    ensures Last(Some(s), None) == One(Some(s[|s| - 1])) && Initial(s, None) + [s[|s| - 1]] == s
  {
    assert [s[0]] + s[1..] == s;
    assert s[..|s| - 1] + [s[|s| - 1]] == s;
  }

  // ---------------------------------------------------------------------------
  // compact, difference, without, union

  /** `identity` used as a predicate: the value's truthiness. */
  function TruthyPred(): ListPredicate<Value> {
    (v: Value, i: nat, l: seq<Value>) => Truthy(v)
  }

  /** `compact(list)`: `filter(list, identity)`, the truthy values in order. */
  method Compact(list: Option<seq<Value>>) returns (r: seq<Value>)
    ensures list.None? ==> r == []
    ensures list.Some? ==> r == Select(list.value, TruthyPred(), |list.value|)
    ensures forall v :: v in r <==> list.Some? && v in list.value && Truthy(v)
  {
    r := Filter(list, TruthyPred());
    forall v
      ensures v in r <==> list.Some? && v in list.value && Truthy(v)
    {
      if list.Some? {
        SelectMembers(list.value, TruthyPred(), |list.value|, v);
      }
    }
  }

  /** The lists one after the other: `flattenInternal(lists, true, true, [])` when every list is an array. */
  function ConcatLists<T>(lists: seq<seq<T>>): seq<T> {
    if |lists| == 0 then [] else ConcatLists(lists[..|lists| - 1]) + lists[|lists| - 1]
  }

  lemma {:induction false} InConcatLists<T>(lists: seq<seq<T>>, x: T)
    ensures x in ConcatLists(lists) <==> exists j :: 0 <= j < |lists| && x in lists[j]
  {
    if |lists| > 0 {
      InConcatLists(lists[..|lists| - 1], x);
      var init := lists[..|lists| - 1];
      if exists j :: 0 <= j < |lists| && x in lists[j] {
        var j :| 0 <= j < |lists| && x in lists[j];
        if j < |lists| - 1 {
          assert x in init[j];
        }
      }
    }
  }

  /** The predicate "not in `rest`" (`!contains(rest, value)`). */
  function NotIn<T(==)>(rest: seq<T>): ListPredicate<T> {
    (v: T, i: nat, l: seq<T>) => v !in rest
  }

  /**
   * `difference(list, ...others)`: the elements of `list`, in order, that
   * occur in none of the other lists.
   */
  method Difference<T(==)>(list: Option<seq<T>>, others: seq<seq<T>>) returns (r: seq<T>)
    ensures list.None? ==> r == []
    ensures list.Some? ==> r == Select(list.value, NotIn(ConcatLists(others)), |list.value|)
    ensures forall x :: x in r <==>
      list.Some? && x in list.value && forall j :: 0 <= j < |others| ==> x !in others[j]
  {
    var rest := ConcatLists(others);
    r := Filter(list, NotIn(rest));
    forall x
      ensures x in r <==> list.Some? && x in list.value && forall j :: 0 <= j < |others| ==> x !in others[j]
    {
      InConcatLists(others, x);
      if list.Some? {
        SelectMembers(list.value, NotIn(rest), |list.value|, x);
      }
    }
  }

  /** `without(list, ...values)`: `difference(list, values)`. */
  method Without<T(==)>(list: Option<seq<T>>, values: seq<T>) returns (r: seq<T>)
    ensures list.None? ==> r == []
    ensures list.Some? ==> r == Select(list.value, NotIn(values), |list.value|)
    ensures forall x :: x in r <==> list.Some? && x in list.value && x !in values
  {
    assert ConcatLists([values]) == values;
    r := Difference(list, [values]);
  }

  // ---------------------------------------------------------------------------
  // uniq and union

  /** The keys of the first `i` elements. */
  function PrefixKeys<T, K(==)>(l: seq<T>, key: (T, nat, seq<T>) -> K, i: nat): set<K>
    requires i <= |l|
  {
    if i == 0 then {} else PrefixKeys(l, key, i - 1) + {key(l[i - 1], i - 1, l)}
  }

  lemma {:induction false} InPrefixKeys<T, K>(l: seq<T>, key: (T, nat, seq<T>) -> K, i: nat, k: K)
    requires i <= |l|
    ensures k in PrefixKeys(l, key, i) <==> exists j :: 0 <= j < i && key(l[j], j, l) == k
  {
    if i > 0 {
      InPrefixKeys(l, key, i - 1, k);
    }
  }

  /** The unsorted test of `uniq`: this element's key has not been seen before. */
  function FreshKey<T, K(==)>(key: (T, nat, seq<T>) -> K): ListPredicate<T> {
    (v: T, i: nat, l: seq<T>) => i <= |l| && key(v, i, l) !in PrefixKeys(l, key, i)
  }

  /** The sorted test of `uniq`: the first element, or a key different from the previous one. */
  function NewRun<T, K(==)>(key: (T, nat, seq<T>) -> K): ListPredicate<T> {
    (v: T, i: nat, l: seq<T>) => i == 0 || (i <= |l| && key(l[i - 1], i - 1, l) != key(v, i, l))
  }

  /**
   * `uniq(list, isSorted, iterator)`: the elements whose computed key is
   * new (not among the earlier keys; with `isSorted`, different from the
   * previous element's key), in input order; `[]` on null. Without an
   * iterator the key is the element itself.
   */
  method Uniq<T, K(==)>(list: Option<seq<T>>, isSorted: bool, key: (T, nat, seq<T>) -> K) returns (result: seq<T>)
    ensures list.None? ==> result == []
    ensures list.Some? ==> result == Select(list.value, if isSorted then NewRun(key) else FreshKey(key), |list.value|)
  {
    result := [];
    if list.None? {
      return;
    }
    var s := list.value;
    var prev: Option<K> := None;
    var seen: seq<K> := [];
    for i := 0 to |s|
      invariant isSorted ==> result == Select(s, NewRun(key), i)
      invariant !isSorted ==> result == Select(s, FreshKey(key), i)
      invariant isSorted && i > 0 ==> prev == Some(key(s[i - 1], i - 1, s))
      invariant !isSorted ==> forall k :: k in seen ==> k in PrefixKeys(s, key, i)
      invariant !isSorted ==> forall k :: k in PrefixKeys(s, key, i) ==> k in seen
    {
      var value := key(s[i], i, s);
      var keep := if isSorted then i == 0 || prev != Some(value) else value !in seen;
      if isSorted {
        assert keep == NewRun(key)(s[i], i, s);
      } else {
        assert keep == FreshKey(key)(s[i], i, s);
      }
      if keep {
        if isSorted {
          prev := Some(value);
        } else {
          seen := seen + [value];
        }
        result := result + [s[i]];
      }
    }
  }

  /** A kept element's key is not the key of any other kept element: keys are unique in the result. */
  lemma FreshKeysDiffer<T, K>(s: seq<T>, key: (T, nat, seq<T>) -> K, i: nat, j: nat)
    requires i < j < |s|
    requires FreshKey(key)(s[j], j, s)
    ensures key(s[i], i, s) != key(s[j], j, s)
  {
    InPrefixKeys(s, key, j, key(s[j], j, s));
  }

  /** Every key occurring in the input is the key of a kept element at or before it. */
  lemma {:induction false} EveryKeyKept<T, K>(s: seq<T>, key: (T, nat, seq<T>) -> K, i: nat)
    requires i < |s|
    ensures exists j :: 0 <= j <= i && key(s[j], j, s) == key(s[i], i, s) && FreshKey(key)(s[j], j, s)
  {
    InPrefixKeys(s, key, i, key(s[i], i, s));
    if !FreshKey(key)(s[i], i, s) {
      var j :| 0 <= j < i && key(s[j], j, s) == key(s[i], i, s);
      EveryKeyKept(s, key, j);
    }
  }

  /** Equal keys sit next to each other (as in a list sorted by key). */
  ghost predicate KeysGrouped<T, K>(s: seq<T>, key: (T, nat, seq<T>) -> K) {
    forall i, m, j :: 0 <= i < m < j < |s| && key(s[i], i, s) == key(s[j], j, s) ==> key(s[m], m, s) == key(s[i], i, s)
  }

  /** Selecting with two predicates that agree on every element gives the same list. */
  lemma {:induction false} SelectAgrees<T>(s: seq<T>, p: ListPredicate<T>, q: ListPredicate<T>, n: nat)
    requires n <= |s|
    requires forall i :: 0 <= i < n ==> p(s[i], i, s) == q(s[i], i, s)
    ensures Select(s, p, n) == Select(s, q, n)
  {
    if n > 0 {
      SelectAgrees(s, p, q, n - 1);
    }
  }

  /** On a list whose equal keys are adjacent, a key differs from the previous one exactly when it is new. */
  lemma NewRunIsFreshKey<T, K>(s: seq<T>, key: (T, nat, seq<T>) -> K, i: nat)
    requires KeysGrouped(s, key)
    requires i < |s|
    ensures NewRun(key)(s[i], i, s) == FreshKey(key)(s[i], i, s)
  {
    InPrefixKeys(s, key, i, key(s[i], i, s));
    if i > 0 && key(s[i - 1], i - 1, s) != key(s[i], i, s) {
      if exists j :: 0 <= j < i && key(s[j], j, s) == key(s[i], i, s) {
        assert false;
      }
    }
  }

  /** On a list whose equal keys are adjacent, the sorted shortcut of `uniq` keeps the same elements. */
  lemma SortedUniqAgrees<T, K>(s: seq<T>, key: (T, nat, seq<T>) -> K)
    requires KeysGrouped(s, key)
    ensures Select(s, NewRun(key), |s|) == Select(s, FreshKey(key), |s|)
  {
    forall i | 0 <= i < |s|
      ensures NewRun(key)(s[i], i, s) == FreshKey(key)(s[i], i, s)
    {
      NewRunIsFreshKey(s, key, i);
    }
    SelectAgrees(s, NewRun(key), FreshKey(key), |s|);
  }

  /** The identity key: `uniq` without an iterator compares the elements themselves. */
  function Itself<T>(): (T, nat, seq<T>) -> T {
    (v: T, i: nat, l: seq<T>) => v
  }

  /**
   * `union(...arrays)`: `uniq` of the concatenated lists, so every element of
   * any list exactly once, in order of first occurrence.
   */
  method Union<T(==)>(arrays: seq<seq<T>>) returns (r: seq<T>)
    ensures r == Select(ConcatLists(arrays), FreshKey(Itself()), |ConcatLists(arrays)|)
    ensures forall x :: x in r <==> exists j :: 0 <= j < |arrays| && x in arrays[j]
  {
    var all := ConcatLists(arrays);
    r := Uniq(Some(all), false, Itself());
    forall x
      ensures x in r <==> exists j :: 0 <= j < |arrays| && x in arrays[j]
    {
      InConcatLists(arrays, x);
      SelectMembers(all, FreshKey(Itself()), |all|, x);
      if x in all {
        var i :| 0 <= i < |all| && all[i] == x;
        EveryKeyKept(all, Itself(), i);
      }
    }
  }

  /** No element occurs twice in the result of `union`. */
  lemma {:induction false} UnionDistinct<T>(all: seq<T>, n: nat)
    requires n <= |all|
    ensures Distinct(Select(all, FreshKey(Itself()), n))
  {
    if n > 0 {
      UnionDistinct(all, n - 1);
      var prev := Select(all, FreshKey(Itself()), n - 1);
      if FreshKey(Itself())(all[n - 1], n - 1, all) {
        InPrefixKeys(all, Itself(), n - 1, all[n - 1]);
        forall x | x in prev
          ensures x != all[n - 1]
        {
          SelectMembers(all, FreshKey(Itself()), n - 1, x);
        }
        var r := prev + [all[n - 1]];
        forall i, j | 0 <= i < j < |r|
          ensures r[i] != r[j]
        {
          if j == |r| - 1 {
            assert r[i] in prev;
          }
        }
      }
    }
  }

  // ---------------------------------------------------------------------------
  // intersection

  /** The elements of an array argument; any other argument contains nothing. */
  function ElemsOf(H: Heap, v: Value): seq<Value> {
    if v.Ref? && ObjAt(H, v.addr).ArrayObj? then ObjAt(H, v.addr).elems else []
  }

  /** `contains(arg, item)` holds for every list in `others`. */
  predicate InAll(H: Heap, others: seq<Value>, item: Value) {
    forall j :: 0 <= j < |others| ==> ContainsStrict(ElemsOf(H, others[j]), item)
  }

  /**
   * The loop of `intersection` over the candidates `items`, checked against
   * the lists `others`: a candidate is kept when no `===` one was kept
   * before and every other list contains it.
   */
  function Intersect(H: Heap, items: seq<Value>, others: seq<Value>, n: nat): seq<Value>
    requires n <= |items|
  {
    if n == 0 then []
    else
      var prev := Intersect(H, items, others, n - 1);
      var item := items[n - 1];
      if !ContainsStrict(prev, item) && InAll(H, others, item) then prev + [item] else prev
  }

  /** The loop body shared by both versions: test one candidate against the other lists. */
  method CheckCandidate(H: Heap, args: seq<Value>, item: Value) returns (keep: bool)
    requires |args| > 0
    ensures keep == InAll(H, args[1..], item)
  {
    var j := 1;
    while j < |args|
      invariant 1 <= j <= |args|
      invariant forall m :: 1 <= m < j ==> ContainsStrict(ElemsOf(H, args[m]), item)
    {
      var found := ContainsValue(ElemsOf(H, args[j]), item);
      if !found {
        break;
      }
      j := j + 1;
    }
    keep := j == |args|;
    if keep {
      forall m | 0 <= m < |args| - 1
        ensures ContainsStrict(ElemsOf(H, args[1..][m]), item)
      {
        assert args[1..][m] == args[m + 1];
      }
    } else {
      assert !ContainsStrict(ElemsOf(H, args[1..][j - 1]), item);
    }
  }

  /** `contains(list, value)` on dynamic values: a linear `===` search. */
  method ContainsValue(list: seq<Value>, v: Value) returns (r: bool)
    ensures r == ContainsStrict(list, v)
  {
    for i := 0 to |list|
      invariant forall k :: 0 <= k < i ==> !StrictEquals(list[k], v)
    {
      if StrictEquals(list[i], v) {
        return true;
      }
    }
    return false;
  }

  /**
   * `intersection(...arrays)` AS WRITTEN at underscore.ts:656-666: the loop
   * runs over `arrays`, the argument list itself, so the candidates are the
   * argument arrays rather than the elements of the first one.
   */
  method IntersectionAsWritten(H: Heap, arrays: seq<Value>) returns (result: seq<Value>)
    ensures |arrays| == 0 ==> result == []
    ensures |arrays| > 0 ==> result == Intersect(H, arrays, arrays[1..], |arrays|)
  {
    result := [];
    if |arrays| == 0 {
      return;
    }
    for i := 0 to |arrays|
      invariant result == Intersect(H, arrays, arrays[1..], i)
    {
      var item := arrays[i];
      var seen := ContainsValue(result, item);
      if seen {
        continue;
      }
      var keep := CheckCandidate(H, arrays, item);
      if keep {
        result := result + [item];
      }
    }
  }

  /**
   * `intersection(array, ...others)` as it is meant to be: the elements of the
   * first array, without `===` repeats and in order, that every other argument
   * contains; `[]` when there is no first array.
   */
  method Intersection(H: Heap, arrays: seq<Value>) returns (result: seq<Value>)
    ensures |arrays| == 0 || IsNullish(arrays[0]) ==> result == []
    ensures |arrays| > 0 && !IsNullish(arrays[0]) ==>
      result == Intersect(H, ElemsOf(H, arrays[0]), arrays[1..], |ElemsOf(H, arrays[0])|)
  {
    result := [];
    if |arrays| == 0 || IsNullish(arrays[0]) {
      return;
    }
    var first := ElemsOf(H, arrays[0]);
    for i := 0 to |first|
      invariant result == Intersect(H, first, arrays[1..], i)
    {
      var item := first[i];
      var seen := ContainsValue(result, item);
      if seen {
        continue;
      }
      var keep := CheckCandidate(H, arrays, item);
      if keep {
        result := result + [item];
      }
    }
  }

  /** What the corrected loop keeps is shared by every list and comes from the candidates. */
  lemma {:induction false} IntersectMembers(H: Heap, items: seq<Value>, others: seq<Value>, n: nat, x: Value)
    requires n <= |items|
    ensures x in Intersect(H, items, others, n) ==> x in items[..n] && InAll(H, others, x)
  {
    if n > 0 {
      IntersectMembers(H, items, others, n - 1, x);
      assert items[..n] == items[..n - 1] + [items[n - 1]];
    }
  }

  /** Every candidate all lists share (other than NaN, which `===` nothing) is `===` to a kept element. */
  lemma {:induction false} IntersectComplete(H: Heap, items: seq<Value>, others: seq<Value>, n: nat, i: nat)
    requires i < n <= |items|
    requires InAll(H, others, items[i])
    requires StrictEquals(items[i], items[i])
    ensures ContainsStrict(Intersect(H, items, others, n), items[i])
  {
    var prev := Intersect(H, items, others, n - 1);
    var r := Intersect(H, items, others, n);
    assert r == prev || r == prev + [items[n - 1]];
    if i < n - 1 {
      IntersectComplete(H, items, others, n - 1, i);
    } else if !ContainsStrict(prev, items[i]) {
      assert r[|prev|] == items[i];
    }
    if ContainsStrict(prev, items[i]) {
      var j :| 0 <= j < |prev| && StrictEquals(prev[j], items[i]);
      assert r[j] == prev[j];
    }
  }

  /**
   * The discrepancy: for `intersection([1, 2], [2, 3])` the ported loop
   * returns `[]`, while the intended function returns `[2]`.
   */
  lemma IntersectionAsWrittenLosesCommonElements()
    ensures var H: Heap := map[0 := ArrayObj([Num(Int(1)), Num(Int(2))], None), 1 := ArrayObj([Num(Int(2)), Num(Int(3))], None)];
      var arrays := [Ref(0), Ref(1)];
      Intersect(H, arrays, arrays[1..], |arrays|) == [] &&
      Intersect(H, ElemsOf(H, arrays[0]), arrays[1..], |ElemsOf(H, arrays[0])|) == [Num(Int(2))]
  {
    var H: Heap := map[0 := ArrayObj([Num(Int(1)), Num(Int(2))], None), 1 := ArrayObj([Num(Int(2)), Num(Int(3))], None)];
    var arrays := [Ref(0), Ref(1)];
    var others := arrays[1..];
    var items := [Num(Int(1)), Num(Int(2))];
    assert others == [Ref(1)];
    assert ElemsOf(H, arrays[0]) == items;
    assert ElemsOf(H, others[0]) == [Num(Int(2)), Num(Int(3))];
    assert !ContainsStrict(ElemsOf(H, others[0]), Ref(0));
    assert !ContainsStrict(ElemsOf(H, others[0]), Ref(1));
    assert !ContainsStrict(ElemsOf(H, others[0]), Num(Int(1)));
    assert StrictEquals(ElemsOf(H, others[0])[0], Num(Int(2)));
    assert Intersect(H, arrays, others, 1) == [];
    assert Intersect(H, arrays, others, 2) == [];
    assert Intersect(H, items, others, 1) == [];
    assert InAll(H, others, Num(Int(2)));
    assert Intersect(H, items, others, 2) == [Num(Int(2))];
  }

  // ---------------------------------------------------------------------------
  // object

  /**
   * `object(list, values)`: `result[list[i]] = values[i]` for every i in
   * order (undefined past the end of `values`); `{}` on null.
   */
  method ObjectFromLists(list: Option<seq<string>>, values: seq<Value>) returns (result: map<string, Value>)
    ensures list.None? ==> result == map[]
    ensures list.Some? ==> forall k :: k in result <==> k in list.value
    ensures list.Some? ==> forall i :: 0 <= i < |list.value| && (forall j :: i < j < |list.value| ==> list.value[j] != list.value[i]) ==>
      result[list.value[i]] == if i < |values| then values[i] else Undefined
  {
    result := map[];
    if list.None? {
      return;
    }
    var keys := list.value;
    for i := 0 to |keys|
      invariant forall k :: k in result <==> exists j :: 0 <= j < i && keys[j] == k
      invariant forall j :: 0 <= j < i && (forall m :: j < m < i ==> keys[m] != keys[j]) ==>
        result[keys[j]] == if j < |values| then values[j] else Undefined
    {
      result := result[keys[i] := if i < |values| then values[i] else Undefined];
    }
  }

  /** `object(pairs)`: `result[pair[0]] = pair[1]` for every pair in order; the last pair for a key wins. */
  method ObjectFromPairs(list: Option<seq<(string, Value)>>) returns (result: map<string, Value>)
    ensures list.None? ==> result == map[]
    ensures list.Some? ==> forall k :: k in result <==> exists i :: 0 <= i < |list.value| && list.value[i].0 == k
    ensures list.Some? ==> forall i :: 0 <= i < |list.value| && (forall j :: i < j < |list.value| ==> list.value[j].0 != list.value[i].0) ==>
      result[list.value[i].0] == list.value[i].1
  {
    result := map[];
    if list.None? {
      return;
    }
    var pairs := list.value;
    for i := 0 to |pairs|
      invariant forall k :: k in result <==> exists j :: 0 <= j < i && pairs[j].0 == k
      invariant forall j :: 0 <= j < i && (forall m :: j < m < i ==> pairs[m].0 != pairs[j].0) ==>
        result[pairs[j].0] == pairs[j].1
    {
      result := result[pairs[i].0 := pairs[i].1];
    }
  }

  // ---------------------------------------------------------------------------
  // range

  /** Division rounding towards -Infinity (`Math.floor(a / b)`), for b != 0. */
  function FloorDiv(a: int, b: int): int
    requires b != 0
  {
    if b > 0 then a / b else (-a) / (-b)
  }

  /** `Math.ceil(a / b)`, for b != 0. */
  function CeilDiv(a: int, b: int): int
    requires b != 0
  {
    -FloorDiv(-a, b)
  }

  /** The ceiling is the least multiple count reaching `a`. */
  lemma CeilDivBounds(a: int, b: int)
    requires b != 0
    ensures b > 0 ==> CeilDiv(a, b) * b >= a && (CeilDiv(a, b) - 1) * b < a
    ensures b < 0 ==> CeilDiv(a, b) * b <= a && (CeilDiv(a, b) - 1) * b > a
  {
    var q := CeilDiv(a, b);
    if b > 0 {
      var f := (-a) / b;
      assert -a == f * b + (-a) % b;
      assert q == -f;
      assert q * b == -(f * b);
      assert (q - 1) * b == q * b - b;
    } else {
      var f := a / (-b);
      assert a == f * (-b) + a % (-b);
      assert q == -f;
      assert q * b == f * (-b);
      assert (q - 1) * b == q * b - b;
    }
  }

  /**
   * `range(start, stop, step)`: with one argument it counts from 0 up to it;
   * a missing or zero step is 1; the length is `max(ceil((stop - start) / step), 0)`
   * and the i-th entry is `start + i * step`.
   */
  method Range(start: int, stop: Option<int>, step: Option<int>) returns (range: seq<int>)
    ensures var lo, hi := if stop.None? then 0 else start, if stop.None? then start else stop.value;
      var st := if step.None? || step.value == 0 then 1 else step.value;
      var n := CeilDiv(hi - lo, st);
      |range| == (if n < 0 then 0 else n) &&
      (forall i :: 0 <= i < |range| ==> range[i] == lo + i * st)
  {
    var lo, hi := start, 0;
    if stop.None? {
      lo, hi := 0, start;
    } else {
      hi := stop.value;
    }
    var st := if step.None? || step.value == 0 then 1 else step.value;
    var n := CeilDiv(hi - lo, st);
    var length := if n < 0 then 0 else n;
    range := [];
    var idx := 0;
    var current := lo;
    while idx < length
      invariant 0 <= idx <= length && |range| == idx
      invariant current == lo + idx * st
      invariant forall i :: 0 <= i < idx ==> range[i] == lo + i * st
    {
      range := range + [current];
      assert (idx + 1) * st == idx * st + st;
      idx := idx + 1;
      current := current + st;
    }
  }

  /** Every entry of `range` lies on the way from start to stop, and the next step would reach or pass stop. */
  lemma RangeBounds(lo: int, hi: int, st: int, i: int)
    requires st != 0
    requires 0 <= i < CeilDiv(hi - lo, st)
    ensures st > 0 ==> lo <= lo + i * st < hi
    ensures st < 0 ==> hi < lo + i * st <= lo
    ensures st > 0 ==> lo + CeilDiv(hi - lo, st) * st >= hi
    ensures st < 0 ==> lo + CeilDiv(hi - lo, st) * st <= hi
  {
    var q := CeilDiv(hi - lo, st);
    CeilDivBounds(hi - lo, st);
    if st > 0 {
      assert i * st <= (q - 1) * st by {
        MulMonotone(i, q - 1, st);
      }
    } else {
      assert i * (-st) <= (q - 1) * (-st) by {
        MulMonotone(i, q - 1, -st);
      }
    }
  }

  lemma MulMonotone(x: int, y: int, k: int)
    requires x <= y && k > 0
    ensures x * k <= y * k
  {
    assert y * k - x * k == (y - x) * k;
  }
}
