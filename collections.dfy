/**
 * The iteration engine of underscore.ts and the collection functions built on
 * it: `each`, `map`, `reduce`, `reduceRight`, `find`, `filter`, `reject`,
 * `every`, `some` and `partition`.
 *
 * A list (`_.List<T>`) that the code tests against `null` is an
 * `Option<seq<T>>`. Callbacks are pure function values; in the source each of
 * these functions passes a closure to `each`, and here that closure's body is
 * the body of the method's loop, which walks the indices as `each` does.
 * Besides its result, a method that can stop early returns `calls`, the number
 * of times it invoked the callback.
 */
module Collections {
  import opened Wrappers
  import opened Functions

  /** What an `each` callback returns: the `breaker` sentinel, or anything else. */
  datatype Signal = Continue | Break

  /** The callback of `reduce`/`reduceRight`: (memo, value, index, list) -> memo. */
  type MemoIterator<!T, !R> = (R, T, nat, seq<T>) -> R

  /** The message of the error `reduce` throws. */
  const ReduceError: string := "Reduce of empty array with no initial value"

  /**
   * The first index at or after `from` whose element passes `pred`, or `|s|`
   * when none does.
   */
  function FirstWhere<T>(s: seq<T>, pred: ListPredicate<T>, from: nat): (k: nat)
    requires from <= |s|
    ensures from <= k <= |s|
    ensures k < |s| ==> pred(s[k], k, s)
    ensures forall j :: from <= j < k ==> !pred(s[j], j, s)
    decreases |s| - from
  {
    if from == |s| then |s|
    else if pred(s[from], from, s) then from
    else FirstWhere(s, pred, from + 1)
  }

  /**
   * How many callback invocations a loop makes that stops right after the first
   * element passing `stop`: one more than that index, or all of them.
   */
  function CallsUntil<T>(s: seq<T>, stop: ListPredicate<T>): nat {
    var k := FirstWhere(s, stop, 0);
    if k < |s| then k + 1 else |s|
  }

  /** The predicate "the callback returned `breaker`". */
  function Breaks<T>(callback: (T, nat, seq<T>) -> Signal): ListPredicate<T> {
    (v: T, i: nat, l: seq<T>) => callback(v, i, l) == Break
  }

  /**
   * `each(obj, callback)`: calls the callback on indices 0, 1, ... in order
   * until it returns `breaker`, and returns `obj` itself; null is returned at once.
   */
  method Each<T>(obj: Option<seq<T>>, callback: (T, nat, seq<T>) -> Signal) returns (r: Option<seq<T>>, calls: nat)
    ensures r == obj
    ensures obj.None? ==> calls == 0
    ensures obj.Some? ==> calls == CallsUntil(obj.value, Breaks(callback))
    ensures obj.Some? ==> calls <= |obj.value|
    ensures obj.Some? ==> forall j :: 0 <= j < calls - 1 ==> callback(obj.value[j], j, obj.value) == Continue
    ensures obj.Some? && calls < |obj.value| ==>
      calls > 0 && callback(obj.value[calls - 1], calls - 1, obj.value) == Break
  {
    r := obj;
    calls := 0;
    if obj.None? {
      return;
    }
    var s := obj.value;
    var i := 0;
    while i < |s|
      invariant 0 <= i <= |s| && calls == i
      invariant forall j :: 0 <= j < i ==> callback(s[j], j, s) == Continue
    {
      calls := calls + 1;
      if callback(s[i], i, s) == Break {
        assert FirstWhere(s, Breaks(callback), 0) == i by {
          assert forall j :: 0 <= j < i ==> !Breaks(callback)(s[j], j, s);
          FirstWhereIsFirst(s, Breaks(callback), i);
        }
        return;
      }
      i := i + 1;
    }
    assert FirstWhere(s, Breaks(callback), 0) == |s| by {
      assert forall j :: 0 <= j < |s| ==> !Breaks(callback)(s[j], j, s);
    }
  }

  /** An index that passes, with nothing passing before it, is what FirstWhere finds. */
  lemma FirstWhereIsFirst<T>(s: seq<T>, pred: ListPredicate<T>, k: nat)
    requires k < |s| && pred(s[k], k, s)
    requires forall j :: 0 <= j < k ==> !pred(s[j], j, s)
    ensures FirstWhere(s, pred, 0) == k
  {
  }

  /**
   * `map(obj, callback)`: the list of the callback's results, index by index;
   * the empty list on null.
   */
  method Map<T, R>(obj: Option<seq<T>>, callback: (T, nat, seq<T>) -> R) returns (results: seq<R>)
    ensures obj.None? ==> results == []
    ensures obj.Some? ==> |results| == |obj.value|
    ensures obj.Some? ==> forall i :: 0 <= i < |obj.value| ==> results[i] == callback(obj.value[i], i, obj.value)
  {
    results := [];
    if obj.None? {
      return;
    }
    var s := obj.value;
    for i := 0 to |s|
      invariant |results| == i
      invariant forall j :: 0 <= j < i ==> results[j] == callback(s[j], j, s)
    {
      results := results + [callback(s[i], i, s)];
    }
  }

  // ---------------------------------------------------------------------------
  // reduce and reduceRight

  /** The left fold of indices `lo` .. `hi - 1`, in increasing order, starting from `acc`. */
  function FoldLeft<T, R>(f: MemoIterator<T, R>, acc: R, s: seq<T>, lo: nat, hi: nat): R
    requires lo <= hi <= |s|
    decreases hi
  {
    if lo == hi then acc else f(FoldLeft(f, acc, s, lo, hi - 1), s[hi - 1], hi - 1, s)
  }

  /** The fold of indices `hi - 1` down to `lo`, in decreasing order, starting from `acc`. */
  function FoldRight<T, R>(f: MemoIterator<T, R>, acc: R, s: seq<T>, lo: nat, hi: nat): R
    requires lo <= hi <= |s|
    decreases hi - lo
  {
    if lo == hi then acc else f(FoldRight(f, acc, s, lo + 1, hi), s[lo], lo, s)
  }

  /**
   * `reduce(obj, callback, memo)`: null is the empty list. With a seed it is the
   * left fold from the seed; without one the first element is the seed and the
   * fold starts at index 1; without a seed on an empty list it throws.
   */
  method Reduce<T>(obj: Option<seq<T>>, callback: MemoIterator<T, T>, memo: Option<T>) returns (r: Result<T>)
    ensures var s := if obj.None? then [] else obj.value;
      && (memo.Some? ==> r == Ok(FoldLeft(callback, memo.value, s, 0, |s|)))
      && (memo.None? && |s| > 0 ==> r == Ok(FoldLeft(callback, s[0], s, 1, |s|)))
      && (memo.None? && |s| == 0 ==> r == Err(TypeError(ReduceError)))
  {
    var s := if obj.None? then [] else obj.value;
    var initial := memo.Some?;
    var acc := memo;
    for i := 0 to |s|
      invariant initial <==> acc.Some?
      invariant memo.Some? ==> acc == Some(FoldLeft(callback, memo.value, s, 0, i))
      invariant memo.None? ==> (i == 0 <==> !initial)
      invariant memo.None? && i > 0 ==> acc == Some(FoldLeft(callback, s[0], s, 1, i))
    {
      if !initial {
        acc := Some(s[i]);
        initial := true;
      } else {
        acc := Some(callback(acc.value, s[i], i, s));
      }
    }
    if !initial {
      return Err(TypeError(ReduceError));
    }
    r := Ok(acc.value);
  }

  /**
   * `reduceRight(obj, callback, memo)`: the mirror of `reduce`, visiting
   * indices from the last down to 0; without a seed the last element is the seed.
   */
  method ReduceRight<T>(obj: Option<seq<T>>, callback: MemoIterator<T, T>, memo: Option<T>) returns (r: Result<T>)
    ensures var s := if obj.None? then [] else obj.value;
      && (memo.Some? ==> r == Ok(FoldRight(callback, memo.value, s, 0, |s|)))
      && (memo.None? && |s| > 0 ==> r == Ok(FoldRight(callback, s[|s| - 1], s, 0, |s| - 1)))
      && (memo.None? && |s| == 0 ==> r == Err(TypeError(ReduceError)))
  {
    var s := if obj.None? then [] else obj.value;
    var initial := memo.Some?;
    var acc := memo;
    var length := |s|;
    while length > 0
      invariant 0 <= length <= |s|
      invariant initial <==> acc.Some?
      invariant memo.Some? ==> acc == Some(FoldRight(callback, memo.value, s, length, |s|))
      invariant memo.None? ==> (length == |s| <==> !initial)
      invariant memo.None? && length < |s| ==> acc == Some(FoldRight(callback, s[|s| - 1], s, length, |s| - 1))
    {
      length := length - 1;
      var index := length;
      if !initial {
        acc := Some(s[index]);
        initial := true;
      } else {
        acc := Some(callback(acc.value, s[index], index, s));
      }
    }
    if !initial {
      return Err(TypeError(ReduceError));
    }
    r := Ok(acc.value);
  }

  /** A memo callback that looks only at the memo and the value. */
  function Oblivious<T, R>(h: (R, T) -> R): MemoIterator<T, R> {
    (m: R, v: T, i: nat, l: seq<T>) => h(m, v)
  }

  function Reverse<T>(s: seq<T>): (r: seq<T>)
    ensures |r| == |s| && forall i :: 0 <= i < |s| ==> r[i] == s[|s| - 1 - i]
  {
    seq(|s|, i requires 0 <= i < |s| => s[|s| - 1 - i])
  }

  /**
   * `reduceRight` is `reduce` over the reversed list: for a callback that does
   * not look at the index or the list, folding indices hi-1 .. lo from the right
   * is folding the matching stretch of the reversed list from the left.
   */
  lemma {:induction false} FoldRightIsFoldLeftOfReverse<T, R>(h: (R, T) -> R, acc: R, s: seq<T>, lo: nat, hi: nat)
    requires lo <= hi <= |s|
    ensures FoldRight(Oblivious(h), acc, s, lo, hi) == FoldLeft(Oblivious(h), acc, Reverse(s), |s| - hi, |s| - lo)
    decreases hi - lo
  {
    if lo < hi {
      FoldRightIsFoldLeftOfReverse(h, acc, s, lo + 1, hi);
      assert Reverse(s)[|s| - lo - 1] == s[lo];
    }
  }

  // ---------------------------------------------------------------------------
  // filter, reject, partition

  /** The elements among the first `n` that pass `pred`, in input order. */
  function Select<T>(s: seq<T>, pred: ListPredicate<T>, n: nat): seq<T>
    requires n <= |s|
  {
    if n == 0 then [] else Select(s, pred, n - 1) + (if pred(s[n - 1], n - 1, s) then [s[n - 1]] else [])
  }

  /** An element is selected exactly when it sits at some position whose element passes. */
  lemma {:induction false} SelectMembers<T>(s: seq<T>, pred: ListPredicate<T>, n: nat, x: T)
    requires n <= |s|
    ensures x in Select(s, pred, n) <==> exists i :: 0 <= i < n && s[i] == x && pred(s[i], i, s)
  {
    if n > 0 {
      SelectMembers(s, pred, n - 1, x);
    }
  }

  /** The selected and the rejected elements together are the input, counted with multiplicity. */
  lemma SelectPartition<T>(s: seq<T>, pred: ListPredicate<T>, n: nat)
    requires n <= |s|
    ensures multiset(Select(s, pred, n)) + multiset(Select(s, Negate(pred), n)) == multiset(s[..n])
  {
    forall i | 0 <= i < n
      ensures Negate(pred)(s[i], i, s) == !pred(s[i], i, s)
    {
      NegateAnswers(pred, s[i], i, s);
    }
    SelectComplement(s, pred, Negate(pred), n);
  }

  /** Appending `x` to either part of a split appends it to the whole. */
  lemma MultisetStep<T>(a: seq<T>, b: seq<T>, c: seq<T>, x: T)
    requires multiset(a) + multiset(b) == multiset(c)
    ensures multiset(a + [x]) + multiset(b) == multiset(c + [x])
    ensures multiset(a) + multiset(b + [x]) == multiset(c + [x])
  {
  }

  /** Two predicates that disagree on every element split the input between them. */
  lemma {:induction false} SelectComplement<T>(s: seq<T>, p: ListPredicate<T>, q: ListPredicate<T>, n: nat)
    requires n <= |s|
    requires forall i :: 0 <= i < n ==> q(s[i], i, s) == !p(s[i], i, s)
    ensures multiset(Select(s, p, n)) + multiset(Select(s, q, n)) == multiset(s[..n])
  {
    if n > 0 {
      SelectComplement(s, p, q, n - 1);
      var x := s[n - 1];
      assert s[..n] == s[..n - 1] + [x];
      MultisetStep(Select(s, p, n - 1), Select(s, q, n - 1), s[..n - 1], x);
      if p(x, n - 1, s) {
        assert Select(s, p, n) == Select(s, p, n - 1) + [x];
        assert Select(s, q, n) == Select(s, q, n - 1);
      } else {
        assert Select(s, p, n) == Select(s, p, n - 1);
        assert Select(s, q, n) == Select(s, q, n - 1) + [x];
      }
    }
  }

  /** When every element passes, all of them are selected, in order. */
  lemma {:induction false} SelectAll<T>(s: seq<T>, pred: ListPredicate<T>, n: nat)
    requires n <= |s|
    requires forall i :: 0 <= i < n ==> pred(s[i], i, s)
    ensures Select(s, pred, n) == s[..n]
  {
    if n > 0 {
      SelectAll(s, pred, n - 1);
      assert s[..n] == s[..n - 1] + [s[n - 1]];
    }
  }

  /** `filter(list, predicate)`: the elements passing the predicate, in order; `[]` on null. */
  method Filter<T>(list: Option<seq<T>>, pred: ListPredicate<T>) returns (results: seq<T>)
    ensures list.None? ==> results == []
    ensures list.Some? ==> results == Select(list.value, pred, |list.value|)
  {
    results := [];
    if list.None? {
      return;
    }
    var s := list.value;
    for i := 0 to |s|
      invariant results == Select(s, pred, i)
    {
      if pred(s[i], i, s) {
        results := results + [s[i]];
      }
    }
  }

  /** `reject(list, predicate)`: `filter` with the negated predicate, so the elements failing it. */
  method Reject<T>(list: Option<seq<T>>, pred: ListPredicate<T>) returns (results: seq<T>)
    ensures list.None? ==> results == []
    ensures list.Some? ==> results == Select(list.value, Negate(pred), |list.value|)
  {
    results := Filter(list, Negate(pred));
  }

  /**
   * Filtering and rejecting split the list: what `filter` keeps and what
   * `reject` keeps are, together, exactly the input elements.
   */
  lemma FilterRejectSplit<T>(s: seq<T>, pred: ListPredicate<T>)
    ensures multiset(Select(s, pred, |s|)) + multiset(Select(s, Negate(pred), |s|)) == multiset(s)
  {
    SelectPartition(s, pred, |s|);
    assert s[..|s|] == s;
  }

  /** `partition(array, predicate)`: the passing and the failing elements, each in order. */
  method Partition<T>(list: Option<seq<T>>, pred: ListPredicate<T>) returns (pass: seq<T>, fail: seq<T>)
    ensures list.None? ==> pass == [] && fail == []
    ensures list.Some? ==> pass == Select(list.value, pred, |list.value|)
    ensures list.Some? ==> fail == Select(list.value, Negate(pred), |list.value|)
    ensures list.Some? ==> multiset(pass) + multiset(fail) == multiset(list.value)
  {
    pass, fail := [], [];
    if list.None? {
      return;
    }
    var s := list.value;
    for i := 0 to |s|
      invariant pass == Select(s, pred, i)
      invariant fail == Select(s, Negate(pred), i)
    {
      NegateAnswers(pred, s[i], i, s);
      if pred(s[i], i, s) {
        pass := pass + [s[i]];
      } else {
        fail := fail + [s[i]];
      }
    }
    FilterRejectSplit(s, pred);
  }

  // ---------------------------------------------------------------------------
  // every, some, find

  /**
   * `every(list, predicate)`: true on null; otherwise true exactly when every
   * element passes, and the predicate is invoked up to the first failing element.
   */
  method Every<T>(list: Option<seq<T>>, pred: ListPredicate<T>) returns (result: bool, calls: nat)
    ensures list.None? ==> result && calls == 0
    ensures list.Some? ==> var s := list.value;
      (result <==> forall i :: 0 <= i < |s| ==> pred(s[i], i, s)) &&
      calls == CallsUntil(s, Negate(pred))
  {
    result := true;
    calls := 0;
    if list.None? {
      return;
    }
    var s := list.value;
    var i := 0;
    while i < |s|
      invariant 0 <= i <= |s| && calls == i && result
      invariant forall j :: 0 <= j < i ==> pred(s[j], j, s)
    {
      result := pred(s[i], i, s);
      calls := calls + 1;
      if !result {
        assert FirstWhere(s, Negate(pred), 0) == i by {
          forall j | 0 <= j < i
            ensures !Negate(pred)(s[j], j, s)
          {
            NegateAnswers(pred, s[j], j, s);
          }
          FirstWhereIsFirst(s, Negate(pred), i);
        }
        return;
      }
      i := i + 1;
    }
    assert FirstWhere(s, Negate(pred), 0) == |s| by {
      var k := FirstWhere(s, Negate(pred), 0);
      if k < |s| {
        NegateAnswers(pred, s[k], k, s);
      }
    }
  }

  /**
   * `some(list, predicate)` (alias `any`): false on null; otherwise true exactly when some
   * element passes, and the predicate is invoked up to the first passing element.
   */
  method Any<T>(list: Option<seq<T>>, pred: ListPredicate<T>) returns (result: bool, calls: nat)
    ensures list.None? ==> !result && calls == 0
    ensures list.Some? ==> var s := list.value;
      (result <==> exists i :: 0 <= i < |s| && pred(s[i], i, s)) &&
      calls == CallsUntil(s, pred)
  {
    result := false;
    calls := 0;
    if list.None? {
      return;
    }
    var s := list.value;
    var i := 0;
    while i < |s|
      invariant 0 <= i <= |s| && calls == i && !result
      invariant forall j :: 0 <= j < i ==> !pred(s[j], j, s)
    {
      result := pred(s[i], i, s);
      calls := calls + 1;
      if result {
        FirstWhereIsFirst(s, pred, i);
        return;
      }
      i := i + 1;
    }
  }

  /**
   * `find(list, predicate)`: through `some`, the first element passing the
   * predicate, or undefined; the predicate is invoked up to that element.
   */
  method Find<T>(list: Option<seq<T>>, pred: ListPredicate<T>) returns (result: Option<T>, calls: nat)
    ensures list.None? ==> result.None? && calls == 0
    ensures list.Some? ==> var s, k := list.value, FirstWhere(list.value, pred, 0);
      result == (if k < |s| then Some(s[k]) else None) && calls == CallsUntil(s, pred)
  {
    result := None;
    calls := 0;
    if list.None? {
      return;
    }
    var s := list.value;
    var i := 0;
    while i < |s|
      invariant 0 <= i <= |s| && calls == i
      invariant forall j :: 0 <= j < i ==> !pred(s[j], j, s)
    {
      calls := calls + 1;
      if pred(s[i], i, s) {
        FirstWhereIsFirst(s, pred, i);
        result := Some(s[i]);
        return;
      }
      i := i + 1;
    }
  }

  /** `find` answers an element `filter` keeps: the first one. */
  lemma FindIsFirstFiltered<T>(s: seq<T>, pred: ListPredicate<T>)
    ensures var k := FirstWhere(s, pred, 0);
      (k < |s| <==> Select(s, pred, |s|) != []) &&
      (k < |s| ==> Select(s, pred, |s|)[0] == s[k])
  {
    var k := FirstWhere(s, pred, 0);
    if k < |s| {
      SelectPrefixNone(s, pred, k);
      SelectFrom(s, pred, k + 1, |s|);
    } else {
      SelectPrefixNone(s, pred, |s|);
    }
  }

  /** Nothing is selected from a prefix in which nothing passes. */
  lemma {:induction false} SelectPrefixNone<T>(s: seq<T>, pred: ListPredicate<T>, n: nat)
    requires n <= |s|
    requires forall j :: 0 <= j < n ==> !pred(s[j], j, s)
    ensures Select(s, pred, n) == []
  {
    if n > 0 {
      SelectPrefixNone(s, pred, n - 1);
    }
  }

  /** Selecting more elements only extends the selection. */
  lemma {:induction false} SelectFrom<T>(s: seq<T>, pred: ListPredicate<T>, m: nat, n: nat)
    requires m <= n <= |s|
    ensures Select(s, pred, m) <= Select(s, pred, n)
    decreases n - m
  {
    if m < n {
      SelectFrom(s, pred, m, n - 1);
    }
  }
}
