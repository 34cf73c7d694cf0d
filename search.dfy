/**
 * Searching a list in underscore.ts: `sortedIndex` (binary search), `indexOf`,
 * `lastIndexOf` and `contains`, which is `indexOf(...) >= 0`.
 *
 * Element identity `===` is Dafny equality on the element type.
 */
module Search {
  import opened Wrappers

  /** The list is ascending under the scoring function. */
  ghost predicate AscendingBy<T>(list: seq<T>, score: T -> int) {
    forall i, j :: 0 <= i < j < |list| ==> score(list[i]) <= score(list[j])
  }

  /**
   * `sortedIndex(list, value, iterator)`: the binary search. Whatever the input,
   * the element just before the answer scores below the key and the element at
   * the answer scores at least the key; on an ascending list this makes it the
   * lowest insertion point that keeps the order.
   * `(low + high) >>> 1` is the floor of the mean for lengths below 2^31.
   */
  method SortedIndex<T>(list: seq<T>, value: T, score: T -> int) returns (low: nat)
    ensures low <= |list|
    ensures low > 0 ==> score(list[low - 1]) < score(value)
    ensures low < |list| ==> score(list[low]) >= score(value)
    ensures AscendingBy(list, score) ==>
      (forall i :: 0 <= i < low ==> score(list[i]) < score(value)) &&
      (forall i :: low <= i < |list| ==> score(list[i]) >= score(value))
  {
    var processedValue := score(value);
    low := 0;
    var high := |list|;
    while low < high
      invariant 0 <= low <= high <= |list|
      invariant low > 0 ==> score(list[low - 1]) < processedValue
      invariant high < |list| ==> score(list[high]) >= processedValue
    {
      var mid := (low + high) / 2;
      if score(list[mid]) < processedValue {
        low := mid + 1;
      } else {
        high := mid;
      }
    }
  }

  /** The third argument of `indexOf`: absent/falsy, a start index, or `isSorted = true`. */
  datatype IndexArg = NoArg | StartFrom(n: int) | IsSorted

  /** Where the linear scan of `indexOf` starts (`arg < 0` counts from the end). */
  function StartIndex(length: nat, arg: IndexArg): (i: nat)
    requires !arg.IsSorted?
    ensures arg.StartFrom? && arg.n >= 0 ==> i == arg.n
    ensures arg.StartFrom? && arg.n < 0 && length + arg.n >= 0 ==> i == length + arg.n
    ensures arg.StartFrom? && length + arg.n < 0 ==> i == 0
    ensures arg.NoArg? ==> i == 0
  {
    match arg
    case NoArg => 0
    case StartFrom(n) => if n < 0 then (if length + n < 0 then 0 else length + n) else n
  }

  /**
   * `indexOf(array, value, arg)` with no argument or a start index: the first
   * position at or after the start holding `value`, or -1; null gives -1.
   */
  method IndexOf<T(==)>(list: Option<seq<T>>, value: T, arg: IndexArg) returns (r: int)
    requires !arg.IsSorted?
    ensures list.None? ==> r == -1
    ensures list.Some? ==>
      var s, start := list.value, StartIndex(|list.value|, arg);
      (r == -1 && (forall k :: start <= k < |s| ==> s[k] != value)) ||
      (start <= r < |s| && s[r] == value && forall k :: start <= k < r ==> s[k] != value)
  {
    if list.None? {
      return -1;
    }
    var s := list.value;
    var i := StartIndex(|s|, arg);
    ghost var start := i;
    while i < |s|
      invariant start <= i
      invariant forall k :: start <= k < i && k < |s| ==> s[k] != value
    {
      if s[i] == value {
        return i;
      }
      i := i + 1;
    }
    r := -1;
  }

  /**
   * `indexOf(array, value, true)` on a sorted list of numbers: a binary search
   * (`sortedIndex`) followed by one comparison. On an ascending list it finds the
   * first occurrence, and -1 exactly when the value is absent.
   */
  method IndexOfSorted(list: Option<seq<int>>, value: int) returns (r: int)
    ensures list.None? ==> r == -1
    ensures list.Some? ==> r == -1 || (0 <= r < |list.value| && list.value[r] == value)
    ensures list.Some? && AscendingBy(list.value, x => x) ==>
      (r == -1 <==> value !in list.value) &&
      (r >= 0 ==> forall k :: 0 <= k < r ==> list.value[k] != value)
  {
    if list.None? {
      return -1;
    }
    var s := list.value;
    var i := SortedIndex(s, value, x => x);
    r := if i < |s| && s[i] == value then i else -1;
  }

  /**
   * The loop of `lastIndexOf` as written, after at most `fuel` turns:
   * `while (i--)` stops when the count is 0 before the decrement, and a
   * position outside the list reads undefined. `None` means the loop is still
   * running when the fuel is spent.
   */
  function LastIndexOfAsWritten<T(==)>(s: seq<T>, value: T, i: int, fuel: nat): (r: Option<int>)
    ensures r.Some? ==> r.value == -1 || (0 <= r.value < |s| && r.value < i && s[r.value] == value)
    decreases fuel
  {
    if fuel == 0 then None
    else if i == 0 then Some(-1)
    else if 0 <= i - 1 < |s| && s[i - 1] == value then Some(i - 1)
    else LastIndexOfAsWritten(s, value, i - 1, fuel - 1)
  }

  /** With a negative `from` the count goes down from below zero and never meets 0: the loop never ends. */
  lemma {:induction false} NegativeFromNeverStops<T>(s: seq<T>, value: T, from: int, fuel: nat)
    requires from < 0
    ensures LastIndexOfAsWritten(s, value, from, fuel) == None
    decreases fuel
  {
    if fuel > 0 {
      NegativeFromNeverStops(s, value, from - 1, fuel - 1);
    }
  }

  /** With a `from` of at least 0 the loop as written ends within `from + 1` turns. */
  lemma {:induction false} NonNegativeFromStops<T>(s: seq<T>, value: T, from: nat, fuel: nat)
    requires fuel > from
    ensures LastIndexOfAsWritten(s, value, from, fuel).Some?
    decreases from
  {
    if from > 0 {
      NonNegativeFromStops(s, value, from - 1, fuel - 1);
    }
  }

  /**
   * Where the downward scan of `lastIndexOf` starts: the length when `from` is
   * absent, `from` itself when it is at least 0, and for a negative `from` the
   * position that many places back from the end, at least 0, as `indexOf`
   * resolves a negative start.
   */
  function LastStart(length: nat, from: Option<int>): (top: nat)
    ensures from.None? ==> top == length
    ensures from.Some? && from.value >= 0 ==> top == from.value
    ensures from.Some? && from.value < 0 ==> top <= length && (length + from.value >= 0 ==> top == length + from.value)
  {
    if from.None? then length
    else if from.value >= 0 then from.value
    else if length + from.value < 0 then 0
    else length + from.value
  }

  /**
   * `lastIndexOf(array, value, from)`: scans down from `LastStart(length, from) - 1`
   * and returns the first position holding `value`, or -1. Positions at or
   * beyond the length read undefined, which is never a value of the element type.
   */
  method LastIndexOf<T(==)>(list: Option<seq<T>>, value: T, from: Option<int>) returns (r: int)
    ensures list.None? ==> r == -1
    ensures list.Some? ==>
      var s, top := list.value, LastStart(|list.value|, from);
      (r == -1 && (forall k :: 0 <= k < top && k < |s| ==> s[k] != value)) ||
      (0 <= r < top && r < |s| && s[r] == value && forall k :: r < k < top && k < |s| ==> s[k] != value)
  {
    if list.None? {
      return -1;
    }
    var s := list.value;
    var i: int := LastStart(|s|, from);
    ghost var top := i;
    while i != 0
      invariant 0 <= i <= top
      invariant forall k :: i <= k < top && k < |s| ==> s[k] != value
    {
      i := i - 1;
      if i < |s| && s[i] == value {
        return i;
      }
    }
    r := -1;
  }

  /** `contains(obj, value)`: false on null, otherwise `indexOf(obj, value) >= 0`. */
  method Contains<T(==)>(obj: Option<seq<T>>, value: T) returns (r: bool)
    ensures r <==> obj.Some? && value in obj.value
  {
    if obj.None? {
      return false;
    }
    var i := IndexOf(obj, value, NoArg);
    r := i >= 0;
  }
}
