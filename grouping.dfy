/**
 * The aggregate "group by" operations of underscore.ts: the internal `group`
 * combinator and the three behaviours it is instantiated with, `groupBy`
 * (append to the bucket), `indexBy` (overwrite) and `countBy` (increment).
 *
 * The result object is a `map<string, V>`; the key the iterator computes is
 * the property name it becomes, so the iterator returns a string.
 */
module Grouping {
  import opened Wrappers
  import opened Functions
  import opened Collections

  /** The criterion callback: (value, index, list) -> the key the value goes under. */
  type KeyIterator<!T> = (T, nat, seq<T>) -> string

  /** A behaviour: how one value is recorded under its key in the result object. */
  type Behavior<!T, !V> = (map<string, V>, T, string) -> map<string, V>

  /** The result object after the behaviour has recorded the first `n` elements. */
  function GroupFold<T, V>(s: seq<T>, key: KeyIterator<T>, behavior: Behavior<T, V>, n: nat): map<string, V>
    requires n <= |s|
  {
    if n == 0 then map[] else behavior(GroupFold(s, key, behavior, n - 1), s[n - 1], key(s[n - 1], n - 1, s))
  }

  /**
   * `group(behavior)(obj, iterator)`: walks the list as `each` does, records
   * every value under its key, and returns the result object; `{}` on null.
   */
  method Group<T, V>(obj: Option<seq<T>>, key: KeyIterator<T>, behavior: Behavior<T, V>) returns (result: map<string, V>)
    ensures obj.None? ==> result == map[]
    ensures obj.Some? ==> result == GroupFold(obj.value, key, behavior, |obj.value|)
  {
    result := map[];
    if obj.None? {
      return;
    }
    var s := obj.value;
    for i := 0 to |s|
      invariant result == GroupFold(s, key, behavior, i)
    {
      var k := key(s[i], i, s);
      result := behavior(result, s[i], k);
    }
  }

  /** The `groupBy` behaviour: push onto the bucket if the key is present, else start one. */
  function AppendBehavior<T>(result: map<string, seq<T>>, value: T, key: string): map<string, seq<T>> {
    if key in result then result[key := result[key] + [value]] else result[key := [value]]
  }

  /** The `indexBy` behaviour: the value overwrites whatever the key held. */
  function OverwriteBehavior<T>(result: map<string, T>, value: T, key: string): map<string, T> {
    result[key := value]
  }

  /** The `countBy` behaviour: increment the key's count if present, else set it to 1. */
  function CountBehavior<T>(result: map<string, nat>, value: T, key: string): map<string, nat> {
    if key in result then result[key := result[key] + 1] else result[key := 1]
  }

  /** The predicate "this element's key is `k`". */
  function KeyIs<T>(key: KeyIterator<T>, k: string): ListPredicate<T> {
    (v: T, i: nat, l: seq<T>) => key(v, i, l) == k
  }

  /** The reference definition of a bucket: the elements among the first `n` whose key is `k`, in order. */
  function Bucket<T>(s: seq<T>, key: KeyIterator<T>, k: string, n: nat): seq<T>
    requires n <= |s|
  {
    Select(s, KeyIs(key, k), n)
  }

  /** One more element grows exactly its own key's bucket. */
  lemma BucketStep<T>(s: seq<T>, key: KeyIterator<T>, k: string, n: nat)
    requires 0 < n <= |s|
    ensures key(s[n - 1], n - 1, s) == k ==> Bucket(s, key, k, n) == Bucket(s, key, k, n - 1) + [s[n - 1]]
    ensures key(s[n - 1], n - 1, s) != k ==> Bucket(s, key, k, n) == Bucket(s, key, k, n - 1)
  {
  }

  /** `groupBy`: a key is present exactly when its bucket is non-empty, and it holds the bucket. */
  lemma {:induction false} GroupByBuckets<T>(s: seq<T>, key: KeyIterator<T>, n: nat, k: string)
    requires n <= |s|
    ensures var r := GroupFold(s, key, AppendBehavior, n);
      (k in r <==> Bucket(s, key, k, n) != []) && (k in r ==> r[k] == Bucket(s, key, k, n))
  {
    if n > 0 {
      GroupByBuckets(s, key, n - 1, k);
      BucketStep(s, key, k, n);
    }
  }

  /** `countBy`: a key is present exactly when its bucket is non-empty, and it holds the bucket's size. */
  lemma {:induction false} CountByBuckets<T>(s: seq<T>, key: KeyIterator<T>, n: nat, k: string)
    requires n <= |s|
    ensures var r := GroupFold(s, key, CountBehavior, n);
      (k in r <==> Bucket(s, key, k, n) != []) && (k in r ==> r[k] == |Bucket(s, key, k, n)|)
  {
    if n > 0 {
      CountByBuckets(s, key, n - 1, k);
      BucketStep(s, key, k, n);
    }
  }

  /** `indexBy`: a key is present exactly when its bucket is non-empty, and it holds the bucket's last element. */
  lemma {:induction false} IndexByBuckets<T>(s: seq<T>, key: KeyIterator<T>, n: nat, k: string)
    requires n <= |s|
    ensures var r := GroupFold(s, key, OverwriteBehavior, n);
      var b := Bucket(s, key, k, n);
      (k in r <==> b != []) && (k in r ==> r[k] == b[|b| - 1])
  {
    if n > 0 {
      IndexByBuckets(s, key, n - 1, k);
      BucketStep(s, key, k, n);
    }
  }

  /** `groupBy(list, iterator)`: every key maps to the elements with that key, in input order. */
  method GroupBy<T>(list: Option<seq<T>>, key: KeyIterator<T>) returns (result: map<string, seq<T>>)
    ensures var s := if list.None? then [] else list.value;
      forall k :: (k in result <==> Bucket(s, key, k, |s|) != []) && (k in result ==> result[k] == Bucket(s, key, k, |s|))
  {
    result := Group(list, key, AppendBehavior);
    var s := if list.None? then [] else list.value;
    forall k: string
      ensures (k in result <==> Bucket(s, key, k, |s|) != []) && (k in result ==> result[k] == Bucket(s, key, k, |s|))
    {
      GroupByBuckets(s, key, |s|, k);
    }
  }

  /** `indexBy(list, iterator)`: every key maps to the last element with that key. */
  method IndexBy<T>(list: Option<seq<T>>, key: KeyIterator<T>) returns (result: map<string, T>)
    ensures var s := if list.None? then [] else list.value;
      forall k :: (k in result <==> Bucket(s, key, k, |s|) != []) &&
        (k in result ==> result[k] == Bucket(s, key, k, |s|)[|Bucket(s, key, k, |s|)| - 1])
  {
    result := Group(list, key, OverwriteBehavior);
    var s := if list.None? then [] else list.value;
    forall k: string
      ensures (k in result <==> Bucket(s, key, k, |s|) != []) &&
        (k in result ==> result[k] == Bucket(s, key, k, |s|)[|Bucket(s, key, k, |s|)| - 1])
    {
      IndexByBuckets(s, key, |s|, k);
    }
  }

  /** `countBy(list, iterator)`: every key maps to the number of elements with that key. */
  method CountBy<T>(list: Option<seq<T>>, key: KeyIterator<T>) returns (result: map<string, nat>)
    ensures var s := if list.None? then [] else list.value;
      forall k :: (k in result <==> Bucket(s, key, k, |s|) != []) && (k in result ==> result[k] == |Bucket(s, key, k, |s|)|)
  {
    result := Group(list, key, CountBehavior);
    var s := if list.None? then [] else list.value;
    forall k: string
      ensures (k in result <==> Bucket(s, key, k, |s|) != []) && (k in result ==> result[k] == |Bucket(s, key, k, |s|)|)
    {
      CountByBuckets(s, key, |s|, k);
    }
  }

  /** Every element is in the bucket of its own key. */
  lemma OwnBucket<T>(s: seq<T>, key: KeyIterator<T>, i: nat)
    requires i < |s|
    ensures s[i] in Bucket(s, key, key(s[i], i, s), |s|)
  {
    SelectMembers(s, KeyIs(key, key(s[i], i, s)), |s|, s[i]);
  }
}
