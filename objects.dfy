/**
 * The object helpers of underscore.ts: `values`, `pairs`, `invert`,
 * `extend`, `defaults`, `isEmpty`, `matches`, `size`, `property`,
 * `identity`, `constant` and `times`. `keys` and `has` are `Js.Keys` and
 * `Js.Has`.
 *
 * `extend` and `defaults` write into their target object; the heap they
 * write into is the field of an `ObjectStore`.
 */
module Objects {
  import opened Wrappers
  import opened Js
  import Arrays

  // ---------------------------------------------------------------------------
  // keys, values, pairs, invert

  /** Different positions of `keys(obj)` hold different keys. */
  lemma KeysDistinct(H: Heap, v: Value)
    requires WellFormed(H) && ValidValue(H, v)
    ensures Distinct(Keys(H, v))
  {
    if v.Ref? && !ObjAt(H, v.addr).Record? {
      var ks := Keys(H, v);
      forall i, j | 0 <= i < j < |ks|
        ensures ks[i] != ks[j]
      {
        NatToStringInjective(i, j);
      }
    }
  }

  /** Reading the i-th index key of an array gives its i-th element. */
  lemma GetIndex(H: Heap, v: Value, i: nat)
    requires v.Ref? && ObjAt(H, v.addr).ArrayObj? && i < |ObjAt(H, v.addr).elems|
    ensures Get(H, v, NatToString(i)) == ObjAt(H, v.addr).elems[i]
  {
    ParseIndexOfNatToString(i);
  }

  /** `values(obj)`: the value of every key of `keys(obj)`, in that order. */
  method Values(H: Heap, obj: Value) returns (values: seq<Value>)
    ensures |values| == |Keys(H, obj)|
    ensures forall i :: 0 <= i < |values| ==> values[i] == Get(H, obj, Keys(H, obj)[i])
    ensures obj.Ref? && ObjAt(H, obj.addr).ArrayObj? ==> values == ObjAt(H, obj.addr).elems
    ensures !IsObject(obj) ==> values == []
  {
    var keys := Keys(H, obj);
    values := [];
    for i := 0 to |keys|
      invariant |values| == i
      invariant forall j :: 0 <= j < i ==> values[j] == Get(H, obj, keys[j])
    {
      values := values + [Get(H, obj, keys[i])];
    }
    if obj.Ref? && ObjAt(H, obj.addr).ArrayObj? {
      forall i | 0 <= i < |values|
        ensures values[i] == ObjAt(H, obj.addr).elems[i]
      {
        GetIndex(H, obj, i);
      }
    }
  }

  /** `pairs(obj)`: `[key, obj[key]]` for every key of `keys(obj)`, in that order. */
  method Pairs(H: Heap, obj: Value) returns (pairs: seq<(string, Value)>)
    ensures |pairs| == |Keys(H, obj)|
    ensures forall i :: 0 <= i < |pairs| ==> pairs[i] == (Keys(H, obj)[i], Get(H, obj, Keys(H, obj)[i]))
  {
    var keys := Keys(H, obj);
    pairs := [];
    for i := 0 to |keys|
      invariant |pairs| == i
      invariant forall j :: 0 <= j < i ==> pairs[j] == (keys[j], Get(H, obj, keys[j]))
    {
      pairs := pairs + [(keys[i], Get(H, obj, keys[i]))];
    }
  }

  /** `object(pairs(obj))` has exactly the own enumerable keys of `obj`, each with its value. */
  method PairsRoundTrip(H: Heap, obj: Value) returns (result: map<string, Value>)
    requires WellFormed(H) && ValidValue(H, obj)
    ensures forall k :: k in result <==> k in Keys(H, obj)
    ensures forall k :: k in result ==> result[k] == Get(H, obj, k)
  {
    var pairs := Pairs(H, obj);
    result := Arrays.ObjectFromPairs(Some(pairs));
    var keys := Keys(H, obj);
    KeysDistinct(H, obj);
    forall k | k in result
      ensures result[k] == Get(H, obj, k)
    {
      var i :| 0 <= i < |pairs| && pairs[i].0 == k;
      assert forall j :: i < j < |pairs| ==> pairs[j].0 != pairs[i].0 by {
        forall j | i < j < |pairs|
          ensures pairs[j].0 != pairs[i].0
        {
          assert keys[i] != keys[j];
        }
      }
    }
    forall k
      ensures k in result <==> k in keys
    {
      if k in keys {
        var i :| 0 <= i < |keys| && keys[i] == k;
        assert pairs[i].0 == k;
      }
    }
  }

  /**
   * `invert(obj)`: a new object whose keys are the values of `obj` (as
   * property keys) and whose values are the keys that held them; when
   * several keys hold the same value, the last one wins.
   */
  method Invert(H: Heap, obj: Value) returns (result: map<string, string>)
    ensures var keys := Keys(H, obj);
      forall k :: k in result <==> exists i :: 0 <= i < |keys| && ToKey(H, Get(H, obj, keys[i])) == k
    ensures var keys := Keys(H, obj);
      forall i :: 0 <= i < |keys| && (forall j :: i < j < |keys| ==> ToKey(H, Get(H, obj, keys[j])) != ToKey(H, Get(H, obj, keys[i]))) ==>
        result[ToKey(H, Get(H, obj, keys[i]))] == keys[i]
  {
    var keys := Keys(H, obj);
    result := map[];
    for i := 0 to |keys|
      invariant forall k :: k in result <==> exists j :: 0 <= j < i && ToKey(H, Get(H, obj, keys[j])) == k
      invariant forall j :: 0 <= j < i && (forall m :: j < m < i ==> ToKey(H, Get(H, obj, keys[m])) != ToKey(H, Get(H, obj, keys[j]))) ==>
        result[ToKey(H, Get(H, obj, keys[j]))] == keys[j]
    {
      result := result[ToKey(H, Get(H, obj, keys[i])) := keys[i]];
    }
  }

  // ---------------------------------------------------------------------------
  // Property writes, extend and defaults

  /**
   * `o[key] = v` on one object: a plain object gains or updates the property
   * (a new key is listed after the existing ones; the model does not move
   * array-index keys such as "0" to the front, as JavaScript's property
   * order does); an array updates an existing index or
   * grows by one at index `length`; anything else is left as it is.
   */
  function SetOn(o: Obj, key: string, v: Value): Obj {
    match o
    case Record(tag, ctor, keys, props) =>
      Record(tag, ctor, if key in props then keys else keys + [key], props[key := v])
    case ArrayObj(elems, ctor) =>
      var idx := ParseIndex(key);
      if idx.Some? && idx.value < |elems| then ArrayObj(elems[idx.value := v], ctor)
      else if idx.Some? && idx.value == |elems| then ArrayObj(elems + [v], ctor)
      else o
    case Boxed(_, _, _) => o
  }

  /** The heaps agree on every object other than the one at `a`. */
  ghost predicate SameElsewhere(H: Heap, H': Heap, a: nat) {
    forall b :: b != a ==> ObjAt(H', b) == ObjAt(H, b)
  }

  /** `obj[key] = v` for the object at address `a`. */
  function SetProp(H: Heap, a: nat, key: string, v: Value): (H': Heap)
    ensures SameElsewhere(H, H', a)
    ensures ObjAt(H, a).Record? ==> ObjAt(H', a).Record?
    ensures ObjAt(H, a).Record? ==> Get(H', Ref(a), key) == v
    ensures ObjAt(H, a).Record? ==> forall k :: k != key ==> Get(H', Ref(a), k) == Get(H, Ref(a), k)
  {
    H[a := SetOn(ObjAt(H, a), key, v)]
  }

  /** One property copy: `obj[prop] = source[prop]`, for `defaults` only when `obj[prop] === undefined`. */
  function CopyKey(H: Heap, a: nat, source: Value, key: string, onlyUndefined: bool): Heap {
    if onlyUndefined && Get(H, Ref(a), key) != Undefined then H else SetProp(H, a, key, Get(H, source, key))
  }

  /** The inner loop from position `j` of the enumerated keys of `source` on. */
  function CopyKeys(H: Heap, a: nat, source: Value, keys: seq<string>, j: nat, onlyUndefined: bool): Heap
    decreases |keys| - j
  {
    if j >= |keys| then H else CopyKeys(CopyKey(H, a, source, keys[j], onlyUndefined), a, source, keys, j + 1, onlyUndefined)
  }

  /** The outer loop from source `i` on; each source's keys are enumerated when its turn comes. */
  function CopySources(H: Heap, a: nat, sources: seq<Value>, i: nat, onlyUndefined: bool): Heap
    decreases |sources| - i
  {
    if i >= |sources| then H
    else
      var H' := CopyKeys(H, a, sources[i], ForInKeys(H, sources[i]), 0, onlyUndefined);
      CopySources(H', a, sources, i + 1, onlyUndefined)
  }

  /** Writes go only to the object at `a`. */
  lemma {:induction false} CopyKeysElsewhere(H: Heap, a: nat, source: Value, keys: seq<string>, j: nat, u: bool)
    ensures SameElsewhere(H, CopyKeys(H, a, source, keys, j, u), a)
    ensures ObjAt(H, a).Record? ==> ObjAt(CopyKeys(H, a, source, keys, j, u), a).Record?
    decreases |keys| - j
  {
    if j < |keys| {
      var H1 := CopyKey(H, a, source, keys[j], u);
      CopyKeysElsewhere(H1, a, source, keys, j + 1, u);
    }
  }

  lemma {:induction false} CopySourcesElsewhere(H: Heap, a: nat, sources: seq<Value>, i: nat, u: bool)
    ensures SameElsewhere(H, CopySources(H, a, sources, i, u), a)
    ensures ObjAt(H, a).Record? ==> ObjAt(CopySources(H, a, sources, i, u), a).Record?
    decreases |sources| - i
  {
    if i < |sources| {
      var H1 := CopyKeys(H, a, sources[i], ForInKeys(H, sources[i]), 0, u);
      CopyKeysElsewhere(H, a, sources[i], ForInKeys(H, sources[i]), 0, u);
      CopySourcesElsewhere(H1, a, sources, i + 1, u);
    }
  }

  /** A value other than the target reads the same in heaps that agree elsewhere. */
  lemma ReadElsewhere(H: Heap, H': Heap, a: nat, v: Value, key: string)
    requires SameElsewhere(H, H', a) && v != Ref(a)
    ensures Get(H', v, key) == Get(H, v, key)
    ensures ForInKeys(H', v) == ForInKeys(H, v)
  {
    if v.Ref? {
      assert ObjAt(H', v.addr) == ObjAt(H, v.addr);
    }
  }

  /** `extend`'s inner loop: every enumerated key ends up with the source's value. */
  lemma {:induction false} ExtendKeys(H: Heap, a: nat, source: Value, keys: seq<string>, j: nat, k: string)
    requires ObjAt(H, a).Record? && source != Ref(a) && j <= |keys|
    ensures Get(CopyKeys(H, a, source, keys, j, false), Ref(a), k) ==
      if k in keys[j..] then Get(H, source, k) else Get(H, Ref(a), k)
    decreases |keys| - j
  {
    if j < |keys| {
      var H1 := CopyKey(H, a, source, keys[j], false);
      ReadElsewhere(H, H1, a, source, k);
      ExtendKeys(H1, a, source, keys, j + 1, k);
      assert keys[j..] == [keys[j]] + keys[j + 1..];
    }
  }

  /**
   * The reference result of `extend` for one key: the value of the last
   * source among `sources[i..n]` that enumerates the key, else the target's own.
   */
  function Overlay(H: Heap, a: nat, sources: seq<Value>, i: nat, n: nat, k: string): Value
    requires n <= |sources|
    decreases n
  {
    if n <= i then Get(H, Ref(a), k)
    else if k in ForInKeys(H, sources[n - 1]) then Get(H, sources[n - 1], k)
    else Overlay(H, a, sources, i, n - 1, k)
  }

  lemma {:induction false} OverlayShift(H: Heap, H1: Heap, a: nat, sources: seq<Value>, i: nat, n: nat, k: string)
    requires i < n <= |sources|
    requires SameElsewhere(H, H1, a)
    requires forall m :: 0 <= m < |sources| ==> sources[m] != Ref(a)
    requires Get(H1, Ref(a), k) == if k in ForInKeys(H, sources[i]) then Get(H, sources[i], k) else Get(H, Ref(a), k)
    ensures Overlay(H1, a, sources, i + 1, n, k) == Overlay(H, a, sources, i, n, k)
    decreases n
  {
    if n > i + 1 {
      ReadElsewhere(H, H1, a, sources[n - 1], k);
      OverlayShift(H, H1, a, sources, i, n - 1, k);
    }
  }

  /**
   * `extend` from source `i` on, when no source is the target itself: every
   * key has the value of the last source that has it, or keeps its own.
   */
  lemma {:induction false} ExtendLastSourceWins(H: Heap, a: nat, sources: seq<Value>, i: nat, k: string)
    requires ObjAt(H, a).Record?
    requires forall m :: 0 <= m < |sources| ==> sources[m] != Ref(a)
    ensures i <= |sources| ==> Get(CopySources(H, a, sources, i, false), Ref(a), k) == Overlay(H, a, sources, i, |sources|, k)
    decreases |sources| - i
  {
    if i < |sources| {
      var keys := ForInKeys(H, sources[i]);
      var H1 := CopyKeys(H, a, sources[i], keys, 0, false);
      ExtendKeys(H, a, sources[i], keys, 0, k);
      assert keys[0..] == keys;
      CopyKeysElsewhere(H, a, sources[i], keys, 0, false);
      ExtendLastSourceWins(H1, a, sources, i + 1, k);
      OverlayShift(H, H1, a, sources, i, |sources|, k);
    }
  }

  /** `defaults`' inner loop never changes a key that is already defined. */
  lemma {:induction false} DefaultsKeysKeep(H: Heap, a: nat, source: Value, keys: seq<string>, j: nat, k: string)
    requires ObjAt(H, a).Record? && Get(H, Ref(a), k) != Undefined
    ensures Get(CopyKeys(H, a, source, keys, j, true), Ref(a), k) == Get(H, Ref(a), k)
    decreases |keys| - j
  {
    if j < |keys| {
      var H1 := CopyKey(H, a, source, keys[j], true);
      DefaultsKeysKeep(H1, a, source, keys, j + 1, k);
    }
  }

  /** `defaults` never overwrites a property that is not undefined, even when a source is the target. */
  lemma {:induction false} DefaultsKeepDefined(H: Heap, a: nat, sources: seq<Value>, i: nat, k: string)
    requires ObjAt(H, a).Record? && Get(H, Ref(a), k) != Undefined
    ensures Get(CopySources(H, a, sources, i, true), Ref(a), k) == Get(H, Ref(a), k)
    decreases |sources| - i
  {
    if i < |sources| {
      var keys := ForInKeys(H, sources[i]);
      var H1 := CopyKeys(H, a, sources[i], keys, 0, true);
      DefaultsKeysKeep(H, a, sources[i], keys, 0, k);
      CopyKeysElsewhere(H, a, sources[i], keys, 0, true);
      DefaultsKeepDefined(H1, a, sources, i + 1, k);
    }
  }

  /** `defaults`' inner loop on an undefined key: it takes the source's value if the source enumerates it. */
  lemma {:induction false} DefaultsKeysFill(H: Heap, a: nat, source: Value, keys: seq<string>, j: nat, k: string)
    requires ObjAt(H, a).Record? && Get(H, Ref(a), k) == Undefined && source != Ref(a) && j <= |keys|
    ensures Get(CopyKeys(H, a, source, keys, j, true), Ref(a), k) == if k in keys[j..] then Get(H, source, k) else Undefined
    decreases |keys| - j
  {
    if j < |keys| {
      var H1 := CopyKey(H, a, source, keys[j], true);
      ReadElsewhere(H, H1, a, source, k);
      assert keys[j..] == [keys[j]] + keys[j + 1..];
      if Get(H1, Ref(a), k) == Undefined {
        DefaultsKeysFill(H1, a, source, keys, j + 1, k);
      } else {
        DefaultsKeysKeep(H1, a, source, keys, j + 1, k);
      }
    }
  }

  /** The reference result of `defaults` for an undefined key: the first defined value a source offers. */
  function FirstDefined(H: Heap, sources: seq<Value>, i: nat, k: string): Value
    decreases |sources| - i
  {
    if i >= |sources| then Undefined
    else if k in ForInKeys(H, sources[i]) && Get(H, sources[i], k) != Undefined then Get(H, sources[i], k)
    else FirstDefined(H, sources, i + 1, k)
  }

  lemma {:induction false} FirstDefinedElsewhere(H: Heap, H1: Heap, a: nat, sources: seq<Value>, i: nat, k: string)
    requires SameElsewhere(H, H1, a)
    requires forall m :: 0 <= m < |sources| ==> sources[m] != Ref(a)
    ensures FirstDefined(H1, sources, i, k) == FirstDefined(H, sources, i, k)
    decreases |sources| - i
  {
    if i < |sources| {
      ReadElsewhere(H, H1, a, sources[i], k);
      FirstDefinedElsewhere(H, H1, a, sources, i + 1, k);
    }
  }

  /** `defaults` from source `i` on fills an undefined key with the first defined value offered. */
  lemma {:induction false} DefaultsFillUndefined(H: Heap, a: nat, sources: seq<Value>, i: nat, k: string)
    requires ObjAt(H, a).Record? && Get(H, Ref(a), k) == Undefined
    requires forall m :: 0 <= m < |sources| ==> sources[m] != Ref(a)
    ensures Get(CopySources(H, a, sources, i, true), Ref(a), k) == FirstDefined(H, sources, i, k)
    decreases |sources| - i
  {
    if i < |sources| {
      var keys := ForInKeys(H, sources[i]);
      var H1 := CopyKeys(H, a, sources[i], keys, 0, true);
      DefaultsKeysFill(H, a, sources[i], keys, 0, k);
      assert keys[0..] == keys;
      CopyKeysElsewhere(H, a, sources[i], keys, 0, true);
      FirstDefinedElsewhere(H, H1, a, sources, i + 1, k);
      if Get(H1, Ref(a), k) == Undefined {
        DefaultsFillUndefined(H1, a, sources, i + 1, k);
      } else {
        DefaultsKeepDefined(H1, a, sources, i + 1, k);
      }
    }
  }

  /** A mutable heap: the objects `extend` and `defaults` write into. */
  class ObjectStore {
    var heap: Heap

    constructor(H: Heap)
      ensures heap == H
    {
      heap := H;
    }

    /** The two nested loops shared by `extend` and `defaults`, over `sources[start..]`. */
    method CopyFrom(a: nat, sources: seq<Value>, start: nat, onlyUndefined: bool)
      modifies this
      ensures heap == CopySources(old(heap), a, sources, start, onlyUndefined)
    {
      var i := start;
      while i < |sources|
        invariant CopySources(heap, a, sources, i, onlyUndefined) == CopySources(old(heap), a, sources, start, onlyUndefined)
        decreases |sources| - i
      {
        var source := sources[i];
        var keys := ForInKeys(heap, source);
        ghost var entry := heap;
        for j := 0 to |keys|
          invariant CopyKeys(heap, a, source, keys, j, onlyUndefined) == CopyKeys(entry, a, source, keys, 0, onlyUndefined)
        {
          var prop := keys[j];
          if !onlyUndefined || Get(heap, Ref(a), prop) == Undefined {
            heap := SetProp(heap, a, prop, Get(heap, source, prop));
          }
        }
        i := i + 1;
      }
    }

    /**
     * `extend(obj, ...sources)`: copies every enumerated property of every
     * source, in order, onto `obj`, and returns `obj`; a non-object is
     * returned as it is.
     */
    method Extend(obj: Value, sources: seq<Value>) returns (r: Value)
      modifies this
      ensures r == obj
      ensures !IsObject(obj) ==> heap == old(heap)
      ensures IsObject(obj) ==> heap == CopySources(old(heap), obj.addr, sources, 0, false)
    {
      if !IsObject(obj) {
        return obj;
      }
      CopyFrom(obj.addr, sources, 0, false);
      return obj;
    }

    /** `extend` as written at underscore.ts:1022-1032: the loop starts at `sources[1]`. */
    method ExtendAsWritten(obj: Value, sources: seq<Value>) returns (r: Value)
      modifies this
      ensures r == obj
      ensures !IsObject(obj) ==> heap == old(heap)
      ensures IsObject(obj) ==> heap == CopySources(old(heap), obj.addr, sources, 1, false)
    {
      if !IsObject(obj) {
        return obj;
      }
      CopyFrom(obj.addr, sources, 1, false);
      return obj;
    }

    /**
     * `defaults(obj, ...defaults)`: fills in every enumerated property of
     * the sources that `obj` has as undefined, first source first, and
     * returns `obj`; a non-object is returned as it is.
     */
    method Defaults(obj: Value, defaults: seq<Value>) returns (r: Value)
      modifies this
      ensures r == obj
      ensures !IsObject(obj) ==> heap == old(heap)
      ensures IsObject(obj) ==> heap == CopySources(old(heap), obj.addr, defaults, 0, true)
    {
      if !IsObject(obj) {
        return obj;
      }
      CopyFrom(obj.addr, defaults, 0, true);
      return obj;
    }

    /** `defaults` as written at underscore.ts:1069-1078: the loop starts at `defaults[1]`. */
    method DefaultsAsWritten(obj: Value, defaults: seq<Value>) returns (r: Value)
      modifies this
      ensures r == obj
      ensures !IsObject(obj) ==> heap == old(heap)
      ensures IsObject(obj) ==> heap == CopySources(old(heap), obj.addr, defaults, 1, true)
    {
      if !IsObject(obj) {
        return obj;
      }
      CopyFrom(obj.addr, defaults, 1, true);
      return obj;
    }
  }

  /**
   * The discrepancy: `extend({}, {a: 1})` and `defaults({}, {a: 1})` as
   * written leave the target without `a`; the corrected loops give it `a: 1`.
   */
  lemma ExtendAsWrittenSkipsFirstSource()
    ensures var H: Heap := map[0 := Record(ObjectTag, None, [], map[]), 1 := Record(ObjectTag, None, ["a"], map["a" := Num(Int(1))])];
      Get(CopySources(H, 0, [Ref(1)], 1, false), Ref(0), "a") == Undefined &&
      Get(CopySources(H, 0, [Ref(1)], 0, false), Ref(0), "a") == Num(Int(1)) &&
      Get(CopySources(H, 0, [Ref(1)], 1, true), Ref(0), "a") == Undefined &&
      Get(CopySources(H, 0, [Ref(1)], 0, true), Ref(0), "a") == Num(Int(1))
  {
    var H: Heap := map[0 := Record(ObjectTag, None, [], map[]), 1 := Record(ObjectTag, None, ["a"], map["a" := Num(Int(1))])];
    assert ForInKeys(H, Ref(1)) == ["a"];
    assert Get(H, Ref(1), "a") == Num(Int(1));
    ExtendLastSourceWins(H, 0, [Ref(1)], 0, "a");
    DefaultsFillUndefined(H, 0, [Ref(1)], 0, "a");
    assert FirstDefined(H, [Ref(1)], 1, "a") == Undefined;
  }

  // ---------------------------------------------------------------------------
  // isEmpty, matches, size

  /** Arrays, strings and `arguments` are tested by their `length`. */
  predicate LengthTested(H: Heap, v: Value) {
    ClassOf(H, v) in {ArrayTag, StringTag, ArgumentsTag}
  }

  /**
   * The reference definition of `isEmpty(obj)`: true on null; `length === 0`
   * for arrays, strings and `arguments`; otherwise no enumerated key is an
   * own property.
   */
  predicate Empty(H: Heap, v: Value) {
    if IsNullish(v) then true
    else if LengthTested(H, v) then StrictEquals(Get(H, v, "length"), Num(Int(0)))
    else forall k :: k in ForInKeys(H, v) ==> !Has(H, v, k)
  }

  /** `isEmpty(obj)`: the early-return loop over the enumerated keys. */
  method IsEmpty(H: Heap, obj: Value) returns (r: bool)
    ensures r == Empty(H, obj)
  {
    if IsNullish(obj) {
      return true;
    }
    if LengthTested(H, obj) {
      return StrictEquals(Get(H, obj, "length"), Num(Int(0)));
    }
    var keys := ForInKeys(H, obj);
    for i := 0 to |keys|
      invariant forall j :: 0 <= j < i ==> !Has(H, obj, keys[j])
    {
      if Has(H, obj, keys[i]) {
        return false;
      }
    }
    return true;
  }

  /** An array is empty exactly when it has no elements; any other object exactly when `keys` is `[]`. */
  lemma EmptyMeansNoElements(H: Heap, v: Value)
    requires WellFormed(H) && ValidValue(H, v)
    ensures v.Ref? && ObjAt(H, v.addr).ArrayObj? ==> (Empty(H, v) <==> ObjAt(H, v.addr).elems == [])
    ensures v.Str? ==> (Empty(H, v) <==> v.s == [])
    ensures !IsNullish(v) && !LengthTested(H, v) ==> (Empty(H, v) <==> Keys(H, v) == [])
  {
    if !IsNullish(v) && !LengthTested(H, v) && Keys(H, v) != [] {
      KeysAreOwn(H, v, 0);
    }
  }

  /**
   * `matches(attrs)(obj)`: on null, whether `attrs` is empty; true when
   * `obj` is `attrs`; otherwise every enumerated attribute of `attrs` is
   * `===` to the same property of `obj`.
   */
  method Matches(H: Heap, attrs: Value, obj: Value) returns (r: bool)
    ensures IsNullish(obj) ==> r == Empty(H, attrs)
    ensures !IsNullish(obj) && StrictEquals(obj, attrs) ==> r
    ensures !IsNullish(obj) && !StrictEquals(obj, attrs) ==>
      (r <==> forall k :: k in ForInKeys(H, attrs) ==> StrictEquals(Get(H, attrs, k), Get(H, obj, k)))
  {
    if IsNullish(obj) {
      r := IsEmpty(H, attrs);
      return;
    }
    if StrictEquals(obj, attrs) {
      return true;
    }
    r := MatchKeys(H, attrs, obj);
  }

  /** The loop of `matches`: every enumerated attribute is `===` to the object's property. */
  method MatchKeys(H: Heap, attrs: Value, obj: Value) returns (r: bool)
    ensures r <==> forall k :: k in ForInKeys(H, attrs) ==> StrictEquals(Get(H, attrs, k), Get(H, obj, k))
  {
    var keys := ForInKeys(H, attrs);
    for i := 0 to |keys|
      invariant forall j :: 0 <= j < i ==> StrictEquals(Get(H, attrs, keys[j]), Get(H, obj, keys[j]))
    {
      if !StrictEquals(Get(H, attrs, keys[i]), Get(H, obj, keys[i])) {
        return false;
      }
    }
    return true;
  }

  /** `size(obj)`: 0 on null; a numeric `length` when there is one; otherwise the number of keys. */
  function Size(H: Heap, v: Value): (n: int)
    ensures IsNullish(v) ==> n == 0
    ensures v.Str? ==> n == |v.s|
    ensures v.Ref? && ObjAt(H, v.addr).ArrayObj? ==> n == |ObjAt(H, v.addr).elems|
    ensures v.Ref? && ObjAt(H, v.addr).Record? && "length" !in ObjAt(H, v.addr).props ==> n == |Keys(H, v)|
  {
    if IsNullish(v) then 0
    else
      var len := Get(H, v, "length");
      if len.Num? && len.n.Int? then len.n.value
      else if len.Num? && len.n.NegZero? then 0
      else |Keys(H, v)|
  }

  // ---------------------------------------------------------------------------
  // property, identity, constant, times

  /** `property(key)`: reads `obj[key]`; reading a property of null or undefined throws. */
  function Property(H: Heap, key: string): (f: Value -> Result<Value>)
    ensures forall v: Value :: IsNullish(v) ==> f(v).Err?
    ensures forall v: Value :: v.Ref? && ObjAt(H, v.addr).Record? && key in ObjAt(H, v.addr).props ==>
      f(v) == Ok(ObjAt(H, v.addr).props[key])
  {
    (v: Value) => if IsNullish(v) then Err(TypeError("Cannot read property '" + key + "' of " + ToKey(H, v))) else Ok(Get(H, v, key))
  }

  /** `identity(value)`: answers its argument. */
  function Identity<T>(value: T): (r: T)
    ensures r == value
  {
    value
  }

  /** `constant(value)`: a function that answers `value` on every call. */
  function Constant<T>(value: T): (r: () -> T)
    ensures r() == value
  {
    () => value
  }

  /** `times(n, iterator)`: `[callback(0), ..., callback(n - 1)]`, empty for n <= 0. */
  method Times<R>(n: int, callback: nat -> R) returns (accum: seq<R>)
    ensures |accum| == if n < 0 then 0 else n
    ensures forall i :: 0 <= i < |accum| ==> accum[i] == callback(i)
  {
    accum := [];
    var i := 0;
    while i < n
      invariant 0 <= i && |accum| == i
      invariant n >= 0 ==> i <= n
      invariant n < 0 ==> i == 0
      invariant forall j :: 0 <= j < i ==> accum[j] == callback(j)
    {
      accum := accum + [callback(i)];
      i := i + 1;
    }
  }
}
