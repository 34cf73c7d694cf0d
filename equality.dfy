/**
 * The deep comparison `eq` / `isEqual` of underscore.ts.
 *
 * `DeepEq` is the reference definition: the comparison steps in the order
 * the source takes them, with the two traversal stacks as parameters.
 * `EqualityChecker.Eq` is the procedure itself, pushing and popping the
 * stacks it keeps in fields. It is proved to compute `DeepEq` and to leave
 * both stacks as it found them.
 *
 * The stacks hold the addresses of the objects being compared along the
 * current path. The objects are compared only when the first one is not
 * on its stack yet, and it is pushed before any recursion. So the set of
 * heap addresses not on `aStack` shrinks with every nested call, and the
 * comparison terminates on cyclic object graphs too. This technique is the
 * one of the abstract operation JO in section 15.12.3 of ECMAScript 5.1.
 */
module Equality {
  import opened Wrappers
  import opened Js

  /** The heap addresses not on the stack. */
  ghost function Unvisited(H: Heap, aStack: seq<nat>): set<nat> {
    H.Keys - (set x | x in aStack)
  }

  lemma UnvisitedShrinks(H: Heap, aStack: seq<nat>, x: nat)
    requires x in H && x !in aStack
    ensures Unvisited(H, aStack + [x]) < Unvisited(H, aStack)
  {
    assert x in Unvisited(H, aStack);
    assert x !in Unvisited(H, aStack + [x]);
  }

  /**
   * The linear search from the top of the stacks: `None` when `x` is not
   * among the first `n` entries of `aStack`; otherwise whether the entry of
   * `bStack` beside its topmost occurrence is `y`.
   */
  function StackMatch(aStack: seq<nat>, bStack: seq<nat>, x: nat, y: nat, n: nat): (r: Option<bool>)
    requires |aStack| == |bStack| && n <= |aStack|
    ensures r.None? <==> x !in aStack[..n]
    ensures r.Some? ==> exists i ::
      0 <= i < n && aStack[i] == x && r.value == (bStack[i] == y) && (forall j :: i < j < n ==> aStack[j] != x)
  {
    if n == 0 then None
    else if aStack[n - 1] == x then Some(bStack[n - 1] == y)
    else
      assert aStack[..n] == aStack[..n - 1] + [aStack[n - 1]];
      StackMatch(aStack, bStack, x, y, n - 1)
  }

  /** `'' + v` for a string, a String wrapper or a RegExp (its source text). */
  function StringOf(H: Heap, v: Value): string {
    match v
    case Str(s) => s
    case Ref(a) => (match ObjAt(H, a) case Boxed(_, Str(s), _) => s case _ => "")
    case _ => ""
  }

  /** The number of a number or Number wrapper (`+v`). */
  function NumOf(H: Heap, v: Value): Number {
    match v
    case Num(n) => n
    case Ref(a) => (match ObjAt(H, a) case Boxed(_, Num(n), _) => n case _ => NaN)
    case _ => NaN
  }

  /** `+v` for a boolean, a Boolean wrapper or a Date (its time value). */
  function ToNumber(H: Heap, v: Value): Number {
    match v
    case Bool(b) => Int(if b then 1 else 0)
    case Ref(a) => (match ObjAt(H, a)
      case Boxed(_, Bool(b), _) => Int(if b then 1 else 0)
      case Boxed(_, Num(n), _) => n
      case _ => NaN)
    case _ => NaN
  }

  /**
   * The `[object Number]` case: NaN equals only NaN; a zero equals only the
   * zero of the same sign (`1 / a == 1 / b`); other numbers by value.
   */
  predicate NumberEgal(x: Number, y: Number) {
    if x.NaN? then y.NaN?
    else if IsZero(x) then IsZero(y) && x == y
    else x == y
  }

  function CtorOf(H: Heap, v: Value): Option<Ctor>
    requires v.Ref?
  {
    ObjAt(H, v.addr).ctor
  }

  /**
   * The constructor test: both objects have a constructor, the two are
   * different, and they are not both functions that are instances of
   * themselves.
   */
  predicate CtorsDiffer(ca: Option<Ctor>, cb: Option<Ctor>) {
    ca.Some? && cb.Some? && ca.value.id != cb.value.id && !(ca.value.selfInstance && cb.value.selfInstance)
  }

  function ArrayElems(H: Heap, v: Value): seq<Value>
    requires v.Ref?
  {
    if ObjAt(H, v.addr).ArrayObj? then ObjAt(H, v.addr).elems else []
  }

  /** Everything an object of a well-formed heap holds is a valid value. */
  lemma ElemsValid(H: Heap, v: Value)
    requires WellFormed(H) && ValidValue(H, v) && v.Ref?
    ensures forall i :: 0 <= i < |ArrayElems(H, v)| ==> ValidValue(H, ArrayElems(H, v)[i])
  {
    assert ValidObj(H, H[v.addr]);
  }

  lemma GetValid(H: Heap, v: Value, key: string)
    requires WellFormed(H) && ValidValue(H, v)
    ensures ValidValue(H, Get(H, v, key))
  {
    if v.Ref? {
      assert ValidObj(H, H[v.addr]);
    }
  }

  /** `eq(a, b, aStack, bStack)`, step by step. */
  function DeepEq(H: Heap, a: Value, b: Value, aStack: seq<nat>, bStack: seq<nat>): bool
    requires WellFormed(H) && ValidValue(H, a) && ValidValue(H, b) && |aStack| == |bStack|
    decreases Unvisited(H, aStack), 0, 0
  {
    // Identical values are equal, except the two zeros, told apart by `1 / a`.
    if StrictEquals(a, b) then !(a.Num? && IsZero(a.n)) || a == b
    // null and undefined equal only themselves (they would be `===`).
    else if IsNullish(a) || IsNullish(b) then false
    else if ClassOf(H, a) != ClassOf(H, b) then false
    else if ClassOf(H, a) == RegExpTag || ClassOf(H, a) == StringTag then StringOf(H, a) == StringOf(H, b)
    else if ClassOf(H, a) == NumberTag then NumberEgal(NumOf(H, a), NumOf(H, b))
    else if ClassOf(H, a) == DateTag || ClassOf(H, a) == BooleanTag then NumberStrictEquals(ToNumber(H, a), ToNumber(H, b))
    else if !TypeofObject(H, a) || !TypeofObject(H, b) then false
    else
      var seen := StackMatch(aStack, bStack, a.addr, b.addr, |aStack|);
      if seen.Some? then seen.value
      else if CtorsDiffer(CtorOf(H, a), CtorOf(H, b)) then false
      else
        assert aStack[..|aStack|] == aStack;
        UnvisitedShrinks(H, aStack, a.addr);
        var aStack', bStack' := aStack + [a.addr], bStack + [b.addr];
        if ClassOf(H, a) == ArrayTag then
          var ea, eb := ArrayElems(H, a), ArrayElems(H, b);
          ElemsValid(H, a);
          ElemsValid(H, b);
          |ea| == |eb| && EqElems(H, ea, eb, aStack', bStack', |ea|)
        else
          var keys := Keys(H, a);
          |Keys(H, b)| == |keys| && EqKeys(H, a, b, keys, aStack', bStack', |keys|)
  }

  /** The array loop: the elements below `n`, compared from the last one down. */
  function EqElems(H: Heap, ea: seq<Value>, eb: seq<Value>, aStack: seq<nat>, bStack: seq<nat>, n: nat): bool
    requires WellFormed(H) && |aStack| == |bStack| && n <= |ea| && n <= |eb|
    requires forall i :: 0 <= i < |ea| ==> ValidValue(H, ea[i])
    requires forall i :: 0 <= i < |eb| ==> ValidValue(H, eb[i])
    decreases Unvisited(H, aStack), 1, n
  {
    n == 0 || (DeepEq(H, ea[n - 1], eb[n - 1], aStack, bStack) && EqElems(H, ea, eb, aStack, bStack, n - 1))
  }

  /** The object loop: the keys of `a` below `n`, from the last one down; `b` must have each. */
  function EqKeys(H: Heap, a: Value, b: Value, keys: seq<string>, aStack: seq<nat>, bStack: seq<nat>, n: nat): bool
    requires WellFormed(H) && ValidValue(H, a) && ValidValue(H, b) && |aStack| == |bStack| && n <= |keys|
    decreases Unvisited(H, aStack), 1, n
  {
    if n == 0 then true
    else
      var key := keys[n - 1];
      GetValid(H, a, key);
      GetValid(H, b, key);
      Has(H, b, key) && DeepEq(H, Get(H, a, key), Get(H, b, key), aStack, bStack) &&
      EqKeys(H, a, b, keys, aStack, bStack, n - 1)
  }

  /** The two stacks of a comparison in progress, as `eq` keeps them. */
  class EqualityChecker {
    var aStack: seq<nat>
    var bStack: seq<nat>

    constructor()
      ensures aStack == [] && bStack == []
    {
      aStack := [];
      bStack := [];
    }

    /** `eq(a, b, aStack, bStack)`: computes `DeepEq` and leaves both stacks as they were. */
    method Eq(H: Heap, a: Value, b: Value) returns (result: bool)
      requires WellFormed(H) && ValidValue(H, a) && ValidValue(H, b) && |aStack| == |bStack|
      modifies this
      ensures result == DeepEq(H, a, b, old(aStack), old(bStack))
      ensures aStack == old(aStack) && bStack == old(bStack)
      decreases Unvisited(H, aStack), 0
    {
      if StrictEquals(a, b) {
        return !(a.Num? && IsZero(a.n)) || a == b;
      }
      if IsNullish(a) || IsNullish(b) {
        return StrictEquals(a, b);
      }
      var className := ClassOf(H, a);
      if className != ClassOf(H, b) {
        return false;
      }
      if className == RegExpTag || className == StringTag {
        return StringOf(H, a) == StringOf(H, b);
      }
      if className == NumberTag {
        var x, y := NumOf(H, a), NumOf(H, b);
        if x.NaN? {
          return y.NaN?;
        }
        return if IsZero(x) then IsZero(y) && x == y else x == y;
      }
      if className == DateTag || className == BooleanTag {
        return NumberStrictEquals(ToNumber(H, a), ToNumber(H, b));
      }
      if !TypeofObject(H, a) || !TypeofObject(H, b) {
        return false;
      }
      var length := |aStack|;
      while length > 0
        invariant 0 <= length <= |aStack|
        invariant StackMatch(aStack, bStack, a.addr, b.addr, |aStack|) == StackMatch(aStack, bStack, a.addr, b.addr, length)
        decreases length
      {
        length := length - 1;
        if aStack[length] == a.addr {
          return bStack[length] == b.addr;
        }
      }
      if CtorsDiffer(CtorOf(H, a), CtorOf(H, b)) {
        return false;
      }
      assert aStack[..|aStack|] == aStack;
      UnvisitedShrinks(H, aStack, a.addr);
      aStack := aStack + [a.addr];
      bStack := bStack + [b.addr];
      if className == ArrayTag {
        var ea, eb := ArrayElems(H, a), ArrayElems(H, b);
        ElemsValid(H, a);
        ElemsValid(H, b);
        result := |ea| == |eb|;
        if result {
          result := CompareElements(H, ea, eb);
        }
      } else {
        var keys := Keys(H, a);
        result := |Keys(H, b)| == |keys|;
        if result {
          result := CompareKeys(H, a, b, keys);
        }
      }
      aStack := aStack[..|aStack| - 1];
      bStack := bStack[..|bStack| - 1];
    }

    /** The array loop of `eq`: `while (size--)`, stopping at the first unequal pair. */
    method CompareElements(H: Heap, ea: seq<Value>, eb: seq<Value>) returns (result: bool)
      requires WellFormed(H) && |aStack| == |bStack| && |ea| == |eb|
      requires forall i :: 0 <= i < |ea| ==> ValidValue(H, ea[i])
      requires forall i :: 0 <= i < |eb| ==> ValidValue(H, eb[i])
      modifies this
      ensures result == EqElems(H, ea, eb, old(aStack), old(bStack), |ea|)
      ensures aStack == old(aStack) && bStack == old(bStack)
      decreases Unvisited(H, aStack), 1
    {
      var size := |ea|;
      result := true;
      while size > 0
        invariant 0 <= size <= |ea|
        invariant aStack == old(aStack) && bStack == old(bStack)
        invariant result
        invariant EqElems(H, ea, eb, aStack, bStack, |ea|) == EqElems(H, ea, eb, aStack, bStack, size)
        decreases size
      {
        size := size - 1;
        result := Eq(H, ea[size], eb[size]);
        if !result {
          break;
        }
      }
    }

    /** The object loop of `eq`: from the last key of `a` down, `b` must have it and hold an equal value. */
    method CompareKeys(H: Heap, a: Value, b: Value, keys: seq<string>) returns (result: bool)
      requires WellFormed(H) && ValidValue(H, a) && ValidValue(H, b) && |aStack| == |bStack|
      modifies this
      ensures result == EqKeys(H, a, b, keys, old(aStack), old(bStack), |keys|)
      ensures aStack == old(aStack) && bStack == old(bStack)
      decreases Unvisited(H, aStack), 1
    {
      var size := |keys|;
      result := true;
      while size > 0
        invariant 0 <= size <= |keys|
        invariant aStack == old(aStack) && bStack == old(bStack)
        invariant result
        invariant EqKeys(H, a, b, keys, aStack, bStack, |keys|) == EqKeys(H, a, b, keys, aStack, bStack, size)
        decreases size
      {
        size := size - 1;
        var key := keys[size];
        GetValid(H, a, key);
        GetValid(H, b, key);
        if Has(H, b, key) {
          result := Eq(H, Get(H, a, key), Get(H, b, key));
        } else {
          result := false;
        }
        if !result {
          break;
        }
      }
    }
  }

  /** `isEqual(obj, other)`: `eq` started with two empty stacks. */
  method IsEqual(H: Heap, obj: Value, other: Value) returns (r: bool)
    requires WellFormed(H) && ValidValue(H, obj) && ValidValue(H, other)
    ensures r == DeepEq(H, obj, other, [], [])
  {
    var checker := new EqualityChecker();
    r := checker.Eq(H, obj, other);
  }

  // ---------------------------------------------------------------------------
  // Properties of the comparison

  /** 0 and -0 are not equal, in either order. */
  lemma ZerosDiffer(H: Heap, aStack: seq<nat>, bStack: seq<nat>)
    requires WellFormed(H) && |aStack| == |bStack|
    ensures !DeepEq(H, Num(Int(0)), Num(NegZero), aStack, bStack)
    ensures !DeepEq(H, Num(NegZero), Num(Int(0)), aStack, bStack)
  {
  }

  /** Numbers are equal exactly when they are the same number: NaN equals NaN, the zeros differ. */
  lemma NumbersEgal(H: Heap, x: Number, y: Number, aStack: seq<nat>, bStack: seq<nat>)
    requires WellFormed(H) && |aStack| == |bStack|
    ensures DeepEq(H, Num(x), Num(y), aStack, bStack) <==> x == y
  {
  }

  /** NaN equals NaN, and a Number wrapper around NaN. */
  lemma NaNEqualsNaN(H: Heap, a: nat, aStack: seq<nat>, bStack: seq<nat>)
    requires WellFormed(H) && |aStack| == |bStack|
    requires a in H && H[a] == Boxed(NumberTag, Num(NaN), None)
    ensures DeepEq(H, Num(NaN), Num(NaN), aStack, bStack)
    ensures DeepEq(H, Num(NaN), Ref(a), aStack, bStack) && DeepEq(H, Ref(a), Num(NaN), aStack, bStack)
  {
  }

  /** null and undefined are equal only to themselves. */
  lemma NullishEqualsOnlyItself(H: Heap, a: Value, b: Value, aStack: seq<nat>, bStack: seq<nat>)
    requires WellFormed(H) && ValidValue(H, a) && ValidValue(H, b) && |aStack| == |bStack|
    requires IsNullish(a) || IsNullish(b)
    ensures DeepEq(H, a, b, aStack, bStack) <==> a == b
  {
  }

  /** Values of different classes are never equal. */
  lemma ClassesDiffer(H: Heap, a: Value, b: Value, aStack: seq<nat>, bStack: seq<nat>)
    requires WellFormed(H) && ValidValue(H, a) && ValidValue(H, b) && |aStack| == |bStack|
    requires ClassOf(H, a) != ClassOf(H, b)
    ensures !DeepEq(H, a, b, aStack, bStack)
  {
  }

  /** Every value equals itself. */
  lemma Reflexive(H: Heap, v: Value, aStack: seq<nat>, bStack: seq<nat>)
    requires WellFormed(H) && ValidValue(H, v) && |aStack| == |bStack|
    ensures DeepEq(H, v, v, aStack, bStack)
  {
  }

  /** Two different objects that are compared for the first time. */
  ghost predicate FreshPair(H: Heap, a: Value, b: Value, aStack: seq<nat>) {
    a.Ref? && b.Ref? && a.addr != b.addr && a.addr !in aStack
  }

  /** Arrays of different lengths are not equal; equal arrays have element-wise equal entries. */
  lemma ArraysByElements(H: Heap, a: Value, b: Value, aStack: seq<nat>, bStack: seq<nat>)
    requires WellFormed(H) && ValidValue(H, a) && ValidValue(H, b) && |aStack| == |bStack|
    requires FreshPair(H, a, b, aStack)
    requires ObjAt(H, a.addr).ArrayObj? && ObjAt(H, b.addr).ArrayObj?
    ensures |ObjAt(H, a.addr).elems| != |ObjAt(H, b.addr).elems| ==> !DeepEq(H, a, b, aStack, bStack)
    ensures DeepEq(H, a, b, aStack, bStack) ==>
      var ea, eb := ObjAt(H, a.addr).elems, ObjAt(H, b.addr).elems;
      |ea| == |eb| && forall i :: 0 <= i < |ea| ==> DeepEq(H, ea[i], eb[i], aStack + [a.addr], bStack + [b.addr])
  {
    assert aStack[..|aStack|] == aStack;
    var ea, eb := ObjAt(H, a.addr).elems, ObjAt(H, b.addr).elems;
    if DeepEq(H, a, b, aStack, bStack) {
      ElemsValid(H, a);
      ElemsValid(H, b);
      EqElemsAll(H, ea, eb, aStack + [a.addr], bStack + [b.addr], |ea|);
    }
  }

  lemma {:induction false} EqElemsAll(H: Heap, ea: seq<Value>, eb: seq<Value>, aStack: seq<nat>, bStack: seq<nat>, n: nat)
    requires WellFormed(H) && |aStack| == |bStack| && n <= |ea| && n <= |eb|
    requires forall i :: 0 <= i < |ea| ==> ValidValue(H, ea[i])
    requires forall i :: 0 <= i < |eb| ==> ValidValue(H, eb[i])
    requires EqElems(H, ea, eb, aStack, bStack, n)
    ensures forall i :: 0 <= i < n ==> DeepEq(H, ea[i], eb[i], aStack, bStack)
  {
    if n > 0 {
      EqElemsAll(H, ea, eb, aStack, bStack, n - 1);
    }
  }

  lemma {:induction false} EqKeysAll(H: Heap, a: Value, b: Value, keys: seq<string>, aStack: seq<nat>, bStack: seq<nat>, n: nat)
    requires WellFormed(H) && ValidValue(H, a) && ValidValue(H, b) && |aStack| == |bStack| && n <= |keys|
    requires EqKeys(H, a, b, keys, aStack, bStack, n)
    ensures forall i :: 0 <= i < n ==> Has(H, b, keys[i])
  {
    if n > 0 {
      EqKeysAll(H, a, b, keys, aStack, bStack, n - 1);
    }
  }

  /**
   * Plain objects with different numbers of keys are not equal; equal ones
   * have the same number of keys and the second has every key of the first.
   */
  lemma ObjectsByKeys(H: Heap, a: Value, b: Value, aStack: seq<nat>, bStack: seq<nat>)
    requires WellFormed(H) && ValidValue(H, a) && ValidValue(H, b) && |aStack| == |bStack|
    requires FreshPair(H, a, b, aStack)
    requires ObjAt(H, a.addr).Record? && ObjAt(H, b.addr).Record?
    requires ClassOf(H, a) == ClassOf(H, b) == ObjectTag
    ensures |Keys(H, a)| != |Keys(H, b)| ==> !DeepEq(H, a, b, aStack, bStack)
    ensures DeepEq(H, a, b, aStack, bStack) ==>
      |Keys(H, a)| == |Keys(H, b)| && forall k :: k in Keys(H, a) ==> Has(H, b, k)
  {
    assert aStack[..|aStack|] == aStack;
    if DeepEq(H, a, b, aStack, bStack) {
      var keys := Keys(H, a);
      EqKeysAll(H, a, b, keys, aStack + [a.addr], bStack + [b.addr], |keys|);
    }
  }

  /** Objects with unrelated constructors are not equal. */
  lemma ConstructorsDiffer(H: Heap, a: Value, b: Value, aStack: seq<nat>, bStack: seq<nat>)
    requires WellFormed(H) && ValidValue(H, a) && ValidValue(H, b) && |aStack| == |bStack|
    requires FreshPair(H, a, b, aStack)
    requires ClassOf(H, a) == ClassOf(H, b) == ObjectTag
    requires CtorsDiffer(CtorOf(H, a), CtorOf(H, b))
    ensures !DeepEq(H, a, b, aStack, bStack)
  {
    assert aStack[..|aStack|] == aStack;
  }

  /** An object already on the stack is taken as equal exactly when its partner is the one beside it. */
  lemma CycleDecidedByStack(H: Heap, a: Value, b: Value, aStack: seq<nat>, bStack: seq<nat>, i: nat)
    requires WellFormed(H) && ValidValue(H, a) && ValidValue(H, b) && |aStack| == |bStack|
    requires a.Ref? && b.Ref? && a.addr != b.addr
    requires ClassOf(H, a) == ClassOf(H, b) == ObjectTag
    requires i < |aStack| && aStack[i] == a.addr && forall j :: i < j < |aStack| ==> aStack[j] != a.addr
    ensures DeepEq(H, a, b, aStack, bStack) <==> bStack[i] == b.addr
  {
    assert aStack[..|aStack|] == aStack;
    var seen := StackMatch(aStack, bStack, a.addr, b.addr, |aStack|);
    assert a.addr in aStack[..|aStack|];
    var m :| 0 <= m < |aStack| && aStack[m] == a.addr && seen.value == (bStack[m] == b.addr) &&
      forall j :: m < j < |aStack| ==> aStack[j] != a.addr;
    assert m == i;
  }

  /** Two objects that each hold only themselves under `self` are equal: the cycle is closed by the stacks. */
  lemma SelfLoopsEqual()
    ensures var H: Heap := map[0 := Record(ObjectTag, None, ["self"], map["self" := Ref(0)]),
                               1 := Record(ObjectTag, None, ["self"], map["self" := Ref(1)])];
      WellFormed(H) && DeepEq(H, Ref(0), Ref(1), [], [])
  {
    var H: Heap := map[0 := Record(ObjectTag, None, ["self"], map["self" := Ref(0)]),
                       1 := Record(ObjectTag, None, ["self"], map["self" := Ref(1)])];
    assert ValidObj(H, H[0]) && ValidObj(H, H[1]);
    assert WellFormed(H);
    assert Keys(H, Ref(0)) == ["self"] && Keys(H, Ref(1)) == ["self"];
    assert Get(H, Ref(0), "self") == Ref(0) && Get(H, Ref(1), "self") == Ref(1);
    assert DeepEq(H, Ref(0), Ref(1), [0], [1]) by {
      CycleDecidedByStack(H, Ref(0), Ref(1), [0], [1], 0);
    }
    assert EqKeys(H, Ref(0), Ref(1), ["self"], [0], [1], 1);
  }

  /** A string equals the String wrapper around it. */
  lemma StringWrapperEqualsPrimitive()
    ensures var H: Heap := map[0 := Boxed(StringTag, Str("5"), None)];
      WellFormed(H) && DeepEq(H, Str("5"), Ref(0), [], [])
  {
    var H: Heap := map[0 := Boxed(StringTag, Str("5"), None)];
    assert ValidObj(H, H[0]);
  }
}
