/**
 * The dynamically typed JavaScript values underscore.ts works on, as far as
 * `flatten`, `compact`, the object helpers and `isEqual` observe them.
 *
 * Objects live in a finite heap and are referred to by address, so that
 * shared and cyclic object graphs can be written down. Numbers are the
 * integers plus NaN and negative zero (`Int(0)` is +0).
 */
module Js {
  import opened Wrappers

  /** A number: NaN, -0, or an integer (`Int(0)` is +0). */
  datatype Number = NaN | NegZero | Int(value: int)

  /** A primitive value or a reference to a heap object. */
  datatype Value = Undefined | Null | Bool(b: bool) | Num(n: Number) | Str(s: string) | Ref(addr: nat)

  /** The `[[Class]]` name `Object.prototype.toString` reports, as a tag. */
  datatype ClassTag =
    | ArrayTag | ArgumentsTag | FunctionTag | StringTag | NumberTag | BooleanTag
    | DateTag | RegExpTag | ObjectTag | OtherTag(name: string)

  /**
   * What the constructor test of `eq` sees of an object: `None` when
   * `'constructor' in obj` is false; otherwise which constructor it is (`id`,
   * identity of the function value) and whether that constructor is a
   * function that is an instance of itself (`Object`, `Function`).
   */
  datatype Ctor = Ctor(id: nat, selfInstance: bool)

  /**
   * A heap object:
   * - an array, by its elements;
   * - a wrapper (`new String`, `new Number`, `new Boolean`), a Date (its time
   *   value) or a RegExp (its source text, as `'' + re` shows it), by its
   *   class tag and primitive value;
   * - any other object (plain objects, `arguments`, functions, ...) by its
   *   class tag, its own enumerable keys in enumeration order, and all of its
   *   own properties.
   */
  datatype Obj =
    | ArrayObj(elems: seq<Value>, ctor: Option<Ctor>)
    | Boxed(tag: ClassTag, prim: Value, ctor: Option<Ctor>)
    | Record(tag: ClassTag, ctor: Option<Ctor>, keys: seq<string>, props: map<string, Value>)

  type Heap = map<nat, Obj>

  // ---------------------------------------------------------------------------
  // Well-formedness

  ghost predicate ValidValue(H: Heap, v: Value) {
    v.Ref? ==> v.addr in H
  }

  /** The primitive a wrapper holds has the kind its class tag says. */
  predicate BoxedShape(tag: ClassTag, prim: Value) {
    match tag
    case StringTag => prim.Str?
    case RegExpTag => prim.Str?
    case NumberTag => prim.Num?
    case DateTag => prim.Num?
    case BooleanTag => prim.Bool?
    case _ => false
  }

  predicate Distinct<T(==)>(s: seq<T>) {
    forall i, j :: 0 <= i < j < |s| ==> s[i] != s[j]
  }

  ghost predicate ValidObj(H: Heap, o: Obj) {
    match o
    case ArrayObj(elems, _) => forall i :: 0 <= i < |elems| ==> ValidValue(H, elems[i])
    case Boxed(tag, prim, _) => BoxedShape(tag, prim)
    case Record(tag, _, keys, props) =>
      tag !in {ArrayTag, StringTag, NumberTag, BooleanTag, DateTag, RegExpTag} &&
      Distinct(keys) && (forall i :: 0 <= i < |keys| ==> keys[i] in props) &&
      (forall k :: k in props ==> ValidValue(H, props[k]))
  }

  /** Every reference inside every object points into the heap. */
  ghost predicate WellFormed(H: Heap) {
    forall a :: a in H ==> ValidObj(H, H[a])
  }

  // ---------------------------------------------------------------------------
  // Primitive operations

  predicate IsZero(n: Number) {
    n == NegZero || n == Int(0)
  }

  /** `===` on numbers: NaN equals nothing, the two zeros are equal. */
  predicate NumberStrictEquals(x: Number, y: Number) {
    match (x, y)
    case (Int(v), Int(w)) => v == w
    case _ => !x.NaN? && !y.NaN? && IsZero(x) && IsZero(y)
  }

  /** `a === b`: references by identity, numbers as above, other primitives by value. */
  predicate StrictEquals(a: Value, b: Value) {
    if a.Num? && b.Num? then NumberStrictEquals(a.n, b.n) else a == b
  }

  /** `a === b` is Dafny equality except on NaN and on the pair of zeros. */
  lemma StrictEqualsIsEqualityExceptNumbers(a: Value, b: Value)
    ensures !a.Num? || !b.Num? ==> (StrictEquals(a, b) <==> a == b)
    ensures StrictEquals(Num(NaN), Num(NaN)) == false
    ensures StrictEquals(Num(NegZero), Num(Int(0)))
    ensures StrictEquals(a, b) == StrictEquals(b, a)
    ensures a != Num(NaN) && !(a.Num? && a.n == NegZero) ==> StrictEquals(a, a)
  {
  }

  /** `a == null`: true exactly for `undefined` and `null`. */
  predicate IsNullish(v: Value) {
    v.Undefined? || v.Null?
  }

  /** JavaScript truthiness: false, 0, -0, NaN, "", null and undefined are falsy. */
  predicate Truthy(v: Value) {
    match v
    case Undefined => false
    case Null => false
    case Bool(b) => b
    case Num(n) => !n.NaN? && !IsZero(n)
    case Str(s) => s != ""
    case Ref(_) => true
  }

  /** `isObject(obj)`, i.e. `obj === Object(obj)`: true exactly for references. */
  predicate IsObject(v: Value) {
    v.Ref?
  }

  /** The object a reference points to; a dangling one reads as an empty plain object. */
  function ObjAt(H: Heap, a: nat): Obj {
    if a in H then H[a] else Record(ObjectTag, None, [], map[])
  }

  function TagOfObj(o: Obj): ClassTag {
    match o
    case ArrayObj(_, _) => ArrayTag
    case Boxed(tag, _, _) => tag
    case Record(tag, _, _, _) => tag
  }

  /** `toString.call(v)` as a tag, for a value that is not null or undefined. */
  function ClassOf(H: Heap, v: Value): ClassTag {
    match v
    case Bool(_) => BooleanTag
    case Num(_) => NumberTag
    case Str(_) => StringTag
    case Ref(a) => TagOfObj(ObjAt(H, a))
    case _ => OtherTag(if v.Null? then "Null" else "Undefined")
  }

  /** `typeof v == 'object'` for a value that is not null. */
  predicate TypeofObject(H: Heap, v: Value) {
    v.Ref? && ClassOf(H, v) != FunctionTag
  }

  // ---------------------------------------------------------------------------
  // Decimal strings and property keys

  function DigitChar(d: nat): char
    requires d < 10
  {
    "0123456789"[d]
  }

  /** The decimal representation of a natural number, without leading zeros. */
  function NatToString(n: nat): (r: string)
    ensures |r| > 0
    ensures forall i :: 0 <= i < |r| ==> '0' <= r[i] <= '9'
    ensures r[0] == '0' ==> n == 0
    decreases n
  {
    if n < 10 then [DigitChar(n)] else NatToString(n / 10) + [DigitChar(n % 10)]
  }

  /** The value of a string of decimal digits. */
  function DigitsValue(s: string): nat
    requires forall i :: 0 <= i < |s| ==> '0' <= s[i] <= '9'
  {
    if |s| == 0 then 0 else DigitsValue(s[..|s| - 1]) * 10 + (s[|s| - 1] - '0') as nat
  }

  /**
   * Reads a property key as an array index: a non-empty digit string without
   * a superfluous leading zero.
   */
  function ParseIndex(key: string): Option<nat> {
    if |key| > 0 && (forall i :: 0 <= i < |key| ==> '0' <= key[i] <= '9') && (key[0] != '0' || |key| == 1)
    then Some(DigitsValue(key))
    else None
  }

  /** Index keys round-trip: the key an index becomes reads back as that index. */
  lemma {:induction false} DigitsValueOfNatToString(n: nat)
    ensures DigitsValue(NatToString(n)) == n
    decreases n
  {
    if n >= 10 {
      DigitsValueOfNatToString(n / 10);
      var r := NatToString(n);
      assert r[..|r| - 1] == NatToString(n / 10);
    }
  }

  lemma ParseIndexOfNatToString(n: nat)
    ensures ParseIndex(NatToString(n)) == Some(n)
  {
    DigitsValueOfNatToString(n);
  }

  /** Different indices are different keys. */
  lemma NatToStringInjective(m: nat, n: nat)
    ensures NatToString(m) == NatToString(n) ==> m == n
  {
    ParseIndexOfNatToString(m);
    ParseIndexOfNatToString(n);
  }

  function IntToString(n: int): string {
    if n < 0 then "-" + NatToString(-n) else NatToString(n)
  }

  function TagName(tag: ClassTag): string {
    match tag
    case ArrayTag => "Array"
    case ArgumentsTag => "Arguments"
    case FunctionTag => "Function"
    case StringTag => "String"
    case NumberTag => "Number"
    case BooleanTag => "Boolean"
    case DateTag => "Date"
    case RegExpTag => "RegExp"
    case ObjectTag => "Object"
    case OtherTag(name) => name
  }

  /** `String(v)` of a primitive. */
  function PrimitiveKey(v: Value): string
    requires !v.Ref?
  {
    match v
    case Undefined => "undefined"
    case Null => "null"
    case Bool(b) => if b then "true" else "false"
    case Num(n) => (match n case NaN => "NaN" case NegZero => "0" case Int(i) => IntToString(i))
    case Str(s) => s
  }

  /**
   * The property key a value becomes when it indexes an object
   * (`result[value]`), i.e. `String(value)`:
   * - an array joins its elements' strings with commas, null and undefined
   *   elements giving the empty string, and an array met again inside itself
   *   giving the empty string too (`seen` holds the arrays being joined);
   * - a `String`, `Number` or `Boolean` wrapper gives the string of its
   *   primitive, and a RegExp its source text;
   * - any other object gives `"[object <Class>]"`, the default `toString`.
   */
  function ToKeyIn(H: Heap, v: Value, seen: set<nat>): string
    decreases H.Keys - seen, 0
  {
    match v
    case Ref(a) =>
      if a !in H then "[object Object]"
      else if a in seen then ""
      else (match H[a]
        case ArrayObj(elems, _) => JoinKeys(H, elems, seen + {a})
        case Boxed(tag, prim, _) =>
          if tag in {StringTag, NumberTag, BooleanTag, RegExpTag} && !prim.Ref? then PrimitiveKey(prim)
          else "[object " + TagName(tag) + "]"
        case Record(tag, _, _, _) => "[object " + TagName(tag) + "]")
    case _ => PrimitiveKey(v)
  }

  /** `elems.join(",")`: each element's string, the empty string for null and undefined. */
  function JoinKeys(H: Heap, elems: seq<Value>, seen: set<nat>): string
    decreases H.Keys - seen, 1, |elems|
  {
    if |elems| == 0 then ""
    else
      var last := elems[|elems| - 1];
      var key := if IsNullish(last) then "" else ToKeyIn(H, last, seen);
      if |elems| == 1 then key else JoinKeys(H, elems[..|elems| - 1], seen) + "," + key
  }

  /** `String(v)`, the key `result[v]` writes to. */
  function ToKey(H: Heap, v: Value): string {
    ToKeyIn(H, v, {})
  }

  /** A `String`, `Number` or `Boolean` wrapper is keyed as its primitive: `String(new Number(5))` is `"5"`. */
  lemma WrapperKeyIsPrimitiveKey(H: Heap, a: nat)
    requires a in H && H[a].Boxed? && H[a].tag in {StringTag, NumberTag, BooleanTag} && !H[a].prim.Ref?
    ensures ToKey(H, Ref(a)) == ToKey(H, H[a].prim)
  {
  }

  /** `String([1, 2])` is `"1,2"`, and `String([null, 3])` is `",3"`. */
  lemma ArrayKeyJoins()
    ensures ToKey(map[0 := ArrayObj([Num(Int(1)), Num(Int(2))], None)], Ref(0)) == "1,2"
    ensures ToKey(map[0 := ArrayObj([Null, Num(Int(3))], None)], Ref(0)) == ",3"
  {
    var H1 := map[0 := ArrayObj([Num(Int(1)), Num(Int(2))], None)];
    assert IntToString(1) == "1" && IntToString(2) == "2";
    assert ToKeyIn(H1, Num(Int(2)), {0}) == "2" && ToKeyIn(H1, Num(Int(1)), {0}) == "1";
    assert [Num(Int(1)), Num(Int(2))][..1] == [Num(Int(1))];
    assert JoinKeys(H1, [Num(Int(1))], {0}) == "1";
    assert JoinKeys(H1, [Num(Int(1)), Num(Int(2))], {0}) == "1" + "," + "2";
    var none: set<nat> := {};
    assert none + {0} == {0};
    assert ToKey(H1, Ref(0)) == JoinKeys(H1, [Num(Int(1)), Num(Int(2))], {0});
    var H2 := map[0 := ArrayObj([Null, Num(Int(3))], None)];
    assert IntToString(3) == "3";
    assert ToKeyIn(H2, Num(Int(3)), {0}) == "3";
    assert [Null, Num(Int(3))][..1] == [Null];
    assert JoinKeys(H2, [Null], {0}) == "";
    assert JoinKeys(H2, [Null, Num(Int(3))], {0}) == "" + "," + "3";
    assert ToKey(H2, Ref(0)) == JoinKeys(H2, [Null, Num(Int(3))], {0});
  }

  /** An array that holds itself is the empty string where it meets itself: `a = [1]; a.push(a)` gives `"1,"`. */
  lemma CyclicArrayKey()
    ensures ToKey(map[0 := ArrayObj([Num(Int(1)), Ref(0)], None)], Ref(0)) == "1,"
  {
    var H := map[0 := ArrayObj([Num(Int(1)), Ref(0)], None)];
    assert IntToString(1) == "1";
    assert ToKeyIn(H, Num(Int(1)), {0}) == "1" && ToKeyIn(H, Ref(0), {0}) == "";
    assert [Num(Int(1)), Ref(0)][..1] == [Num(Int(1))];
    assert JoinKeys(H, [Num(Int(1))], {0}) == "1";
    assert JoinKeys(H, [Num(Int(1)), Ref(0)], {0}) == "1" + "," + "";
    var none: set<nat> := {};
    assert none + {0} == {0};
    assert ToKey(H, Ref(0)) == JoinKeys(H, [Num(Int(1)), Ref(0)], {0});
  }

  /** The keys "0", "1", ..., "n-1". */
  function IndexKeys(n: nat): (r: seq<string>)
    ensures |r| == n && forall i :: 0 <= i < n ==> r[i] == NatToString(i)
  {
    seq(n, i requires 0 <= i < n => NatToString(i))
  }

  /**
   * `keys(obj)`: `[]` for a non-object, otherwise its own enumerable keys
   * (`Object.keys`): the indices of an array or a String wrapper, the listed
   * keys of any other object.
   */
  function Keys(H: Heap, v: Value): (r: seq<string>)
    ensures !v.Ref? ==> r == []
    ensures v.Ref? && ObjAt(H, v.addr).ArrayObj? ==> |r| == |ObjAt(H, v.addr).elems|
  {
    if !v.Ref? then []
    else match ObjAt(H, v.addr)
      case ArrayObj(elems, _) => IndexKeys(|elems|)
      case Boxed(tag, prim, _) => if tag == StringTag && prim.Str? then IndexKeys(|prim.s|) else []
      case Record(_, _, keys, _) => keys
  }

  /**
   * The keys `for (key in v)` enumerates: those of `keys(v)` for an object,
   * the indices of a string primitive, none for other primitives.
   */
  function ForInKeys(H: Heap, v: Value): seq<string> {
    if v.Str? then IndexKeys(|v.s|) else Keys(H, v)
  }

  /** `has(obj, key)`: not null, and `key` is an own property. */
  predicate Has(H: Heap, v: Value, key: string): (r: bool)
    ensures r ==> v.Str? || v.Ref?
    ensures v.Ref? && ObjAt(H, v.addr).Record? ==> (r <==> key in ObjAt(H, v.addr).props)
  {
    !IsNullish(v) && match v
      case Str(s) => key == "length" || (ParseIndex(key).Some? && ParseIndex(key).value < |s|)
      case Ref(a) => (match ObjAt(H, a)
        case ArrayObj(elems, _) => key == "length" || (ParseIndex(key).Some? && ParseIndex(key).value < |elems|)
        case Boxed(tag, prim, _) => tag == StringTag && prim.Str? &&
          (key == "length" || (ParseIndex(key).Some? && ParseIndex(key).value < |prim.s|))
        case Record(_, _, _, props) => key in props)
      case _ => false
  }

  /** The own property `key` of a sequence-like value: an element, its length, or undefined. */
  function IndexedGet<T>(items: seq<T>, key: string, wrap: T -> Value): Value {
    var idx := ParseIndex(key);
    if idx.Some? && idx.value < |items| then wrap(items[idx.value])
    else if key == "length" then Num(Int(|items|))
    else Undefined
  }

  /** `v[key]` on own properties (the prototype chain is not modelled: other keys read undefined). */
  function Get(H: Heap, v: Value, key: string): (r: Value)
    ensures !v.Str? && !v.Ref? ==> r == Undefined
  {
    match v
    case Str(s) => IndexedGet(s, key, (c: char) => Str([c]))
    case Ref(a) => (match ObjAt(H, a)
      case ArrayObj(elems, _) => IndexedGet(elems, key, (e: Value) => e)
      case Boxed(tag, prim, _) =>
        if tag == StringTag && prim.Str? then IndexedGet(prim.s, key, (c: char) => Str([c])) else Undefined
      case Record(_, _, _, props) => if key in props then props[key] else Undefined)
    case _ => Undefined
  }

  /** A read that is not undefined is of an own property. */
  lemma GetDefinedIsOwn(H: Heap, v: Value, key: string)
    ensures Get(H, v, key) != Undefined ==> Has(H, v, key)
  {
  }

  /** Every key `keys` lists is an own property, and reading it gives the listed value. */
  lemma KeysAreOwn(H: Heap, v: Value, i: nat)
    requires WellFormed(H) && ValidValue(H, v)
    requires i < |Keys(H, v)|
    ensures Has(H, v, Keys(H, v)[i])
    ensures v.Ref? && ObjAt(H, v.addr).ArrayObj? ==> Get(H, v, Keys(H, v)[i]) == ObjAt(H, v.addr).elems[i]
  {
    if ObjAt(H, v.addr).ArrayObj? || ObjAt(H, v.addr).Boxed? {
      ParseIndexOfNatToString(i);
    }
  }

  /** `contains(list, value)` on values: some element is `===` to it. */
  predicate ContainsStrict(list: seq<Value>, v: Value) {
    exists i :: 0 <= i < |list| && StrictEquals(list[i], v)
  }
}
