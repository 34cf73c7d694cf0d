/**
 * `flattenInternal` and `flatten` of underscore.ts.
 *
 * The input is a tree: a list whose entries are plain values (atoms), arrays,
 * or `arguments` objects, nested to any depth. `isArray` holds only for
 * arrays; the loop treats arrays and `arguments` objects alike.
 */
module Flatten {

  datatype Item<T> = Atom(value: T) | Array(items: seq<Item<T>>) | Arguments(items: seq<Item<T>>)

  predicate IsList<T>(v: Item<T>) {
    v.Array? || v.Arguments?
  }

  /**
   * What the loop of `flattenInternal(input, shallow, strict, output)` appends
   * to `output`: for each entry in order, an atom itself (dropped when
   * `strict`), a nested list's entries (`shallow`) or its own flattening.
   */
  function Flat<T>(input: seq<Item<T>>, shallow: bool, strict: bool): seq<Item<T>>
    decreases input, 1
  {
    if |input| == 0 then []
    else Flat(input[..|input| - 1], shallow, strict) + Step(input[|input| - 1], shallow, strict)
  }

  /** What one entry contributes. */
  function Step<T>(v: Item<T>, shallow: bool, strict: bool): seq<Item<T>>
    decreases v, 0
  {
    match v
    case Atom(_) => if strict then [] else [v]
    case Array(items) => if shallow then items else Flat(items, shallow, strict)
    case Arguments(items) => if shallow then items else Flat(items, shallow, strict)
  }

  /** `concat.apply([], input)` for a list of arrays: their entries, one after the other. */
  function ConcatAll<T>(input: seq<Item<T>>): seq<Item<T>>
    requires forall i :: 0 <= i < |input| ==> input[i].Array?
  {
    if |input| == 0 then [] else ConcatAll(input[..|input| - 1]) + input[|input| - 1].items
  }

  /** The shallow fast path gives what the loop would: one level of nesting removed. */
  lemma {:induction false} FastPathAgrees<T>(input: seq<Item<T>>, strict: bool)
    requires forall i :: 0 <= i < |input| ==> input[i].Array?
    ensures ConcatAll(input) == Flat(input, true, strict)
  {
    if |input| > 0 {
      FastPathAgrees(input[..|input| - 1], strict);
    }
  }

  /**
   * `flattenInternal(input, shallow, strict, output)`: with `shallow` and every
   * entry an array it returns `output` concatenated with the arrays; otherwise
   * it pushes onto `output` entry by entry, recursing into nested lists unless
   * `shallow`. Either way the result is `output` followed by `Flat(input)`.
   */
  method FlattenInternal<T>(input: seq<Item<T>>, shallow: bool, strict: bool, output: seq<Item<T>>)
    returns (r: seq<Item<T>>)
    ensures r == output + Flat(input, shallow, strict)
    decreases input
  {
    if shallow && forall i :: 0 <= i < |input| ==> input[i].Array? {
      FastPathAgrees(input, strict);
      return output + ConcatAll(input);
    }
    r := output;
    for i := 0 to |input|
      invariant r == output + Flat(input[..i], shallow, strict)
    {
      var value := input[i];
      assert input[..i + 1][..i] == input[..i];
      ghost var before := r;
      if !IsList(value) {
        if !strict {
          r := r + [value];
        }
      } else if shallow {
        r := r + value.items;
      } else {
        r := FlattenInternal(value.items, shallow, strict, r);
      }
      assert r == before + Step(value, shallow, strict);
    }
    assert input[..|input|] == input;
  }

  /** `flatten(array, shallow)`: `flattenInternal(array, shallow, false, [])`. */
  method FlattenList<T>(list: seq<Item<T>>, shallow: bool) returns (r: seq<Item<T>>)
    ensures r == Flat(list, shallow, false)
  {
    r := FlattenInternal(list, shallow, false, []);
  }

  predicate AllAtoms<T>(s: seq<Item<T>>) {
    forall i :: 0 <= i < |s| ==> s[i].Atom?
  }

  lemma FlatAppend<T>(a: seq<Item<T>>, b: seq<Item<T>>, shallow: bool, strict: bool)
    ensures Flat(a + b, shallow, strict) == Flat(a, shallow, strict) + Flat(b, shallow, strict)
    decreases |b|
  {
    if |b| > 0 {
      assert (a + b)[..|a + b| - 1] == a + b[..|b| - 1];
      FlatAppend(a, b[..|b| - 1], shallow, strict);
    } else {
      assert a + b == a;
    }
  }

  /** A deep flatten leaves only atoms. */
  lemma {:induction false} DeepFlatIsAtoms<T>(input: seq<Item<T>>, strict: bool)
    ensures AllAtoms(Flat(input, false, strict))
    decreases input, 1
  {
    if |input| > 0 {
      DeepFlatIsAtoms(input[..|input| - 1], strict);
      DeepStepIsAtoms(input[|input| - 1], strict);
    }
  }

  lemma {:induction false} DeepStepIsAtoms<T>(v: Item<T>, strict: bool)
    ensures AllAtoms(Step(v, false, strict))
    decreases v, 0
  {
    match v
    case Atom(_) =>
    case Array(items) => DeepFlatIsAtoms(items, strict);
    case Arguments(items) => DeepFlatIsAtoms(items, strict);
  }

  /** A list of atoms is its own flattening (when atoms are kept). */
  lemma {:induction false} FlatOfAtoms<T>(s: seq<Item<T>>, shallow: bool)
    requires AllAtoms(s)
    ensures Flat(s, shallow, false) == s
  {
    if |s| > 0 {
      FlatOfAtoms(s[..|s| - 1], shallow);
      assert s == s[..|s| - 1] + [s[|s| - 1]];
    }
  }

  /** Deep flattening is idempotent. */
  lemma DeepFlattenIdempotent<T>(s: seq<Item<T>>)
    ensures Flat(Flat(s, false, false), false, false) == Flat(s, false, false)
  {
    DeepFlatIsAtoms(s, false);
    FlatOfAtoms(Flat(s, false, false), false);
  }

  /** With `strict` and no `shallow`, every atom is dropped, whatever the nesting. */
  lemma {:induction false} StrictDeepFlatIsEmpty<T>(input: seq<Item<T>>)
    ensures Flat(input, false, true) == []
    decreases input, 1
  {
    if |input| > 0 {
      StrictDeepFlatIsEmpty(input[..|input| - 1]);
      var v := input[|input| - 1];
      match v
      case Atom(_) =>
      case Array(items) => StrictDeepFlatIsEmpty(items);
      case Arguments(items) => StrictDeepFlatIsEmpty(items);
    }
  }
}
