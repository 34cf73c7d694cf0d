/**
 * The function-wrapping combinators of underscore.ts: `negate`, `compose` and `memoize`.
 *
 * JavaScript functions are Dafny function values. A function called through
 * `apply` receives its argument list, so it is modelled as `seq<A> -> A`.
 */
module Functions {
  import opened Wrappers

  /** The shape of a list predicate: (value, index, list) -> truthy. */
  type ListPredicate<!T> = (T, nat, seq<T>) -> bool

  /**
   * `negate(predicate)`: a predicate with the same signature whose answer is the
   * opposite one. The receiver forwarding (`predicate.call(this, ...)`) is dropped.
   */
  function Negate<T>(pred: ListPredicate<T>): ListPredicate<T>
  {
    (v: T, i: nat, l: seq<T>) => !pred(v, i, l)
  }

  /** The negated predicate answers the opposite, and negating twice answers like the original. */
  lemma NegateAnswers<T>(pred: ListPredicate<T>, v: T, i: nat, l: seq<T>)
    ensures Negate(pred)(v, i, l) == !pred(v, i, l)
    ensures Negate(Negate(pred))(v, i, l) == pred(v, i, l)
  {
  }

  // ---------------------------------------------------------------------------
  // compose

  /**
   * The argument list after the functions of `compose(f0, ..., fn-1)` have run on
   * the argument list `args`, right to left: fn-1 gets `args`, every earlier
   * function gets the one-element list holding the later one's result.
   */
  function Pipe<A>(functions: seq<seq<A> -> A>, args: seq<A>): (r: seq<A>)
    ensures |functions| > 0 ==> |r| == 1
    decreases |functions|
  {
    if |functions| == 0 then args else [functions[0](Pipe(functions[1..], args))]
  }

  /**
   * What the composed function returns: the first element of the final list,
   * undefined (None) when there is none (no functions and no arguments).
   */
  function Composed<A>(functions: seq<seq<A> -> A>, args: seq<A>): Option<A>
  {
    var r := Pipe(functions, args);
    if |r| == 0 then None else Some(r[0])
  }

  /** Composition is associative: running fs + gs is running fs on what gs gives. */
  lemma {:induction false} PipeAppend<A>(fs: seq<seq<A> -> A>, gs: seq<seq<A> -> A>, args: seq<A>)
    ensures Pipe(fs + gs, args) == Pipe(fs, Pipe(gs, args))
  {
    if |fs| == 0 {
      assert fs + gs == gs;
    } else {
      assert (fs + gs)[0] == fs[0];
      assert (fs + gs)[1..] == fs[1..] + gs;
      PipeAppend(fs[1..], gs, args);
    }
  }

  /** Composing a single function is calling it; composing nothing returns the first argument. */
  lemma ComposedBase<A>(f: seq<A> -> A, args: seq<A>)
    ensures Composed([f], args) == Some(f(args))
    ensures Composed([], args) == if |args| == 0 then None else Some(args[0])
  {
    assert [f][1..] == [];
    assert Pipe([f], args) == [f(args)];
  }

  /** One step of the loop: running functions[i..] is running functions[i] after functions[i+1..]. */
  lemma PipeStep<A>(functions: seq<seq<A> -> A>, args: seq<A>, i: nat)
    requires i < |functions|
    ensures Pipe(functions[i..], args) == [functions[i](Pipe(functions[i + 1..], args))]
  {
    assert functions[i..][0] == functions[i];
    assert functions[i..][1..] == functions[i + 1..];
  }

  /**
   * The loop inside the function `compose` returns, run on one call with the
   * argument list `args`, as the code is MEANT to be: `args` is the call's own
   * argument list.
   */
  method CallComposed<A>(functions: seq<seq<A> -> A>, args: seq<A>) returns (r: Option<A>)
    ensures r == Composed(functions, args)
  {
    var current := args;
    var i := |functions| - 1;
    while i >= 0
      invariant -1 <= i < |functions|
      invariant current == Pipe(functions[i + 1..], args)
    {
      PipeStep(functions, args, i);
      current := [functions[i](current)];
      i := i - 1;
    }
    assert functions[0..] == functions;
    r := if |current| == 0 then None else Some(current[0]);
  }

  /**
   * The same loop AS WRITTEN at underscore.ts:945, which seeds `args` with the
   * list of functions instead of the call's arguments. `asValue` says how a
   * function object appears when it is passed as an argument.
   */
  method CallComposedAsWritten<A>(functions: seq<seq<A> -> A>, asValue: (seq<A> -> A) -> A, args: seq<A>)
    returns (r: Option<A>)
    ensures r == Composed(functions, SeedAsWritten(functions, asValue))
  {
    r := CallComposed(functions, SeedAsWritten(functions, asValue));
  }

  /** The argument list the ported `compose` starts from: the functions themselves. */
  function SeedAsWritten<A>(functions: seq<seq<A> -> A>, asValue: (seq<A> -> A) -> A): (seed: seq<A>)
    ensures |seed| == |functions|
  {
    seq(|functions|, k requires 0 <= k < |functions| => asValue(functions[k]))
  }

  /**
   * The discrepancy: as written, composing the identity-on-first-argument
   * function gives a function that ignores its call's argument. On the argument
   * list [x] the intended composition returns x, the ported one returns the
   * function object itself.
   */
  lemma ComposeAsWrittenIgnoresArguments(x: int, f: seq<int> -> int, asValue: (seq<int> -> int) -> int)
    requires forall l: seq<int> :: |l| > 0 ==> f(l) == l[0]
    requires asValue(f) != x
    ensures Composed([f], [x]) == Some(x)
    ensures Composed([f], SeedAsWritten([f], asValue)) == Some(asValue(f))
    ensures Composed([f], SeedAsWritten([f], asValue)) != Composed([f], [x])
  {
    ComposedBase(f, [x]);
    ComposedBase(f, SeedAsWritten([f], asValue));
    assert SeedAsWritten([f], asValue)[0] == asValue(f);
  }

  // ---------------------------------------------------------------------------
  // memoize

  /**
   * The function `memoize(func, hashFn)` returns, with its mutable `cache`.
   * `A` is a call's argument list; `keyOf` is the property key the first
   * argument becomes when it indexes `cache` (the `key` parameter); `hashFn`,
   * when given, computes the address from the whole argument list.
   */
  class Memoized<A, R> {
    const func: A -> R
    const hashFn: Option<A -> string>
    const keyOf: A -> string
    var cache: map<string, R>
    /** How many times `func` has run: the point of memoizing. */
    ghost var invocations: nat

    /** The address a call stores its result under. */
    function Address(args: A): string {
      if hashFn.Some? then hashFn.value(args) else keyOf(args)
    }

    constructor (func: A -> R, hashFn: Option<A -> string>, keyOf: A -> string)
      ensures this.func == func && this.hashFn == hashFn && this.keyOf == keyOf
      ensures cache == map[] && invocations == 0
    {
      this.func := func;
      this.hashFn := hashFn;
      this.keyOf := keyOf;
      cache := map[];
      invocations := 0;
    }

    /**
     * One call as it is MEANT to be: store under the address, read back from the
     * same address. A second call with the same address does not run `func`.
     */
    method Call(args: A) returns (r: R)
      modifies this
      ensures Address(args) in old(cache) ==> cache == old(cache) && invocations == old(invocations)
      ensures Address(args) !in old(cache) ==>
        cache == old(cache)[Address(args) := func(args)] && invocations == old(invocations) + 1
      ensures r == cache[Address(args)]
      ensures Address(args) in old(cache) ==> r == old(cache)[Address(args)]
    {
      var address := Address(args);
      if address !in cache {
        cache := cache[address := func(args)];
        invocations := invocations + 1;
      }
      r := cache[address];
    }

    /**
     * The call AS WRITTEN at underscore.ts:819-821: it stores under `address`
     * but returns `cache[key]`, which is undefined when a hash function maps
     * the arguments elsewhere.
     */
    method CallAsWritten(args: A) returns (r: Option<R>)
      modifies this
      ensures Address(args) in old(cache) ==> cache == old(cache) && invocations == old(invocations)
      ensures Address(args) !in old(cache) ==>
        cache == old(cache)[Address(args) := func(args)] && invocations == old(invocations) + 1
      ensures r == Lookup(cache, keyOf(args))
    {
      var address := Address(args);
      if address !in cache {
        cache := cache[address := func(args)];
        invocations := invocations + 1;
      }
      r := Lookup(cache, keyOf(args));
    }
  }

  /** `cache[key]` on a JavaScript object: undefined when the key is absent. */
  function Lookup<R>(cache: map<string, R>, key: string): (r: Option<R>)
    ensures r.Some? <==> key in cache
    ensures r.Some? ==> r.value == cache[key]
  {
    if key in cache then Some(cache[key]) else None
  }

  /**
   * Calling the intended wrapper twice with the same arguments runs `func` at
   * most once, and both calls return the same value.
   */
  method CallTwice<A, R>(m: Memoized<A, R>, args: A) returns (first: R, second: R)
    modifies m
    ensures m.invocations <= old(m.invocations) + 1
    ensures first == second == m.func(args) || (m.Address(args) in old(m.cache) && first == second)
  {
    first := m.Call(args);
    second := m.Call(args);
  }

  /**
   * The discrepancy of the ported memoize: with a hash function that sends the
   * first call elsewhere than the first argument's key, the fresh cache is
   * filled but the call answers undefined.
   */
  method MemoizeAsWrittenLosesResult() returns (r: Option<int>)
    ensures r == None
  {
    var m := new Memoized<int, int>((x: int) => x + 1, Some((x: int) => "h"), (x: int) => "k");
    r := m.CallAsWritten(7);
    assert m.cache == map["h" := 8];
  }

  /** The intended memoize answers the computed value on that same call. */
  method MemoizeAnswersResult() returns (r: int)
    ensures r == 8
  {
    var m := new Memoized<int, int>((x: int) => x + 1, Some((x: int) => "h"), (x: int) => "k");
    r := m.Call(7);
  }
}
