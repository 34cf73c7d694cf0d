# Underscore.js collection library and the Richards scheduler, in Dafny

This project models two programs and proves properties of the models.

- **Underscore.js 1.6.0, as ported to TypeScript** (`benchmarks/underscore/underscore.ts`).
  - The iteration engine, `each` with its `breaker` sentinel, and the functions built on it: `map`, `reduce`, `reduceRight`, `filter`, `reject`, `every`, `some`, `find`, `contains`, `partition`.
  - The `group` combinator and its three behaviours: `groupBy`, `indexBy`, `countBy`.
  - Searching: `sortedIndex`, `indexOf`, `lastIndexOf`.
  - Ordering: `max`, `min`, `shuffle`, `sample`, `sortBy`.
  - Array functions: the slicing family, `compact`, `flatten`, `uniq`, `union`, `intersection`, `difference`, `without`, `object`, `range`.
  - Object helpers: `keys`, `values`, `pairs`, `invert`, `extend`, `defaults`, `has`, `isEmpty`, `matches`, `size`, `property`, `times`.
  - Function combinators: `negate`, `compose`, `memoize`.
  - The deep comparison `eq`/`isEqual`, which detects cycles with two traversal stacks.
- **The Richards benchmark, as ported to TypeScript** (`tests/pos/todo/pldi16/octane/richards-typed-octane.ts`).
  - A scheduler keeps task control blocks in a list, and in a table indexed by task id.
  - Tasks exchange work packets along singly linked queues.
  - The scheduler counts every `queue` and every `holdCurrent`.

One module models each part of the library:

| file | module | models |
|---|---|---|
| `wrappers.dfy` | `Wrappers` | `Option` (for undefined/null results) and `Result` (for thrown errors) |
| `functions.dfy` | `Functions` | callback shapes, `negate`, `compose`, `memoize` |
| `collections.dfy` | `Collections` | `each` and the collection functions built on it |
| `search.dfy` | `Search` | the searching functions |
| `grouping.dfy` | `Grouping` | `group` and its three behaviours |
| `ordering.dfy` | `Ordering` | `max`/`min`, `shuffle`/`sample`, `sortBy` |
| `js.dfy` | `Js` | dynamically typed values; objects live in a heap map, so cyclic graphs can be written down |
| `flatten.dfy` | `Flatten` | `flattenInternal`, `flatten` |
| `arrays.dfy` | `Arrays` | slicing, set algebra, `object`, `range` |
| `objects.dfy` | `Objects` | the object helpers; `extend`/`defaults` write into an `ObjectStore` heap |
| `equality.dfy` | `Equality` | `eq`/`isEqual` |
| `richards.dfy` | `Richards` | the scheduler, control blocks, tasks and packets, as classes |

How the model represents the library:
- Callbacks are pure Dafny function values. The `context` argument is dropped.
- A list that the code tests against `null` is an `Option<seq<T>>`.
- Loops that the source writes as callbacks into `each` are `while`/`for` loops. Each such loop is proved against a reference function over sequences, and the properties are proved about that function.
- Some parts of the port call library members through `this` from inside a nested callback, where `this` is not the library object. The model makes the library calls those lines are meant to make. The cases are:
  - `this.random`, `this.has` and `this.contains`;
  - `this.lookupIterator` and `this.each` in the function that `group` returns (lines 444-445), which `groupBy`, `indexBy` and `countBy` call unbound (lines 457, 463, 470);
  - `this.isEmpty` in the predicate that `matches` returns (line 1303).
  As written, these calls would throw.
- The deep comparison is split in two:
  - `Equality.DeepEq` is the comparison as a function of the heap and the two stacks.
  - `Equality.EqualityChecker.Eq` is the procedure itself. It pushes and pops stacks held in fields, and is proved to compute `DeepEq` and to leave both stacks as it found them.
  - `eq` recurses only after pushing an address that was not on `aStack`, so it also terminates on cyclic graphs. The measure is the set of heap addresses not on `aStack`.

How the model represents Richards:
- Every class of the port is a Dafny class with the same fields.
- Each packet queue is paired with a ghost sequence of its nodes (`Richards.Chain`).
- The block list carries its nodes in a ghost constant. A block's `link` never changes once it is built.
- The port stubs out the state bits, and the model keeps the stubs exactly:
  - the setters assign the state to itself;
  - `isHeldOrSuspended` answers true.
- Consequently `schedule` only walks the list of blocks and never runs a task, and `runRichards` ends with both counters at 0.

## Model

| member | source | states |
|---|---|---|
| Collections.FirstWhere | benchmarks/underscore/underscore.ts:228-240 | the index `find`/`some` stop at: at or after `from`, its element passes, and none before it does; the length when none passes |
| Collections.FirstWhereIsFirst | benchmarks/underscore/underscore.ts:228-240 | a passing index with no passing index before it is exactly the one `FirstWhere` finds |
| Collections.Each | benchmarks/underscore/underscore.ts:124-140 | returns the list itself; null makes no call; otherwise the callback runs on indices 0, 1, … in order; every call but the last returned something other than `breaker`, and stopping early means the last call returned `breaker` |
| Collections.Map | benchmarks/underscore/underscore.ts:148-156 | the result has the input's length, and entry i is the callback applied to element i; null gives `[]` |
| Collections.Reduce | benchmarks/underscore/underscore.ts:166-180 | with a seed, the left fold from the seed; without one on a non-empty list, the left fold from index 1 seeded with element 0; without one on null or `[]`, the TypeError "Reduce of empty array with no initial value" |
| Collections.ReduceRight | benchmarks/underscore/underscore.ts:198-219 | the mirror of `reduce`: folds from the last index down to 0, seeded without a seed by the last element, and throws the same TypeError on null or `[]` without a seed |
| Collections.FoldRightIsFoldLeftOfReverse | benchmarks/underscore/underscore.ts:198-219 | for a callback that ignores index and list, folding from the right is folding the reversed list from the left |
| Collections.SelectMembers | benchmarks/underscore/underscore.ts:248-256 | an element is filtered in iff it sits at a position whose element passes |
| Collections.SelectAll | benchmarks/underscore/underscore.ts:248-256 | when every element passes, `filter` keeps all of them, in order |
| Collections.SelectComplement | benchmarks/underscore/underscore.ts:510-517 | two predicates that disagree everywhere split the input between them, counted with multiplicity |
| Collections.MultisetStep | benchmarks/underscore/underscore.ts:510-517 | one more element on either side of a split is one more element of the whole |
| Collections.SelectPartition | benchmarks/underscore/underscore.ts:264-266 | the elements passing a predicate and those passing its negation together are the input, as a multiset |
| Collections.Filter | benchmarks/underscore/underscore.ts:248-256 | the elements passing the predicate, in input order; `[]` on null |
| Collections.Reject | benchmarks/underscore/underscore.ts:264-266 | the elements failing the predicate, in input order; `[]` on null |
| Collections.FilterRejectSplit | benchmarks/underscore/underscore.ts:248-266 | what `filter` keeps and what `reject` keeps together are exactly the input, as a multiset |
| Collections.Partition | benchmarks/underscore/underscore.ts:510-517 | `pass` is what `filter` keeps and `fail` is what `reject` keeps, and together they are the input as a multiset; both are `[]` on null |
| Collections.Every | benchmarks/underscore/underscore.ts:270-279 | true on null; otherwise true iff every element passes; the predicate is called up to and including the first failing element |
| Collections.Any | benchmarks/underscore/underscore.ts:287-296 | false on null; otherwise true iff some element passes; the predicate is called up to and including the first passing element |
| Collections.Find | benchmarks/underscore/underscore.ts:228-240 | the first passing element, or undefined; the predicate is called up to and including that element |
| Collections.FindIsFirstFiltered | benchmarks/underscore/underscore.ts:228-256 | `find` finds something iff `filter` keeps something, and it finds the first element `filter` keeps |
| Search.SortedIndex | benchmarks/underscore/underscore.ts:479-488 | returns `low` with 0 ≤ low ≤ length; on an ascending list every element before `low` scores below the value and every element from `low` on scores at least the value |
| Search.StartIndex | benchmarks/underscore/underscore.ts:716-729 | where `indexOf` starts scanning: the given index, or that many positions from the end when negative, clamped at 0 |
| Search.IndexOf | benchmarks/underscore/underscore.ts:716-729 | -1 on null; otherwise the first position at or after the start holding the value, or -1 when no position from the start holds it |
| Search.IndexOfSorted | benchmarks/underscore/underscore.ts:716-729 | with `isSorted` on an ascending list: -1 iff the value is absent, and otherwise its first position |
| Search.LastIndexOf | benchmarks/underscore/underscore.ts:731-736 | the last position below the start (the length when `from` is absent, `from` when it is at least 0, a negative `from` counted back from the end) holding the value, or -1 when there is none; -1 on null |
| Search.LastStart | benchmarks/underscore/underscore.ts:733 | the start of the downward scan: the length, a non-negative `from`, or a negative `from` counted from the end and never below 0 |
| Search.LastIndexOfAsWritten | benchmarks/underscore/underscore.ts:733-735 | the loop `while (i--)` as written, within a number of turns: when it stops it answers -1 or a position below the start that holds the value |
| Search.NegativeFromNeverStops | benchmarks/underscore/underscore.ts:733-734 | with a negative `from` the loop as written has not stopped after any number of turns |
| Search.NonNegativeFromStops | benchmarks/underscore/underscore.ts:733-734 | with a `from` of at least 0 the loop as written stops within `from + 1` turns |
| Search.Contains | benchmarks/underscore/underscore.ts:305-309 | true iff the list is not null and holds the value |
| Grouping.Group | benchmarks/underscore/underscore.ts:442-452 | the result object is the behaviour folded over the elements in order, each under its computed key; `{}` on null |
| Grouping.BucketStep | benchmarks/underscore/underscore.ts:442-452 | one more element grows the bucket of its own key by that element and leaves every other bucket as it was |
| Grouping.OwnBucket | benchmarks/underscore/underscore.ts:442-452 | every element is in the bucket of its own key |
| Grouping.GroupByBuckets | benchmarks/underscore/underscore.ts:456-458 | under the append behaviour a key is present iff its bucket is non-empty, and it holds the bucket: the elements with that key, in input order |
| Grouping.IndexByBuckets | benchmarks/underscore/underscore.ts:462-464 | under the overwrite behaviour a key is present iff its bucket is non-empty, and it holds the bucket's last element |
| Grouping.CountByBuckets | benchmarks/underscore/underscore.ts:469-471 | under the count behaviour a key is present iff its bucket is non-empty, and it holds the bucket's size |
| Grouping.GroupBy | benchmarks/underscore/underscore.ts:456-458 | every key maps to the elements with that key, in input order, and no other key is present |
| Grouping.IndexBy | benchmarks/underscore/underscore.ts:462-464 | every key maps to the last element with that key, and no other key is present |
| Grouping.CountBy | benchmarks/underscore/underscore.ts:469-471 | every key maps to the number of elements with that key, and no other key is present |
| Ordering.Max | benchmarks/underscore/underscore.ts:343-364 | none (`-Infinity`) iff the list is null or empty; otherwise an element with the highest score, the first such on ties |
| Ordering.Min | benchmarks/underscore/underscore.ts:369-390 | none (`Infinity`) iff the list is null or empty; otherwise an element with the lowest score, the first such on ties |
| Ordering.MaxOfNumbers | benchmarks/underscore/underscore.ts:346-353 | without an iterator, an element of the list that is at least every element; none iff the list is empty |
| Ordering.MinOfNumbers | benchmarks/underscore/underscore.ts:372-379 | without an iterator, an element of the list that is at most every element; none iff the list is empty |
| Ordering.InsideOut | benchmarks/underscore/underscore.ts:394-404 | after n steps of the inside-out shuffle the array has length n |
| Ordering.InsideOutPermutes | benchmarks/underscore/underscore.ts:394-404 | for any draws with `random(i)` in [0, i], the shuffle of the first n elements is a permutation of them |
| Ordering.InsideOutIdentity | benchmarks/underscore/underscore.ts:394-404 | drawing i at every step i leaves the order as it was |
| Ordering.Shuffle | benchmarks/underscore/underscore.ts:394-404 | the loop computes the inside-out shuffle, which has the input's length and is a permutation of it; `[]` on null |
| Ordering.SampleOne | benchmarks/underscore/underscore.ts:411-417 | without a count, undefined iff the list is empty, and otherwise an element of the list |
| Ordering.SampleN | benchmarks/underscore/underscore.ts:411-417 | with a count n, the first max(0, min(n, length)) elements of the shuffle, so a sub-multiset of the input |
| Ordering.PrefixSubMultiset | benchmarks/underscore/underscore.ts:416 | a prefix of the shuffle holds no element more often than the input |
| Ordering.CompareMeansPrecedes | benchmarks/underscore/underscore.ts:430-437 | the `sortBy` comparator is negative iff the left entry precedes (ascending criteria, undefined last, then original index), positive iff the right precedes, and zero only for equal criteria and index |
| Ordering.Insert | benchmarks/underscore/underscore.ts:430-438 | inserting an entry adds exactly that entry to the multiset |
| Ordering.SortEntries | benchmarks/underscore/underscore.ts:430-438 | the sort is a permutation of the entries |
| Ordering.InsertSorted | benchmarks/underscore/underscore.ts:430-438 | inserting an entry with a new index into a sorted list keeps it sorted |
| Ordering.SortEntriesSorted | benchmarks/underscore/underscore.ts:430-438 | entries with distinct indices come out sorted |
| Ordering.SortBy | benchmarks/underscore/underscore.ts:422-439 | the result is a permutation of the input, witnessed by a one-to-one index map; it ascends by criterion with undefined criteria last, and equal criteria keep their input order (stable) |
| Ordering.SortDecorated | benchmarks/underscore/underscore.ts:425-438 | sorting the decorated entries keeps their number, every sorted entry is the decoration of the input element at its own index, and the order is the comparator's |
| Ordering.Values | benchmarks/underscore/underscore.ts:424-439 | plucking `value` keeps the length and reads each entry's value |
| Ordering.Indexes | benchmarks/underscore/underscore.ts:424-439 | the input index of each entry, position by position |
| Ordering.SortByOrders | benchmarks/underscore/underscore.ts:422-439 | the values and indexes of the sorted decoration meet the whole `sortBy` promise: one-to-one index map, ascending criteria with undefined last, stable |
| Functions.NegateAnswers | benchmarks/underscore/underscore.ts:934-938 | the negated predicate answers the opposite, and negating twice answers like the original |
| Functions.Pipe | benchmarks/underscore/underscore.ts:946-948 | after at least one function has run, the argument list holds exactly one value |
| Functions.PipeAppend | benchmarks/underscore/underscore.ts:942-951 | composition is associative: running fs after gs is running the concatenation |
| Functions.PipeStep | benchmarks/underscore/underscore.ts:946-948 | one loop step: the suffix from i runs function i on the result of the suffix from i+1 |
| Functions.ComposedBase | benchmarks/underscore/underscore.ts:942-951 | composing one function is calling it; composing none returns the first argument, or undefined |
| Functions.CallComposed | benchmarks/underscore/underscore.ts:944-950 | the composed function, seeded with its call's arguments as intended, returns the composition of the functions, right to left |
| Functions.CallComposedAsWritten | benchmarks/underscore/underscore.ts:944-950 | the composed function as written runs the functions on the list of functions instead of on its arguments |
| Functions.SeedAsWritten | benchmarks/underscore/underscore.ts:945 | the as-written seed holds one value per function |
| Functions.ComposeAsWrittenIgnoresArguments | benchmarks/underscore/underscore.ts:945 | on `[x]`, the intended composition of a first-argument function returns x, while the ported one returns the function object |
| Functions.Memoized.constructor | benchmarks/underscore/underscore.ts:823-824 | the cache starts empty |
| Functions.Memoized.Call | benchmarks/underscore/underscore.ts:817-822 | as intended: a cached address leaves the cache and the call count alone and answers the cached value; a new address runs `func` once and caches its result; the answer is the cache entry at the address |
| Functions.Memoized.CallAsWritten | benchmarks/underscore/underscore.ts:817-822 | as written: the cache is updated as above, but the answer is `cache[key]` (undefined when absent) instead of `cache[address]` |
| Functions.Lookup | benchmarks/underscore/underscore.ts:821 | reading `cache[key]` answers a value iff the key is cached, and then the cached value |
| Functions.CallTwice | benchmarks/underscore/underscore.ts:817-822 | two calls with the same arguments run `func` at most once and answer the same value |
| Functions.MemoizeAsWrittenLosesResult | benchmarks/underscore/underscore.ts:819-821 | the ported memoize with a hash function answers undefined on its first call |
| Functions.MemoizeAnswersResult | benchmarks/underscore/underscore.ts:819-821 | on the same call, the intended memoize answers the computed value |
| Flatten.FastPathAgrees | benchmarks/underscore/underscore.ts:589-591 | when every entry is an array, the shallow `concat` fast path gives what the loop gives |
| Flatten.FlattenInternal | benchmarks/underscore/underscore.ts:588-603 | the result is `output` followed by the flattening of the input: atoms kept unless strict, nested lists spliced (shallow) or flattened recursively |
| Flatten.FlattenList | benchmarks/underscore/underscore.ts:606-608 | `flatten` is the non-strict flattening |
| Flatten.FlatAppend | benchmarks/underscore/underscore.ts:592-601 | flattening distributes over concatenation |
| Flatten.DeepFlatIsAtoms | benchmarks/underscore/underscore.ts:592-601 | a deep flatten contains no arrays or `arguments` objects |
| Flatten.DeepStepIsAtoms | benchmarks/underscore/underscore.ts:593-600 | what one entry contributes to a deep flatten contains no lists |
| Flatten.FlatOfAtoms | benchmarks/underscore/underscore.ts:592-601 | a list without nested lists is its own flattening |
| Flatten.DeepFlattenIdempotent | benchmarks/underscore/underscore.ts:606-608 | flattening a deep flatten changes nothing |
| Flatten.StrictDeepFlatIsEmpty | benchmarks/underscore/underscore.ts:594-595 | strict and not shallow, every atom at every depth is dropped |
| Js.StrictEqualsIsEqualityExceptNumbers | benchmarks/underscore/underscore.ts:1098 | `===` is value equality except that NaN differs from itself and the two zeros are equal; it is symmetric |
| Js.NatToString | benchmarks/underscore/underscore.ts:967-973 | an index key is a non-empty digit string without a superfluous leading zero |
| Js.DigitsValueOfNatToString | benchmarks/underscore/underscore.ts:967-973 | an index key reads back as its index |
| Js.ParseIndexOfNatToString | benchmarks/underscore/underscore.ts:967-973 | an index key parses back as its index |
| Js.NatToStringInjective | benchmarks/underscore/underscore.ts:967-973 | different indices give different keys |
| Js.IndexKeys | benchmarks/underscore/underscore.ts:967-973 | the keys of an n-element array are "0" … "n-1" |
| Js.Keys | benchmarks/underscore/underscore.ts:967-973 | a primitive has no keys, and an array has one key per element |
| Js.Has | benchmarks/underscore/underscore.ts:1267-1269 | only strings and objects have own properties, and for a plain object `has` is membership among its properties |
| Js.Get | benchmarks/underscore/underscore.ts:1294-1298 | `obj[key]` on a primitive other than a string reads undefined |
| Js.GetDefinedIsOwn | benchmarks/underscore/underscore.ts:1267-1269 | a read `obj[key]` that is not undefined is of an own property, so `has(obj, key)` holds |
| Js.KeysAreOwn | benchmarks/underscore/underscore.ts:967-973 | every key `keys` lists is an own property (`has`), and for an array reads its element |
| Js.WrapperKeyIsPrimitiveKey | benchmarks/underscore/underscore.ts:1002 | a String, Number or Boolean wrapper used as a key becomes the key of the primitive it wraps, as `String(new Number(5))` is "5" |
| Js.ArrayKeyJoins | benchmarks/underscore/underscore.ts:1002 | an array used as a key becomes its elements joined by commas, with null and undefined as empty strings: `[1, 2]` is "1,2" and `[null, 3]` is ",3" |
| Js.CyclicArrayKey | benchmarks/underscore/underscore.ts:1002 | an array that contains itself contributes the empty string where it meets itself, so the conversion ends: `a = [1, a]` is "1," |
| Arrays.RelativeIndex | benchmarks/underscore/underscore.ts:569-572 | a `slice` bound counts from the end when negative and is clamped to [0, length] |
| Arrays.Slice | benchmarks/underscore/underscore.ts:527-572 | `slice(begin, end)` is the stretch between the two clamped bounds, empty when they cross |
| Arrays.SliceSplits | benchmarks/underscore/underscore.ts:527-572 | the slice up to n and the slice from n make up the list |
| Arrays.At | benchmarks/underscore/underscore.ts:527-563 | `list[i]` is element i inside the list and undefined outside it |
| Arrays.First | benchmarks/underscore/underscore.ts:527-532 | undefined on null; without n the first element; `[]` for negative n; otherwise the first min(n, length) elements |
| Arrays.Initial | benchmarks/underscore/underscore.ts:550-553 | all but the last n elements (n defaults to 1; nothing dropped for n ≤ 0, everything for n beyond the length) |
| Arrays.Last | benchmarks/underscore/underscore.ts:559-563 | undefined on null; without n the last element; otherwise the last min(n, length) elements, none for n ≤ 0 |
| Arrays.Rest | benchmarks/underscore/underscore.ts:569-572 | everything from index n on (n defaults to 1, counts from the end when negative); exactly length − n elements for 0 ≤ n ≤ length |
| Arrays.FirstThenRest | benchmarks/underscore/underscore.ts:527-572 | `first(list, n)` followed by `rest(list, n)` is the list |
| Arrays.InitialThenLast | benchmarks/underscore/underscore.ts:550-563 | `initial(list, n)` followed by `last(list, n)` is the list |
| Arrays.EndsAndTheRest | benchmarks/underscore/underscore.ts:527-572 | without a count, `first`/`last` are the two ends, and `rest`/`initial` are the list without them |
| Arrays.Compact | benchmarks/underscore/underscore.ts:583-585 | the truthy values in order: a value is kept iff it is in the list and truthy |
| Arrays.InConcatLists | benchmarks/underscore/underscore.ts:674 | an element is in the concatenation iff it is in one of the lists |
| Arrays.Difference | benchmarks/underscore/underscore.ts:673-678 | the elements of the first list, in order, that are in none of the others; an element is kept iff it is in the list and in no other |
| Arrays.Without | benchmarks/underscore/underscore.ts:611-613 | the elements of the list that are none of the values, in their order and with their repeats; an element is kept iff it is in the list and is none of the values; [] for null |
| Arrays.InPrefixKeys | benchmarks/underscore/underscore.ts:621-640 | the keys seen so far are exactly those of the earlier elements |
| Arrays.Uniq | benchmarks/underscore/underscore.ts:621-640 | the elements whose computed key is new (with `isSorted`, different from the previous key), in input order; `[]` on null |
| Arrays.FreshKeysDiffer | benchmarks/underscore/underscore.ts:621-640 | a kept element's key is the key of no earlier element, so keys are unique in the result |
| Arrays.EveryKeyKept | benchmarks/underscore/underscore.ts:621-640 | every key in the input is the key of a kept element at or before it |
| Arrays.SelectAgrees | benchmarks/underscore/underscore.ts:633 | two tests that agree on every element keep the same elements |
| Arrays.NewRunIsFreshKey | benchmarks/underscore/underscore.ts:633 | where equal keys are adjacent, "differs from the previous key" is "not seen before" |
| Arrays.SortedUniqAgrees | benchmarks/underscore/underscore.ts:621-640 | where equal keys are adjacent, the `isSorted` shortcut keeps the same elements as the full test |
| Arrays.Union | benchmarks/underscore/underscore.ts:650-652 | `uniq` of the concatenation: an element is in the result iff it is in some list, in order of first occurrence |
| Arrays.UnionDistinct | benchmarks/underscore/underscore.ts:650-652 | no element occurs twice in the result of `union` |
| Arrays.CheckCandidate | benchmarks/underscore/underscore.ts:663-665 | the inner loop of `intersection` keeps a candidate iff every other argument contains it |
| Arrays.ContainsValue | benchmarks/underscore/underscore.ts:305-309 | `contains` on dynamic values is a `===` search |
| Arrays.IntersectionAsWritten | benchmarks/underscore/underscore.ts:656-669 | as written, the candidates are the argument arrays themselves |
| Arrays.Intersection | benchmarks/underscore/underscore.ts:656-669 | as intended: the elements of the first array, without `===` repeats and in order, that every other argument contains; `[]` without a first array |
| Arrays.IntersectMembers | benchmarks/underscore/underscore.ts:656-669 | everything kept comes from the candidates and is in every other list |
| Arrays.IntersectComplete | benchmarks/underscore/underscore.ts:656-669 | every candidate that every list contains (other than NaN) is `===` to a kept element |
| Arrays.IntersectionAsWrittenLosesCommonElements | benchmarks/underscore/underscore.ts:660-662 | for `intersection([1, 2], [2, 3])` the ported loop gives `[]`, the intended one `[2]` |
| Arrays.ObjectFromLists | benchmarks/underscore/underscore.ts:697-708 | with two lists, exactly the listed keys, each holding the value at the position of its last occurrence (undefined past the end of `values`); `{}` on null |
| Arrays.ObjectFromPairs | benchmarks/underscore/underscore.ts:697-708 | with pairs, exactly the keys of the pairs, each holding the value of its last pair; `{}` on null |
| Arrays.CeilDivBounds | benchmarks/underscore/underscore.ts:748 | `Math.ceil((stop - start) / step)` is the least number of steps that reaches `stop` |
| Arrays.Range | benchmarks/underscore/underscore.ts:741-758 | one argument counts from 0; a missing or zero step is 1; the length is max(ceil((stop − start) / step), 0) and entry i is start + i·step |
| Arrays.RangeBounds | benchmarks/underscore/underscore.ts:741-758 | every entry lies between start (inclusive) and stop (exclusive) in the direction of the step, and one more step would reach or pass stop |
| Objects.KeysDistinct | benchmarks/underscore/underscore.ts:967-973 | `keys` lists no key twice |
| Objects.GetIndex | benchmarks/underscore/underscore.ts:981 | reading an array at the key of index i gives element i |
| Objects.Values | benchmarks/underscore/underscore.ts:976-984 | one value per key of `keys`, in that order; for an array, its elements; `[]` for a non-object |
| Objects.Pairs | benchmarks/underscore/underscore.ts:987-995 | `[key, obj[key]]` for every key of `keys`, in that order |
| Objects.PairsRoundTrip | benchmarks/underscore/underscore.ts:987-995 | `object(pairs(obj))` has exactly the keys of `obj`, each with its value |
| Objects.Invert | benchmarks/underscore/underscore.ts:998-1005 | the keys of the result are exactly the values of `obj`, as keys; each maps to the last key holding that value |
| Objects.SetProp | benchmarks/underscore/underscore.ts:1028 | `obj[key] = v` changes only the target object, and on a plain object only that key, which then reads `v` |
| Objects.CopyKeysElsewhere | benchmarks/underscore/underscore.ts:1027-1029 | the inner copy loop writes only the target object |
| Objects.CopySourcesElsewhere | benchmarks/underscore/underscore.ts:1025-1030 | the outer copy loop writes only the target object |
| Objects.ReadElsewhere | benchmarks/underscore/underscore.ts:1026-1028 | a source other than the target reads the same after writes to the target |
| Objects.ExtendKeys | benchmarks/underscore/underscore.ts:1027-1029 | after one source's loop, each key the source enumerates holds its value, and every other key keeps the target's own |
| Objects.OverlayShift | benchmarks/underscore/underscore.ts:1025-1030 | after one source is copied, the remaining sources have the same overall effect |
| Objects.ExtendLastSourceWins | benchmarks/underscore/underscore.ts:1022-1032 | when no source is the target, every key holds the value of the last source that has it, or keeps its own |
| Objects.DefaultsKeysKeep | benchmarks/underscore/underscore.ts:1073-1075 | one source's loop never changes a defined property |
| Objects.DefaultsKeepDefined | benchmarks/underscore/underscore.ts:1069-1078 | `defaults` never overwrites a property that is not undefined, even when a source is the target |
| Objects.DefaultsKeysFill | benchmarks/underscore/underscore.ts:1073-1075 | one source's loop fills an undefined key with the source's value when the source enumerates it |
| Objects.FirstDefinedElsewhere | benchmarks/underscore/underscore.ts:1071-1076 | writes to the target do not change what the sources offer |
| Objects.DefaultsFillUndefined | benchmarks/underscore/underscore.ts:1069-1078 | an undefined key ends up with the first defined value a source offers |
| Objects.ObjectStore.constructor | benchmarks/underscore/underscore.ts:1022-1032 | the store holds the given heap |
| Objects.ObjectStore.CopyFrom | benchmarks/underscore/underscore.ts:1025-1030 | the nested loops leave the heap their reference fold describes |
| Objects.ObjectStore.Extend | benchmarks/underscore/underscore.ts:1022-1032 | as intended: returns `obj`; leaves the heap alone for a non-object; copies every source, first to last, onto an object |
| Objects.ObjectStore.ExtendAsWritten | benchmarks/underscore/underscore.ts:1025 | as written: the same, but starting at the second source |
| Objects.ObjectStore.Defaults | benchmarks/underscore/underscore.ts:1069-1078 | as intended: returns `obj`; fills undefined properties from every source, first to last |
| Objects.ObjectStore.DefaultsAsWritten | benchmarks/underscore/underscore.ts:1071 | as written: the same, but starting at the second source |
| Objects.ExtendAsWrittenSkipsFirstSource | benchmarks/underscore/underscore.ts:1025 | `extend({}, {a: 1})` and `defaults({}, {a: 1})` as written leave `a` undefined; the intended ones give `a: 1` |
| Objects.IsEmpty | benchmarks/underscore/underscore.ts:1191-1196 | the early-return loop computes the reference `Empty`: true on null, length 0 for arrays, strings and `arguments`, otherwise no enumerated own key |
| Objects.EmptyMeansNoElements | benchmarks/underscore/underscore.ts:1191-1196 | an array or string is empty iff it has no elements; any other object iff `keys` is `[]` |
| Objects.Matches | benchmarks/underscore/underscore.ts:1301-1308 | on null, whether `attrs` is empty; true for `attrs` itself; otherwise true iff every enumerated attribute is `===` to the object's property |
| Objects.MatchKeys | benchmarks/underscore/underscore.ts:1305 | the `for…in` loop answers true iff every enumerated key of `attrs` has a `===` value on the object |
| Objects.Size | benchmarks/underscore/underscore.ts:503-506 | 0 on null; the length of an array or string; the number of keys of a plain object without `length` |
| Objects.Property | benchmarks/underscore/underscore.ts:1294-1298 | the reader throws on null/undefined and reads an own property of an object |
| Objects.Identity | benchmarks/underscore/underscore.ts:1282-1284 | answers its argument |
| Objects.Constant | benchmarks/underscore/underscore.ts:1286-1290 | the returned function answers `value` |
| Objects.Times | benchmarks/underscore/underscore.ts:1311-1316 | max(n, 0) results, the i-th being the callback on i |
| Equality.UnvisitedShrinks | benchmarks/underscore/underscore.ts:1150-1151 | pushing an address not on the stack shrinks the set of unvisited addresses, so the recursion terminates |
| Equality.StackMatch | benchmarks/underscore/underscore.ts:1131-1136 | the cycle search finds nothing iff the address is not on the stack, and otherwise compares the partner beside its topmost occurrence |
| Equality.ElemsValid | benchmarks/underscore/underscore.ts:1161 | the elements of an array of a well-formed heap are valid values |
| Equality.GetValid | benchmarks/underscore/underscore.ts:1174 | a property read from a well-formed heap is a valid value |
| Equality.EqualityChecker.constructor | benchmarks/underscore/underscore.ts:1185-1187 | both stacks start empty |
| Equality.EqualityChecker.Eq | benchmarks/underscore/underscore.ts:1095-1182 | computes the reference comparison, and leaves both stacks as it found them |
| Equality.EqualityChecker.CompareElements | benchmarks/underscore/underscore.ts:1158-1163 | the array loop, from the last element down, stopping at the first unequal pair; stacks unchanged |
| Equality.EqualityChecker.CompareKeys | benchmarks/underscore/underscore.ts:1170-1176 | the object loop, from the last key down: `b` must have the key and an equal value; stacks unchanged |
| Equality.IsEqual | benchmarks/underscore/underscore.ts:1185-1187 | `eq` started from two empty stacks |
| Equality.ZerosDiffer | benchmarks/underscore/underscore.ts:1098 | 0 and -0 are unequal, in either order |
| Equality.NumbersEgal | benchmarks/underscore/underscore.ts:1114-1119 | two numbers are equal iff they are the same number: NaN equals NaN, the zeros differ |
| Equality.NaNEqualsNaN | benchmarks/underscore/underscore.ts:1115-1118 | NaN equals NaN and a Number wrapper around NaN, in either order |
| Equality.NullishEqualsOnlyItself | benchmarks/underscore/underscore.ts:1100 | null and undefined are equal only to themselves |
| Equality.ClassesDiffer | benchmarks/underscore/underscore.ts:1105-1106 | values with different class tags are unequal |
| Equality.Reflexive | benchmarks/underscore/underscore.ts:1098 | every value equals itself |
| Equality.ArraysByElements | benchmarks/underscore/underscore.ts:1154-1163 | arrays of different lengths are unequal; equal arrays have pairwise equal elements, compared with both arrays pushed |
| Equality.EqElemsAll | benchmarks/underscore/underscore.ts:1160-1162 | a successful array loop compared every pair equal |
| Equality.EqKeysAll | benchmarks/underscore/underscore.ts:1171-1175 | a successful object loop found every key in `b` |
| Equality.ObjectsByKeys | benchmarks/underscore/underscore.ts:1164-1177 | plain objects with different key counts are unequal; equal ones have the same count, and `b` has every key of `a` |
| Equality.ConstructorsDiffer | benchmarks/underscore/underscore.ts:1139-1148 | objects whose constructors differ, and are not both self-instances, are unequal |
| Equality.CycleDecidedByStack | benchmarks/underscore/underscore.ts:1131-1136 | an object already on the stack is equal exactly to the partner beside its topmost occurrence |
| Equality.SelfLoopsEqual | benchmarks/underscore/underscore.ts:1129-1136 | two objects that each refer only to themselves are equal: the stacks close the cycle |
| Equality.StringWrapperEqualsPrimitive | benchmarks/underscore/underscore.ts:1110-1113 | `"5"` equals `new String("5")` |
| Richards.Packet.constructor | tests/pos/todo/pldi16/octane/richards-typed-octane.ts:719-726 | the fields are the arguments, and `a2` is a fresh array of DATA_SIZE slots |
| Richards.Packet.AddTo | tests/pos/todo/pldi16/octane/richards-typed-octane.ts:733-744 | returns the packet alone for an empty queue, and the old head otherwise; the queue becomes the old queue followed by this packet; only this packet's link and the last node's change |
| Richards.ChainAt | tests/pos/todo/pldi16/octane/richards-typed-octane.ts:737-740 | in a queue, each node links to the next node, and the last to null |
| Richards.ChainDistinctAt | tests/pos/todo/pldi16/octane/richards-typed-octane.ts:737-740 | no node occurs twice in a null-terminated queue |
| Richards.ChainDistinct | tests/pos/todo/pldi16/octane/richards-typed-octane.ts:737-740 | the nodes of a null-terminated queue are distinct, so the tail walk ends |
| Richards.ChainRest | tests/pos/todo/pldi16/octane/richards-typed-octane.ts:452-454 | the rest of a non-empty queue is the queue behind its head, without the head |
| Richards.Dequeued | tests/pos/todo/pldi16/octane/richards-typed-octane.ts:452-454 | taking the head off one queue keeps all queues disjoint, removes the head from every queue, and keeps the payload arrays apart |
| Richards.MemberAt | tests/pos/todo/pldi16/octane/richards-typed-octane.ts:355-366 | every packet of every queue is a member of the queues |
| Richards.TaskControlBlock.constructor | tests/pos/todo/pldi16/octane/richards-typed-octane.ts:400-412 | the fields are the arguments, and a new block starts SUSPENDED |
| Richards.TaskControlBlock.SetRunning | tests/pos/todo/pldi16/octane/richards-typed-octane.ts:415-417 | the state becomes RUNNING |
| Richards.TaskControlBlock.MarkAsNotHeld | tests/pos/todo/pldi16/octane/richards-typed-octane.ts:420-422 | the stub leaves the state as it is |
| Richards.TaskControlBlock.MarkAsHeld | tests/pos/todo/pldi16/octane/richards-typed-octane.ts:425-427 | the stub leaves the state as it is |
| Richards.TaskControlBlock.MarkAsSuspended | tests/pos/todo/pldi16/octane/richards-typed-octane.ts:434-436 | the stub leaves the state as it is |
| Richards.TaskControlBlock.MarkAsRunnable | tests/pos/todo/pldi16/octane/richards-typed-octane.ts:439-441 | the stub leaves the state as it is |
| Richards.TaskControlBlock.CheckPriorityAdd | tests/pos/todo/pldi16/octane/richards-typed-octane.ts:471-480 | on an empty queue the packet becomes the queue, and the result is this block iff its priority exceeds the running block's; otherwise the packet is appended at the tail and the running block is returned |
| Richards.TaskControlBlock.Run | tests/pos/todo/pldi16/octane/richards-typed-octane.ts:447-462 | an empty queue throws; otherwise the head packet leaves the queue and goes to the task, and the result is the task's answer |
| Richards.TaskControlBlock.TakeHead | tests/pos/todo/pldi16/octane/richards-typed-octane.ts:452-454 | the queue moves to the head's successor, and the queues without that head stay disjoint, the head is on none of them and no packet is added |
| Richards.TaskControlBlock.RunWorker | tests/pos/todo/pldi16/octane/richards-typed-octane.ts:452-461 | a worker block that sends to another block leaves its own queue at the successor and answers `queue`'s result for the destination |
| Richards.TaskControlBlock.RunHandler | tests/pos/todo/pldi16/octane/richards-typed-octane.ts:452-461 | a handler block keeps its handler's packet lists well linked; after accepting the head packet it suspends, forwards the head device packet or retires the head work packet, with the lists changed accordingly; the destination queue gains the sent packet, and when that destination is another block the answer is `queue`'s |
| Richards.LinkedNext | tests/pos/todo/pldi16/octane/richards-typed-octane.ts:289-297 | the next block of the list is itself a well-linked list, shorter by one, so the walk of `schedule` ends |
| Richards.Scheduler.constructor | tests/pos/todo/pldi16/octane/richards-typed-octane.ts:184-191 | the fields are the arguments |
| Richards.Scheduler.ReleasePicksHigherPriority | tests/pos/todo/pldi16/octane/richards-typed-octane.ts:307-318 | `release` answers null iff the slot is empty, throws iff there is no current block, and otherwise picks the released block when its priority is strictly higher, the current one else |
| Richards.Scheduler.QueueSwitchesOnlyUpward | tests/pos/todo/pldi16/octane/richards-typed-octane.ts:355-366 | `queue` answers null iff the slot is empty, throws iff no task has run or there is no current block, and switches away from the current block only to an idle destination of strictly higher priority |
| Richards.Scheduler.AddTask | tests/pos/todo/pldi16/octane/richards-typed-octane.ts:276-280 | a fresh SUSPENDED block, linked to the old list, becomes the list, the current block and `blocks[id]`; the other slots keep their blocks |
| Richards.Scheduler.AddRunningTask | tests/pos/todo/pldi16/octane/richards-typed-octane.ts:258-263 | as `addTask`, and the new block is RUNNING |
| Richards.Scheduler.AddIdleTask | tests/pos/todo/pldi16/octane/richards-typed-octane.ts:204-206 | a running block with a fresh idle task (`v1` = 1, the given count) |
| Richards.Scheduler.AddWorkerTask | tests/pos/todo/pldi16/octane/richards-typed-octane.ts:217-219 | a block with a fresh worker task (`v1` = ID_HANDLER_A, `v2` = 0) |
| Richards.Scheduler.AddHandlerTask | tests/pos/todo/pldi16/octane/richards-typed-octane.ts:230-232 | a block with a fresh handler task holding no packets |
| Richards.Scheduler.AddDeviceTask | tests/pos/todo/pldi16/octane/richards-typed-octane.ts:243-245 | a block with a fresh device task holding no packet |
| Richards.Scheduler.Schedule | tests/pos/todo/pldi16/octane/richards-typed-octane.ts:286-299 | with the stubbed states, the loop only follows `link` to the end of the list and leaves `currentTcb` null; no task runs, and the counters and `currentId` are unchanged |
| Richards.Scheduler.Release | tests/pos/todo/pldi16/octane/richards-typed-octane.ts:307-318 | the answer `ReleasePicksHigherPriority` describes, with nothing changed |
| Richards.Scheduler.HoldCurrent | tests/pos/todo/pldi16/octane/richards-typed-octane.ts:327-333 | throws without a current block; otherwise `holdCount` grows by exactly 1 and the answer is the current block's `link` |
| Richards.Scheduler.SuspendCurrent | tests/pos/todo/pldi16/octane/richards-typed-octane.ts:341-346 | throws without a current block, and otherwise answers it |
| Richards.Scheduler.Queue | tests/pos/todo/pldi16/octane/richards-typed-octane.ts:355-366 | an empty slot answers null and changes nothing; otherwise `queueCount` grows by 1, `packet.link` is null, `packet.id` becomes `currentId`, it throws when `currentId` is -1, and the destination queue gains the packet at its tail |
| Richards.Scheduler.Enqueue | tests/pos/todo/pldi16/octane/richards-typed-octane.ts:365 | `checkPriorityAdd` on the destination switches to it iff its queue was empty and its priority is strictly higher, and the destination queue gains the packet at its tail while every other queue keeps its links |
| Richards.Scheduler.QueuedKeepsOthers | tests/pos/todo/pldi16/octane/richards-typed-octane.ts:355-366 | appending a packet that is on no queue keeps the queues disjoint |
| Richards.IdleTask.constructor | tests/pos/todo/pldi16/octane/richards-typed-octane.ts:514-519 | the fields are the arguments |
| Richards.IdleTask.Run | tests/pos/todo/pldi16/octane/richards-typed-octane.ts:523-534 | the count drops by 1; at 0 the current block is held, otherwise device A is released |
| Richards.DeviceTask.constructor | tests/pos/todo/pldi16/octane/richards-typed-octane.ts:555-559 | the fields are the arguments |
| Richards.DeviceTask.Run | tests/pos/todo/pldi16/octane/richards-typed-octane.ts:563-574 | a packet is kept and the current block held; without one it suspends when nothing is held, and otherwise sends the held packet through `queue` |
| Richards.CounterInRange | tests/pos/todo/pldi16/octane/richards-typed-octane.ts:617-618 | the payload counter stays in [1, 26] |
| Richards.CounterCycles | tests/pos/todo/pldi16/octane/richards-typed-octane.ts:617-618 | after n steps from v ≤ 26 the counter is (v + n − 1) mod 26 + 1 |
| Richards.Toggle | tests/pos/todo/pldi16/octane/richards-typed-octane.ts:609-613 | the new destination is handler A or B, and differs from a handler it started at |
| Richards.ToggleTwice | tests/pos/todo/pldi16/octane/richards-typed-octane.ts:609-613 | toggling twice returns to the handler it started at |
| Richards.WorkerTask.constructor | tests/pos/todo/pldi16/octane/richards-typed-octane.ts:596-601 | the fields are the arguments |
| Richards.WorkerTask.Run | tests/pos/todo/pldi16/octane/richards-typed-octane.ts:605-623 | no packet: suspend; otherwise `v1` toggles and becomes `packet.id`, `a1` is 0, every slot of `a2` holds the next counter value in [1, 26], and the packet is queued at the new destination |
| Richards.WorkerTask.FillPayload | tests/pos/todo/pldi16/octane/richards-typed-octane.ts:616-620 | slot i holds the counter i+1 steps on, and `v2` ends DATA_SIZE steps on, all in [1, 26] |
| Richards.HandlerTask.constructor | tests/pos/todo/pldi16/octane/richards-typed-octane.ts:645-652 | the fields are the arguments, and the two packet lists are apart |
| Richards.HandlerTask.Accept | tests/pos/todo/pldi16/octane/richards-typed-octane.ts:657-663 | a work packet is appended to `v1`, a device packet to `v2`, and the lists stay apart |
| Richards.HandlerTask.AcceptWork | tests/pos/todo/pldi16/octane/richards-typed-octane.ts:658-659 | a work packet is appended to `v1` and the lists stay ready |
| Richards.HandlerTask.AcceptDevice | tests/pos/todo/pldi16/octane/richards-typed-octane.ts:660-661 | a device packet is appended to `v2` and the lists stay ready |
| Richards.HandlerTask.Run | tests/pos/todo/pldi16/octane/richards-typed-octane.ts:656-683 | after accepting the packet: forwards the head device packet with the next payload value and advances the work count; or retires a used-up work packet; or suspends; the packet sent goes to the tail of its destination |
| Richards.HandlerTask.Serve | tests/pos/todo/pldi16/octane/richards-typed-octane.ts:664-682 | the three-way choice of `run` once the packet has joined its list |
| Richards.HandlerTask.Forward | tests/pos/todo/pldi16/octane/richards-typed-octane.ts:669-674 | the head device packet leaves `v2`, takes `a2[a1]` of the head work packet, whose `a1` grows by 1, and is queued |
| Richards.HandlerTask.Retire | tests/pos/todo/pldi16/octane/richards-typed-octane.ts:676-679 | the head work packet leaves `v1` and is queued |
| Richards.HandlerTask.Send | tests/pos/todo/pldi16/octane/richards-typed-octane.ts:669-679 | queueing a packet that is on neither list of the handler keeps both lists well linked, answers `queue`'s result and appends the packet to its destination |
| Richards.AddBenchmarkTasks | tests/pos/todo/pldi16/octane/richards-typed-octane.ts:124-144 | adding the six tasks with their packets keeps the block list well linked |
| Richards.RunRichards | tests/pos/todo/pldi16/octane/richards-typed-octane.ts:123-146 | with the stubbed states both counters end at 0 |

## Left out

- `delay` and `now` are left out, since they need timers and the clock. `random` becomes an oracle: `shuffle` and `sample` take a sequence of draws, each in the range `random` promises.
- Floating point is left out:
  - numbers are integers plus NaN and -0;
  - `max`/`min` scores are integers, with "none" for the Infinity sentinels;
  - `range` steps are integers;
  - `isFinite`, `isNaN` and `parseFloat` are not modelled.
- Element type: `===` on a generic element type is Dafny equality. So `indexOf`, `contains` and `uniq` over a generic type treat NaN as equal to itself and -0 as different from +0. On dynamic values, `Js.StrictEquals` models `===` exactly.
- Search.LastIndexOf: a negative `from` is counted back from the end, as `indexOf` counts a negative start. The scan starts below position `length + from`, in keeping with this port's reading of a non-negative `from` as an exclusive bound; native `lastIndexOf`, which the original library delegates to, would also look at position `length + from` itself. As written, the code loops forever on a negative `from` (see Findings and `Search.NegativeFromNeverStops`). A `from` that is not an integer is not modelled.
- Search.SortedIndex: assumes the `(low + high) >>> 1` midpoint is the floor of the mean, which holds for lengths below 2^31.
- `initial`, `rest`, `sortedIndex` and `sample` without a count (`Ordering.SampleOne`) would throw on a null list, so they take a plain sequence and the throw is not modelled. `sample` with a count answers `[]` on null (line 415), and `Ordering.SampleN` models that.
- `flatten` of a null list is not modelled.
- The `context` argument and `lookupIterator`'s defaults are not modelled. The identity default and property-name iterators are callbacks too.
- Arrays.Uniq: the overload that shifts the arguments when `isSorted` is a function is not modelled.
- `invoke`, `result`, `tap`, `isElement`, `functions`/`methods`, `pluck`/`where`/`findWhere` and `toArray` are not modelled. They call foreign methods, depend on the DOM, or need the prototype chain.
- Alias functions such as `forEach`, `collect` and `inject` are not modelled. They only delegate.
- The commented-out functions are not modelled.
- Objects.Invert: a value becomes a key by `String(value)` as `Js.ToKey` computes it, for primitives, arrays and wrappers. A Date is keyed "[object Date]" rather than its date text (the clock and locale are not modelled), and a function "[object Function]" rather than its source text. A `toString` found along the prototype chain is not modelled.
- Js.Get: properties come only from the object itself. The prototype chain, `toString` overrides and `__proto__` are not modelled.
- Js.Keys: property keys are strings. Key order is the order the object lists them in. JavaScript lists the array-index keys of a plain object ("0", "1", …) first, in ascending order, and the model does not move them, so for such objects the order of `keys`, `values` and `pairs`, and the key `invert` keeps for a repeated value, can differ.
- Ordering.SortBy: criteria are integers or undefined. Other kinds of criteria, and `sort`'s own choice of algorithm, are not modelled; the model uses an insertion sort with the same comparator.
- Collections.Reduce: the callback's result has the element type, matching the overload without a separate memo type.
- A list nested inside itself is not modelled in `flatten`, because the source would loop forever on it.
- Arrays.ObjectFromPairs: a pair with fewer than two entries is not modelled.
- Objects.ObjectStore.Extend: copying onto an array or a wrapper object is not modelled; only plain objects gain keys.
- Equality.EqualityChecker.Eq: requires a well-formed heap, meaning every reference points to an object.
- Arrays.Intersection: an argument that is not an array is taken to contain nothing. `contains` on array-like objects is not modelled.
- Richards: `console.log`, the `toString` methods and `testRichards`' repetitions are left out.
- Richards.RunRichards: the final comparison against 2322 and 928 (lines 147-153) is left out. With the stubbed states the counters are 0, so that comparison would throw.
- Richards.Packet.constructor: `a2` starts as zeros, not as undefined slots.
- Richards.Scheduler.Queue: requires that the packet is not already on a queue. The packet queues are passed as ghost arguments, and their disjointness is required.
- Richards.AddBenchmarkTasks: states only that the block list stays well linked; what each added block holds is stated by the `Add…Task` method that adds it.
- Richards.TaskControlBlock.Run: the result is stated for the idle task, the device task, and a worker that sends to another block. For the handler, and for a worker sending to its own block, it is left to the tasks' own contracts.
- Richards.TaskControlBlock.RunWorker: the queue and the answer are stated only for a worker that sends to another block. If it sends to its own block, the answer depends on the queue after the head packet has left, and is left to `WorkerTask.Run`'s contract.
- Richards.TaskControlBlock.RunHandler: the answer is stated only when the sent packet goes to another block, for the same reason as for `RunWorker`. The payload value that a forwarded device packet takes is stated by `HandlerTask.Run`, not here.

## Findings

| source | as written | input that shows it | evidently intended | confidence | as-written member | corrected member |
|---|---|---|---|---|---|---|
| benchmarks/underscore/underscore.ts:660-662 | `intersection` loops over `arrays`, the argument list itself | `intersection([1, 2], [2, 3])` gives `[]` | loop over the elements of the first array, giving `[2]` | not executed | Arrays.IntersectionAsWrittenLosesCommonElements | Arrays.Intersection |
| benchmarks/underscore/underscore.ts:1025 | `extend` and `defaults` (line 1071) start at `sources[1]`, skipping the first source | `extend({}, {a: 1})` leaves `a` undefined | start at index 0, giving `{a: 1}` | not executed | Objects.ExtendAsWrittenSkipsFirstSource | Objects.ObjectStore.Extend |
| benchmarks/underscore/underscore.ts:945 | `compose` seeds `args` with the list of functions | composing `f = x => x` and calling it on `x` returns `f` | seed with the call's arguments, returning `x` | not executed | Functions.ComposeAsWrittenIgnoresArguments | Functions.CallComposed |
| benchmarks/underscore/underscore.ts:821 | `memoize` stores under `address` but returns `cache[key]` | with a hash function that maps the first call to another key, the first call answers undefined | return `cache[address]` | not executed | Functions.MemoizeAsWrittenLosesResult | Functions.Memoized.Call |
| benchmarks/underscore/underscore.ts:733-734 | `lastIndexOf` takes a negative `from` as the loop count, and `while (i--)` only stops at 0 | `lastIndexOf([1], 1, -1)` never returns | count a negative `from` back from the end, as `indexOf` does with a negative start (line 721), so the scan stops; the corrected scan starts below position `length + from`, where native `lastIndexOf` would include that position | not executed | Search.NegativeFromNeverStops | Search.LastIndexOf |
