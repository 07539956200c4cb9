# Comparer builder, modelled in Dafny

This project models `comparer_builder<T>`, a small C++ utility. It builds a
multi-key "less than" predicate for sorting records of type `T`. A caller
chains `by(key, descending)` calls. Each call appends one per-key strict
comparison to the builder's vector `comparers`. `build()` then returns a
predicate over a copy of that vector. The predicate walks the criteria in
insertion order. The first criterion that puts `lhs` first gives `true`. The
first that puts `rhs` first gives `false`. When every key ties, the answer is
`false`.

Files:

- `orders.dfy` (module `Orders`): strict orders, strict weak orders and strict
  total orders as predicates on `(T, T) -> bool`. It also holds the two key
  comparisons the example uses: `<` on `int` (`IntLess`) and `<` on
  `std::string` (`StringLess`, lexicographic by character). `StringLess` is
  proved equal to a reference definition and proved to be a strict total
  order.
- `comparer_builder.dfy` (module `Builder`): the core.
  - `KeyComparer` is the lambda that `by` stores.
  - `Less` is the loop of the lambda that `build` returns, written as
    recursion over the captured sequence.
  - `ComparerBuilder<T>` is a class with the mutable field
    `comparers: seq<(T, T) -> bool>`.
  - `By` modifies the builder and returns `this`.
  - `Build` is a function: it reads the builder and changes nothing. It
    returns a closure over a value copy of `comparers`.
  - The lemmas give the laws of the composite predicate: lexicographic
    priority, the all-ties case, append behaviour, irreflexivity, asymmetry,
    transitivity and strict weak ordering.
- `demo.dfy` (module `Demo`): the example record `MyStruct`, and the four
  orderings that `src/main.cpp` builds, checked on its four records. It also
  shows that a predicate built earlier is unaffected by a later `By`.

The key type `U` of the `by` template is modelled by a key extractor
`key: T -> K` plus that type's `<`, passed as `lt: (K, K) -> bool`. The
source's `lhs > rhs` is modelled as `lt(rhs, lhs)`. This holds for the two key
types used, `int` and `std::string` (whose `>` is defined as the swapped `<`).
The pointer-to-member and `std::invoke` mechanism becomes the plain function
`key`. A member variable (`x1`) and a getter (`get_x2`, `get_x3`) both become
a function such as `Demo.X1` or `Demo.GetX2`.

`Build` is a function of the builder's state, so two calls at the same state
give the same predicate. The predicate it returns holds its own copy of the
sequence. A later `By` replaces the field's value and cannot reach a
predicate that was already built. `Demo.SnapshotUnaffectedByLaterBy` proves
this on a concrete builder.

## Model

| member | source | states |
|---|---|---|
| Builder.ComparerBuilder.constructor | inc/comparer_builder.hpp:18-22 | A new builder has no criteria, and the predicate it builds is false for every pair. |
| Builder.ComparerBuilder.By | inc/comparer_builder.hpp:37-59 | Appends exactly one criterion for `key` and the direction at the end of `comparers`. Earlier criteria and their order are unchanged. Returns the same builder. The newly built predicate differs from the previous one only on pairs where all earlier criteria tie; on those pairs the new criterion decides. |
| Builder.ComparerBuilder.Build | inc/comparer_builder.hpp:72-85 | Does not change the builder. The predicate is true exactly when the first criterion, in insertion order, whose keys differ puts `a` first. It is false everywhere for an empty builder. It is a strict weak order whenever every criterion is one. |
| Builder.SingleCriterion | inc/comparer_builder.hpp:78-83 | With one criterion, the built predicate is exactly that criterion's comparison. |
| Builder.IntKeyDirection | inc/comparer_builder.hpp:45-55 | On an integer key, ascending reduces to `key(a) < key(b)` and descending to `key(a) > key(b)`. |
| Builder.KeyComparerDescendingIsReversed | inc/comparer_builder.hpp:48-55 | A descending criterion is the ascending one with its operands swapped. |
| Builder.KeyComparerIsStrictWeakOrder | inc/comparer_builder.hpp:42-56 | If the key type's `<` is a strict weak order, the per-key criterion is a strict weak order on records, in either direction. |
| Builder.LessAllTie | inc/comparer_builder.hpp:78-83 | When every criterion ties `a` and `b`, the predicate is false. |
| Builder.LessFirstDecider | inc/comparer_builder.hpp:76-82 | The verdict is that of the first criterion whose keys differ. Later criteria are not consulted. |
| Builder.LessIsLexicographic | inc/comparer_builder.hpp:74-84 | The loop equals the reference lexicographic definition (some first deciding criterion puts `a` first), in both directions. |
| Builder.LessAppend | inc/comparer_builder.hpp:40-83 | Appending a criterion changes the verdict only for pairs on which all earlier criteria tie; for those the new criterion decides. |
| Builder.LessIrreflexive | inc/comparer_builder.hpp:76-83 | With asymmetric criteria, `less(x, x)` is false. |
| Builder.LessIncomparableIffAllTie | inc/comparer_builder.hpp:76-83 | With asymmetric criteria, the predicate is never true both ways. Two records are tied by it exactly when every criterion ties them. |
| Builder.LessTransitive | inc/comparer_builder.hpp:76-83 | With strict weak orders as criteria, the predicate is transitive. |
| Builder.LessIsStrictWeakOrder | inc/comparer_builder.hpp:62-85 | With strict weak orders as criteria, the predicate is irreflexive and transitive, and so is its tie relation: it is a valid "less than" for sorting. |
| Orders.StringLessIsLexicographic | inc/comparer_builder.hpp:48-55 | String `<`, as the `get_x3` key uses it, equals the reference lexicographic order: either a proper prefix, or the first differing character is smaller. |
| Orders.StringLessIsStrictTotalOrder | inc/comparer_builder.hpp:48-55 | String `<` is irreflexive, transitive and total on distinct strings. |
| Demo.BuildTwoKeys | src/main.cpp:56 | Chaining `by(key1).by(key2)` on one builder gives the predicate "first key decides, second key breaks its ties", each key in its direction. It is a strict weak order when both criteria are. |
| Demo.ByX1ThenX2 | src/main.cpp:56 | By `x1` then `x2`: the four records sort to `(1,1,c) (1,3,b) (2,2,a) (3,2,c)`. |
| Demo.ByX3ThenX2 | src/main.cpp:64 | By `x3` then `x2`: the records sort to `(2,2,a) (1,3,b) (1,1,c) (3,2,c)`. |
| Demo.ByX3DescendingThenX2 | src/main.cpp:72 | By `x3` descending then `x2`: the records sort to `(1,1,c) (3,2,c) (1,3,b) (2,2,a)`. |
| Demo.ByX2DescendingThenX1Descending | src/main.cpp:80 | By `x2` descending then `x1` descending: the records sort to `(1,3,b) (3,2,c) (2,2,a) (1,1,c)`. The two records with `x2 = 2` are ordered by `x1` descending. |
| Demo.SnapshotUnaffectedByLaterBy | inc/comparer_builder.hpp:72-74 | A predicate built before a further `by` still orders by `x1` alone. One built after it breaks `x1` ties by `x2`. |

## Left out

- `std::sort` and the printing in `src/main.cpp` are not modelled. The sort is a library routine, and the builder only supplies its predicate. The demo methods prove that the expected output is a strictly ascending rearrangement of the input; they do not run a sort.
- Pointer-to-member, `std::invoke`, `std::function` type erasure and template instantiation per key type are not modelled as language machinery. A criterion is a function value `(T, T) -> bool`, and a key is a function `T -> K` with the key type's `<`.
- Key types whose `>` is not the swapped `<`, and key types that are not strict weak orders (floating point NaN, partial orders), are not modelled. The source assumes such keys never occur. The ordering laws are proved under that assumption, stated as a `requires`.
- Characters are Dafny `char`s compared by code point. `std::string` compares `char`s as unsigned bytes. The two orders agree on the ASCII strings of the example.
- Record types that are references are not covered: the record type parameter is `T(!new)`. The ordering laws quantify over all records, and Dafny needs this type characteristic for that.
- Concurrent use of a built predicate is not modelled. The model is sequential, and the predicate is an immutable value.
