/**
  The demonstration record and the four orderings the example program builds,
  checked on its four records: for each ordering, the expected output is a
  rearrangement of the input that is strictly ascending under the built
  predicate, and the predicate is a strict weak order.
*/
module Demo {
  import opened Orders
  import opened Builder

  /** The example record: `x1` is a public member, `x2` and `x3` are read through getters. */
  datatype MyStruct = MyStruct(x1: int, x2: int, x3: string)

  function X1(s: MyStruct): int {
    s.x1
  }

  function GetX2(s: MyStruct): int {
    s.x2
  }

  function GetX3(s: MyStruct): string {
    s.x3
  }

  /** The example program's vector, in its original order. */
  function Records(): seq<MyStruct> {
    [MyStruct(1, 3, "b"), MyStruct(3, 2, "c"), MyStruct(2, 2, "a"), MyStruct(1, 1, "c")]
  }

  /** `sorted` is a rearrangement of `input` in which every record is strictly less than every later one. */
  ghost predicate SortsTo<T>(less: (T, T) -> bool, input: seq<T>, sorted: seq<T>) {
    && multiset(input) == multiset(sorted)
    && forall i, j :: 0 <= i < j < |sorted| ==> less(sorted[i], sorted[j])
  }

  lemma IntKeyIsStrictWeakOrder(key: MyStruct -> int, descending: bool)
    ensures StrictWeakOrder(KeyComparer(key, IntLess, descending))
  {
    IntLessIsStrictTotalOrder();
    StrictTotalOrderIsStrictWeakOrder(IntLess);
    KeyComparerIsStrictWeakOrder(key, IntLess, descending);
  }

  lemma StringKeyIsStrictWeakOrder(key: MyStruct -> string, descending: bool)
    ensures StrictWeakOrder(KeyComparer(key, StringLess, descending))
  {
    StringLessIsStrictTotalOrder();
    StrictTotalOrderIsStrictWeakOrder(StringLess);
    KeyComparerIsStrictWeakOrder(key, StringLess, descending);
  }

  lemma LexicographicOne<T>(k: (T, T) -> bool, a: T, b: T)
    ensures Lexicographic([k], a, b) == k(a, b)
  {
    LessIsLexicographic([k], a, b);
    SingleCriterion(k, a, b);
  }

  /** Two criteria: the second is consulted only when the first ties. */
  predicate TwoKeyLess<T>(k1: (T, T) -> bool, k2: (T, T) -> bool, a: T, b: T) {
    k1(a, b) || (Incomparable(k1, a, b) && k2(a, b))
  }

  lemma LexicographicTwo<T>(k1: (T, T) -> bool, k2: (T, T) -> bool, a: T, b: T)
    ensures Lexicographic([k1, k2], a, b) == TwoKeyLess(k1, k2, a, b)
  {
    LessIsLexicographic([k1, k2], a, b);
    assert [k1, k2][1..] == [k2];
  }

  /** Four records in a row are ascending when each is less than every later one. */
  lemma AscendingOfFour<T>(less: (T, T) -> bool, r0: T, r1: T, r2: T, r3: T)
    requires less(r0, r1) && less(r0, r2) && less(r0, r3)
    requires less(r1, r2) && less(r1, r3) && less(r2, r3)
    ensures forall i, j :: 0 <= i < j < 4 ==> less([r0, r1, r2, r3][i], [r0, r1, r2, r3][j])
  {
  }

  /**
    Builds `by(first).by(second)` on a fresh builder, as the example program
    does in one chained expression, and returns the built predicate.
  */
  method BuildTwoKeys<K1, K2>(key1: MyStruct -> K1, lt1: (K1, K1) -> bool, descending1: bool,
                              key2: MyStruct -> K2, lt2: (K2, K2) -> bool, descending2: bool)
    returns (less: (MyStruct, MyStruct) -> bool)
    ensures forall a, b :: less(a, b) ==
              (|| Directed(lt1, descending1, key1(a), key1(b))
               || (!Directed(lt1, descending1, key1(b), key1(a)) && Directed(lt2, descending2, key2(a), key2(b))))
    ensures (StrictWeakOrder(KeyComparer(key1, lt1, descending1)) && StrictWeakOrder(KeyComparer(key2, lt2, descending2)))
              ==> StrictWeakOrder(less)
  {
    var builder := new ComparerBuilder<MyStruct>();
    var chained := builder.By(key1, lt1, descending1);
    chained := chained.By(key2, lt2, descending2);
    var k1, k2 := KeyComparer(key1, lt1, descending1), KeyComparer(key2, lt2, descending2);
    assert chained.comparers == [k1, k2];
    assert StrictWeakOrder(k1) && StrictWeakOrder(k2) ==> AllStrictWeak([k1, k2]);
    less := chained.Build();
    forall a, b
      ensures less(a, b) == TwoKeyLess(k1, k2, a, b)
    {
      LexicographicTwo(k1, k2, a, b);
    }
  }

  /** Sorting by `x1`, then by `x2`, both ascending. */
  method ByX1ThenX2() returns (less: (MyStruct, MyStruct) -> bool)
    ensures StrictWeakOrder(less)
    ensures SortsTo(less, Records(),
                    [MyStruct(1, 1, "c"), MyStruct(1, 3, "b"), MyStruct(2, 2, "a"), MyStruct(3, 2, "c")])
  {
    IntKeyIsStrictWeakOrder(X1, false);
    IntKeyIsStrictWeakOrder(GetX2, false);
    less := BuildTwoKeys(X1, IntLess, false, GetX2, IntLess, false);
    AscendingOfFour(less, MyStruct(1, 1, "c"), MyStruct(1, 3, "b"), MyStruct(2, 2, "a"), MyStruct(3, 2, "c"));
  }

  /** Sorting by `x3`, then by `x2`, both ascending. */
  method ByX3ThenX2() returns (less: (MyStruct, MyStruct) -> bool)
    ensures StrictWeakOrder(less)
    ensures SortsTo(less, Records(),
                    [MyStruct(2, 2, "a"), MyStruct(1, 3, "b"), MyStruct(1, 1, "c"), MyStruct(3, 2, "c")])
  {
    StringKeyIsStrictWeakOrder(GetX3, false);
    IntKeyIsStrictWeakOrder(GetX2, false);
    less := BuildTwoKeys(GetX3, StringLess, false, GetX2, IntLess, false);
    AscendingOfFour(less, MyStruct(2, 2, "a"), MyStruct(1, 3, "b"), MyStruct(1, 1, "c"), MyStruct(3, 2, "c"));
  }

  /** Sorting by `x3` descending, then by `x2` ascending. */
  method ByX3DescendingThenX2() returns (less: (MyStruct, MyStruct) -> bool)
    ensures StrictWeakOrder(less)
    ensures SortsTo(less, Records(),
                    [MyStruct(1, 1, "c"), MyStruct(3, 2, "c"), MyStruct(1, 3, "b"), MyStruct(2, 2, "a")])
  {
    StringKeyIsStrictWeakOrder(GetX3, true);
    IntKeyIsStrictWeakOrder(GetX2, false);
    less := BuildTwoKeys(GetX3, StringLess, true, GetX2, IntLess, false);
    AscendingOfFour(less, MyStruct(1, 1, "c"), MyStruct(3, 2, "c"), MyStruct(1, 3, "b"), MyStruct(2, 2, "a"));
  }

  /** Sorting by `x2` descending, then by `x1` descending. */
  method ByX2DescendingThenX1Descending() returns (less: (MyStruct, MyStruct) -> bool)
    ensures StrictWeakOrder(less)
    ensures SortsTo(less, Records(),
                    [MyStruct(1, 3, "b"), MyStruct(3, 2, "c"), MyStruct(2, 2, "a"), MyStruct(1, 1, "c")])
  {
    IntKeyIsStrictWeakOrder(GetX2, true);
    IntKeyIsStrictWeakOrder(X1, true);
    less := BuildTwoKeys(GetX2, IntLess, true, X1, IntLess, true);
    AscendingOfFour(less, MyStruct(1, 3, "b"), MyStruct(3, 2, "c"), MyStruct(2, 2, "a"), MyStruct(1, 1, "c"));
  }

  lemma OrdersByX1(less: (MyStruct, MyStruct) -> bool)
    requires forall a, b :: less(a, b) <==> Lexicographic([KeyComparer(X1, IntLess, false)], a, b)
    ensures forall a, b :: less(a, b) == (a.x1 < b.x1)
  {
    forall a, b
      ensures less(a, b) == (a.x1 < b.x1)
    {
      var k := KeyComparer(X1, IntLess, false);
      LexicographicOne(k, a, b);
      assert k(a, b) == Directed(IntLess, false, X1(a), X1(b));
    }
  }

  lemma OrdersByX1ThenX2(less: (MyStruct, MyStruct) -> bool)
    requires forall a, b :: less(a, b) <==> Lexicographic([KeyComparer(X1, IntLess, false), KeyComparer(GetX2, IntLess, false)], a, b)
    ensures forall a, b :: less(a, b) == (a.x1 < b.x1 || (a.x1 == b.x1 && a.x2 < b.x2))
  {
    forall a, b
      ensures less(a, b) == (a.x1 < b.x1 || (a.x1 == b.x1 && a.x2 < b.x2))
    {
      var k1, k2 := KeyComparer(X1, IntLess, false), KeyComparer(GetX2, IntLess, false);
      LexicographicTwo(k1, k2, a, b);
      assert k1(a, b) == Directed(IntLess, false, X1(a), X1(b));
      assert k1(b, a) == Directed(IntLess, false, X1(b), X1(a));
      assert k2(a, b) == Directed(IntLess, false, GetX2(a), GetX2(b));
    }
  }

  /**
    A predicate built before a further `By` keeps comparing by the criteria it
    was built from: `early` still orders by `x1` alone, while `late`, built
    after `x2` was added, breaks `x1` ties by `x2`.
  */
  method SnapshotUnaffectedByLaterBy() returns (early: (MyStruct, MyStruct) -> bool, late: (MyStruct, MyStruct) -> bool)
    ensures forall a, b :: early(a, b) == (a.x1 < b.x1)
    ensures forall a, b :: late(a, b) == (a.x1 < b.x1 || (a.x1 == b.x1 && a.x2 < b.x2))
  {
    var builder := new ComparerBuilder<MyStruct>();
    var chained := builder.By(X1, IntLess);
    early := chained.Build();
    assert chained.comparers == [KeyComparer(X1, IntLess, false)];
    OrdersByX1(early);
    chained := chained.By(GetX2, IntLess);
    late := chained.Build();
    assert chained.comparers == [KeyComparer(X1, IntLess, false), KeyComparer(GetX2, IntLess, false)];
    OrdersByX1ThenX2(late);
  }
}
