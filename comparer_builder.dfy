/**
  The comparer builder: criteria are added one at a time with `By`, and
  `Build` turns the accumulated criteria into one lexicographic "less than"
  predicate. A criterion is stored, as in the original, as a strict per-key
  comparison `(T, T) -> bool`; the first criterion added is the primary key.
*/
module Builder {
  import opened Orders

  /**
    Key `x` is strictly before key `y` in the chosen direction: the key type's
    `<` when ascending, its `>` (that is, `<` with the operands swapped) when
    descending.
  */
  predicate Directed<K>(lt: (K, K) -> bool, descending: bool, x: K, y: K) {
    if descending then lt(y, x) else lt(x, y)
  }

  /**
    The comparison `By` stores for one key: extract the key of both records
    and compare the two keys in the chosen direction.
  */
  function KeyComparer<T, K>(key: T -> K, lt: (K, K) -> bool, descending: bool): (T, T) -> bool {
    (lhs: T, rhs: T) => Directed(lt, descending, key(lhs), key(rhs))
  }

  /**
    The predicate `Build` returns, applied to `lhs` and `rhs`: walk the
    criteria in insertion order; the first that says `lhs` is less gives
    true, the first that says `rhs` is less gives false, and when every
    criterion ties the answer is false.
  */
  function Less<T>(cs: seq<(T, T) -> bool>, lhs: T, rhs: T): bool
    decreases |cs|
  {
    if |cs| == 0 then false
    else if cs[0](lhs, rhs) then true
    else if cs[0](rhs, lhs) then false
    else Less(cs[1..], lhs, rhs)
  }

  /** Every criterion of `cs` ties `a` and `b`. */
  ghost predicate AllTie<T>(cs: seq<(T, T) -> bool>, a: T, b: T) {
    forall j :: 0 <= j < |cs| ==> Incomparable(cs[j], a, b)
  }

  /** Criterion `i` is the first one, in insertion order, that does not tie `a` and `b`. */
  ghost predicate DecidedAt<T>(cs: seq<(T, T) -> bool>, i: int, a: T, b: T) {
    && 0 <= i < |cs|
    && (forall j :: 0 <= j < i ==> Incomparable(cs[j], a, b))
    && !Incomparable(cs[i], a, b)
  }

  /** Reference definition: the first criterion that decides puts `a` before `b`. */
  ghost predicate Lexicographic<T>(cs: seq<(T, T) -> bool>, a: T, b: T) {
    exists i :: DecidedAt(cs, i, a, b) && cs[i](a, b)
  }

  ghost predicate AllStrictWeak<T(!new)>(cs: seq<(T, T) -> bool>) {
    forall i :: 0 <= i < |cs| ==> StrictWeakOrder(cs[i])
  }

  ghost predicate AllAsymmetric<T(!new)>(cs: seq<(T, T) -> bool>) {
    forall i :: 0 <= i < |cs| ==> Asymmetric(cs[i])
  }

  /** When every criterion ties, the built predicate is false. */
  lemma {:induction false} LessAllTie<T>(cs: seq<(T, T) -> bool>, a: T, b: T)
    requires AllTie(cs, a, b)
    ensures !Less(cs, a, b)
    decreases |cs|
  {
    if |cs| > 0 {
      assert Incomparable(cs[0], a, b);
      LessAllTie(cs[1..], a, b);
    }
  }

  /** The first criterion that does not tie decides, and later ones are never consulted. */
  lemma {:induction false} LessFirstDecider<T>(cs: seq<(T, T) -> bool>, i: int, a: T, b: T)
    requires DecidedAt(cs, i, a, b)
    ensures Less(cs, a, b) == cs[i](a, b)
    decreases i
  {
    if i > 0 {
      assert Incomparable(cs[0], a, b);
      assert DecidedAt(cs[1..], i - 1, a, b) by {
        forall j | 0 <= j < i - 1
          ensures Incomparable(cs[1..][j], a, b)
        {
          assert cs[1..][j] == cs[j + 1];
        }
      }
      LessFirstDecider(cs[1..], i - 1, a, b);
    }
  }

  /** The recursive walk computes exactly the lexicographic comparison. */
  lemma {:induction false} LessIsLexicographic<T>(cs: seq<(T, T) -> bool>, a: T, b: T)
    ensures Less(cs, a, b) <==> Lexicographic(cs, a, b)
    decreases |cs|
  {
    if Lexicographic(cs, a, b) {
      var i :| DecidedAt(cs, i, a, b) && cs[i](a, b);
      LessFirstDecider(cs, i, a, b);
    }
    if |cs| > 0 && Less(cs, a, b) {
      if cs[0](a, b) {
        assert DecidedAt(cs, 0, a, b);
      } else {
        var rest := cs[1..];
        LessIsLexicographic(rest, a, b);
        var i :| DecidedAt(rest, i, a, b) && rest[i](a, b);
        forall j | 0 <= j < i + 1
          ensures Incomparable(cs[j], a, b)
        {
          if j > 0 {
            assert cs[j] == rest[j - 1];
          }
        }
        assert DecidedAt(cs, i + 1, a, b) && cs[i + 1](a, b);
      }
    }
  }

  /**
    Adding a criterion at the end changes the verdict only for pairs on which
    all earlier criteria tie; for those the new criterion decides.
  */
  lemma {:induction false} LessAppend<T>(cs: seq<(T, T) -> bool>, c: (T, T) -> bool, a: T, b: T)
    ensures Less(cs + [c], a, b) == if AllTie(cs, a, b) then c(a, b) else Less(cs, a, b)
    decreases |cs|
  {
    if |cs| > 0 {
      assert (cs + [c])[1..] == cs[1..] + [c];
      LessAppend(cs[1..], c, a, b);
      if Incomparable(cs[0], a, b) {
        assert AllTie(cs, a, b) <==> AllTie(cs[1..], a, b) by {
          forall j | 0 <= j < |cs| - 1
            ensures cs[1..][j] == cs[j + 1]
          {
          }
        }
      }
    }
  }

  /** With asymmetric criteria the built predicate is irreflexive. */
  lemma {:induction false} LessIrreflexive<T(!new)>(cs: seq<(T, T) -> bool>, x: T)
    requires AllAsymmetric(cs)
    ensures !Less(cs, x, x)
    decreases |cs|
  {
    if |cs| > 0 {
      assert Asymmetric(cs[0]);
      assert AllAsymmetric(cs[1..]) by {
        forall i | 0 <= i < |cs| - 1
          ensures Asymmetric(cs[1..][i])
        {
          assert cs[1..][i] == cs[i + 1];
        }
      }
      LessIrreflexive(cs[1..], x);
    }
  }

  /**
    With asymmetric criteria, `a` and `b` are tied by the built predicate
    exactly when every criterion ties them; in particular the predicate is
    never true both ways.
  */
  lemma {:induction false} LessIncomparableIffAllTie<T(!new)>(cs: seq<(T, T) -> bool>, a: T, b: T)
    requires AllAsymmetric(cs)
    ensures !(Less(cs, a, b) && Less(cs, b, a))
    ensures Incomparable((x: T, y: T) => Less(cs, x, y), a, b) <==> AllTie(cs, a, b)
    decreases |cs|
  {
    if |cs| > 0 {
      assert Asymmetric(cs[0]);
      var rest := cs[1..];
      assert AllAsymmetric(rest) by {
        forall i | 0 <= i < |rest|
          ensures Asymmetric(rest[i])
        {
          assert rest[i] == cs[i + 1];
        }
      }
      LessIncomparableIffAllTie(rest, a, b);
      assert AllTie(cs, a, b) <==> Incomparable(cs[0], a, b) && AllTie(rest, a, b) by {
        forall j | 0 <= j < |rest|
          ensures rest[j] == cs[j + 1]
        {
        }
      }
    }
  }

  /** With strict weak orders as criteria, the built predicate is transitive. */
  lemma {:induction false} LessTransitive<T(!new)>(cs: seq<(T, T) -> bool>, a: T, b: T, c: T)
    requires AllStrictWeak(cs)
    requires Less(cs, a, b) && Less(cs, b, c)
    ensures Less(cs, a, c)
    decreases |cs|
  {
    var h, rest := cs[0], cs[1..];
    assert StrictWeakOrder(h);
    StrictWeakOrderIsAsymmetric(h);
    if Incomparable(h, a, b) && Incomparable(h, b, c) {
      assert Incomparable(h, a, c);
      assert AllStrictWeak(rest) by {
        forall i | 0 <= i < |rest|
          ensures StrictWeakOrder(rest[i])
        {
          assert rest[i] == cs[i + 1];
        }
      }
      LessTransitive(rest, a, b, c);
    } else {
      // One of the two steps is decided strictly by `h`; a tie on the other
      // step cannot undo that in a strict weak order.
      if h(a, b) && h(b, c) {
      } else if h(a, b) {
        StrictWeakOrderLessThenTie(h, a, b, c);
      } else {
        StrictWeakOrderTieThenLess(h, a, b, c);
      }
    }
  }

  /**
    With strict weak orders as criteria, the built predicate is a strict weak
    order too, so it can be handed to a comparison-based sort.
  */
  lemma LessIsStrictWeakOrder<T(!new)>(cs: seq<(T, T) -> bool>)
    requires AllStrictWeak(cs)
    ensures StrictWeakOrder((x: T, y: T) => Less(cs, x, y))
  {
    var less := (x: T, y: T) => Less(cs, x, y);
    assert AllAsymmetric(cs) by {
      forall i | 0 <= i < |cs|
        ensures Asymmetric(cs[i])
      {
        StrictWeakOrderIsAsymmetric(cs[i]);
      }
    }
    forall x
      ensures !less(x, x)
    {
      LessIrreflexive(cs, x);
    }
    forall x, y, z | less(x, y) && less(y, z)
      ensures less(x, z)
    {
      LessTransitive(cs, x, y, z);
    }
    forall x, y, z | Incomparable(less, x, y) && Incomparable(less, y, z)
      ensures Incomparable(less, x, z)
    {
      LessIncomparableIffAllTie(cs, x, y);
      LessIncomparableIffAllTie(cs, y, z);
      LessIncomparableIffAllTie(cs, x, z);
      forall j | 0 <= j < |cs|
        ensures Incomparable(cs[j], x, z)
      {
        assert Incomparable(cs[j], x, y) && Incomparable(cs[j], y, z);
      }
    }
  }

  /** A descending criterion is the ascending one with its operands swapped. */
  lemma KeyComparerDescendingIsReversed<T, K>(key: T -> K, lt: (K, K) -> bool, a: T, b: T)
    ensures KeyComparer(key, lt, true)(a, b) == KeyComparer(key, lt, false)(b, a)
  {
  }

  /** On integer keys each direction reduces exactly to `<` or `>` on the keys. */
  lemma IntKeyDirection<T>(key: T -> int, a: T, b: T)
    ensures KeyComparer(key, IntLess, false)(a, b) == (key(a) < key(b))
    ensures KeyComparer(key, IntLess, true)(a, b) == (key(a) > key(b))
  {
    assert KeyComparer(key, IntLess, false)(a, b) == IntLess(key(a), key(b));
    assert KeyComparer(key, IntLess, true)(a, b) == IntLess(key(b), key(a));
  }

  /** A per-key criterion over a strict weak order of keys is a strict weak order of records. */
  lemma KeyComparerIsStrictWeakOrder<T(!new), K(!new)>(key: T -> K, lt: (K, K) -> bool, descending: bool)
    requires StrictWeakOrder(lt)
    ensures StrictWeakOrder(KeyComparer(key, lt, descending))
  {
    var cmp := KeyComparer(key, lt, descending);
    forall x, y, z | Incomparable(cmp, x, y) && Incomparable(cmp, y, z)
      ensures Incomparable(cmp, x, z)
    {
      assert Incomparable(lt, key(x), key(y)) && Incomparable(lt, key(y), key(z));
    }
    forall x, y, z | cmp(x, y) && cmp(y, z)
      ensures cmp(x, z)
    {
      if descending {
        assert lt(key(z), key(y)) && lt(key(y), key(x));
      } else {
        assert lt(key(x), key(y)) && lt(key(y), key(z));
      }
    }
  }

  /** A single criterion yields exactly that criterion's comparison. */
  lemma SingleCriterion<T>(c: (T, T) -> bool, a: T, b: T)
    ensures Less([c], a, b) == c(a, b)
  {
  }

  /**
    The builder. `comparers` is the ordered list of per-key criteria; insertion
    order is priority order.
  */
  class ComparerBuilder<T(!new)> {
    var comparers: seq<(T, T) -> bool>

    /** A new builder holds no criteria, and what it builds is false everywhere. */
    constructor ()
      ensures comparers == []
      ensures forall a, b :: !Build()(a, b)
    {
      comparers := [];
    }

    /**
      Appends one criterion comparing `key` values by `lt` (reversed when
      `descending`), and returns this same builder so calls can be chained.
    */
    method By<K>(key: T -> K, lt: (K, K) -> bool, descending: bool := false) returns (self: ComparerBuilder<T>)
      modifies this
      ensures self == this
      ensures comparers == old(comparers) + [KeyComparer(key, lt, descending)]
      ensures forall a, b :: Build()(a, b) ==
                (if AllTie(old(comparers), a, b) then KeyComparer(key, lt, descending)(a, b) else old(Build())(a, b))
    {
      ghost var before := comparers;
      comparers := comparers + [KeyComparer(key, lt, descending)];
      forall a, b
        ensures Less(comparers, a, b) ==
          if AllTie(before, a, b) then KeyComparer(key, lt, descending)(a, b) else Less(before, a, b)
      {
        LessAppend(before, KeyComparer(key, lt, descending), a, b);
      }
      self := this;
    }

    /**
      The composite "less than" predicate over a copy of the current
      criteria: the first criterion that decides gives the verdict, all ties
      give false, and if every criterion is a strict weak order so is the
      result. The builder is not changed.
    */
    function Build(): (less: (T, T) -> bool)
      reads this
      ensures forall a, b :: less(a, b) <==> Lexicographic(comparers, a, b)
      ensures comparers == [] ==> forall a, b :: !less(a, b)
      ensures AllStrictWeak(comparers) ==> StrictWeakOrder(less)
    {
      var cs := comparers;
      assert forall a, b :: Less(cs, a, b) <==> Lexicographic(cs, a, b) by {
        forall a, b
          ensures Less(cs, a, b) <==> Lexicographic(cs, a, b)
        {
          LessIsLexicographic(cs, a, b);
        }
      }
      assert AllStrictWeak(cs) ==> StrictWeakOrder((x: T, y: T) => Less(cs, x, y)) by {
        if AllStrictWeak(cs) {
          LessIsStrictWeakOrder(cs);
        }
      }
      (lhs: T, rhs: T) => Less(cs, lhs, rhs)
    }
  }
}
