/**
  Strict orderings over values, and the two key orderings the builder is used
  with: `<` on integers and `<` on strings (lexicographic, as std::string
  compares). A relation is a strict "less than" predicate `(T, T) -> bool`.
*/
module Orders {

  ghost predicate Irreflexive<T(!new)>(lt: (T, T) -> bool) {
    forall x :: !lt(x, x)
  }

  ghost predicate Asymmetric<T(!new)>(lt: (T, T) -> bool) {
    forall x, y :: lt(x, y) ==> !lt(y, x)
  }

  ghost predicate Transitive<T(!new)>(lt: (T, T) -> bool) {
    forall x, y, z :: lt(x, y) && lt(y, z) ==> lt(x, z)
  }

  /** Neither value is less than the other: the two are tied under `lt`. */
  predicate Incomparable<T>(lt: (T, T) -> bool, x: T, y: T) {
    !lt(x, y) && !lt(y, x)
  }

  ghost predicate IncomparabilityTransitive<T(!new)>(lt: (T, T) -> bool) {
    forall x, y, z :: Incomparable(lt, x, y) && Incomparable(lt, y, z) ==> Incomparable(lt, x, z)
  }

  /** The requirement a generic sort places on its comparison predicate. */
  ghost predicate StrictWeakOrder<T(!new)>(lt: (T, T) -> bool) {
    && Irreflexive(lt)
    && Transitive(lt)
    && IncomparabilityTransitive(lt)
  }

  ghost predicate Connected<T(!new)>(lt: (T, T) -> bool) {
    forall x, y :: x != y ==> lt(x, y) || lt(y, x)
  }

  ghost predicate StrictTotalOrder<T(!new)>(lt: (T, T) -> bool) {
    && Irreflexive(lt)
    && Transitive(lt)
    && Connected(lt)
  }

  lemma StrictWeakOrderIsAsymmetric<T(!new)>(lt: (T, T) -> bool)
    requires StrictWeakOrder(lt)
    ensures Asymmetric(lt)
  {
  }

  /** A strict step followed by a tie is still a strict step. */
  lemma StrictWeakOrderLessThenTie<T(!new)>(lt: (T, T) -> bool, x: T, y: T, z: T)
    requires StrictWeakOrder(lt)
    requires lt(x, y) && Incomparable(lt, y, z)
    ensures lt(x, z)
  {
    if !lt(x, z) && !lt(z, x) {
      assert Incomparable(lt, x, z) && Incomparable(lt, z, y);
    }
  }

  /** A tie followed by a strict step is still a strict step. */
  lemma StrictWeakOrderTieThenLess<T(!new)>(lt: (T, T) -> bool, x: T, y: T, z: T)
    requires StrictWeakOrder(lt)
    requires Incomparable(lt, x, y) && lt(y, z)
    ensures lt(x, z)
  {
    if !lt(x, z) && !lt(z, x) {
      assert Incomparable(lt, y, x) && Incomparable(lt, x, z);
    }
  }

  /** In a strict total order only equal values are tied, so it is also a strict weak order. */
  lemma StrictTotalOrderIsStrictWeakOrder<T(!new)>(lt: (T, T) -> bool)
    requires StrictTotalOrder(lt)
    ensures StrictWeakOrder(lt)
  {
    forall x, y, z | Incomparable(lt, x, y) && Incomparable(lt, y, z)
      ensures Incomparable(lt, x, z)
    {
      assert x == y && y == z;
    }
  }

  /** The built-in `<` on the integer keys (an `int` member or getter). */
  function IntLess(x: int, y: int): bool {
    x < y
  }

  lemma IntLessIsStrictTotalOrder()
    ensures StrictTotalOrder(IntLess)
  {
  }

  /**
    std::string's `<`: characters are compared one by one from the front; the
    first position where they differ decides, and when one string is a proper
    prefix of the other the shorter one is less.
  */
  function StringLess(s: string, t: string): bool
    decreases |s|
  {
    if |t| == 0 then false
    else if |s| == 0 then true
    else if s[0] != t[0] then s[0] < t[0]
    else StringLess(s[1..], t[1..])
  }

  /** Reference definition of the lexicographic order on strings. */
  ghost predicate LexicographicallyBefore(s: string, t: string) {
    || (|s| < |t| && s == t[..|s|])
    || exists k :: 0 <= k < |s| && k < |t| && s[..k] == t[..k] && s[k] < t[k]
  }

  lemma {:induction false} StringLessIsLexicographic(s: string, t: string)
    ensures StringLess(s, t) <==> LexicographicallyBefore(s, t)
    decreases |s|
  {
    if |t| == 0 {
    } else if |s| == 0 {
      assert s == t[..0];
    } else if s[0] != t[0] {
      // Every non-empty common prefix would have to agree on the first character.
      forall k | 0 < k <= |s| && k <= |t|
        ensures s[..k] != t[..k]
      {
        assert s[..k][0] == s[0] && t[..k][0] == t[0];
      }
      if s[0] < t[0] {
        assert s[..0] == t[..0];
      }
    } else {
      StringLessIsLexicographic(s[1..], t[1..]);
      var s', t' := s[1..], t[1..];
      if LexicographicallyBefore(s', t') {
        if |s'| < |t'| && s' == t'[..|s'|] {
          assert s == [s[0]] + s' && t[..|s|] == [t[0]] + t'[..|s'|];
        } else {
          var k :| 0 <= k < |s'| && k < |t'| && s'[..k] == t'[..k] && s'[k] < t'[k];
          assert s[..k + 1] == [s[0]] + s'[..k] && t[..k + 1] == [t[0]] + t'[..k];
          assert s[k + 1] < t[k + 1];
        }
      }
      if LexicographicallyBefore(s, t) {
        if |s| < |t| && s == t[..|s|] {
          assert s' == t'[..|s'|];
        } else {
          var k :| 0 <= k < |s| && k < |t| && s[..k] == t[..k] && s[k] < t[k];
          assert k > 0;
          assert s'[..k - 1] == s[..k][1..] && t'[..k - 1] == t[..k][1..];
          assert s'[k - 1] < t'[k - 1];
        }
      }
    }
  }

  lemma {:induction false} StringLessIrreflexive(s: string)
    ensures !StringLess(s, s)
    decreases |s|
  {
    if |s| > 0 {
      StringLessIrreflexive(s[1..]);
    }
  }

  lemma {:induction false} StringLessTransitive(s: string, t: string, u: string)
    requires StringLess(s, t) && StringLess(t, u)
    ensures StringLess(s, u)
    decreases |s|
  {
    if |s| > 0 && s[0] == t[0] && t[0] == u[0] {
      StringLessTransitive(s[1..], t[1..], u[1..]);
    }
  }

  lemma {:induction false} StringLessConnected(s: string, t: string)
    requires s != t
    ensures StringLess(s, t) || StringLess(t, s)
    decreases |s|
  {
    if |s| > 0 && |t| > 0 && s[0] == t[0] {
      assert s == [s[0]] + s[1..] && t == [t[0]] + t[1..];
      StringLessConnected(s[1..], t[1..]);
    }
  }

  lemma StringLessIsStrictTotalOrder()
    ensures StrictTotalOrder(StringLess)
  {
    forall s | true
      ensures !StringLess(s, s)
    {
      StringLessIrreflexive(s);
    }
    forall s, t, u | StringLess(s, t) && StringLess(t, u)
      ensures StringLess(s, u)
    {
      StringLessTransitive(s, t, u);
    }
    forall s, t | s != t
      ensures StringLess(s, t) || StringLess(t, s)
    {
      StringLessConnected(s, t);
    }
  }
}
