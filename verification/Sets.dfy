/** Small facts about built-in collections that several modules use. */
module Sets {

  lemma Element<T>(s: set<T>) returns (x: T)
    requires s != {}
    ensures x in s
  {
    x :| x in s;
  }

  lemma SubsetIsNoLarger<T>(a: set<T>, b: set<T>)
    requires a <= b
    ensures |a| <= |b|
  {
    assert b == a + (b - a);
  }

  lemma ProperSubsetIsSmaller<T>(a: set<T>, b: set<T>, x: T)
    requires a <= b && x in b && x !in a
    ensures |a| + 1 <= |b|
  {
    SubsetIsNoLarger(a + {x}, b);
  }

  lemma EquallyLargeSubsetIsEqual<T>(a: set<T>, b: set<T>)
    requires a <= b && |a| == |b|
    ensures a == b
  {
    if x :| x in b && x !in a {
      ProperSubsetIsSmaller(a, b, x);
    }
  }

  /** Some natural number is not in a finite set of them. */
  lemma Unused(s: set<nat>) returns (x: nat)
    ensures x !in s
  {
    x := UpperBound(s);
  }

  lemma {:induction false} UpperBound(s: set<nat>) returns (x: nat)
    ensures forall y :: y in s ==> y < x
  {
    if s == {} {
      x := 0;
    } else {
      var y := Element(s);
      var bound := UpperBound(s - {y});
      x := if y < bound then bound else y + 1;
      forall z | z in s
        ensures z < x
      {
        assert z == y || z in s - {y};
      }
    }
  }

  /** The elements of a set in some order. */
  method Enumerate<T(==)>(s: set<T>) returns (q: seq<T>)
    ensures (set x | x in q) == s
  {
    q := [];
    var rest := s;
    while rest != {}
      invariant rest <= s && (set x | x in q) == s - rest
    {
      ghost var _ := Element(rest);
      var x :| x in rest;
      assert (set y | y in q + [x]) == (set y | y in q) + {x};
      q := q + [x];
      rest := rest - {x};
    }
  }
}
