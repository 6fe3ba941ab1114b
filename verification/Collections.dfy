/** Optional values, and elements, sizes, maxima and minima of finite sets. */
module Collections {
  datatype Option<+T> = None | Some(value: T)

  lemma SomeElement<T>(s: set<T>) returns (x: T)
    requires s != {}
    ensures x in s
  {
    x :| x in s;
  }

  lemma SubsetNotLarger<T>(a: set<T>, b: set<T>)
    requires a <= b
    ensures |a| <= |b|
  {
    assert b == a + (b - a);
  }

  lemma StrictSubsetSmaller<T>(a: set<T>, b: set<T>)
    requires a < b
    ensures |a| < |b|
  {
    var x :| x in b && x !in a;
    SubsetNotLarger(a, b - {x});
  }

  lemma MaxExists(s: set<int>)
    requires s != {}
    ensures exists m :: m in s && forall y :: y in s ==> y <= m
  {
    var x := SomeElement(s);
    var rest := s - {x};
    if rest == {} {
      assert s == {x};
    } else {
      MaxExists(rest);
      var m :| m in rest && forall y :: y in rest ==> y <= m;
      var top := if m < x then x else m;
      assert top in s && forall y :: y in s ==> y in rest || y == x;
    }
  }

  function MaxOf(s: set<int>): (m: int)
    requires s != {}
    ensures m in s && forall y :: y in s ==> y <= m
  {
    MaxExists(s);
    var m :| m in s && forall y | y in s :: y <= m;
    m
  }

  function MinOf(s: set<int>): (m: int)
    requires s != {}
    ensures m in s && forall y :: y in s ==> m <= y
  {
    var negated := set x | x in s :: -x;
    assert exists x :: x in s by {
      var x := SomeElement(s);
      assert x in s;
    }
    assert forall x :: x in s ==> -x in negated;
    -MaxOf(negated)
  }

  lemma MaxRealExists(s: set<real>)
    requires s != {}
    ensures exists m :: m in s && forall y :: y in s ==> y <= m
  {
    var x := SomeElement(s);
    var rest := s - {x};
    if rest == {} {
      assert s == {x};
    } else {
      MaxRealExists(rest);
      var m :| m in rest && forall y :: y in rest ==> y <= m;
      var top := if m < x then x else m;
      assert top in s && forall y :: y in s ==> y in rest || y == x;
    }
  }

  function MaxOfReals(s: set<real>): (m: real)
    requires s != {}
    ensures m in s && forall y :: y in s ==> y <= m
  {
    MaxRealExists(s);
    var m :| m in s && forall y | y in s :: y <= m;
    m
  }
}
