/** Choosing elements of finite sets.

    Python iterates a dictionary in an order the language leaves open, and
    sorts integer keys when the code asks it to. The model makes the
    first kind of choice with `:|` over a non-empty set, and the second
    with the least and greatest element of a set of integers. */
module Sets {

  /** A non-empty set has an element to choose. */
  lemma Pick<T>(s: set<T>) returns (x: T)
    requires s != {}
    ensures x in s
  {
    if forall y :: y !in s {
      assert false;
    }
    x :| x in s;
  }

  lemma MaxExists(s: set<int>)
    requires s != {}
    ensures exists m :: m in s && forall y | y in s :: y <= m
    decreases |s|
  {
    var x := Pick(s);
    var t := s - {x};
    if t == {} {
      assert s == {x};
    } else {
      MaxExists(t);
      var m :| m in t && forall y | y in t :: y <= m;
      var w := if x > m then x else m;
      forall y | y in s
        ensures y <= w
      {
        if y != x {
          assert y in t;
        }
      }
    }
  }

  /** The largest element of a non-empty set of integers. */
  function Max(s: set<int>): (m: int)
    requires s != {}
    ensures m in s && forall x | x in s :: x <= m
  {
    MaxExists(s);
    var m :| m in s && forall y | y in s :: y <= m;
    m
  }

  /** The smallest element of a non-empty set of integers: the first
      element of the sorted list. */
  function Min(s: set<int>): (m: int)
    requires s != {}
    ensures m in s && forall x | x in s :: m <= x
  {
    var negated := set x | x in s :: -x;
    assert -Max(s) in negated;
    var top := Max(negated);
    assert forall x | x in s :: -x in negated;
    -top
  }
}
