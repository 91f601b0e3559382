/** Counting arguments about finite sets. */
module FiniteSets {

  lemma Pick<T>(s: set<T>) returns (x: T)
    requires s != {}
    ensures x in s
  {
    x :| x in s;
  }

  /** A set whose elements have different numbers among `n` consecutive ones has at
      most `n` elements. */
  lemma {:induction false} NumberedSetSize<T>(s: set<T>, number: T -> int, lo: int, n: nat)
    requires forall x :: x in s ==> lo <= number(x) < lo + n
    requires forall x, y :: x in s && y in s && number(x) == number(y) ==> x == y
    ensures |s| <= n
    decreases n
  {
    if n == 0 {
      if s != {} {
        var x := Pick(s);
        assert false;
      }
    } else if x :| x in s && number(x) == lo + n - 1 {
      NumberedSetSize(s - {x}, number, lo, n - 1);
    } else {
      NumberedSetSize(s, number, lo, n - 1);
    }
  }

  lemma {:induction false} Smallest(s: set<int>) returns (m: int)
    requires s != {}
    ensures m in s && forall i :: i in s ==> m <= i
    decreases |s|
  {
    var x := Pick(s);
    var rest := s - {x};
    m := x;
    if rest != {} {
      var other := Smallest(rest);
      if other < x {
        m := other;
      }
    }
    forall i | i in s ensures m <= i {
      assert i == x || i in rest;
    }
  }

  lemma {:induction false} SubsetSize<T>(a: set<T>, b: set<T>)
    requires a <= b
    ensures |a| <= |b|
    decreases a
  {
    if a != {} {
      var x :| x in a;
      SubsetSize(a - {x}, b - {x});
    }
  }
}
