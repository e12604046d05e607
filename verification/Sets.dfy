/** Finite sets: their cardinalities, and their least elements. */
module Sets {

  lemma {:induction false} SubsetSize<T>(a: set<T>, b: set<T>)
    requires a <= b
    ensures |a| <= |b|
  {
    if x :| x in a {
      SubsetSize(a - {x}, b - {x});
    }
  }

  /** There is always a new number. */
  ghost function Fresh(s: set<nat>): (n: nat)
    ensures n !in s && forall x | x in s :: x < n
  {
    if s == {} then 0 else
      var x :| x in s;
      assert s == (s - {x}) + {x};
      var n := Fresh(s - {x});
      if n <= x then x + 1 else n
  }

  /** An element that no other comes before. */
  method LeastOf<T>(s: set<T>, rank: T -> int) returns (least: T)
    requires s != {}
    ensures least in s && forall x | x in s :: rank(least) <= rank(x)
  {
    least :| least in s;
    var rest := s - {least};
    while rest != {}
      invariant rest <= s && least in s
      invariant forall x | x in s :: x in rest || rank(least) <= rank(x)
      decreases rest
    {
      var x :| x in rest;
      rest := rest - {x};
      if rank(x) < rank(least) {
        least := x;
      }
    }
  }
}
