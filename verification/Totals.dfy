/** Sums of a function over a finite set. */
module Totals {

  ghost function Total(f: nat -> int, s: set<nat>): int {
    if s == {} then 0
    else
      var x := AnyOf(s);
      f(x) + Total(f, s - {x})
  }

  ghost function AnyOf(s: set<nat>): (x: nat)
    requires s != {}
    ensures x in s
  {
    var x :| x in s;
    x
  }

  lemma {:induction false} TotalWithout(f: nat -> int, s: set<nat>, x: nat)
    requires x in s
    ensures Total(f, s) == f(x) + Total(f, s - {x})
    decreases s
  {
    var y := AnyOf(s);
    if y != x {
      TotalWithout(f, s - {y}, x);
      TotalWithout(f, s - {x}, y);
      assert s - {y} - {x} == s - {x} - {y};
    }
  }

  lemma TotalWith(f: nat -> int, s: set<nat>, x: nat)
    requires x !in s
    ensures Total(f, s + {x}) == Total(f, s) + f(x)
  {
    TotalWithout(f, s + {x}, x);
    assert s + {x} - {x} == s;
  }

  lemma {:induction false} TotalUnion(f: nat -> int, a: set<nat>, b: set<nat>)
    requires a !! b
    ensures Total(f, a + b) == Total(f, a) + Total(f, b)
    decreases a
  {
    if a == {} {
      assert a + b == b;
    } else {
      var x := AnyOf(a);
      TotalUnion(f, a - {x}, b);
      TotalWithout(f, a + b, x);
      assert a + b - {x} == (a - {x}) + b;
    }
  }

  lemma {:induction false} TotalAtMost(f: nat -> int, g: nat -> int, k: int, s: set<nat>)
    requires forall x :: x in s ==> f(x) <= k * g(x)
    ensures Total(f, s) <= k * Total(g, s)
    decreases s
  {
    if s != {} {
      var x := AnyOf(s);
      TotalAtMost(f, g, k, s - {x});
      assert k * (g(x) + Total(g, s - {x})) == k * g(x) + k * Total(g, s - {x});
    }
  }

  /** Taking members away from a set of non-negative terms does not make its total larger. */
  lemma TotalSubset(f: nat -> int, a: set<nat>, b: set<nat>)
    requires a <= b && forall x :: x in b ==> f(x) >= 0
    ensures 0 <= Total(f, a) <= Total(f, b)
  {
    TotalNonNegative(f, a);
    TotalNonNegative(f, b - a);
    TotalUnion(f, a, b - a);
    assert a + (b - a) == b;
  }

  lemma {:induction false} TotalNonNegative(f: nat -> int, s: set<nat>)
    requires forall x :: x in s ==> f(x) >= 0
    ensures Total(f, s) >= 0
    decreases s
  {
    if s != {} {
      TotalNonNegative(f, s - {AnyOf(s)});
    }
  }
}
