/** Small facts about finite sets used by several proofs. */
module Sets {
  /** A nonempty set has a member. */
  lemma Pick<T>(s: set<T>) returns (x: T)
    requires s != {}
    ensures x in s
  {
    x :| x in s;
  }

  lemma CardinalitySubset<T>(a: set<T>, b: set<T>)
    requires a <= b
    ensures |a| <= |b|
  {
    assert b == a + (b - a);
  }

  lemma NotEmpty<T>(s: set<T>)
    ensures |s| >= 1 <==> s != {}
  {
  }

  lemma Singleton<T>(s: set<T>, x: T)
    requires |s| == 1 && x in s
    ensures s == {x}
  {
    assert |s - {x}| == 0;
  }

  /** A set of several members has one besides a given one. */
  lemma Another<T>(s: set<T>, x: T) returns (y: T)
    requires |s| > 1
    ensures y in s && y != x
  {
    assert |s - {x}| >= 1;
    y := Pick(s - {x});
  }

  /** A function takes at most `n` values on the first `n` numbers. */
  lemma {:induction false} ImageSize(f: nat -> int, n: nat)
    ensures |set i: nat | i < n :: f(i)| <= n
  {
    if n > 0 {
      ImageSize(f, n - 1);
      assert (set i: nat | i < n :: f(i)) == (set i: nat | i < n - 1 :: f(i)) + {f(n - 1)};
    }
  }

  /** The `n` numbers from `lo` on. */
  ghost function Range(lo: int, n: nat): (r: set<int>)
    ensures |r| == n
    ensures forall i :: i in r <==> lo <= i < lo + n
  {
    if n == 0 then {} else Range(lo, n - 1) + {lo + n - 1}
  }

  ghost function Least(t: set<int>): (m: int)
    requires t != {}
    ensures m in t && forall x :: x in t ==> m <= x
  {
    HasLeast(t);
    var m :| m in t && forall x :: x in t ==> m <= x;
    m
  }

  lemma HasLeast(t: set<int>)
    requires t != {}
    ensures exists m :: m in t && forall x :: x in t ==> m <= x
  {
    var m := Pick(t);
    var rest := t - {m};
    while rest != {}
      invariant m in t && rest <= t
      invariant forall x :: x in t ==> x in rest || m <= x
    {
      var y := Pick(rest);
      rest := rest - {y};
      if y < m {
        m := y;
      }
    }
  }
}
