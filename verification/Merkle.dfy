/** Merkle trees over transaction ids: the root computed level by level, and the hash of any node of the tree. */
module Merkle {
  import opened Radix

  /** A 256-bit hash; 0 stands for the null hash. */
  type Hash = nat

  /** The hash of the concatenation of two hashes. */
  type PairHash = (Hash, Hash) -> Hash

  const NULL_HASH: Hash := 0

  ghost predicate CollisionFree(h: PairHash) {
    forall a, b, c, d :: h(a, b) == h(c, d) ==> a == c && b == d
  }

  // ---------- widths and heights ----------

  /** The number of nodes at height `k` of the tree over `n` transactions. */
  function TreeWidth(n: nat, k: nat): nat {
    (n + Pow2(k) - 1) / Pow2(k)
  }

  /** A node exists if and only if its first leaf does. */
  lemma NodeExists(n: nat, k: nat, pos: nat)
    ensures pos < TreeWidth(n, k) <==> pos * Pow2(k) < n
  {
    hide Pow2;
    var p, w := Pow2(k), TreeWidth(n, k);
    DivMod(n + p - 1, p);
    MulLe(pos + 1, w, p);
    MulLe(w, pos, p);
    assert (pos + 1) * p == pos * p + p;
  }

  lemma ParentExists(n: nat, k: nat, pos: nat)
    ensures pos < TreeWidth(n, k + 1) <==> 2 * pos < TreeWidth(n, k)
  {
    hide TreeWidth;
    NodeExists(n, k + 1, pos);
    NodeExists(n, k, 2 * pos);
    assert (2 * pos) * Pow2(k) == pos * Pow2(k + 1);
  }

  lemma WidthHalves(n: nat, k: nat)
    ensures TreeWidth(n, k + 1) == (TreeWidth(n, k) + 1) / 2
  {
    hide TreeWidth;
    var w := (TreeWidth(n, k) + 1) / 2;
    ParentExists(n, k, w);
    if w > 0 {
      ParentExists(n, k, w - 1);
    }
  }

  /** The least height, from `k` on, at which the tree has at most one node. */
  function HeightFrom(n: nat, k: nat): (r: nat)
    ensures r >= k && TreeWidth(n, r) <= 1
    decreases TreeWidth(n, k)
  {
    WidthHalves(n, k);
    if TreeWidth(n, k) <= 1 then k else HeightFrom(n, k + 1)
  }

  function Height(n: nat): nat {
    HeightFrom(n, 0)
  }

  lemma RootExists(n: nat)
    requires n > 0
    ensures TreeWidth(n, Height(n)) == 1
  {
    NodeExists(n, Height(n), 0);
  }

  method TreeHeight(n: nat) returns (k: nat)
    ensures k == Height(n)
  {
    k := 0;
    while TreeWidth(n, k) > 1
      invariant HeightFrom(n, k) == Height(n)
      decreases TreeWidth(n, k)
    {
      WidthHalves(n, k);
      k := k + 1;
    }
  }

  // ---------- levels ----------

  function Pair(h: PairHash, s: seq<Hash>, i: nat): Hash
    requires 2 * i < |s|
  {
    h(s[2 * i], if 2 * i + 1 < |s| then s[2 * i + 1] else s[2 * i])
  }

  /** The next level: neighbours are hashed together, and a last node without neighbour with itself. */
  function PairUp(h: PairHash, s: seq<Hash>): (r: seq<Hash>)
    ensures |r| == (|s| + 1) / 2
  {
    seq<Hash>((|s| + 1) / 2, i requires 0 <= i < (|s| + 1) / 2 => Pair(h, s, i))
  }

  function Level(h: PairHash, ids: seq<Hash>, k: nat): seq<Hash> {
    if k == 0 then ids else PairUp(h, Level(h, ids, k - 1))
  }

  lemma {:induction false} LevelWidth(h: PairHash, ids: seq<Hash>, k: nat)
    ensures |Level(h, ids, k)| == TreeWidth(|ids|, k)
  {
    if k > 0 {
      LevelWidth(h, ids, k - 1);
      WidthHalves(|ids|, k - 1);
    }
  }

  /** The hash of the node at height `k` and position `pos`. */
  function NodeHash(h: PairHash, ids: seq<Hash>, k: nat, pos: nat): Hash
    requires pos < TreeWidth(|ids|, k)
  {
    if k == 0 then ids[pos] else
      Children(|ids|, k, pos);
      var left := NodeHash(h, ids, k - 1, 2 * pos);
      var right := if 2 * pos + 1 < TreeWidth(|ids|, k - 1) then NodeHash(h, ids, k - 1, 2 * pos + 1) else left;
      h(left, right)
  }

  lemma Children(n: nat, k: nat, pos: nat)
    requires k > 0 && pos < TreeWidth(n, k)
    ensures 2 * pos < TreeWidth(n, k - 1)
  {
    WidthHalves(n, k - 1);
  }

  /** The recursive definition of a node's hash agrees with the levels. */
  lemma {:induction false} NodeIsInLevel(h: PairHash, ids: seq<Hash>, k: nat, pos: nat)
    requires pos < TreeWidth(|ids|, k)
    ensures |Level(h, ids, k)| == TreeWidth(|ids|, k) && NodeHash(h, ids, k, pos) == Level(h, ids, k)[pos]
    decreases k
  {
    LevelWidth(h, ids, k);
    if k > 0 {
      Children(|ids|, k, pos);
      NodeIsInLevel(h, ids, k - 1, 2 * pos);
      if 2 * pos + 1 < TreeWidth(|ids|, k - 1) {
        NodeIsInLevel(h, ids, k - 1, 2 * pos + 1);
      }
    }
  }

  /** The Merkle root: what is left when pairing up has ended. */
  function Root(h: PairHash, ids: seq<Hash>): Hash
    decreases |ids|
  {
    if |ids| == 0 then NULL_HASH else if |ids| == 1 then ids[0] else Root(h, PairUp(h, ids))
  }

  lemma {:induction false} RootOfLevel(h: PairHash, ids: seq<Hash>, k: nat)
    requires k <= Height(|ids|)
    ensures Root(h, Level(h, ids, k)) == Root(h, ids)
  {
    if k > 0 {
      HeightGrows(|ids|, 0, k - 1);
      RootOfLevel(h, ids, k - 1);
      LevelWidth(h, ids, k - 1);
    }
  }

  lemma {:induction false} HeightGrows(n: nat, i: nat, k: nat)
    requires i <= k < HeightFrom(n, i)
    ensures TreeWidth(n, k) > 1
    decreases k - i
  {
    if i < k {
      HeightGrows(n, i + 1, k);
    }
  }

  /** The root is the hash of the single node at the top. */
  lemma RootIsTop(h: PairHash, ids: seq<Hash>)
    requires |ids| > 0
    ensures TreeWidth(|ids|, Height(|ids|)) == 1 && Root(h, ids) == NodeHash(h, ids, Height(|ids|), 0)
  {
    RootExists(|ids|);
    RootOfLevel(h, ids, Height(|ids|));
    NodeIsInLevel(h, ids, Height(|ids|), 0);
  }

  // ---------- computing the root, and detecting duplicated ends ----------

  /** Two neighbours that are hashed together are equal. */
  ghost predicate Twins(s: seq<Hash>) {
    exists i :: 0 <= i && 2 * i + 1 < |s| && s[2 * i] == s[2 * i + 1]
  }

  /** At some level below the root two neighbours are equal. */
  ghost predicate Mutated(h: PairHash, ids: seq<Hash>)
    decreases |ids|
  {
    |ids| > 1 && (Twins(ids) || Mutated(h, PairUp(h, ids)))
  }

  method HasTwins(s: seq<Hash>) returns (found: bool)
    ensures found <==> Twins(s)
  {
    found := false;
    var i := 0;
    while 2 * i + 1 < |s|
      invariant found <==> exists j :: 0 <= j < i && 2 * j + 1 < |s| && s[2 * j] == s[2 * j + 1]
    {
      if s[2 * i] == s[2 * i + 1] {
        found := true;
      }
      i := i + 1;
    }
  }

  /** Hashes the pairs of a list of even length into its first half. */
  method HashPairs(h: PairHash, s: seq<Hash>) returns (r: seq<Hash>)
    requires |s| % 2 == 0
    ensures r == PairUp(h, s)
  {
    r := s;
    for i := 0 to |s| / 2
      invariant |r| == |s|
      invariant forall j :: 0 <= j < i ==> r[j] == Pair(h, s, j)
      invariant forall j :: 2 * i <= j < |s| ==> r[j] == s[j]
    {
      r := r[i := h(r[2 * i], r[2 * i + 1])];
    }
    r := r[..|s| / 2];
  }

  method ComputeMerkleRoot(h: PairHash, ids: seq<Hash>) returns (root: Hash, mutated: bool)
    ensures root == Root(h, ids)
    ensures mutated <==> Mutated(h, ids)
  {
    var hashes := ids;
    mutated := false;
    while |hashes| > 1
      invariant Root(h, hashes) == Root(h, ids)
      invariant mutated || Mutated(h, hashes) <==> Mutated(h, ids)
      decreases |hashes|
    {
      ghost var before := hashes;
      var twins := HasTwins(hashes);
      mutated := mutated || twins;
      if |hashes| % 2 == 1 {
        hashes := hashes + [hashes[|hashes| - 1]];
        assert PairUp(h, hashes) == PairUp(h, before);
      }
      hashes := HashPairs(h, hashes);
    }
    root := if |hashes| == 0 then NULL_HASH else hashes[0];
  }

  // ---------- what a root commits to ----------

  /**
  Lists without twins at any level whose trees have the same height and the same root are the same: the mutation
  flag catches every way to repeat transactions without a change of the root.
   */
  lemma {:induction false} RootIsBinding(h: PairHash, a: seq<Hash>, b: seq<Hash>)
    requires CollisionFree(h) && !Mutated(h, a) && !Mutated(h, b)
    requires |a| > 0 && |b| > 0 && Height(|a|) == Height(|b|) && Root(h, a) == Root(h, b)
    ensures a == b
    decreases |a|
  {
    HeightShift(|a|);
    HeightShift(|b|);
    if |a| > 1 && |b| > 1 {
      RootIsBinding(h, PairUp(h, a), PairUp(h, b));
      UnpairUp(h, a, b);
    }
  }

  lemma HeightShift(n: nat)
    ensures n <= 1 ==> Height(n) == 0
    ensures n > 1 ==> Height(n) == 1 + Height((n + 1) / 2)
  {
    assert Pow2(0) == 1 && TreeWidth(n, 0) == n;
    if n > 1 {
      WidthHalves(n, 0);
      HeightFromShift(n, 0);
    }
  }

  lemma {:induction false} WidthShift(n: nat, k: nat)
    ensures TreeWidth(n, k + 1) == TreeWidth((n + 1) / 2, k)
  {
    WidthHalves(n, k);
    if k > 0 {
      WidthShift(n, k - 1);
      WidthHalves((n + 1) / 2, k - 1);
    } else {
      assert Pow2(0) == 1;
    }
  }

  lemma {:induction false} HeightFromShift(n: nat, k: nat)
    ensures HeightFrom(n, k + 1) == 1 + HeightFrom((n + 1) / 2, k)
    decreases TreeWidth(n, k + 1)
  {
    WidthShift(n, k);
    if TreeWidth(n, k + 1) > 1 {
      WidthHalves(n, k + 1);
      HeightFromShift(n, k + 1);
    }
  }

  lemma UnpairUp(h: PairHash, a: seq<Hash>, b: seq<Hash>)
    requires CollisionFree(h) && !Twins(a) && !Twins(b) && PairUp(h, a) == PairUp(h, b)
    ensures a == b
  {
    forall i | 0 <= i < (|a| + 1) / 2
      ensures a[2 * i] == b[2 * i]
      ensures 2 * i + 1 < |a| <==> 2 * i + 1 < |b|
      ensures 2 * i + 1 < |a| ==> a[2 * i + 1] == b[2 * i + 1]
    {
      assert PairUp(h, a)[i] == PairUp(h, b)[i];
    }
    if |a| > 0 {
      var last := (|a| + 1) / 2 - 1;
      assert 2 * last + 1 < |a| <==> 2 * last + 1 < |b|;
    }
    forall j | 0 <= j < |a|
      ensures a[j] == b[j]
    {
      assert j == 2 * (j / 2) || j == 2 * (j / 2) + 1;
    }
  }

  ghost predicate Distinct(s: seq<Hash>) {
    forall i, j :: 0 <= i < j < |s| ==> s[i] != s[j]
  }

  lemma PairsAreDistinct(h: PairHash, s: seq<Hash>)
    requires CollisionFree(h) && Distinct(s)
    ensures Distinct(PairUp(h, s))
  {
    forall i, j | 0 <= i < j < (|s| + 1) / 2
      ensures PairUp(h, s)[i] != PairUp(h, s)[j]
    {
      assert s[2 * i] != s[2 * j];
    }
  }

  /** Distinct transactions are never taken for mutated ones. */
  lemma {:induction false} DistinctIsUnmutated(h: PairHash, ids: seq<Hash>)
    requires CollisionFree(h) && Distinct(ids)
    ensures !Mutated(h, ids)
    decreases |ids|
  {
    if |ids| > 1 {
      PairsAreDistinct(h, ids);
      DistinctIsUnmutated(h, PairUp(h, ids));
    }
  }

  lemma {:induction false} LevelIsDistinct(h: PairHash, ids: seq<Hash>, k: nat)
    requires CollisionFree(h) && Distinct(ids)
    ensures Distinct(Level(h, ids, k))
  {
    if k > 0 {
      LevelIsDistinct(h, ids, k - 1);
      PairsAreDistinct(h, Level(h, ids, k - 1));
    }
  }

  lemma NodesAreDistinct(h: PairHash, ids: seq<Hash>, k: nat, i: nat, j: nat)
    requires CollisionFree(h) && Distinct(ids) && i < j < TreeWidth(|ids|, k)
    ensures NodeHash(h, ids, k, i) != NodeHash(h, ids, k, j)
  {
    LevelIsDistinct(h, ids, k);
    NodeIsInLevel(h, ids, k, i);
    NodeIsInLevel(h, ids, k, j);
  }
}
