/** Partial Merkle trees: what is stored for a selection of transactions, and how it is read back. */
module PartialMerkle {
  import opened Radix
  import opened Merkle

  /** The flag bits and hashes of a subtree, in depth-first order. */
  datatype Partial = Partial(bits: seq<bool>, hashes: seq<Hash>)

  // ---------- the leaves below a node ----------

  function FirstLeaf(k: nat, pos: nat): nat {
    pos * Pow2(k)
  }

  /** The leaf after the last one below a node. */
  function EndLeaf(n: nat, k: nat, pos: nat): nat {
    var end := (pos + 1) * Pow2(k);
    if end < n then end else n
  }

  lemma LeafRange(n: nat, k: nat, pos: nat)
    requires pos < TreeWidth(n, k)
    ensures FirstLeaf(k, pos) < EndLeaf(n, k, pos) <= n
    ensures k == 0 ==> FirstLeaf(k, pos) == pos && EndLeaf(n, k, pos) == pos + 1
  {
    NodeExists(n, k, pos);
    assert (pos + 1) * Pow2(k) == pos * Pow2(k) + Pow2(k);
  }

  /** The leaves of a node are those of its left child followed by those of its right child, if there is one. */
  lemma LeavesSplit(n: nat, k: nat, pos: nat)
    requires k > 0 && pos < TreeWidth(n, k)
    ensures 2 * pos < TreeWidth(n, k - 1) && FirstLeaf(k - 1, 2 * pos) == FirstLeaf(k, pos)
    ensures 2 * pos + 1 < TreeWidth(n, k - 1) ==>
      EndLeaf(n, k - 1, 2 * pos) == FirstLeaf(k - 1, 2 * pos + 1)
          && EndLeaf(n, k - 1, 2 * pos + 1) == EndLeaf(n, k, pos)
    ensures 2 * pos + 1 >= TreeWidth(n, k - 1) ==> EndLeaf(n, k - 1, 2 * pos) == EndLeaf(n, k, pos)
  {
    hide TreeWidth;
    Children(n, k, pos);
    NodeExists(n, k - 1, 2 * pos + 1);
    var p := Pow2(k - 1);
    assert Pow2(k) == 2 * p;
    assert (2 * pos) * p == pos * (2 * p);
    assert (2 * pos + 1 + 1) * p == (pos + 1) * (2 * p);
    assert (pos + 1) * (2 * p) == (2 * pos + 1) * p + p;
  }

  /** The matched positions from `lo` to `hi`. */
  function Matches(match_: seq<bool>, lo: nat, hi: nat): seq<nat>
    requires hi <= |match_|
    decreases hi - lo
  {
    if lo >= hi then [] else (if match_[lo] then [lo] else []) + Matches(match_, lo + 1, hi)
  }

  lemma {:induction false} MatchesSplit(match_: seq<bool>, lo: nat, mid: nat, hi: nat)
    requires lo <= mid <= hi <= |match_|
    ensures Matches(match_, lo, hi) == Matches(match_, lo, mid) + Matches(match_, mid, hi)
    decreases mid - lo
  {
    if lo < mid {
      MatchesSplit(match_, lo + 1, mid, hi);
    }
  }

  /** Exactly the matched positions are listed. */
  lemma {:induction false} MatchesAre(match_: seq<bool>, lo: nat, hi: nat, p: nat)
    requires hi <= |match_|
    ensures p in Matches(match_, lo, hi) <==> lo <= p < hi && match_[p]
    decreases hi - lo
  {
    if lo < hi {
      MatchesAre(match_, lo + 1, hi, p);
    }
  }

  function MatchesBelow(match_: seq<bool>, k: nat, pos: nat): seq<nat>
    requires pos < TreeWidth(|match_|, k)
  {
    LeafRange(|match_|, k, pos);
    Matches(match_, FirstLeaf(k, pos), EndLeaf(|match_|, k, pos))
  }

  lemma MatchesBelowSplit(match_: seq<bool>, k: nat, pos: nat)
    requires k > 0 && pos < TreeWidth(|match_|, k)
    ensures 2 * pos < TreeWidth(|match_|, k - 1)
    ensures MatchesBelow(match_, k, pos) == MatchesBelow(match_, k - 1, 2 * pos) +
            if 2 * pos + 1 < TreeWidth(|match_|, k - 1) then MatchesBelow(match_, k - 1, 2 * pos + 1) else []
  {
    hide TreeWidth, FirstLeaf, EndLeaf;
    var n := |match_|;
    LeavesSplit(n, k, pos);
    LeafRange(n, k, pos);
    LeafRange(n, k - 1, 2 * pos);
    if 2 * pos + 1 < TreeWidth(n, k - 1) {
      LeafRange(n, k - 1, 2 * pos + 1);
      MatchesSplit(match_, FirstLeaf(k, pos), EndLeaf(n, k - 1, 2 * pos), EndLeaf(n, k, pos));
    }
  }

  // ---------- building ----------

  /** What is stored for the subtree of a node. */
  function Build(h: PairHash, ids: seq<Hash>, match_: seq<bool>, k: nat, pos: nat): Partial
    requires |match_| == |ids| && pos < TreeWidth(|ids|, k)
  {
    var found := MatchesBelow(match_, k, pos) != [];
    if k == 0 || !found then Partial([found], [NodeHash(h, ids, k, pos)]) else
      Children(|ids|, k, pos);
      var left := Build(h, ids, match_, k - 1, 2 * pos);
      var right := if 2 * pos + 1 < TreeWidth(|ids|, k - 1) then Build(h, ids, match_, k - 1, 2 * pos + 1)
          else Partial([], []);
      Partial([true] + left.bits + right.bits, left.hashes + right.hashes)
  }

  /** A subtree stores at least one hash, no more than it has leaves, and at least as many bits as hashes. */
  lemma {:induction false} HashesFitLeaves(h: PairHash, ids: seq<Hash>, match_: seq<bool>, k: nat, pos: nat)
    requires |match_| == |ids| && pos < TreeWidth(|ids|, k)
    ensures 1 <= |Build(h, ids, match_, k, pos).hashes| <= EndLeaf(|ids|, k, pos) - FirstLeaf(k, pos)
    ensures |Build(h, ids, match_, k, pos).hashes| <= |Build(h, ids, match_, k, pos).bits|
    decreases k
  {
    hide TreeWidth, FirstLeaf, EndLeaf, NodeHash;
    LeafRange(|ids|, k, pos);
    if k > 0 && MatchesBelow(match_, k, pos) != [] {
      LeavesSplit(|ids|, k, pos);
      HashesFitLeaves(h, ids, match_, k - 1, 2 * pos);
      if 2 * pos + 1 < TreeWidth(|ids|, k - 1) {
        HashesFitLeaves(h, ids, match_, k - 1, 2 * pos + 1);
      }
    }
  }

  /** No more than one hash, and one more for each level above each matched transaction. */
  lemma {:induction false} HashesFitMatches(h: PairHash, ids: seq<Hash>, match_: seq<bool>, k: nat, pos: nat)
    requires |match_| == |ids| && pos < TreeWidth(|ids|, k)
    ensures |Build(h, ids, match_, k, pos).hashes| <= 1 + |MatchesBelow(match_, k, pos)| * k
    decreases k
  {
    hide TreeWidth, NodeHash, MatchesBelow;
    if k > 0 && MatchesBelow(match_, k, pos) != [] {
      MatchesBelowSplit(match_, k, pos);
      HashesFitMatches(h, ids, match_, k - 1, 2 * pos);
      var m := |MatchesBelow(match_, k, pos)|;
      var left := |MatchesBelow(match_, k - 1, 2 * pos)|;
      if 2 * pos + 1 < TreeWidth(|ids|, k - 1) {
        HashesFitMatches(h, ids, match_, k - 1, 2 * pos + 1);
        var right := |MatchesBelow(match_, k - 1, 2 * pos + 1)|;
        assert left * (k - 1) + right * (k - 1) == m * (k - 1) == m * k - m;
      } else {
        assert left * (k - 1) == m * k - m;
      }
    }
  }

  // ---------- how many bits ----------

  /** The nodes with a match and a single child, of those in the subtree of a node. */
  ghost function Lonely(match_: seq<bool>, k: nat, pos: nat): nat
    requires pos < TreeWidth(|match_|, k)
  {
    if k == 0 || MatchesBelow(match_, k, pos) == [] then 0 else
      Children(|match_|, k, pos);
      var right := if 2 * pos + 1 < TreeWidth(|match_|, k - 1) then Lonely(match_, k - 1, 2 * pos + 1) else 1;
      Lonely(match_, k - 1, 2 * pos) + right
  }

  /** A tree with two children at every node has one node less above its leaves; a lonely child costs a bit more. */
  lemma {:induction false} BitCount(h: PairHash, ids: seq<Hash>, match_: seq<bool>, k: nat, pos: nat)
    requires |match_| == |ids| && pos < TreeWidth(|ids|, k)
    ensures var b := Build(h, ids, match_, k, pos); |b.bits| + 1 == 2 * |b.hashes| + Lonely(match_, k, pos)
    decreases k
  {
    hide TreeWidth, NodeHash, MatchesBelow;
    if k > 0 && MatchesBelow(match_, k, pos) != [] {
      Children(|ids|, k, pos);
      BitCount(h, ids, match_, k - 1, 2 * pos);
      if 2 * pos + 1 < TreeWidth(|ids|, k - 1) {
        BitCount(h, ids, match_, k - 1, 2 * pos + 1);
      }
    }
  }

  /** The hashes that are stored for the subtree of a node: those of its leaves and of its nodes without a match. */
  ghost function Stored(match_: seq<bool>, k: nat, pos: nat): nat
    requires pos < TreeWidth(|match_|, k)
  {
    if k == 0 || MatchesBelow(match_, k, pos) == [] then 1 else
      Children(|match_|, k, pos);
      var right := if 2 * pos + 1 < TreeWidth(|match_|, k - 1) then Stored(match_, k - 1, 2 * pos + 1) else 0;
      Stored(match_, k - 1, 2 * pos) + right
  }

  /** How many are stored depends on the selection only. */
  lemma {:induction false} StoredCount(h: PairHash, ids: seq<Hash>, match_: seq<bool>, k: nat, pos: nat)
    requires |match_| == |ids| && pos < TreeWidth(|ids|, k)
    ensures |Build(h, ids, match_, k, pos).hashes| == Stored(match_, k, pos)
    decreases k
  {
    hide TreeWidth, NodeHash, MatchesBelow;
    if k > 0 && MatchesBelow(match_, k, pos) != [] {
      Children(|ids|, k, pos);
      StoredCount(h, ids, match_, k - 1, 2 * pos);
      if 2 * pos + 1 < TreeWidth(|ids|, k - 1) {
        StoredCount(h, ids, match_, k - 1, 2 * pos + 1);
      }
    }
  }

  /** Only the last node of a level can have a single child. */
  lemma {:induction false} LonelyIsLast(match_: seq<bool>, k: nat, pos: nat)
    requires pos + 1 < TreeWidth(|match_|, k)
    ensures Lonely(match_, k, pos) == 0
    decreases k
  {
    hide TreeWidth, MatchesBelow;
    if k > 0 {
      WidthHalves(|match_|, k - 1);
      LonelyIsLast(match_, k - 1, 2 * pos);
      LonelyIsLast(match_, k - 1, 2 * pos + 1);
    }
  }

  ghost function LastMatches(match_: seq<bool>, k: nat): seq<nat>
    requires match_ != []
  {
    NodeExists(|match_|, k, 0);
    MatchesBelow(match_, k, TreeWidth(|match_|, k) - 1)
  }

  /** From level one to level `k`: where the nodes below are odd in number, the last node has no match. */
  ghost predicate LastAreEven(match_: seq<bool>, k: nat)
    requires match_ != []
  {
    forall j :: 1 <= j <= k && TreeWidth(|match_|, j - 1) % 2 == 1 ==> LastMatches(match_, j) == []
  }

  lemma LastBelow(match_: seq<bool>, k: nat)
    requires match_ != [] && k > 0
    ensures LastMatches(match_, k) == [] ==> LastMatches(match_, k - 1) == []
  {
    hide TreeWidth, MatchesBelow;
    NodeExists(|match_|, k, 0);
    NodeExists(|match_|, k - 1, 0);
    WidthHalves(|match_|, k - 1);
    MatchesBelowSplit(match_, k, TreeWidth(|match_|, k) - 1);
  }

  lemma {:induction false} NoLastMatches(match_: seq<bool>, k: nat)
    requires match_ != [] && LastMatches(match_, k) == []
    ensures LastAreEven(match_, k)
    decreases k
  {
    hide TreeWidth, LastMatches;
    if k > 0 {
      LastBelow(match_, k);
      NoLastMatches(match_, k - 1);
    }
  }

  lemma {:induction false} NoneLonely(match_: seq<bool>, k: nat)
    requires match_ != []
    ensures TreeWidth(|match_|, k) > 0
    ensures (Lonely(match_, k, TreeWidth(|match_|, k) - 1) == 0 <==> LastAreEven(match_, k))
    decreases k
  {
    hide TreeWidth, MatchesBelow;
    NodeExists(|match_|, k, 0);
    if k > 0 {
      NoneLonely(match_, k - 1);
      WidthHalves(|match_|, k - 1);
      var w := TreeWidth(|match_|, k - 1);
      assert LastAreEven(match_, k) <==> LastAreEven(match_, k - 1) && (w % 2 == 1 ==> LastMatches(match_, k) == []);
      if LastMatches(match_, k) == [] {
        NoLastMatches(match_, k);
      } else if w % 2 == 0 {
        LonelyIsLast(match_, k - 1, w - 2);
      }
    }
  }

  // ---------- extracting ----------

  /** How far an extraction has come. */
  datatype Walk = Walk(bitsUsed: nat, hashesUsed: nat, matches: seq<Hash>, indexes: seq<nat>, bad: bool)

  datatype Visit = Visit(hash: Hash, walk: Walk)

  function Extract(h: PairHash, n: nat, p: Partial, k: nat, pos: nat, w: Walk): Visit
    decreases k
  {
    if w.bitsUsed >= |p.bits| then Visit(NULL_HASH, w.(bad := true)) else
      var parent := p.bits[w.bitsUsed];
      var w := w.(bitsUsed := w.bitsUsed + 1);
      if k == 0 || !parent then
        if w.hashesUsed >= |p.hashes| then Visit(NULL_HASH, w.(bad := true)) else
          var hash := p.hashes[w.hashesUsed];
          var w := w.(hashesUsed := w.hashesUsed + 1);
          Visit(hash, if k == 0 && parent then w.(matches := w.matches + [hash], indexes := w.indexes + [pos]) else w)
      else
        var left := Extract(h, n, p, k - 1, 2 * pos, w);
        if 2 * pos + 1 < TreeWidth(n, k - 1) then
          var right := Extract(h, n, p, k - 1, 2 * pos + 1, left.walk);
          Visit(h(left.hash, right.hash), if left.hash == right.hash then right.walk.(bad := true) else right.walk)
        else Visit(h(left.hash, left.hash), left.walk)
  }

  function Picked(ids: seq<Hash>, indexes: seq<nat>): seq<Hash>
    requires forall i :: 0 <= i < |indexes| ==> indexes[i] < |ids|
  {
    seq<Hash>(|indexes|, i requires 0 <= i < |indexes| => ids[indexes[i]])
  }

  lemma {:induction false} MatchesInRange(match_: seq<bool>, lo: nat, hi: nat)
    requires hi <= |match_|
    ensures forall i :: 0 <= i < |Matches(match_, lo, hi)| ==> Matches(match_, lo, hi)[i] < |match_|
    decreases hi - lo
  {
    if lo < hi {
      MatchesInRange(match_, lo + 1, hi);
    }
  }

  /** The walk after a subtree that was built for `match_`. */
  function Advanced(ids: seq<Hash>, match_: seq<bool>, b: Partial, k: nat, pos: nat, w: Walk): Walk
    requires |match_| == |ids| && pos < TreeWidth(|ids|, k)
  {
    LeafRange(|match_|, k, pos);
    MatchesInRange(match_, FirstLeaf(k, pos), EndLeaf(|match_|, k, pos));
    var m := MatchesBelow(match_, k, pos);
    Walk(w.bitsUsed + |b.bits|, w.hashesUsed + |b.hashes|, w.matches + Picked(ids, m), w.indexes + m, w.bad)
  }

  /** `part` stands in `s` from position `at` on. */
  ghost predicate Holds<T>(s: seq<T>, at: nat, part: seq<T>) {
    at + |part| <= |s| && forall i :: at <= i < at + |part| ==> s[i] == part[i - at]
  }

  lemma HoldsSplit<T>(s: seq<T>, at: nat, a: seq<T>, b: seq<T>)
    requires Holds(s, at, a + b)
    ensures Holds(s, at, a) && Holds(s, at + |a|, b)
  {
    forall i | at <= i < at + |a|
      ensures s[i] == a[i - at]
    {
      assert s[i] == (a + b)[i - at];
    }
    forall i | at + |a| <= i < at + |a| + |b|
      ensures s[i] == b[i - at - |a|]
    {
      assert s[i] == (a + b)[i - at];
    }
  }

  /** The part `b` is stored in `p` from where the walk has come to. */
  ghost predicate StoredAt(p: Partial, w: Walk, b: Partial) {
    Holds(p.bits, w.bitsUsed, b.bits) && Holds(p.hashes, w.hashesUsed, b.hashes)
  }

  lemma StoredSplit(p: Partial, w: Walk, left: Partial, right: Partial)
    requires StoredAt(p, w, Partial([true] + left.bits + right.bits, left.hashes + right.hashes))
    ensures w.bitsUsed < |p.bits| && p.bits[w.bitsUsed]
    ensures StoredAt(p, w.(bitsUsed := w.bitsUsed + 1), left)
    ensures Holds(p.bits, w.bitsUsed + 1 + |left.bits|, right.bits)
    ensures Holds(p.hashes, w.hashesUsed + |left.hashes|, right.hashes)
  {
    HoldsSplit(p.bits, w.bitsUsed, [true] + left.bits, right.bits);
    HoldsSplit(p.bits, w.bitsUsed, [true], left.bits);
    HoldsSplit(p.hashes, w.hashesUsed, left.hashes, right.hashes);
  }

  /** Advancing over both children is advancing over the node. */
  lemma AdvancedSplit(ids: seq<Hash>, match_: seq<bool>, left: Partial, right: Partial, k: nat, pos: nat, w: Walk)
    requires |match_| == |ids| && k > 0 && pos < TreeWidth(|ids|, k)
    requires 2 * pos + 1 >= TreeWidth(|ids|, k - 1) ==> right == Partial([], [])
    ensures 2 * pos < TreeWidth(|ids|, k - 1)
    ensures var all := Partial([true] + left.bits + right.bits, left.hashes + right.hashes);
            var v := Advanced(ids, match_, left, k - 1, 2 * pos, w.(bitsUsed := w.bitsUsed + 1));
            Advanced(ids, match_, all, k, pos, w) ==
            if 2 * pos + 1 < TreeWidth(|ids|, k - 1) then Advanced(ids, match_, right, k - 1, 2 * pos + 1, v) else v
  {
    hide TreeWidth, FirstLeaf, EndLeaf, MatchesBelow;
    MatchesBelowSplit(match_, k, pos);
  }

  /** Reading back what was stored for a node gives its hash and the matched transactions below it. */
  lemma {:induction false} ExtractBuilt(h: PairHash, ids: seq<Hash>, match_: seq<bool>, p: Partial, k: nat, pos: nat,
                                        w: Walk)
    requires CollisionFree(h) && Distinct(ids) && |match_| == |ids| && pos < TreeWidth(|ids|, k)
    requires StoredAt(p, w, Build(h, ids, match_, k, pos))
    ensures Extract(h, |ids|, p, k, pos, w) ==
            Visit(NodeHash(h, ids, k, pos), Advanced(ids, match_, Build(h, ids, match_, k, pos), k, pos, w))
    decreases k
  {
    hide TreeWidth, Distinct, CollisionFree, MatchesBelow, Advanced, Holds, Extract;
    var n := |ids|;
    if k == 0 || MatchesBelow(match_, k, pos) == [] {
      ExtractBuiltLeaf(h, ids, match_, p, k, pos, w);
    } else {
      Children(n, k, pos);
      var left := Build(h, ids, match_, k - 1, 2 * pos);
      var right := if 2 * pos + 1 < TreeWidth(n, k - 1) then Build(h, ids, match_, k - 1, 2 * pos + 1)
          else Partial([], []);
      var w1 := w.(bitsUsed := w.bitsUsed + 1);
      StoredSplit(p, w, left, right);
      AdvancedSplit(ids, match_, left, right, k, pos, w);
      ExtractNode(h, n, p, k, pos, w);
      ExtractBuilt(h, ids, match_, p, k - 1, 2 * pos, w1);
      var v := Advanced(ids, match_, left, k - 1, 2 * pos, w1);
      AdvancedCounts(ids, match_, left, k - 1, 2 * pos, w1);
      if 2 * pos + 1 < TreeWidth(n, k - 1) {
        ExtractBuilt(h, ids, match_, p, k - 1, 2 * pos + 1, v);
        NodesAreDistinct(h, ids, k - 1, 2 * pos, 2 * pos + 1);
      }
    }
  }

  lemma ExtractNode(h: PairHash, n: nat, p: Partial, k: nat, pos: nat, w: Walk)
    requires k > 0 && w.bitsUsed < |p.bits| && p.bits[w.bitsUsed]
    ensures var left := Extract(h, n, p, k - 1, 2 * pos, w.(bitsUsed := w.bitsUsed + 1));
            var right := Extract(h, n, p, k - 1, 2 * pos + 1, left.walk);
            Extract(h, n, p, k, pos, w) ==
            if 2 * pos + 1 >= TreeWidth(n, k - 1) then Visit(h(left.hash, left.hash), left.walk)
            else Visit(h(left.hash, right.hash), if left.hash == right.hash then right.walk.(bad := true)
                else right.walk)
  {
  }

  lemma ExtractBuiltLeaf(h: PairHash, ids: seq<Hash>, match_: seq<bool>, p: Partial, k: nat, pos: nat, w: Walk)
    requires |match_| == |ids| && pos < TreeWidth(|ids|, k)
    requires k == 0 || MatchesBelow(match_, k, pos) == []
    requires StoredAt(p, w, Build(h, ids, match_, k, pos))
    ensures Extract(h, |ids|, p, k, pos, w) ==
            Visit(NodeHash(h, ids, k, pos), Advanced(ids, match_, Build(h, ids, match_, k, pos), k, pos, w))
  {
    hide TreeWidth, MatchesBelow, Advanced;
    AdvancedLeaf(ids, match_, Build(h, ids, match_, k, pos), k, pos, w);
  }

  lemma AdvancedCounts(ids: seq<Hash>, match_: seq<bool>, b: Partial, k: nat, pos: nat, w: Walk)
    requires |match_| == |ids| && pos < TreeWidth(|ids|, k)
    ensures Advanced(ids, match_, b, k, pos, w).bitsUsed == w.bitsUsed + |b.bits|
    ensures Advanced(ids, match_, b, k, pos, w).hashesUsed == w.hashesUsed + |b.hashes|
  {
  }

  lemma AdvancedLeaf(ids: seq<Hash>, match_: seq<bool>, b: Partial, k: nat, pos: nat, w: Walk)
    requires |match_| == |ids| && pos < TreeWidth(|ids|, k) && |b.bits| == |b.hashes| == 1
    requires k == 0 || MatchesBelow(match_, k, pos) == []
    ensures k == 0 ==> pos < |ids|
    ensures var v := Walk(w.bitsUsed + 1, w.hashesUsed + 1, w.matches, w.indexes, w.bad);
            Advanced(ids, match_, b, k, pos, w) ==
            if MatchesBelow(match_, k, pos) == [] then v
                else v.(matches := v.matches + [ids[pos]], indexes := v.indexes + [pos])
  {
    hide TreeWidth, MatchesBelow;
    LeafMatches(match_, k, pos);
  }

  lemma LeafMatches(match_: seq<bool>, k: nat, pos: nat)
    requires pos < TreeWidth(|match_|, k)
    ensures k == 0 ==> pos < |match_| && MatchesBelow(match_, k, pos) == if match_[pos] then [pos] else []
  {
    if k == 0 {
      LeafRange(|match_|, k, pos);
      assert Matches(match_, pos + 1, pos + 1) == [];
    }
  }

  // ---------- soundness ----------

  lemma {:induction false} BadStays(h: PairHash, n: nat, p: Partial, k: nat, pos: nat, w: Walk)
    ensures w.bad ==> Extract(h, n, p, k, pos, w).walk.bad
    decreases k
  {
    if w.bitsUsed < |p.bits| && k > 0 && p.bits[w.bitsUsed] {
      var w1 := w.(bitsUsed := w.bitsUsed + 1);
      BadStays(h, n, p, k - 1, 2 * pos, w1);
      if 2 * pos + 1 < TreeWidth(n, k - 1) {
        BadStays(h, n, p, k - 1, 2 * pos + 1, Extract(h, n, p, k - 1, 2 * pos, w1).walk);
      }
    }
  }

  /** Matches of the real transactions, in ascending order and before the leaf `end`. */
  ghost predicate Genuine(ids: seq<Hash>, matches: seq<Hash>, indexes: seq<nat>, end: nat) {
    && |matches| == |indexes| && end <= |ids|
    && (forall i :: 0 <= i < |indexes| ==> indexes[i] < end && matches[i] == ids[indexes[i]])
    && (forall i, j :: 0 <= i < j < |indexes| ==> indexes[i] < indexes[j])
  }

  lemma GenuineGrows(ids: seq<Hash>, matches: seq<Hash>, indexes: seq<nat>, end: nat, later: nat)
    requires Genuine(ids, matches, indexes, end) && end <= later <= |ids|
    ensures Genuine(ids, matches, indexes, later)
  {
  }

  /** Whatever is stored: if the hash of a node comes out right and nothing is found bad, the matches are real. */
  lemma {:induction false} ExtractIsGenuine(h: PairHash, ids: seq<Hash>, p: Partial, k: nat, pos: nat, w: Walk)
    requires CollisionFree(h) && pos < TreeWidth(|ids|, k)
    requires Genuine(ids, w.matches, w.indexes, FirstLeaf(k, pos))
    requires var v := Extract(h, |ids|, p, k, pos, w); !v.walk.bad && v.hash == NodeHash(h, ids, k, pos)
    ensures var v := Extract(h, |ids|, p, k, pos, w).walk; Genuine(ids, v.matches, v.indexes, EndLeaf(|ids|, k, pos))
    decreases k
  {
    hide TreeWidth, FirstLeaf, EndLeaf, Genuine;
    var n := |ids|;
    LeafRange(n, k, pos);
    var w1 := w.(bitsUsed := w.bitsUsed + 1);
    if k == 0 {
      LeafIsGenuine(h, ids, p, pos, w);
    } else if !p.bits[w.bitsUsed] {
      GenuineGrows(ids, w.matches, w.indexes, FirstLeaf(k, pos), EndLeaf(n, k, pos));
    } else {
      LeavesSplit(n, k, pos);
      var left := Extract(h, n, p, k - 1, 2 * pos, w1);
      if 2 * pos + 1 < TreeWidth(n, k - 1) {
        BadStays(h, n, p, k - 1, 2 * pos + 1, left.walk);
        ExtractIsGenuine(h, ids, p, k - 1, 2 * pos, w1);
        ExtractIsGenuine(h, ids, p, k - 1, 2 * pos + 1, left.walk);
      } else {
        ExtractIsGenuine(h, ids, p, k - 1, 2 * pos, w1);
      }
    }
  }

  lemma LeafIsGenuine(h: PairHash, ids: seq<Hash>, p: Partial, pos: nat, w: Walk)
    requires pos < |ids| && Genuine(ids, w.matches, w.indexes, pos)
    requires var v := Extract(h, |ids|, p, 0, pos, w); !v.walk.bad && v.hash == ids[pos]
    ensures var v := Extract(h, |ids|, p, 0, pos, w).walk; Genuine(ids, v.matches, v.indexes, pos + 1)
  {
  }

  // ---------- the whole tree ----------

  const MAX_BLOCK_WEIGHT := 64_000_000
  const MIN_TRANSACTION_WEIGHT := 240

  /** The result of reading a tree; a null root means failure. `indexes` is appended to what the caller passed. */
  datatype Extraction = Extraction(root: Hash, matches: seq<Hash>, indexes: seq<nat>)

  predicate Plausible(n: nat, p: Partial) {
    0 < n <= MAX_BLOCK_WEIGHT / MIN_TRANSACTION_WEIGHT && |p.hashes| <= n && |p.bits| >= |p.hashes|
  }

  /** All data was used, except for the padding of the last byte. */
  predicate UsedUp(p: Partial, w: Walk) {
    !w.bad && (w.bitsUsed + 7) / 8 == (|p.bits| + 7) / 8 && w.hashesUsed == |p.hashes|
  }

  function ExtractMatches(h: PairHash, n: nat, p: Partial, bad: bool, indexes: seq<nat>): Extraction {
    if !Plausible(n, p) then Extraction(NULL_HASH, [], indexes) else
      var v := Extract(h, n, p, Height(n), 0, Walk(0, 0, [], indexes, bad));
      Extraction(if UsedUp(p, v.walk) then v.hash else NULL_HASH, v.walk.matches, v.walk.indexes)
  }

  function BuildTree(h: PairHash, ids: seq<Hash>, match_: seq<bool>): Partial
    requires |match_| == |ids| > 0
  {
    RootExists(|ids|);
    Build(h, ids, match_, Height(|ids|), 0)
  }

  /** The bits as they come back from whole bytes. */
  function Padded(bits: seq<bool>): (r: seq<bool>)
    ensures |r| == (|bits| + 7) / 8 * 8
  {
    bits + seq((|bits| + 7) / 8 * 8 - |bits|, _ => false)
  }

  lemma TopRange(n: nat)
    requires n > 0
    ensures TreeWidth(n, Height(n)) == 1 && FirstLeaf(Height(n), 0) == 0 && EndLeaf(n, Height(n), 0) == n
  {
    RootExists(n);
    NodeExists(n, Height(n), 1);
  }

  /** The stored hashes number at most the transactions, and one plus a hash per level for every match. */
  lemma HashCount(h: PairHash, ids: seq<Hash>, match_: seq<bool>)
    requires |match_| == |ids| > 0
    ensures |BuildTree(h, ids, match_).hashes| <= |ids|
    ensures |BuildTree(h, ids, match_).hashes| <= 1 + |Matches(match_, 0, |ids|)| * Height(|ids|)
    ensures |BuildTree(h, ids, match_).hashes| <= |BuildTree(h, ids, match_).bits|
  {
    hide TreeWidth, FirstLeaf, EndLeaf, Build, Height;
    TopRange(|ids|);
    HashesFitLeaves(h, ids, match_, Height(|ids|), 0);
    HashesFitMatches(h, ids, match_, Height(|ids|), 0);
  }

  /**
  The bits number at least twice the hashes less one, and no more exactly if no match lies below the last node of a
  level whose children are odd in number.
   */
  lemma FlagBits(h: PairHash, ids: seq<Hash>, match_: seq<bool>)
    requires |match_| == |ids| > 0
    ensures var b := BuildTree(h, ids, match_);
            && |b.bits| >= 2 * |b.hashes| - 1
            && (|b.bits| <= 2 * |b.hashes| - 1 <==> LastAreEven(match_, Height(|ids|)))
  {
    hide TreeWidth, Build, Lonely, Height;
    TopRange(|ids|);
    BitCount(h, ids, match_, Height(|ids|), 0);
    NoneLonely(match_, Height(|ids|));
  }

  /** Three transactions of which the last is matched: two hashes take four bits. */
  lemma FlagBitsCanExceed(h: PairHash, ids: seq<Hash>)
    requires |ids| == 3
    ensures var b := BuildTree(h, ids, [false, false, true]); |b.bits| > 2 * |b.hashes| - 1
  {
    var match_ := [false, false, true];
    FlagBits(h, ids, match_);
    assert Pow2(0) == 1 && Pow2(1) == 2 && Pow2(2) == 4;
    assert TreeWidth(3, 0) == 3 && TreeWidth(3, 1) == 2 && TreeWidth(3, 2) == 1;
    assert Height(3) == 2;
    MatchesAre(match_, 2, 3, 2);
    assert LastMatches(match_, 1) == Matches(match_, 2, 3);
  }

  // ---------- the size of a message ----------

  /** The bytes of a length prefix. */
  function PrefixSize(x: nat): nat {
    if x < 253 then 1 else if x <= 0xFFFF then 3 else 5
  }

  /** The bytes of a stored tree: the number of transactions, the hashes and the flag bytes with their prefixes. */
  function Size(p: Partial): nat {
    var flags := (|p.bits| + 7) / 8;
    4 + PrefixSize(|p.hashes|) + 32 * |p.hashes| + PrefixSize(flags) + flags
  }

  /** The documented bound 10 + 32.25 * N, rounded up. */
  function SizeBound(n: nat): nat {
    10 + (129 * n + 3) / 4
  }

  /** The hashes that a selection makes a tree store, and the flag bytes. */
  ghost function StoredHashes(match_: seq<bool>): nat
    requires match_ != []
  {
    RootExists(|match_|);
    Stored(match_, Height(|match_|), 0)
  }

  ghost function FlagBytes(match_: seq<bool>): nat
    requires match_ != []
  {
    RootExists(|match_|);
    (2 * StoredHashes(match_) + 6 + Lonely(match_, Height(|match_|), 0)) / 8
  }

  lemma CountsOfTree(h: PairHash, ids: seq<Hash>, match_: seq<bool>)
    requires |match_| == |ids| > 0
    ensures var b := BuildTree(h, ids, match_);
            |b.hashes| == StoredHashes(match_) && (|b.bits| + 7) / 8 == FlagBytes(match_)
  {
    hide TreeWidth, Build, Lonely, Stored, Height;
    RootExists(|ids|);
    StoredCount(h, ids, match_, Height(|ids|), 0);
    BitCount(h, ids, match_, Height(|ids|), 0);
  }

  /**
  The bound holds if and only if the selection stores fewer than 65536 hashes, and its flag bytes exceed a quarter of
  them by no more than the length prefixes leave; they do not exceed it at all if no matched node has a single child.
   */
  lemma SizeFits(h: PairHash, ids: seq<Hash>, match_: seq<bool>)
    requires |match_| == |ids| > 0
    ensures var b := BuildTree(h, ids, match_);
            var n, flags := StoredHashes(match_), FlagBytes(match_);
            && (Size(b) <= SizeBound(|b.hashes|) <==>
                  n <= 0xFFFF && flags <= (n + 3) / 4 + if n < 253 then 4 else if flags < 253 then 2 else 0)
            && (LastAreEven(match_, Height(|ids|)) ==> flags <= (n + 3) / 4)
  {
    hide BuildTree, LastAreEven, Height, StoredHashes, FlagBytes;
    FlagBits(h, ids, match_);
    CountsOfTree(h, ids, match_);
  }

  ghost predicate AllMatched(match_: seq<bool>) {
    forall i :: 0 <= i < |match_| ==> match_[i]
  }

  lemma MatchedBelow(match_: seq<bool>, k: nat, pos: nat)
    requires pos < TreeWidth(|match_|, k) && AllMatched(match_)
    ensures MatchesBelow(match_, k, pos) != []
  {
    hide TreeWidth, FirstLeaf, EndLeaf;
    LeafRange(|match_|, k, pos);
    MatchesAre(match_, FirstLeaf(k, pos), EndLeaf(|match_|, k, pos), FirstLeaf(k, pos));
  }

  lemma {:induction false} AllStored(match_: seq<bool>, k: nat, pos: nat)
    requires pos < TreeWidth(|match_|, k) && AllMatched(match_)
    ensures Stored(match_, k, pos) == EndLeaf(|match_|, k, pos) - FirstLeaf(k, pos)
    decreases k
  {
    hide TreeWidth, FirstLeaf, EndLeaf, MatchesBelow, AllMatched;
    LeafRange(|match_|, k, pos);
    if k > 0 {
      MatchedBelow(match_, k, pos);
      LeavesSplit(|match_|, k, pos);
      AllStored(match_, k - 1, 2 * pos);
      if 2 * pos + 1 < TreeWidth(|match_|, k - 1) {
        AllStored(match_, k - 1, 2 * pos + 1);
      }
    }
  }

  lemma StoredOfAll(match_: seq<bool>)
    requires match_ != [] && AllMatched(match_)
    ensures StoredHashes(match_) == |match_|
  {
    hide TreeWidth, FirstLeaf, EndLeaf, Height, Stored, AllMatched;
    TopRange(|match_|);
    AllStored(match_, Height(|match_|), 0);
  }

  /** With 65536 transactions, all of them matched, a length prefix makes the message exceed the bound. */
  lemma SizeCanExceed(h: PairHash, ids: seq<Hash>)
    requires |ids| == 0x1_0000
    ensures var b := BuildTree(h, ids, seq(0x1_0000, _ => true)); Size(b) > SizeBound(|b.hashes|)
  {
    hide Size, SizeBound, Height, BuildTree, StoredHashes, FlagBytes;
    var match_ := seq(0x1_0000, _ => true);
    StoredOfAll(match_);
    SizeFits(h, ids, match_);
  }

  // ---------- one leaf more than a full tree ----------

  lemma {:induction false} OneMoreWidth(m: nat, k: nat)
    requires k <= m
    ensures TreeWidth(Pow2(m) + 1, k) == Pow2(m - k) + 1
    decreases k
  {
    hide TreeWidth, Pow2;
    if k > 0 {
      OneMoreWidth(m, k - 1);
      WidthHalves(Pow2(m) + 1, k - 1);
      Pow2Next(m - k);
    } else {
      WidthOfLeaves(Pow2(m) + 1);
    }
  }

  lemma WidthOfLeaves(n: nat)
    ensures TreeWidth(n, 0) == n
  {
  }

  lemma {:induction false} OneMoreHeight(m: nat, k: nat)
    requires k <= m + 1
    ensures HeightFrom(Pow2(m) + 1, k) == m + 1
    decreases m + 1 - k
  {
    hide TreeWidth, Pow2;
    var n := Pow2(m) + 1;
    OneMoreWidth(m, m);
    WidthHalves(n, m);
    Pow2Next(0);
    if k <= m {
      OneMoreWidth(m, k);
      OneMoreHeight(m, k + 1);
    }
  }

  /** Every level below level `m` has an odd number of nodes, so that every level up to `m` has a single child. */
  lemma {:induction false} OneMoreLonely(match_: seq<bool>, m: nat, k: nat)
    requires |match_| == Pow2(m) + 1 && AllMatched(match_) && k <= m
    ensures TreeWidth(|match_|, k) > 0 && Lonely(match_, k, TreeWidth(|match_|, k) - 1) == k
    decreases k
  {
    hide TreeWidth, Pow2, MatchesBelow, AllMatched;
    OneMoreWidth(m, k);
    if k > 0 {
      OneMoreLonely(match_, m, k - 1);
      OneMoreWidth(m, k - 1);
      Pow2Next(m - k);
      MatchedBelow(match_, k, TreeWidth(|match_|, k) - 1);
    }
  }

  lemma OneMoreFlags(match_: seq<bool>, m: nat)
    requires |match_| == Pow2(m) + 1 && AllMatched(match_)
    ensures FlagBytes(match_) == (2 * |match_| + 6 + m) / 8
  {
    hide TreeWidth, Pow2, MatchesBelow, AllMatched, HeightFrom, StoredHashes;
    StoredOfAll(match_);
    OneMoreHeight(m, 0);
    RootExists(|match_|);
    OneMoreLonely(match_, m, m);
    OneMoreWidth(m, m);
    Pow2Next(0);
    LonelyIsLast(match_, m, 0);
    MatchedBelow(match_, m + 1, 0);
  }

  /** With 1025 transactions, all of them matched, the bits of single children make the message exceed the bound. */
  lemma SizeCanExceedByFlags(h: PairHash, ids: seq<Hash>)
    requires |ids| == 1025
    ensures var b := BuildTree(h, ids, seq(1025, _ => true)); Size(b) > SizeBound(|b.hashes|)
  {
    hide Size, SizeBound, Height, BuildTree, StoredHashes, FlagBytes;
    var match_ := seq(1025, _ => true);
    assert Pow2(10) == 1024;
    StoredOfAll(match_);
    OneMoreFlags(match_, 10);
    SizeFits(h, ids, match_);
  }

  /** Reading a stored tree back gives the Merkle root, and exactly the matched transactions with their positions. */
  lemma RoundTrip(h: PairHash, ids: seq<Hash>, match_: seq<bool>)
    requires CollisionFree(h) && Distinct(ids) && |match_| == |ids|
    requires 0 < |ids| <= MAX_BLOCK_WEIGHT / MIN_TRANSACTION_WEIGHT
    ensures var b := BuildTree(h, ids, match_);
            var indexes := Matches(match_, 0, |ids|);
            && (forall i :: 0 <= i < |indexes| ==> indexes[i] < |ids|)
            && ExtractMatches(h, |ids|, Partial(Padded(b.bits), b.hashes), false, []) ==
                  Extraction(Root(h, ids), Picked(ids, indexes), indexes)
  {
    hide TreeWidth, FirstLeaf, EndLeaf, CollisionFree, Distinct, Matches, Build, NodeHash, Root, Height, Extract;
    var n := |ids|;
    var b := BuildTree(h, ids, match_);
    var p := Partial(Padded(b.bits), b.hashes);
    var w := Walk(0, 0, [], [], false);
    TopRange(n);
    HashCount(h, ids, match_);
    RootIsTop(h, ids);
    MatchesInRange(match_, 0, n);
    assert StoredAt(p, w, b);
    ExtractBuilt(h, ids, match_, p, Height(n), 0, w);
  }

  /**
  Whatever a tree holds: if reading it gives the root of the real transactions, which is not null, then every match
  is the real transaction at its position, and the positions ascend.
   */
  lemma Soundness(h: PairHash, ids: seq<Hash>, p: Partial, bad: bool)
    requires CollisionFree(h) && Root(h, ids) != NULL_HASH
    requires ExtractMatches(h, |ids|, p, bad, []).root == Root(h, ids)
    ensures var e := ExtractMatches(h, |ids|, p, bad, []); Genuine(ids, e.matches, e.indexes, |ids|)
  {
    hide TreeWidth, FirstLeaf, EndLeaf, CollisionFree, NodeHash, Height, Extract;
    TopRange(|ids|);
    RootIsTop(h, ids);
    ExtractIsGenuine(h, ids, p, Height(|ids|), 0, Walk(0, 0, [], [], bad));
  }
}
