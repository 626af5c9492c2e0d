/** The tree of block headers with skip pointers, and the active chain in it. */
module Chain {
  import opened SkipHeights

  // ---------- blocks and their paths ----------

  /** A block header in the tree; its links never change once it has been entered. */
  class BlockIndex {
    const prev: BlockIndex?
    const skip: BlockIndex?
    const height: nat
    const hash: nat

    /** Enters a block below `prev`; the skip pointer may be left out. */
    constructor (prev: BlockIndex?, hash: nat, buildSkip: bool)
      requires prev != null ==> Rooted(prev)
      ensures Rooted(this) && this.prev == prev && this.hash == hash
      ensures prev != null && buildSkip ==> skip == Path(this)[SkipHeight(height)]
      ensures buildSkip && (prev != null ==> AllSkips(prev)) ==> AllSkips(this)
    {
      this.prev := prev;
      this.hash := hash;
      height := if prev == null then 0 else prev.height + 1;
      var ancestor: BlockIndex? := null;
      if prev != null && buildSkip {
        ghost var steps;
        ancestor, steps := prev.GetAncestor(SkipHeight(prev.height + 1));
      }
      skip := ancestor;
    }

    /**
    Walks back along skip and parent pointers; the result is the same as along parents alone. `steps` counts the
    blocks that are passed, of which there are at most 110 up to height 2^18.
     */
    method GetAncestor(target: int) returns (r: BlockIndex?, ghost steps: nat)
      requires Rooted(this)
      ensures r == if 0 <= target <= height then Path(this)[target] else null
      ensures AllSkips(this) && 0 <= target <= height ==> steps == Steps(height, target)
      ensures AllSkips(this) && height <= 0x4_0000 ==> steps <= 110
    {
      hide SkipHeight, Path, Steps;
      steps := 0;
      if target > height || target < 0 {
        return null, 0;
      }
      if height <= 0x4_0000 {
        DocumentedLimit(height, target);
      }
      var walk := this;
      var heightWalk := height;
      while heightWalk > target
        invariant target <= heightWalk <= height && walk == Path(this)[heightWalk] && walk.height == heightWalk
        invariant AllSkips(this) ==> steps + Steps(heightWalk, target) == Steps(height, target)
      {
        steps := steps + 1;
        OneStep(heightWalk, target);
        var heightSkip := SkipHeight(heightWalk);
        var heightSkipPrev := SkipHeight(heightWalk - 1);
        PathOfAncestor(this, heightWalk);
        if walk.skip != null &&
           (heightSkip == target ||
            (heightSkip > target && !(heightSkipPrev < heightSkip - 2 && heightSkipPrev >= target))) {
          walk := walk.skip;
          heightWalk := heightSkip;
          PathOfAncestor(this, heightWalk);
        } else {
          assert walk.prev != null;
          walk := walk.prev;
          heightWalk := heightWalk - 1;
        }
      }
      NoSteps(target);
      return walk, steps;
    }
  }

  /** Every block on the path but the first has its skip pointer. */
  ghost predicate AllSkips(b: BlockIndex)
    requires Rooted(b)
  {
    forall h :: 0 < h <= b.height ==> Path(b)[h].skip != null
  }

  /**
  Parents are one lower, down to a block of height zero, and skip pointers lead to the ancestor at the skip height.
   */
  ghost predicate Rooted(b: BlockIndex)
    decreases b.height, 0
  {
    if b.prev == null then b.height == 0 && b.skip == null
    else
      && b.height > 0 && b.prev.height == b.height - 1 && Rooted(b.prev)
      && (b.skip == null || b.skip == Path(b.prev)[SkipHeight(b.height)])
  }

  /** The blocks from the first one to `b`; the entry at a height is the ancestor along the parents. */
  ghost function Path(b: BlockIndex): (r: seq<BlockIndex>)
    requires Rooted(b)
    ensures |r| == b.height + 1 && r[b.height] == b
    decreases b.height, 1
  {
    if b.prev == null then [b] else Path(b.prev) + [b]
  }

  lemma {:induction false} PathOfAncestor(b: BlockIndex, h: nat)
    requires Rooted(b) && h <= b.height
    ensures var a := Path(b)[h];
            && a.height == h && Rooted(a) && Path(a) == Path(b)[..h + 1]
            && (if h > 0 then a.prev == Path(b)[h - 1] else a.prev == null)
            && (a.skip == null || a.skip == Path(b)[SkipHeight(h)])
    decreases b.height
  {
    if h < b.height {
      PathOfAncestor(b.prev, h);
      assert Path(b)[..h + 1] == Path(b.prev)[..h + 1];
    } else {
      assert Path(b)[..h + 1] == Path(b);
    }
  }

  /** Paths that meet are the same below. */
  lemma PathsMeet(a: BlockIndex, b: BlockIndex, h: nat)
    requires Rooted(a) && Rooted(b) && h <= a.height && h <= b.height && Path(a)[h] == Path(b)[h]
    ensures Path(a)[..h + 1] == Path(b)[..h + 1]
  {
    PathOfAncestor(a, h);
    PathOfAncestor(b, h);
  }

  /** `r` is the highest block on both paths. */
  ghost predicate HighestCommon(a: BlockIndex, b: BlockIndex, r: BlockIndex)
    requires Rooted(a) && Rooted(b)
  {
    && r.height <= a.height && r.height <= b.height && r == Path(a)[r.height] == Path(b)[r.height]
    && forall x :: x in Path(a) && x in Path(b) ==> x.height <= r.height
  }

  /** The last block that two blocks of one tree have in common. */
  method LastCommonAncestor(a: BlockIndex, b: BlockIndex) returns (r: BlockIndex)
    requires Rooted(a) && Rooted(b) && Path(a)[0] == Path(b)[0]
    ensures HighestCommon(a, b, r)
  {
    var pa: BlockIndex?, pb: BlockIndex? := a, b;
    ghost var steps;
    if pa.height > pb.height {
      pa, steps := pa.GetAncestor(pb.height);
      PathOfAncestor(a, pb.height);
    } else if pb.height > pa.height {
      pb, steps := pb.GetAncestor(pa.height);
      PathOfAncestor(b, pa.height);
    }
    ghost var h := pa.height;
    while pa != pb && pa != null && pb != null
      invariant pa != null && pb != null && 0 <= h <= a.height && h <= b.height
      invariant pa == Path(a)[h] && pb == Path(b)[h] && pa.height == h == pb.height
      invariant forall k :: h < k <= a.height && k <= b.height ==> Path(a)[k] != Path(b)[k]
      decreases h
    {
      PathOfAncestor(a, h);
      PathOfAncestor(b, h);
      pa := pa.prev;
      pb := pb.prev;
      h := h - 1;
    }
    assert pa == pb;
    r := pa;
    CommonAtHeight(a, b, r);
  }

  lemma CommonAtHeight(a: BlockIndex, b: BlockIndex, r: BlockIndex)
    requires Rooted(a) && Rooted(b) && r.height <= a.height && r.height <= b.height
    requires r == Path(a)[r.height] == Path(b)[r.height]
    requires forall k :: r.height < k <= a.height && k <= b.height ==> Path(a)[k] != Path(b)[k]
    ensures HighestCommon(a, b, r)
  {
    forall x | x in Path(a) && x in Path(b)
      ensures x.height <= r.height
    {
      OnPath(a, x);
      OnPath(b, x);
    }
  }

  /** A block stands on a path at its own height. */
  lemma OnPath(b: BlockIndex, x: BlockIndex)
    requires Rooted(b) && x in Path(b)
    ensures x.height <= b.height && Path(b)[x.height] == x
  {
    var i :| 0 <= i < |Path(b)| && Path(b)[i] == x;
    PathOfAncestor(b, i);
  }

  // ---------- the active chain ----------

  /** The heights of a locator from height `h` on: steps of one at first, then doubling, down to zero. */
  function LocatorHeights(h: nat, step: nat, have: nat): (r: seq<nat>)
    requires step > 0
    ensures |r| > 0 && r[0] == h && r[|r| - 1] == 0 && (forall i, j :: 0 <= i < j < |r| ==> r[i] > r[j])
    ensures forall i :: 0 <= i < |r| ==> r[i] <= h
    decreases h
  {
    if h == 0 then [0]
    else [h] + LocatorHeights(if h > step then h - step else 0, if have + 1 > 10 then 2 * step else step, have + 1)
  }

  /** The blocks of a path at the given heights. */
  ghost function At(b: BlockIndex, heights: seq<nat>): (r: seq<BlockIndex>)
    requires Rooted(b) && forall i :: 0 <= i < |heights| ==> heights[i] <= b.height
  {
    seq(|heights|, i requires 0 <= i < |heights| => Path(b)[heights[i]])
  }

  class ActiveChain {
    var blocks: seq<BlockIndex?>

    /** The chain is the path of its tip. */
    ghost predicate Valid()
      reads this
    {
      blocks == [] || ChainOf(blocks)
    }

    constructor ()
      ensures Valid() && blocks == []
    {
      blocks := [];
    }

    function Height(): int
      reads this
    {
      |blocks| - 1
    }

    function Tip(): BlockIndex?
      reads this
    {
      if |blocks| > 0 then blocks[|blocks| - 1] else null
    }

    function Get(h: int): BlockIndex?
      reads this
    {
      if h < 0 || h >= |blocks| then null else blocks[h]
    }

    predicate Contains(b: BlockIndex)
      reads this
    {
      Get(b.height) == b
    }

    function Next(b: BlockIndex): BlockIndex?
      reads this
    {
      if Contains(b) then Get(b.height + 1) else null
    }

    /** Makes the chain end in `tip`; entries that agree already are not visited. */
    method SetTip(tip: BlockIndex?)
      requires Valid() && (tip != null ==> Rooted(tip))
      modifies this
      ensures Valid() && blocks == if tip == null then [] else Path(tip)
    {
      hide Rooted, Path, ChainOf;
      if tip == null {
        blocks := [];
        return;
      }
      ghost var before := blocks;
      var n := tip.height + 1;
      blocks := if |blocks| >= n then blocks[..n] else blocks + seq(n - |blocks|, _ => null);
      var walk: BlockIndex? := tip;
      ghost var h := tip.height;
      while walk != null && blocks[walk.height] != walk
        invariant |blocks| == n && -1 <= h <= tip.height
        invariant if h == -1 then walk == null else walk == Path(tip)[h] && walk.height == h
        invariant forall k :: h < k < n ==> blocks[k] == Path(tip)[k]
        invariant forall k :: 0 <= k <= h ==> blocks[k] == if k < |before| then before[k] else null
        decreases h
      {
        PathOfAncestor(tip, h);
        blocks := blocks[walk.height := walk];
        walk := walk.prev;
        h := h - 1;
      }
      if walk != null {
        SameBelow(before, tip, h);
      }
      assert blocks == Path(tip);
      PathIsChain(tip);
    }

    method FindFork(b: BlockIndex?) returns (r: BlockIndex?)
      requires Valid() && (b != null ==> Rooted(b))
      ensures b == null ==> r == null
      ensures b != null ==> if r == null then forall x :: x in Path(b) ==> !Contains(x)
                            else r in Path(b) && Contains(r) && forall x :: x in Path(b) && Contains(x) ==>
                                x.height <= r.height
    {
      if b == null {
        return null;
      }
      var walk: BlockIndex? := b;
      if b.height > Height() {
        ghost var steps;
        walk, steps := b.GetAncestor(Height());
      }
      ghost var h := if b.height > Height() then Height() else b.height;
      if h >= 0 {
        PathOfAncestor(b, h);
      }
      while walk != null && !Contains(walk)
        invariant -1 <= h <= b.height && h <= Height()
        invariant if h == -1 then walk == null else walk == Path(b)[h] && walk.height == h
        invariant forall k :: h < k <= b.height && k <= Height() ==> Path(b)[k] != blocks[k]
        decreases h
      {
        PathOfAncestor(b, h);
        walk := walk.prev;
        h := h - 1;
      }
      forall x | x in Path(b) && Contains(x)
        ensures walk != null && x.height <= walk.height
      {
        OnPath(b, x);
      }
      return walk;
    }

    /** The ancestor at height `h`, looked up in the chain if `walk` is in it, and else along the skip pointers. */
    method StepBack(walk: BlockIndex, h: nat) returns (r: BlockIndex)
      requires Valid() && Rooted(walk) && h <= walk.height
      ensures r == Path(walk)[h]
    {
      if Contains(walk) {
        SameBelow(blocks, walk, walk.height);
        r := Get(h);
      } else {
        ghost var steps;
        r, steps := walk.GetAncestor(h);
      }
    }

    /** Blocks at heights that fall off ever faster, down to the first block, on the path of `b` or of the tip. */
    method GetLocator(b: BlockIndex?) returns (have: seq<BlockIndex>)
      requires Valid() && (b != null ==> Rooted(b))
      ensures var start := if b == null then Tip() else b;
              if start == null then have == [] else Rooted(start) && have == Locator(start, start.height, 1, 0)
    {
      hide Locator;
      var step := 1;
      have := [];
      var start: BlockIndex? := if b == null then Tip() else b;
      if start == null {
        return;
      }
      var walk: BlockIndex := start;
      ghost var all := Locator(start, start.height, 1, 0);
      while true
        invariant step > 0 && walk.height <= start.height && walk == Path(start)[walk.height]
        invariant all == have + Locator(start, walk.height, step, |have|)
        decreases walk.height
      {
        LocatorNext(start, walk.height, step, |have|);
        have := have + [walk];
        if walk.height == 0 {
          break;
        }
        var h := if walk.height - step > 0 then walk.height - step else 0;
        PathOfAncestor(start, walk.height);
        PathOfAncestor(start, h);
        walk := StepBack(walk, h);
        if |have| > 10 {
          step := step * 2;
        }
      }
    }
  }

  /** The blocks on the path of `b` at the heights of a locator. */
  ghost function Locator(b: BlockIndex, h: nat, step: nat, have: nat): seq<BlockIndex>
    requires Rooted(b) && h <= b.height && step > 0
  {
    At(b, LocatorHeights(h, step, have))
  }

  lemma LocatorNext(b: BlockIndex, h: nat, step: nat, have: nat)
    requires Rooted(b) && h <= b.height && step > 0
    ensures var next, more := if h > step then h - step else 0, if have + 1 > 10 then 2 * step else step;
            Locator(b, h, step, have) == [Path(b)[h]] + if h == 0 then [] else Locator(b, next, more, have + 1)
  {
    hide Rooted, Path, At, LocatorHeights;
    HeightsNext(h, step, have);
    if h == 0 {
      AtCons(b, 0, []);
      AtNothing(b);
    } else {
      var next, more := if h > step then h - step else 0, if have + 1 > 10 then 2 * step else step;
      AtCons(b, h, LocatorHeights(next, more, have + 1));
    }
  }

  lemma HeightsNext(h: nat, step: nat, have: nat)
    requires step > 0
    ensures var next, more := if h > step then h - step else 0, if have + 1 > 10 then 2 * step else step;
            LocatorHeights(h, step, have) == [h] + if h == 0 then [] else LocatorHeights(next, more, have + 1)
  {
  }

  lemma AtNothing(b: BlockIndex)
    requires Rooted(b)
    ensures At(b, []) == []
  {
  }

  lemma AtCons(b: BlockIndex, h: nat, rest: seq<nat>)
    requires Rooted(b) && h <= b.height && forall i :: 0 <= i < |rest| ==> rest[i] <= b.height
    ensures At(b, [h] + rest) == [Path(b)[h]] + At(b, rest)
  {
    hide Rooted, Path;
  }

  ghost predicate ChainOf(blocks: seq<BlockIndex?>) {
    && |blocks| > 0 && blocks[|blocks| - 1] != null
    && Rooted(blocks[|blocks| - 1]) && blocks == Path(blocks[|blocks| - 1])
  }

  lemma PathIsChain(tip: BlockIndex)
    requires Rooted(tip)
    ensures ChainOf(Path(tip))
  {
  }

  /** Where the old chain holds a block of the new path, it holds the path up to there. */
  lemma SameBelow(before: seq<BlockIndex?>, tip: BlockIndex, h: nat)
    requires Rooted(tip) && h <= tip.height && h < |before| && ChainOf(before) && before[h] == Path(tip)[h]
    ensures forall k :: 0 <= k <= h ==> before[k] == Path(tip)[k]
  {
    var old_ := before[|before| - 1];
    PathsMeet(old_, tip, h);
    forall k | 0 <= k <= h
      ensures before[k] == Path(tip)[k]
    {
      assert Path(old_)[..h + 1][k] == Path(tip)[..h + 1][k];
    }
  }
}
