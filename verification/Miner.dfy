/**
The block assembler: it chooses packages of mempool transactions, appends them to the block and keeps
the figures of the packages that remain.
 */
module Miner {
  import opened Totals
  import opened Mempool
  import opened BlockAssembly
  import opened Scores
  import Sets

  const MAX_BLOCK_WEIGHT := 64_000_000
  const MAX_CONSECUTIVE_FAILURES := 1000

  /** The transactions that depend on `id`, and `id` itself. */
  function Descendants(p: Pool, id: Id): set<Id> {
    (set d | d in p.anc && id in p.anc[d]) + {id}
  }

  ghost predicate AllIncludable(includable: Id -> bool, ids: set<Id>) {
    forall id :: id in ids ==> includable(id)
  }

  /** How the look at one package ended. */
  datatype Verdict = TooCheap | TooBig | NotIncludable | Taken

  /** Why the selection ended. */
  datatype Stop = Exhausted | BelowFeeRate(id: Id, figures: ModEntry) | GaveUp

  class BlockAssembler {
    const pool: Pool
    const maxWeight: int
    /** The least fee that a package of a given size must pay. */
    const minFee: int -> int
    /** Whether a transaction is final and free of a premature witness. */
    const includable: Id -> bool

    var block: seq<Id>
    var fees: seq<int>
    var sigOpsCosts: seq<int>
    var inBlock: set<Id>
    var weight: int
    var sigOpsCost: int
    var txCount: int
    var totalFees: int

    /** The counters are exact sums over the block, which holds no transaction twice and none before an ancestor. */
    ghost predicate Exact()
      reads this
    {
      && PoolOk(pool)
      && BlockOk(pool, block, inBlock)
      && SumsOk(pool, inBlock, weight, sigOpsCost, totalFees)
      && txCount == |block|
      && Lists(Fees(pool), block, fees)
      && Lists(SigOps(pool), block, sigOpsCosts)
    }

    /** The limits of the block; only the reserve for the coinbase may fill it to the brim. */
    ghost predicate Valid()
      reads this
    {
      && Exact()
      && COINBASE_WEIGHT <= maxWeight <= MAX_BLOCK_WEIGHT - COINBASE_WEIGHT
      && (block == [] || weight < maxWeight)
      && sigOpsCost < MAX_BLOCK_SIGOPS_COST
      && AllIncludable(includable, inBlock)
    }

    constructor (pool: Pool, wantedWeight: int, minFee: int -> int, includable: Id -> bool)
      requires PoolOk(pool)
      ensures Valid() && block == []
      ensures this.pool == pool && this.minFee == minFee && this.includable == includable
      ensures COINBASE_WEIGHT <= wantedWeight <= MAX_BLOCK_WEIGHT - COINBASE_WEIGHT ==> maxWeight == wantedWeight
    {
      hide PoolOk, Total, BlockOk, SumsOk;
      EmptyBlock(pool);
      this.pool, this.minFee, this.includable := pool, minFee, includable;
      var capped := if wantedWeight < MAX_BLOCK_WEIGHT - COINBASE_WEIGHT then wantedWeight
          else MAX_BLOCK_WEIGHT - COINBASE_WEIGHT;
      maxWeight := if capped < COINBASE_WEIGHT then COINBASE_WEIGHT else capped;
      block, fees, sigOpsCosts, inBlock := [], [], [], {};
      weight, sigOpsCost, txCount, totalFees := COINBASE_WEIGHT, COINBASE_SIGOPS, 0, 0;
    }

    /** Drops from `testSet` what is already in the block. */
    method OnlyUnconfirmed(testSet: set<Id>) returns (left: set<Id>)
      ensures left == testSet - inBlock
    {
      left := testSet;
      var todo := testSet;
      while todo != {}
        invariant todo <= testSet && left == testSet - (inBlock * (testSet - todo))
        decreases |todo|
      {
        var id :| id in todo;
        if id in inBlock {
          left := left - {id};
        }
        todo := todo - {id};
      }
    }

    method TestPackageTransactions(package: set<Id>) returns (ok: bool)
      ensures ok <==> AllIncludable(includable, package)
    {
      var todo := package;
      while todo != {}
        invariant todo <= package && forall id :: id in package - todo ==> includable(id)
        decreases |todo|
      {
        var id :| id in todo;
        if !includable(id) {
          return false;
        }
        todo := todo - {id};
      }
      return true;
    }

    method AddToBlock(id: Id)
      requires Exact() && id in pool.txs && id in pool.anc && id !in inBlock && pool.anc[id] <= inBlock
      modifies this
      ensures Exact() && block == old(block) + [id] && inBlock == old(inBlock) + {id}
    {
      hide PoolOk, Total, BlockOk, SumsOk;
      BlockAppend(pool, block, inBlock, id);
      SumsWith(pool, inBlock, weight, sigOpsCost, totalFees, id);
      block := block + [id];
      fees := fees + [pool.txs[id].fee];
      sigOpsCosts := sigOpsCosts + [pool.txs[id].sigOps];
      weight := weight + pool.txs[id].weight;
      txCount := txCount + 1;
      sigOpsCost := sigOpsCost + pool.txs[id].sigOps;
      totalFees := totalFees + pool.txs[id].fee;
      inBlock := inBlock + {id};
    }

    /** Takes one included ancestor out of the figures of a transaction. */
    method TakeOut(mods: map<Id, ModEntry>, it: Id, d: Id) returns (m: ModEntry)
      requires it in pool.txs && d in pool.txs
      ensures m == TakenOut(pool, mods, it, d)
    {
      var t := pool.txs[it];
      if d !in mods {
        var full := Full(pool.txs[d]);
        m := ModEntry(full.size - t.size, full.fees - t.modFee, full.sigOps - t.sigOps);
      } else {
        m := ModEntry(mods[d].size - t.size, mods[d].fees - t.fee, mods[d].sigOps - t.sigOps);
      }
    }

    /** Takes one transaction out of the figures of all its descendants outside `added`. */
    method UpdateDescendants(it: Id, added: set<Id>, mods: map<Id, ModEntry>, ghost base: map<Id, ModEntry>,
                             ghost past: set<Id>)
      returns (next: map<Id, ModEntry>, updates: nat)
      requires PoolOk(pool) && added <= pool.txs.Keys && it in added && base.Keys !! added
      requires Updated(pool, base, mods, added, past) && After(past, it)
      ensures Updated(pool, base, next, added, past + {it})
    {
      hide TxOk, Inherited, UpdatedAt, Updated, Partly, TakenOut, After;
      next, updates := mods, 0;
      var all := Descendants(pool, it);
      var descendants := all;
      PartlyStart(pool, base, mods, added, past, it);
      assert all - descendants == {};
      while descendants != {}
        invariant descendants <= all && Partly(pool, base, next, added, past, it, all - descendants)
        decreases |descendants|
      {
        ghost var visited := all - descendants;
        var d :| d in descendants;
        descendants := descendants - {d};
        assert all - descendants == visited + {d};
        if d in added {
          PartlySkip(pool, base, next, added, past, it, visited, d);
        } else {
          updates := updates + 1;
          var m := TakeOut(next, it, d);
          PartlyNext(pool, base, next, added, past, it, visited, d);
          next := next[d := m];
        }
      }
      assert all - descendants == all;
      PartlyRound(pool, base, next, added, past, it, all);
    }

    /** Takes the transactions in `added`, in the order of their hashes, out of the figures of all their descendants. */
    method UpdatePackagesForAdded(added: set<Id>, base: map<Id, ModEntry>)
      returns (mods: map<Id, ModEntry>, updates: nat)
      requires PoolOk(pool) && added <= pool.txs.Keys && base.Keys <= pool.txs.Keys && base.Keys !! added
      ensures Updated(pool, base, mods, added, added)
    {
      hide TxOk, Inherited, UpdatedAt, Updated, After, AllAfter;
      mods, updates := base, 0;
      UpdateStart(pool, base, added);
      var todo := added;
      assert added - todo == {};
      NoneBefore(added);
      while todo != {}
        invariant todo <= added && Updated(pool, base, mods, added, added - todo) && AllAfter(added - todo, todo)
        decreases |todo|
      {
        Sets.HasLeast(todo);
        var it: Id :| it in todo && forall x :: x in todo ==> it <= x;
        NextAfter(added, todo, it);
        var more;
        mods, more := UpdateDescendants(it, added, mods, base, added - todo);
        updates := updates + more;
        todo := todo - {it};
      }
      assert added - todo == added;
    }

    predicate Skip(id: Id, mods: map<Id, ModEntry>, failed: set<Id>)
      reads this
    {
      id in mods || id in inBlock || id in failed
    }

    /** The package as a sequence, sorted by ancestor count and then by hash. */
    method SortForBlock(package: set<Id>) returns (sorted: seq<Id>)
      requires package <= pool.txs.Keys
      ensures Sorted(pool, sorted) && Members(sorted) == package && |sorted| == |package|
    {
      hide Before, Leads;
      sorted := [];
      var todo := package;
      while todo != {}
        invariant SortedSoFar(pool, package, sorted, todo)
        decreases |todo|
      {
        var id := First(todo);
        SortNext(pool, package, sorted, todo, id);
        sorted := sorted + [id];
        todo := todo - {id};
      }
    }

    method First(ids: set<Id>) returns (first: Id)
      requires ids <= pool.txs.Keys && ids != {}
      ensures first in ids && Leads(pool, first, ids)
    {
      first :| first in ids;
      var todo := ids - {first};
      while todo != {}
        invariant todo <= ids && first in ids && Leads(pool, first, ids - todo)
        decreases |todo|
      {
        var x :| x in todo;
        todo := todo - {x};
        if Before(pool, x, first) {
          first := x;
        }
      }
      assert ids - todo == ids;
    }

    /** Appends a sorted package and drops its members from the modified set. */
    method AddPackage(ghost id: Id, sorted: seq<Id>, mods: map<Id, ModEntry>) returns (left: map<Id, ModEntry>)
      requires Exact() && id in pool.txs && id in pool.anc
      requires Sorted(pool, sorted) && Members(sorted) == Remaining(pool, id, inBlock)
      modifies this
      ensures Exact() && block == old(block) + sorted && inBlock == old(inBlock) + Members(sorted)
      ensures left == mods - Members(sorted)
    {
      hide PoolOk, Total, Ordered, Closed, Sorted, SumsOk, Lists, Remaining, Package, Members;
      left := mods;
      NoneYet(block, mods, sorted);
      ghost var done := inBlock;
      for i := 0 to |sorted|
        invariant Exact() && block == old(block) + sorted[..i] && inBlock == done + Members(sorted[..i])
        invariant left == mods - Members(sorted[..i])
      {
        SortedIsReady(pool, id, done, sorted, i);
        AddToBlock(sorted[i]);
        left := left - {sorted[i]};
        OneMore(old(block), sorted, i);
        DropOne(mods, Members(sorted[..i]), sorted[i]);
      }
      assert sorted[..|sorted|] == sorted;
    }

    lemma ValidFacts()
      requires Valid()
      ensures PoolOk(pool) && pool.anc.Keys == pool.txs.Keys && BlockOk(pool, block, inBlock)
      ensures Closed(pool, inBlock) && inBlock <= pool.txs.Keys
    {
    }

    /** Adds what is left of the package of `id` if every transaction of it may be included. */
    method TakePackage(id: Id, mods: map<Id, ModEntry>, ghost failed: set<Id>)
      returns (ok: bool, left: map<Id, ModEntry>, updates: nat)
      requires Valid() && id in pool.txs && id !in inBlock && ModsOk(pool, inBlock, mods, failed)
      requires Fits(weight, sigOpsCost, maxWeight, From(pool, mods, id))
      modifies this
      ensures Valid() && ModsOk(pool, inBlock, left, failed)
      ensures !ok ==> unchanged(this) && left == mods && exists x :: x in Package(pool, id) && !includable(x)
      ensures ok ==> inBlock == old(inBlock) + Remaining(pool, id, old(inBlock)) && id in inBlock && old(block) <= block
      ensures ok ==> weight >= old(weight) && sigOpsCost >= old(sigOpsCost) && mods.Keys <= inBlock + left.Keys
    {
      hide PoolOk, BlockOk, SumsOk, Total, Ordered, Closed, Sorted, Lists, ModsOk, Updated, SortedSoFar;
      ValidFacts();
      left, updates := mods, 0;
      var ancestors := OnlyUnconfirmed(pool.anc[id]);
      ancestors := ancestors + {id};
      assert ancestors == Remaining(pool, id, inBlock);
      ok := TestPackageTransactions(ancestors);
      if ok {
        ghost var done := inBlock;
        FiguresCover(pool, done, mods, failed, id);
        ghost var w, o, f := weight, sigOpsCost, totalFees;
        var sorted := SortForBlock(ancestors);
        left := AddPackage(id, sorted, mods);
        SumsGrow(pool, done, ancestors, w, o, f, weight, sigOpsCost, totalFees);
        assert weight < maxWeight && sigOpsCost < MAX_BLOCK_SIGOPS_COST;
        assert AllIncludable(includable, inBlock);
        ModsKeys(pool, done, mods, failed);
        assert left.Keys == mods.Keys - ancestors;
        left, updates := UpdatePackagesForAdded(ancestors, left);
        UpdateKeepsMods(pool, done, mods, left, failed, ancestors);
        UpdateKeepsKeys(pool, mods, left, ancestors);
      }
    }

    /** Looks at the package of one transaction; a refused one leaves the modified set if it was found there. */
    method Consider(id: Id, usingModified: bool, mods: map<Id, ModEntry>, failed: set<Id>)
      returns (verdict: Verdict, left: map<Id, ModEntry>, nowFailed: set<Id>, updates: nat)
      requires Valid() && id in pool.txs && id !in inBlock && ModsOk(pool, inBlock, mods, failed)
      requires usingModified <==> id in mods
      modifies this
      ensures Valid()
      ensures verdict == Taken ==>
        && nowFailed == failed && ModsOk(pool, inBlock, left, failed)
        && inBlock == old(inBlock) + Remaining(pool, id, old(inBlock)) && id in inBlock && old(block) <= block
        && weight >= old(weight) && sigOpsCost >= old(sigOpsCost) && mods.Keys <= inBlock + left.Keys
      ensures verdict != Taken ==> unchanged(this)
      ensures verdict == TooCheap ==> From(pool, mods, id).fees < minFee(From(pool, mods, id).size)
      ensures verdict.TooBig? || verdict.NotIncludable? ==>
        if usingModified then left == mods - {id} && nowFailed == failed + {id}
        else left == mods && nowFailed == failed
      ensures (verdict.TooBig? || verdict.NotIncludable?) && !usingModified ==>
        id in pool.anc && Refused(pool, includable, weight, sigOpsCost, maxWeight, id)
    {
      hide Valid, ModsOk, Package, Remaining;
      ValidFacts();
      verdict, left, nowFailed, updates := Taken, mods, failed, 0;
      var figures := From(pool, mods, id);
      if figures.fees < minFee(figures.size) {
        return TooCheap, left, nowFailed, 0;
      }
      var ok := false;
      verdict := TooBig;
      if Fits(weight, sigOpsCost, maxWeight, figures) {
        ok, left, updates := TakePackage(id, mods, failed);
        verdict := if ok then Taken else NotIncludable;
      }
      if !ok && usingModified {
        left, nowFailed := left - {id}, nowFailed + {id};
      }
    }

    ghost predicate SelectingHere(order: seq<Id>, mi: int, mods: map<Id, ModEntry>, failed: set<Id>)
      reads this
    {
      Selecting(pool, includable, weight, sigOpsCost, maxWeight, order, mi, inBlock, mods, failed)
    }

    /** Tries the next transaction: the first of `order` not looked at, number `mi`, or one with modified figures. */
    method TryNext(ghost order: seq<Id>, ghost mi: nat, id: Id, usingModified: bool, mods: map<Id, ModEntry>,
                   failed: set<Id>)
      returns (verdict: Verdict, left: map<Id, ModEntry>, nowFailed: set<Id>, updates: nat)
      requires Valid() && SelectingHere(order, mi, mods, failed) && id in pool.txs && id !in inBlock
      requires usingModified <==> id in mods
      requires !usingModified ==> mi < |order| && id == order[mi]
      modifies this
      ensures Valid() && old(block) <= block
      ensures verdict == Taken ==>
                id in pool.anc && id in inBlock && inBlock == old(inBlock) + Remaining(pool, id, old(inBlock))
      ensures verdict != Taken ==> unchanged(this)
      ensures verdict.TooBig? || verdict.NotIncludable? ==>
                left.Keys == if usingModified then mods.Keys - {id} else mods.Keys
      ensures verdict == TooCheap ==> From(pool, mods, id).fees < minFee(From(pool, mods, id).size)
      ensures verdict != TooCheap ==> SelectingHere(order, mi + (if usingModified then 0 else 1), left, nowFailed)
    {
      hide Valid, PoolOk, Closed, BlockOk, ModsOk, Settled, Package, Remaining, Refused;
      ValidFacts();
      ghost var w, o, done := weight, sigOpsCost, inBlock;
      verdict, left, nowFailed, updates := Consider(id, usingModified, mods, failed);
      if verdict == Taken {
        SelectingTake(pool, includable, w, o, maxWeight, order, mi, done, mods, failed, weight, sigOpsCost, inBlock,
            left);
      } else if usingModified {
        SelectingFail(pool, includable, weight, sigOpsCost, maxWeight, order, mi, inBlock, mods, failed, id);
      }
      if !usingModified && verdict != TooCheap {
        SelectingNext(pool, includable, weight, sigOpsCost, maxWeight, order, mi, inBlock, left, nowFailed);
      }
    }

    /** The next transaction to try, and whether it is taken from those with modified figures. */
    method Choose(order: seq<Id>, mi: nat, mods: map<Id, ModEntry>) returns (id: Id, usingModified: bool)
      requires ByScore(pool, order) && mi <= |order| && (mi < |order| || mods != map[])
      requires Positive(pool, mods) && mods.Keys <= pool.txs.Keys && (mi < |order| ==> order[mi] !in mods)
      ensures IsNext(pool, order, mi, mods, id) && (usingModified <==> id in mods)
      ensures !usingModified ==> mi < |order| && id == order[mi]
    {
      hide Precedes, Positive, AtMost, ScoreAt;
      usingModified := false;
      if mods != map[] {
        HasBest(pool, mods);
        var best: Id :| best in mods && IsBest(pool, mods, best);
        if mi == |order| {
          return best, true;
        }
        id := order[mi];
        if Precedes(pool, mods, best, id) {
          return best, true;
        }
        BestIsBehind(pool, mods, best, id);
      } else {
        id := order[mi];
      }
    }

    ghost predicate RoundsHere(order: seq<Id>, rounds: seq<Round>, start: set<Id>)
      reads this
    {
      pool.anc.Keys == pool.txs.Keys && RoundsOk(pool, includable, maxWeight, order, rounds, start, inBlock)
    }

    /** One round: tries the best that is left. */
    method TryBest(order: seq<Id>, mi: nat, mods: map<Id, ModEntry>, failed: set<Id>, ghost rounds: seq<Round>,
                   ghost start: set<Id>)
      returns (verdict: Verdict, usingModified: bool, left: map<Id, ModEntry>, nowFailed: set<Id>, updates: nat,
               id: Id, ghost round: Round)
      requires Valid() && SelectingHere(order, mi, mods, failed) && RoundsHere(order, rounds, start)
      requires ByScore(pool, order) && mi <= |order| && (mi < |order| || mods != map[])
      requires mi < |order| ==> !Skip(order[mi], mods, failed)
      modifies this
      ensures Valid() && old(block) <= block && RoundsHere(order, rounds + [round], start)
      ensures verdict == Taken ==> id in inBlock && old(inBlock) <= inBlock
      ensures id in pool.txs && id !in old(inBlock) && (usingModified ==> id in mods)
      ensures round == Round(id, old(inBlock), mods, failed, old(weight), old(sigOpsCost))
      ensures usingModified || mi < |order|
      ensures verdict != Taken ==> unchanged(this)
      ensures verdict.TooBig? || verdict.NotIncludable? ==>
                left.Keys == if usingModified then mods.Keys - {id} else mods.Keys
      ensures verdict == TooCheap ==>
                && From(pool, mods, id).fees < minFee(From(pool, mods, id).size)
                && id in pool.anc && EntryOk(pool, inBlock, id, From(pool, mods, id), id !in failed)
      ensures verdict != TooCheap ==> SelectingHere(order, mi + (if usingModified then 0 else 1), left, nowFailed)
    {
      hide Valid, PoolOk, Closed, BlockOk, ModsOk, Selecting, EntryOk, From, BestLeft, IsNext, Positive, RoundsOk,
           ByScore, Remaining;
      ValidFacts();
      OrderFacts(pool, order);
      SelectingFacts(pool, includable, weight, sigOpsCost, maxWeight, order, mi, inBlock, mods, failed);
      SizesPositive(pool, inBlock, mods, failed);
      id, usingModified := Choose(order, mi, mods);
      NextIsBest(pool, includable, weight, sigOpsCost, maxWeight, order, mi, inBlock, mods, failed, id);
      FiguresOk(pool, inBlock, mods, failed, id);
      round := Round(id, inBlock, mods, failed, weight, sigOpsCost);
      verdict, left, nowFailed, updates := TryNext(order, mi, id, usingModified, mods, failed);
      RoundsNext(pool, includable, maxWeight, order, rounds, start, round, inBlock);
    }

    /**
    Selects packages until nothing is left to try, a package pays less than the fee rate, or too many in a row do
    not fit into an almost full block. `order` is the mempool by ancestor score. Every round tries the best score of
    all that are left. The results `stop` and `failed` only report why the loop ended and which transactions failed
    with modified figures.
     */
    method AddPackageTxs(order: seq<Id>)
      returns (packages: nat, updates: nat, stop: Stop, failed: set<Id>, ghost rounds: seq<Round>)
      requires Valid() && ByScore(pool, order)
      modifies this
      ensures Valid() && old(block) <= block
      ensures RoundsHere(order, rounds, old(inBlock))
      ensures match stop
              case Exhausted => LeftOut(pool, includable, weight, sigOpsCost, maxWeight, order, inBlock, failed)
              case GaveUp => weight > maxWeight - COINBASE_WEIGHT
              case BelowFeeRate(id, figures) =>
                id in pool.anc && id !in inBlock && figures.fees < minFee(figures.size)
                    && EntryOk(pool, inBlock, id, figures, id !in failed) && LastRound(rounds, id, figures, failed)
    {
      hide Valid, PoolOk, Closed, BlockOk, ModsOk, Selecting, EntryOk, From, Updated, LeftOut, RoundsOk, ByScore;
      ValidFacts();
      packages, stop, failed, rounds := 0, Exhausted, {}, [];
      var mods;
      mods, updates := UpdatePackagesForAdded(inBlock, map[]);
      SelectingStart(pool, includable, weight, sigOpsCost, maxWeight, order, inBlock, mods);
      NoRounds(pool, includable, maxWeight, order, inBlock);
      OrderFacts(pool, order);
      var mi, failures := 0, 0;
      while mi < |order| || mods != map[]
        invariant Valid() && SelectingHere(order, mi, mods, failed) && old(block) <= block
        invariant RoundsHere(order, rounds, old(inBlock))
        decreases pool.txs.Keys - inBlock, |order| - mi, mods.Keys
      {
        ValidFacts();
        SelectingFacts(pool, includable, weight, sigOpsCost, maxWeight, order, mi, inBlock, mods, failed);
        if mi < |order| && Skip(order[mi], mods, failed) {
          SelectingNext(pool, includable, weight, sigOpsCost, maxWeight, order, mi, inBlock, mods, failed);
          mi := mi + 1;
          continue;
        }
        ghost var start := old(inBlock);
        ghost var round;
        var verdict, usingModified, left, nowFailed, more, id;
        verdict, usingModified, left, nowFailed, more, id, round := TryBest(order, mi, mods, failed, rounds, start);
        rounds := rounds + [round];
        if !usingModified {
          mi := mi + 1;
        }
        if verdict == TooCheap {
          stop := BelowFeeRate(id, From(pool, mods, id));
          return;
        } else if verdict == Taken {
          failures := 0;
          packages := packages + 1;
        } else if verdict == TooBig {
          failures := failures + 1;
          if failures > MAX_CONSECUTIVE_FAILURES && weight > maxWeight - COINBASE_WEIGHT {
            stop := GaveUp;
            return;
          }
        }
        mods, failed, updates := left, nowFailed, updates + more;
      }
      SelectingFacts(pool, includable, weight, sigOpsCost, maxWeight, order, mi, inBlock, mods, failed);
      SelectingEnd(pool, includable, weight, sigOpsCost, maxWeight, order, inBlock, failed);
    }

    /** The selection ended with this round. */
    ghost predicate LastRound(rounds: seq<Round>, id: Id, figures: ModEntry, failed: set<Id>)
      reads this
    {
      && id in pool.txs && rounds != []
      && var r := rounds[|rounds| - 1];
      && r.id == id && r.done == inBlock && r.failed == failed && figures == From(pool, r.mods, id)
      && r.weight == weight && r.sigOps == sigOpsCost
    }
  }
}
