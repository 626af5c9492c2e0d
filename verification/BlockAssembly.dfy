/**
Facts behind block assembly: the modified package figures that are kept while transactions enter
the block, and the order in which a package may be appended.
 */
module BlockAssembly {
  import opened Totals
  import opened Mempool
  import Sets

  const MAX_BLOCK_SIGOPS_COST := 1_280_000
  const COINBASE_WEIGHT := 4000
  const COINBASE_SIGOPS := 400

  /** The figures of a package without the transactions that are already in the block. */
  datatype ModEntry = ModEntry(size: int, fees: int, sigOps: int)

  function Full(t: Tx): ModEntry {
    ModEntry(t.packageSize, t.packageFees, t.packageSigOps)
  }

  // ---------- the modified set ----------

  /**
  Modified figures of size and sigops are never below what is really left of a package, and exact for
  transactions that never failed, as are the fees when nothing is prioritised; a transaction without modified
  figures that never failed has no ancestor in the block.
   */
  ghost predicate ModsOk(p: Pool, done: set<Id>, mods: map<Id, ModEntry>, failed: set<Id>)
    requires PoolOk(p)
  {
    && mods.Keys <= p.txs.Keys - done
    && (forall d :: d in mods ==> EntryOk(p, done, d, mods[d], d !in failed))
    && (forall d :: d in p.txs && d !in done && d !in mods && d !in failed ==> p.anc[d] * done == {})
  }

  ghost predicate EntryOk(p: Pool, done: set<Id>, d: Id, m: ModEntry, exact: bool)
    requires d in p.anc
  {
    && m.size >= Total(Sizes(p), Remaining(p, d, done))
    && m.sigOps >= Total(SigOps(p), Remaining(p, d, done))
    && (exact ==>
          m.size == Total(Sizes(p), Remaining(p, d, done)) && m.sigOps == Total(SigOps(p), Remaining(p, d, done)))
    && (exact && NoDeltas(p) ==> m.fees == Total(ModFees(p), Remaining(p, d, done)))
  }

  /** The figures of `d` before an update: the modified ones, or the cached ones of the mempool. */
  function From(p: Pool, base: map<Id, ModEntry>, d: Id): ModEntry
    requires d in p.txs
  {
    if d in base then base[d] else Full(p.txs[d])
  }

  /** The added transactions already subtracted from the figures of `d`. */
  function Seen(past: set<Id>, it: Id, visited: set<Id>, d: Id): set<Id> {
    if d in visited then past + {it} else past
  }

  /** The figures of `d` are those before the update without its ancestors in `seen`. */
  ghost predicate UpdatedAt(p: Pool, base: map<Id, ModEntry>, mods: map<Id, ModEntry>, added: set<Id>, seen: set<Id>,
                            d: Id)
    requires d in p.txs && d in p.anc
  {
    && (d in mods <==> d in base || (d !in added && p.anc[d] * seen != {}))
    && (d in mods ==>
          && mods[d].size == From(p, base, d).size - Total(Sizes(p), p.anc[d] * seen)
          && mods[d].sigOps == From(p, base, d).sigOps - Total(SigOps(p), p.anc[d] * seen)
          && FeesAt(p, base, mods[d].fees, seen, d))
  }

  /** The first transaction of a set, which is ordered by hash. */
  ghost function FirstOf(s: set<Id>): (first: Id)
    requires s != {}
    ensures first in s && forall x :: x in s ==> first <= x
  {
    Sets.Least(s)
  }

  /**
  The first ancestor that enters the block creates the modified figures; it is taken out with its modified fee, all
  others with the fee that they pay.
   */
  ghost predicate FeesAt(p: Pool, base: map<Id, ModEntry>, fees: int, seen: set<Id>, d: Id)
    requires d in p.txs && d in p.anc
  {
    var all := p.anc[d] * seen;
    var left := From(p, base, d).fees - Total(Fees(p), all);
    if d in base then fees == left
    else all != {} && fees == left + Fees(p)(FirstOf(all)) - ModFees(p)(FirstOf(all))
  }

  /** A transaction that comes after all of `past`. */
  ghost predicate After(past: set<Id>, it: Id) {
    forall x :: x in past ==> x < it
  }

  ghost predicate AllAfter(past: set<Id>, todo: set<Id>) {
    forall x :: x in todo ==> After(past, x)
  }

  lemma NoneBefore(todo: set<Id>)
    ensures AllAfter({}, todo)
  {
  }

  lemma NextAfter(added: set<Id>, todo: set<Id>, it: Id)
    requires todo <= added && AllAfter(added - todo, todo) && it in todo && forall x :: x in todo ==> it <= x
    ensures After(added - todo, it) && (added - todo) + {it} == added - (todo - {it})
    ensures AllAfter(added - (todo - {it}), todo - {it})
  {
  }

  /** The state of the update when `past` is dealt with and, of the descendants of `it`, those in `visited`. */
  ghost predicate Partly(p: Pool, base: map<Id, ModEntry>, mods: map<Id, ModEntry>, added: set<Id>, past: set<Id>,
                         it: Id, visited: set<Id>)
    requires p.anc.Keys == p.txs.Keys
  {
    mods.Keys <= p.txs.Keys && forall d :: d in p.txs ==> UpdatedAt(p, base, mods, added, Seen(past, it, visited, d), d)
  }

  /** The state of the update when exactly `past` is dealt with. */
  ghost predicate Updated(p: Pool, base: map<Id, ModEntry>, mods: map<Id, ModEntry>, added: set<Id>, past: set<Id>)
    requires p.anc.Keys == p.txs.Keys
  {
    mods.Keys <= p.txs.Keys && forall d :: d in p.txs ==> UpdatedAt(p, base, mods, added, past, d)
  }

  lemma UpdateStart(p: Pool, base: map<Id, ModEntry>, added: set<Id>)
    requires p.anc.Keys == p.txs.Keys && base.Keys <= p.txs.Keys
    ensures Updated(p, base, base, added, {})
  {
    forall d | d in p.txs
      ensures UpdatedAt(p, base, base, added, {}, d)
    {
      assert p.anc[d] * {} == {};
    }
  }

  lemma PartlyStart(p: Pool, base: map<Id, ModEntry>, mods: map<Id, ModEntry>, added: set<Id>, past: set<Id>, it: Id)
    requires p.anc.Keys == p.txs.Keys && Updated(p, base, mods, added, past)
    ensures Partly(p, base, mods, added, past, it, {})
  {
    hide UpdatedAt;
    forall d | d in p.txs
      ensures UpdatedAt(p, base, mods, added, Seen(past, it, {}, d), d)
    {
      assert Seen(past, it, {}, d) == past;
    }
  }

  lemma PartlySkip(p: Pool, base: map<Id, ModEntry>, mods: map<Id, ModEntry>, added: set<Id>, past: set<Id>, it: Id,
                   visited: set<Id>, d: Id)
    requires p.anc.Keys == p.txs.Keys && base.Keys !! added && d in added
    requires Partly(p, base, mods, added, past, it, visited)
    ensures Partly(p, base, mods, added, past, it, visited + {d})
  {
    hide Total;
    forall x | x in p.txs
      ensures UpdatedAt(p, base, mods, added, Seen(past, it, visited + {d}, x), x)
    {
      assert UpdatedAt(p, base, mods, added, Seen(past, it, visited, x), x);
    }
  }

  /** The entry of `d` after `it` has been taken out of it. */
  function TakenOut(p: Pool, mods: map<Id, ModEntry>, it: Id, d: Id): ModEntry
    requires d in p.txs && it in p.txs
  {
    var t := p.txs[it];
    var m := From(p, mods, d);
    ModEntry(m.size - t.size, m.fees - (if d in mods then t.fee else t.modFee), m.sigOps - t.sigOps)
  }

  lemma PartlyNext(p: Pool, base: map<Id, ModEntry>, mods: map<Id, ModEntry>, added: set<Id>, past: set<Id>, it: Id,
                   visited: set<Id>, d: Id)
    requires p.anc.Keys == p.txs.Keys
    requires d in p.txs && it in p.txs && d !in added && d !in visited && it in p.anc[d] && After(past, it)
    requires Partly(p, base, mods, added, past, it, visited)
    ensures Partly(p, base, mods[d := TakenOut(p, mods, it, d)], added, past, it, visited + {d})
  {
    hide Total, UpdatedAt, TakenOut;
    var next := mods[d := TakenOut(p, mods, it, d)];
    forall x | x in p.txs
      ensures UpdatedAt(p, base, next, added, Seen(past, it, visited + {d}, x), x)
    {
      assert UpdatedAt(p, base, mods, added, Seen(past, it, visited, x), x);
      if x == d {
        UpdatedNext(p, base, mods, added, past, it, d);
      } else {
        UpdatedSame(p, base, mods, next, added, Seen(past, it, visited, x), x);
      }
    }
  }

  lemma UpdatedSame(p: Pool, base: map<Id, ModEntry>, mods: map<Id, ModEntry>, next: map<Id, ModEntry>,
                    added: set<Id>, seen: set<Id>, d: Id)
    requires d in p.txs && d in p.anc && UpdatedAt(p, base, mods, added, seen, d)
    requires (d in mods <==> d in next) && (d in mods ==> mods[d] == next[d])
    ensures UpdatedAt(p, base, next, added, seen, d)
  {
  }

  lemma UpdatedNext(p: Pool, base: map<Id, ModEntry>, mods: map<Id, ModEntry>, added: set<Id>, past: set<Id>, it: Id,
                    d: Id)
    requires d in p.txs && d in p.anc && it in p.txs && d !in added && it in p.anc[d] && After(past, it)
    requires UpdatedAt(p, base, mods, added, past, d)
    ensures UpdatedAt(p, base, mods[d := TakenOut(p, mods, it, d)], added, past + {it}, d)
  {
    hide Total, FeesAt;
    var before, after := p.anc[d] * past, p.anc[d] * (past + {it});
    assert after == before + {it} && it !in before && it in after;
    TotalWith(Sizes(p), before, it);
    TotalWith(SigOps(p), before, it);
    NoTotal(p);
    FeesNext(p, base, mods, past, it, d);
  }

  lemma FeesNext(p: Pool, base: map<Id, ModEntry>, mods: map<Id, ModEntry>, past: set<Id>, it: Id, d: Id)
    requires d in p.txs && d in p.anc && it in p.txs && it in p.anc[d] && After(past, it)
    requires d in base ==> d in mods
    requires d in mods ==> FeesAt(p, base, mods[d].fees, past, d)
    requires d !in mods ==> p.anc[d] * past == {}
    ensures FeesAt(p, base, TakenOut(p, mods, it, d).fees, past + {it}, d)
  {
    hide Total;
    var before, after := p.anc[d] * past, p.anc[d] * (past + {it});
    assert after == before + {it} && it !in before && it in after;
    TotalWith(Fees(p), before, it);
    NoTotal(p);
    if d !in base {
      assert FirstOf(after) == if d in mods then FirstOf(before) else it;
    }
  }

  lemma NoTotal(p: Pool)
    ensures Total(Sizes(p), {}) == 0 && Total(SigOps(p), {}) == 0 && Total(Fees(p), {}) == 0
  {
  }

  lemma PartlyRound(p: Pool, base: map<Id, ModEntry>, mods: map<Id, ModEntry>, added: set<Id>, past: set<Id>, it: Id,
                    visited: set<Id>)
    requires p.anc.Keys == p.txs.Keys && Partly(p, base, mods, added, past, it, visited)
    requires forall d :: d in p.txs && it in p.anc[d] ==> d in visited
    ensures Updated(p, base, mods, added, past + {it})
  {
    hide Total, UpdatedAt;
    forall d | d in p.txs
      ensures UpdatedAt(p, base, mods, added, past + {it}, d)
    {
      assert UpdatedAt(p, base, mods, added, Seen(past, it, visited, d), d);
      assert p.anc[d] * (past + {it}) == p.anc[d] * Seen(past, it, visited, d);
      UpdatedSeen(p, base, mods, added, Seen(past, it, visited, d), past + {it}, d);
    }
  }

  lemma UpdatedSeen(p: Pool, base: map<Id, ModEntry>, mods: map<Id, ModEntry>, added: set<Id>, seen: set<Id>,
                    next: set<Id>, d: Id)
    requires d in p.txs && d in p.anc && UpdatedAt(p, base, mods, added, seen, d) && p.anc[d] * seen == p.anc[d] * next
    ensures UpdatedAt(p, base, mods, added, next, d)
  {
    hide Total;
  }

  /** A complete update keeps the modified figures right when `added` enters the block. */
  lemma UpdateKeepsMods(p: Pool, done: set<Id>, old_: map<Id, ModEntry>, mods: map<Id, ModEntry>, failed: set<Id>,
                        added: set<Id>)
    requires PoolOk(p) && added !! done && added <= p.txs.Keys && Closed(p, done)
    requires ModsOk(p, done, old_, failed)
    requires Updated(p, old_ - added, mods, added, added)
    ensures ModsOk(p, done + added, mods, failed)
  {
    hide Total, TxOk, EntryOk;
    var base := old_ - added;
    forall d | d in done
      ensures d !in mods
    {
      DoneStaysOut(p, done, base, mods, added, d);
    }
    forall d | d in mods
      ensures EntryOk(p, done + added, d, mods[d], d !in failed)
    {
      assert UpdatedAt(p, base, mods, added, added, d);
      UpdateKeepsEntry(p, done, base, mods[d], added, d, d !in failed);
    }
    forall d | d in p.txs && d !in done + added && d !in mods && d !in failed
      ensures p.anc[d] * (done + added) == {}
    {
      assert UpdatedAt(p, base, mods, added, added, d);
      assert p.anc[d] * done == {};
      assert p.anc[d] * (done + added) == p.anc[d] * done + p.anc[d] * added;
    }
  }

  /** Figures that were kept for transactions outside `added` are still kept. */
  lemma UpdateKeepsKeys(p: Pool, old_: map<Id, ModEntry>, mods: map<Id, ModEntry>, added: set<Id>)
    requires p.anc.Keys == p.txs.Keys && old_.Keys <= p.txs.Keys && Updated(p, old_ - added, mods, added, added)
    ensures old_.Keys - added <= mods.Keys
  {
    hide Total;
    forall d | d in old_ && d !in added
      ensures d in mods
    {
      assert UpdatedAt(p, old_ - added, mods, added, added, d);
    }
  }

  lemma DoneStaysOut(p: Pool, done: set<Id>, base: map<Id, ModEntry>, mods: map<Id, ModEntry>, added: set<Id>, d: Id)
    requires p.anc.Keys == p.txs.Keys && added !! done && base.Keys !! done && Closed(p, done)
    requires d in done && UpdatedAt(p, base, mods, added, added, d)
    ensures d !in mods
  {
    hide Total;
    assert p.anc[d] <= done;
    assert p.anc[d] * added == {};
  }

  lemma UpdateKeepsEntry(p: Pool, done: set<Id>, base: map<Id, ModEntry>, m: ModEntry, added: set<Id>, d: Id,
                         exact: bool)
    requires p.anc.Keys == p.txs.Keys && added !! done && d in p.txs && d !in done && d !in added && TxOk(p, d)
    requires d in base ==> EntryOk(p, done, d, base[d], exact)
    requires d !in base && exact ==> p.anc[d] * done == {}
    requires m.size == From(p, base, d).size - Total(Sizes(p), p.anc[d] * added)
    requires m.sigOps == From(p, base, d).sigOps - Total(SigOps(p), p.anc[d] * added)
    requires FeesAt(p, base, m.fees, added, d)
    ensures EntryOk(p, done + added, d, m, exact)
  {
    hide Total;
    RemainingTotal(p, ModFees(p), d, done, added);
    if NoDeltas(p) {
      NoDeltasTotal(p, p.anc[d] * added);
    }
    RemainingTotal(p, Sizes(p), d, done, added);
    RemainingTotal(p, SigOps(p), d, done, added);
    if d !in base {
      TotalSubset(Sizes(p), Remaining(p, d, done), Package(p, d));
      TotalSubset(SigOps(p), Remaining(p, d, done), Package(p, d));
      if exact {
        NothingDone(p, d, done);
      }
    }
  }

  /**
  The ancestors that are taken out of the fees of `d` with the fee that they pay: all that enter the block but, for
  figures that are new, the first.
   */
  ghost function TakenAsPaid(p: Pool, base: map<Id, ModEntry>, added: set<Id>, d: Id): set<Id>
    requires d in p.anc
  {
    var all := p.anc[d] * added;
    if d in base || all == {} then all else all - {FirstOf(all)}
  }

  /** Exact modified fees stay exact if and only if those ancestors pay, in total, their modified fees. */
  lemma FeesStayExact(p: Pool, done: set<Id>, base: map<Id, ModEntry>, fees: int, added: set<Id>, d: Id)
    requires d in p.txs && d in p.anc && added !! done && d !in added
    requires From(p, base, d).fees == Total(ModFees(p), Remaining(p, d, done)) && FeesAt(p, base, fees, added, d)
    ensures var paid := TakenAsPaid(p, base, added, d);
            fees == Total(ModFees(p), Remaining(p, d, done + added)) <==>
              Total(Fees(p), paid) == Total(ModFees(p), paid)
  {
    hide Total;
    RemainingTotal(p, ModFees(p), d, done, added);
    var all := p.anc[d] * added;
    if d !in base {
      TotalWithout(Fees(p), all, FirstOf(all));
      TotalWithout(ModFees(p), all, FirstOf(all));
    }
  }

  // Two unrelated transactions 0 and 1 and a child 2 of both; 1 has been prioritised by 10.
  const EXAMPLE := Pool(
    map[0 := Tx(100, 400, 0, 10, 10, 100, 10, 0, 1),
        1 := Tx(100, 400, 0, 10, 20, 100, 20, 0, 1),
        2 := Tx(100, 400, 0, 10, 10, 300, 40, 0, 3)],
    map[0 := {}, 1 := {}, 2 := {0, 1}])

  lemma ExampleTotal(f: Id -> int)
    ensures Total(f, {0}) == f(0) && Total(f, {1}) == f(1) && Total(f, {2}) == f(2)
    ensures Total(f, {0, 1, 2}) == f(0) + f(1) + f(2)
  {
    var none: set<Id> := {};
    TotalWith(f, none, 0);
    TotalWith(f, none, 1);
    TotalWith(f, none, 2);
    assert none + {0} == {0} && none + {1} == {1} && none + {2} == {2};
    TotalWith(f, {0}, 1);
    TotalWith(f, {0} + {1}, 2);
    assert {0} + {1} + {2} == {0, 1, 2};
  }

  lemma ExampleTxs()
    ensures TxOk(EXAMPLE, 0) && TxOk(EXAMPLE, 1)
  {
    hide Total;
    ExampleTotal(Sizes(EXAMPLE));
    ExampleTotal(SigOps(EXAMPLE));
    ExampleTotal(ModFees(EXAMPLE));
    assert Package(EXAMPLE, 0) == {0} && Package(EXAMPLE, 1) == {1};
  }

  lemma ExampleChild()
    ensures TxOk(EXAMPLE, 2)
  {
    hide Total;
    ExampleTotal(Sizes(EXAMPLE));
    ExampleTotal(SigOps(EXAMPLE));
    ExampleTotal(ModFees(EXAMPLE));
    assert Package(EXAMPLE, 2) == {0, 1, 2};
  }

  lemma ExampleOk()
    ensures PoolOk(EXAMPLE)
  {
    hide TxOk;
    ExampleTxs();
    ExampleChild();
  }

  /** Takes a parent out of the figures of 2. */
  lemma ExampleStep(base: map<Id, ModEntry>, it: Id) returns (mods: map<Id, ModEntry>)
    requires it in {0, 1} && base.Keys <= {2}
    ensures Updated(EXAMPLE, base, mods, {it}, {it}) && mods == base[2 := TakenOut(EXAMPLE, base, it, 2)]
  {
    hide Total, UpdatedAt, Updated, Partly;
    var p := EXAMPLE;
    UpdateStart(p, base, {it});
    PartlyStart(p, base, base, {it}, {}, it);
    PartlyNext(p, base, base, {it}, {}, it, {}, 2);
    mods := base[2 := TakenOut(p, base, it, 2)];
    PartlyRound(p, base, mods, {it}, {}, it, {} + {2});
    assert {} + {it} == {it};
  }

  /**
  Fees are not kept exact in general: taking 0 and then 1 into the block leaves 20 for transaction 2, which adds only
  10.
   */
  lemma FeesCanDrift() returns (mods: map<Id, ModEntry>, later: map<Id, ModEntry>)
    ensures PoolOk(EXAMPLE)
    ensures Updated(EXAMPLE, map[], mods, {0}, {0}) && Updated(EXAMPLE, mods, later, {1}, {1})
    ensures 2 in mods && mods[2].fees == Total(ModFees(EXAMPLE), Remaining(EXAMPLE, 2, {0}))
    ensures 2 in later && later[2].fees == 20 && Total(ModFees(EXAMPLE), Remaining(EXAMPLE, 2, {0, 1})) == 10
  {
    hide Total, Updated, PoolOk;
    var p := EXAMPLE;
    ExampleOk();
    mods := ExampleStep(map[], 0);
    later := ExampleStep(mods, 1);
    ExampleTotal(ModFees(p));
    assert Remaining(p, 2, {0}) == {1} + {2} && Remaining(p, 2, {0, 1}) == {2};
    TotalWith(ModFees(p), {1}, 2);
  }

  /** A failed transaction leaves the modified set and is remembered. */
  lemma FailKeepsMods(p: Pool, done: set<Id>, mods: map<Id, ModEntry>, failed: set<Id>, d: Id)
    requires PoolOk(p) && ModsOk(p, done, mods, failed)
    ensures ModsOk(p, done, mods - {d}, failed + {d})
  {
    hide Total, TxOk;
    forall x | x in mods - {d}
      ensures EntryOk(p, done, x, mods[x], x !in failed + {d})
    {
      assert EntryOk(p, done, x, mods[x], x !in failed);
    }
  }

  /** The figures by which a package is judged are those of what it would add to the block. */
  lemma FiguresOk(p: Pool, done: set<Id>, mods: map<Id, ModEntry>, failed: set<Id>, id: Id)
    requires PoolOk(p) && ModsOk(p, done, mods, failed) && id in p.txs && id !in done
    ensures EntryOk(p, done, id, From(p, mods, id), id !in failed)
  {
    hide TxOk, EntryOk;
    if id !in mods {
      assert TxOk(p, id);
      WholeFigures(p, done, id, id !in failed);
    }
  }

  /** The cached figures of the whole package cover what is left of it. */
  lemma WholeFigures(p: Pool, done: set<Id>, id: Id, exact: bool)
    requires p.anc.Keys == p.txs.Keys && id in p.txs && id !in done && TxOk(p, id) && (exact ==> p.anc[id] * done == {})
    ensures EntryOk(p, done, id, Full(p.txs[id]), exact)
  {
    hide Total;
    TotalSubset(Sizes(p), Remaining(p, id, done), Package(p, id));
    TotalSubset(SigOps(p), Remaining(p, id, done), Package(p, id));
    if exact {
      NothingDone(p, id, done);
    }
  }

  /** They cover the weight and the sigops that the package would add. */
  lemma FiguresCover(p: Pool, done: set<Id>, mods: map<Id, ModEntry>, failed: set<Id>, id: Id)
    requires PoolOk(p) && ModsOk(p, done, mods, failed) && id in p.txs && id !in done
    ensures From(p, mods, id).sigOps >= Total(SigOps(p), Remaining(p, id, done))
    ensures WITNESS_SCALE_FACTOR * From(p, mods, id).size >= Total(Weights(p), Remaining(p, id, done))
  {
    hide Total, ModsOk;
    FiguresOk(p, done, mods, failed, id);
    var left := Remaining(p, id, done);
    forall x | x in left
      ensures Weights(p)(x) <= WITNESS_SCALE_FACTOR * Sizes(p)(x)
    {
      assert x in p.txs;
      assert TxOk(p, x);
    }
    TotalAtMost(Weights(p), Sizes(p), WITNESS_SCALE_FACTOR, left);
  }

  // ---------- the order of a block ----------

  function Members(s: seq<Id>): set<Id> {
    set x | x in s
  }

  /** No transaction occurs twice, and each comes after all its ancestors. */
  ghost predicate Ordered(p: Pool, block: seq<Id>) {
    forall i :: 0 <= i < |block| ==>
        block[i] in p.anc && p.anc[block[i]] <= Members(block[..i]) && block[i] !in block[..i]
  }

  lemma OrderedAppend(p: Pool, block: seq<Id>, id: Id)
    requires Ordered(p, block) && id in p.anc && p.anc[id] <= Members(block) && id !in block
    ensures Ordered(p, block + [id])
  {
    var more := block + [id];
    forall i | 0 <= i < |more|
      ensures more[i] in p.anc && p.anc[more[i]] <= Members(more[..i]) && more[i] !in more[..i]
    {
      assert more[..i] == block[..i];
      if i == |block| {
        assert block[..i] == block;
      }
    }
  }

  /** `done` is the set of the transactions of a block in which every transaction follows its ancestors. */
  ghost predicate BlockOk(p: Pool, block: seq<Id>, done: set<Id>) {
    done == Members(block) && |done| == |block| && done <= p.txs.Keys && Ordered(p, block) && Closed(p, done)
  }

  lemma BlockAppend(p: Pool, block: seq<Id>, done: set<Id>, id: Id)
    requires BlockOk(p, block, done) && id in p.anc && id in p.txs && p.anc[id] <= done && id !in done
    ensures BlockOk(p, block + [id], done + {id})
  {
    hide Ordered;
    OrderedAppend(p, block, id);
    assert Members(block + [id]) == done + {id};
  }

  /** The counters of a block are the exact sums over its transactions, plus the reserve for the coinbase. */
  ghost predicate SumsOk(p: Pool, done: set<Id>, weight: int, sigOps: int, fees: int) {
    && weight == COINBASE_WEIGHT + Total(Weights(p), done)
    && sigOps == COINBASE_SIGOPS + Total(SigOps(p), done)
    && fees == Total(Fees(p), done)
  }

  lemma SumsWith(p: Pool, done: set<Id>, weight: int, sigOps: int, fees: int, id: Id)
    requires SumsOk(p, done, weight, sigOps, fees) && id in p.txs && id !in done
    ensures SumsOk(p, done + {id}, weight + p.txs[id].weight, sigOps + p.txs[id].sigOps, fees + p.txs[id].fee)
  {
    hide Total;
    TotalWith(Weights(p), done, id);
    TotalWith(SigOps(p), done, id);
    TotalWith(Fees(p), done, id);
  }

  lemma SumsGrow(p: Pool, done: set<Id>, more: set<Id>, weight: int, sigOps: int, fees: int, weight': int,
                 sigOps': int, fees': int)
    requires done !! more && SumsOk(p, done, weight, sigOps, fees) && SumsOk(p, done + more, weight', sigOps', fees')
    ensures weight' == weight + Total(Weights(p), more) >= weight
    ensures sigOps' == sigOps + Total(SigOps(p), more) >= sigOps
  {
    hide Total;
    TotalUnion(Weights(p), done, more);
    TotalUnion(SigOps(p), done, more);
    TotalNonNegative(Weights(p), more);
    TotalNonNegative(SigOps(p), more);
  }

  /** `column` lists the figures `f` of the transactions of the block. */
  ghost predicate Lists(f: Id -> int, block: seq<Id>, column: seq<int>) {
    |column| == |block| && forall i :: 0 <= i < |block| ==> column[i] == f(block[i])
  }

  lemma EmptyBlock(p: Pool)
    ensures BlockOk(p, [], {}) && SumsOk(p, {}, COINBASE_WEIGHT, COINBASE_SIGOPS, 0)
  {
  }

  // ---------- the order of a package ----------

  /** Fewer ancestors first, and then the smaller hash. */
  predicate Before(p: Pool, a: Id, b: Id)
    requires a in p.txs && b in p.txs
  {
    var m, n := p.txs[a].packageCount, p.txs[b].packageCount;
    if m != n then m < n else a < b
  }

  ghost predicate Sorted(p: Pool, s: seq<Id>) {
    && (forall i :: 0 <= i < |s| ==> s[i] in p.txs)
    && (forall i, j :: 0 <= i < j < |s| ==> Before(p, s[i], s[j]))
  }

  /** `id` is the first of `ids`. */
  ghost predicate Leads(p: Pool, id: Id, ids: set<Id>) {
    id in p.txs && forall x :: x in ids ==> x in p.txs && (x == id || Before(p, id, x))
  }

  /** `s` is what has been sorted of a package when `todo` is left. */
  ghost predicate SortedSoFar(p: Pool, package: set<Id>, s: seq<Id>, todo: set<Id>) {
    && Sorted(p, s) && todo <= package <= p.txs.Keys
    && Members(s) == package - todo && |s| + |todo| == |package|
    && (forall i :: 0 <= i < |s| ==> Leads(p, s[i], todo))
  }

  lemma SortNext(p: Pool, package: set<Id>, s: seq<Id>, todo: set<Id>, id: Id)
    requires SortedSoFar(p, package, s, todo) && id in todo && Leads(p, id, todo)
    ensures SortedSoFar(p, package, s + [id], todo - {id})
  {
    hide Before;
    forall i | 0 <= i < |s|
      ensures Before(p, s[i], id)
    {
      assert Leads(p, s[i], todo);
      assert s[i] in Members(s);
    }
    assert Members(s + [id]) == Members(s) + {id};
  }

  lemma NoneYet(block: seq<Id>, mods: map<Id, ModEntry>, s: seq<Id>)
    ensures Members(s[..0]) == {} && block + s[..0] == block && mods - {} == mods
  {
  }

  lemma OneMore(block: seq<Id>, s: seq<Id>, i: nat)
    requires i < |s|
    ensures (block + s[..i]) + [s[i]] == block + s[..i + 1]
    ensures Members(s[..i + 1]) == Members(s[..i]) + {s[i]}
  {
    assert s[..i + 1] == s[..i] + [s[i]];
  }

  lemma DropOne(mods: map<Id, ModEntry>, gone: set<Id>, id: Id)
    ensures (mods - gone) - {id} == mods - (gone + {id})
  {
  }

  /** In a sorted package, what a transaction needs comes before it, and it has not come before itself. */
  lemma SortedIsReady(p: Pool, id: Id, done: set<Id>, sorted: seq<Id>, k: nat)
    requires PoolOk(p) && Closed(p, done) && id in p.txs && k < |sorted|
    requires Sorted(p, sorted) && Members(sorted) == Remaining(p, id, done)
    ensures sorted[k] in p.txs && sorted[k] in p.anc
    ensures p.anc[sorted[k]] <= done + Members(sorted[..k])
    ensures sorted[k] !in done + Members(sorted[..k])
  {
    hide Total, TxOk;
    var x := sorted[k];
    assert x in Members(sorted);
    assert x == id || Inherited(p, x, id);
    forall a | a in p.anc[x]
      ensures a in done + Members(sorted[..k])
    {
      if a !in done {
        assert a in Members(sorted);
        var j :| 0 <= j < |sorted| && sorted[j] == a;
        CountsGrow(p, a, x);
        assert j < k;
        assert sorted[..k][j] == a;
      }
    }
  }

  // ---------- what is left out of a block ----------

  /**
  The whole package of `d` does not fit into a block with these counters, or holds a transaction that must stay out.
   */
  ghost predicate Refused(p: Pool, includable: Id -> bool, weight: int, sigOps: int, maxWeight: int, d: Id)
    requires d in p.txs && d in p.anc
  {
    || !Fits(weight, sigOps, maxWeight, Full(p.txs[d]))
    || exists x :: x in Package(p, d) && !includable(x)
  }

  predicate Fits(weight: int, sigOps: int, maxWeight: int, m: ModEntry) {
    weight + WITNESS_SCALE_FACTOR * m.size < maxWeight && sigOps + m.sigOps < MAX_BLOCK_SIGOPS_COST
  }

  /** Every transaction of `seen` is in the block, has modified figures, failed with them, or is refused. */
  ghost predicate Settled(p: Pool, includable: Id -> bool, weight: int, sigOps: int, maxWeight: int,
                          seen: seq<Id>, done: set<Id>, mods: map<Id, ModEntry>, failed: set<Id>)
    requires p.anc.Keys == p.txs.Keys
  {
    forall k :: 0 <= k < |seen| && seen[k] in p.txs && seen[k] !in done && seen[k] !in mods && seen[k] !in failed ==>
      Refused(p, includable, weight, sigOps, maxWeight, seen[k])
  }

  /** What holds around the selection loop when the first `mi` transactions of `order` have been looked at. */
  ghost predicate Selecting(p: Pool, includable: Id -> bool, weight: int, sigOps: int, maxWeight: int,
                            order: seq<Id>, mi: int, done: set<Id>, mods: map<Id, ModEntry>, failed: set<Id>)
  {
    && PoolOk(p) && 0 <= mi <= |order| && ModsOk(p, done, mods, failed)
    && Settled(p, includable, weight, sigOps, maxWeight, order[..mi], done, mods, failed)
  }

  lemma SelectingStart(p: Pool, includable: Id -> bool, weight: int, sigOps: int, maxWeight: int, order: seq<Id>,
                       done: set<Id>, mods: map<Id, ModEntry>)
    requires PoolOk(p) && Closed(p, done) && done <= p.txs.Keys && Updated(p, map[], mods, done, done)
    ensures Selecting(p, includable, weight, sigOps, maxWeight, order, 0, done, mods, {})
  {
    hide TxOk, Updated, Refused;
    var none: map<Id, ModEntry> := map[];
    assert ModsOk(p, {}, none, {});
    assert none - done == none;
    UpdateKeepsMods(p, {}, none, mods, {}, done);
    assert {} + done == done;
  }

  lemma SelectingTake(p: Pool, includable: Id -> bool, weight: int, sigOps: int, maxWeight: int, order: seq<Id>,
                      mi: nat, done: set<Id>, mods: map<Id, ModEntry>, failed: set<Id>,
                      weight': int, sigOps': int, done': set<Id>, mods': map<Id, ModEntry>)
    requires Selecting(p, includable, weight, sigOps, maxWeight, order, mi, done, mods, failed)
    requires weight <= weight' && sigOps <= sigOps' && done <= done' && mods.Keys <= done' + mods'.Keys
    requires ModsOk(p, done', mods', failed)
    ensures Selecting(p, includable, weight', sigOps', maxWeight, order, mi, done', mods', failed)
  {
    hide TxOk, ModsOk;
    var seen := order[..mi];
    forall k | 0 <= k < |seen| && seen[k] in p.txs && seen[k] !in done' && seen[k] !in mods' && seen[k] !in failed
      ensures Refused(p, includable, weight', sigOps', maxWeight, seen[k])
    {
      assert seen[k] !in done' + mods'.Keys;
      assert Refused(p, includable, weight, sigOps, maxWeight, seen[k]);
    }
  }

  lemma SelectingFail(p: Pool, includable: Id -> bool, weight: int, sigOps: int, maxWeight: int, order: seq<Id>,
                      mi: nat, done: set<Id>, mods: map<Id, ModEntry>, failed: set<Id>, id: Id)
    requires Selecting(p, includable, weight, sigOps, maxWeight, order, mi, done, mods, failed)
    ensures Selecting(p, includable, weight, sigOps, maxWeight, order, mi, done, mods - {id}, failed + {id})
  {
    hide TxOk, ModsOk, Refused;
    FailKeepsMods(p, done, mods, failed, id);
  }

  lemma SelectingNext(p: Pool, includable: Id -> bool, weight: int, sigOps: int, maxWeight: int, order: seq<Id>,
                      mi: nat, done: set<Id>, mods: map<Id, ModEntry>, failed: set<Id>)
    requires Selecting(p, includable, weight, sigOps, maxWeight, order, mi, done, mods, failed)
    requires mi < |order| && order[mi] in p.txs
    requires order[mi] in done || order[mi] in mods || order[mi] in failed
              || Refused(p, includable, weight, sigOps, maxWeight, order[mi])
    ensures Selecting(p, includable, weight, sigOps, maxWeight, order, mi + 1, done, mods, failed)
  {
    hide TxOk, ModsOk, Refused;
    var seen := order[..mi + 1];
    forall k | 0 <= k < |seen| && seen[k] in p.txs && seen[k] !in done && seen[k] !in mods && seen[k] !in failed
      ensures Refused(p, includable, weight, sigOps, maxWeight, seen[k])
    {
      if k < mi {
        assert order[..mi][k] == seen[k];
      }
    }
  }

  lemma SelectingEnd(p: Pool, includable: Id -> bool, weight: int, sigOps: int, maxWeight: int, order: seq<Id>,
                     done: set<Id>, failed: set<Id>)
    requires Selecting(p, includable, weight, sigOps, maxWeight, order, |order|, done, map[], failed)
    ensures LeftOut(p, includable, weight, sigOps, maxWeight, order, done, failed)
  {
    hide TxOk, Refused, EntryOk;
    var seen := order[..|order|];
    assert seen == order;
    forall k | 0 <= k < |order| && order[k] in p.txs && order[k] !in done && order[k] !in failed
      ensures p.anc[order[k]] * done == {} && Refused(p, includable, weight, sigOps, maxWeight, order[k])
    {
      assert seen[k] == order[k];
    }
  }

  /**
  Every transaction of `order` is in the block, or failed with modified figures, or has no ancestor in the block
  and is refused with its whole package.
   */
  ghost predicate LeftOut(p: Pool, includable: Id -> bool, weight: int, sigOps: int, maxWeight: int, order: seq<Id>,
                          done: set<Id>, failed: set<Id>)
    requires p.anc.Keys == p.txs.Keys
  {
    forall k :: 0 <= k < |order| && order[k] in p.txs && order[k] !in done && order[k] !in failed ==>
      p.anc[order[k]] * done == {} && Refused(p, includable, weight, sigOps, maxWeight, order[k])
  }

  lemma ModsKeys(p: Pool, done: set<Id>, mods: map<Id, ModEntry>, failed: set<Id>)
    requires PoolOk(p) && ModsOk(p, done, mods, failed)
    ensures p.anc.Keys == p.txs.Keys && mods.Keys <= p.txs.Keys && mods.Keys !! done
  {
  }

  lemma SelectingFacts(p: Pool, includable: Id -> bool, weight: int, sigOps: int, maxWeight: int, order: seq<Id>,
                       mi: int, done: set<Id>, mods: map<Id, ModEntry>, failed: set<Id>)
    requires Selecting(p, includable, weight, sigOps, maxWeight, order, mi, done, mods, failed)
    ensures PoolOk(p) && ModsOk(p, done, mods, failed) && 0 <= mi <= |order|
    ensures p.anc.Keys == p.txs.Keys && mods.Keys <= p.txs.Keys && mods.Keys !! done
  {
    hide TxOk, EntryOk, Settled;
  }
}
