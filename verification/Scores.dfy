/** Ancestor scores: the order in which packages are tried, and what it says about their fee rates. */
module Scores {
  import opened Totals
  import opened Mempool
  import opened BlockAssembly
  import Sets

  /** A fee over a size; rates are compared without division. */
  datatype Rate = Rate(fee: int, size: int)

  ghost predicate AtMost(a: Rate, b: Rate) {
    a.fee * b.size <= b.fee * a.size
  }

  function OwnRate(t: Tx): Rate {
    Rate(t.modFee, t.size)
  }

  function PackageRate(m: ModEntry): Rate {
    Rate(m.fees, m.size)
  }

  /** The lower one of the rates of a transaction and of its package. */
  function Score(t: Tx, m: ModEntry): Rate {
    if t.modFee * m.size > m.fees * t.size then PackageRate(m) else OwnRate(t)
  }

  lemma AtMostTrans(a: Rate, b: Rate, c: Rate)
    requires a.size > 0 && b.size > 0 && c.size > 0 && AtMost(a, b) && AtMost(b, c)
    ensures AtMost(a, c)
  {
    assert a.fee * b.size * c.size <= b.fee * a.size * c.size by {
      MulAtMost(a.fee * b.size, b.fee * a.size, c.size);
    }
    assert b.fee * c.size * a.size <= c.fee * b.size * a.size by {
      MulAtMost(b.fee * c.size, c.fee * b.size, a.size);
    }
    assert (a.fee * c.size) * b.size <= (c.fee * a.size) * b.size;
    DivAtMost(a.fee * c.size, c.fee * a.size, b.size);
  }

  lemma MulAtMost(x: int, y: int, k: int)
    requires x <= y && k > 0
    ensures x * k <= y * k
  {
  }

  lemma DivAtMost(x: int, y: int, k: int)
    requires x * k <= y * k && k > 0
    ensures x <= y
  {
    assert (y - x) * k >= 0;
  }

  lemma ScoreIsLower(t: Tx, m: ModEntry)
    requires t.size > 0 && m.size > 0
    ensures AtMost(Score(t, m), OwnRate(t)) && AtMost(Score(t, m), PackageRate(m)) && Score(t, m).size > 0
    ensures AtMost(PackageRate(m), OwnRate(t)) ==> AtMost(PackageRate(m), Score(t, m))
  {
  }

  // ---------- a lower score and a lower fee rate ----------

  /** Whatever has at least the score of `t` has a package that pays at least the rate of the package of `t`. */
  ghost predicate ScoreBoundsRate(t: Tx, m: ModEntry) {
    forall u: Tx, v: ModEntry :: u.size > 0 && v.size > 0 && AtMost(Score(t, m), Score(u, v)) ==>
      AtMost(PackageRate(m), PackageRate(v))
  }

  /**
  That a package with a lower score also pays a lower fee rate is right for exactly the transactions whose own rate is
  at least that of their package, for which the score is the rate of the package.
   */
  lemma ScoreBoundsRateIff(t: Tx, m: ModEntry)
    requires t.size > 0 && m.size > 0
    ensures ScoreBoundsRate(t, m) <==> AtMost(PackageRate(m), OwnRate(t))
  {
    hide AtMost;
    ScoreIsLower(t, m);
    if AtMost(PackageRate(m), OwnRate(t)) {
      forall u: Tx, v: ModEntry | u.size > 0 && v.size > 0 && AtMost(Score(t, m), Score(u, v))
        ensures AtMost(PackageRate(m), PackageRate(v))
      {
        ScoreIsLower(u, v);
        AtMostTrans(PackageRate(m), Score(t, m), Score(u, v));
        AtMostTrans(PackageRate(m), Score(u, v), PackageRate(v));
      }
    } else {
      var v := ModEntry(t.size, t.modFee, 0);
      assert Score(t, v) == OwnRate(t) == PackageRate(v);
    }
  }

  // ---------- the order ----------

  function ScoreAt(p: Pool, mods: map<Id, ModEntry>, id: Id): Rate
    requires id in p.txs
  {
    Score(p.txs[id], From(p, mods, id))
  }

  /** The higher score goes first, and of equal ones the smaller hash. */
  predicate Precedes(p: Pool, mods: map<Id, ModEntry>, a: Id, b: Id)
    requires a in p.txs && b in p.txs
  {
    var x, y := ScoreAt(p, mods, a), ScoreAt(p, mods, b);
    if x.fee * y.size == x.size * y.fee then a < b else x.fee * y.size > x.size * y.fee
  }

  ghost predicate ByScore(p: Pool, order: seq<Id>) {
    && (forall k :: 0 <= k < |order| ==> order[k] in p.txs)
    && (forall i, j :: 0 <= i < j < |order| ==> Precedes(p, map[], order[i], order[j]))
  }

  /** `id` is the first of the transactions with modified figures. */
  predicate IsBest(p: Pool, mods: map<Id, ModEntry>, id: Id)
    requires mods.Keys <= p.txs.Keys
  {
    id in mods && forall x :: x in mods && x != id ==> Precedes(p, mods, id, x)
  }

  ghost predicate Positive(p: Pool, mods: map<Id, ModEntry>) {
    forall id :: id in p.txs ==> p.txs[id].size > 0 && From(p, mods, id).size > 0
  }

  lemma PrecedesIsAtMost(p: Pool, mods: map<Id, ModEntry>, a: Id, b: Id)
    requires a in p.txs && b in p.txs
    ensures Precedes(p, mods, a, b) ==> AtMost(ScoreAt(p, mods, b), ScoreAt(p, mods, a))
    ensures !Precedes(p, mods, a, b) ==> AtMost(ScoreAt(p, mods, a), ScoreAt(p, mods, b))
    ensures !Precedes(p, mods, a, b) && a != b ==> Precedes(p, mods, b, a)
  {
    hide Score;
    var x, y := ScoreAt(p, mods, a), ScoreAt(p, mods, b);
    assert x.fee * y.size == y.size * x.fee && x.size * y.fee == y.fee * x.size;
  }

  lemma PrecedesTrans(p: Pool, mods: map<Id, ModEntry>, a: Id, b: Id, c: Id)
    requires Positive(p, mods) && a in p.txs && b in p.txs && c in p.txs
    requires Precedes(p, mods, a, b) && Precedes(p, mods, b, c)
    ensures Precedes(p, mods, a, c)
  {
    hide Score, From, Precedes, AtMost;
    PrecedesIsAtMost(p, mods, a, b);
    PrecedesIsAtMost(p, mods, b, c);
    var x, y, z := ScoreAt(p, mods, a), ScoreAt(p, mods, b), ScoreAt(p, mods, c);
    ScoresPositive(p, mods, a);
    ScoresPositive(p, mods, b);
    ScoresPositive(p, mods, c);
    AtMostTrans(z, y, x);
    PrecedesTies(p, mods, a, b);
    PrecedesTies(p, mods, b, c);
    PrecedesTies(p, mods, a, c);
    if AtMost(x, z) {
      AtMostTrans(x, z, y);
      AtMostTrans(y, x, z);
    }
  }

  lemma ScoresPositive(p: Pool, mods: map<Id, ModEntry>, a: Id)
    requires Positive(p, mods) && a in p.txs
    ensures ScoreAt(p, mods, a).size > 0
  {
    hide From;
  }

  lemma PrecedesTies(p: Pool, mods: map<Id, ModEntry>, a: Id, b: Id)
    requires a in p.txs && b in p.txs
    ensures var x, y := ScoreAt(p, mods, a), ScoreAt(p, mods, b);
            Precedes(p, mods, a, b) <==> AtMost(y, x) && (AtMost(x, y) ==> a < b)
  {
    hide Score;
    var x, y := ScoreAt(p, mods, a), ScoreAt(p, mods, b);
    assert x.fee * y.size == y.size * x.fee && x.size * y.fee == y.fee * x.size;
  }

  lemma HasBest(p: Pool, mods: map<Id, ModEntry>)
    requires Positive(p, mods) && mods.Keys <= p.txs.Keys && mods != map[]
    ensures exists id :: IsBest(p, mods, id)
  {
    hide Precedes, Positive;
    var id := Sets.Pick(mods.Keys);
    var todo := mods.Keys - {id};
    while todo != {}
      invariant id in mods && todo <= mods.Keys
      invariant forall x :: x in mods && x !in todo && x != id ==> Precedes(p, mods, id, x)
    {
      var y := Sets.Pick(todo);
      todo := todo - {y};
      if y != id && !Precedes(p, mods, id, y) {
        PrecedesIsAtMost(p, mods, id, y);
        forall x | x in mods && x !in todo && x != y
          ensures Precedes(p, mods, y, x)
        {
          if x != id {
            PrecedesTrans(p, mods, y, id, x);
          }
        }
        id := y;
      }
    }
    assert IsBest(p, mods, id);
  }

  // ---------- what is tried next ----------

  /** The next transaction to try: the best with modified figures or number `mi` of `order`, whichever goes first. */
  ghost predicate IsNext(p: Pool, order: seq<Id>, mi: nat, mods: map<Id, ModEntry>, id: Id)
    requires mods.Keys <= p.txs.Keys && mi <= |order| && forall k :: 0 <= k < |order| ==> order[k] in p.txs
  {
    || (IsBest(p, mods, id) && (mi == |order| || Precedes(p, mods, id, order[mi])))
    || (mi < |order| && id == order[mi] && forall x :: x in mods ==> AtMost(ScoreAt(p, mods, x), ScoreAt(p, mods, id)))
  }

  /**
  Everything that may still be tried has at most the score of `id`: what is in the block, has failed with modified
  figures or is refused does not count.
   */
  ghost predicate BestLeft(p: Pool, includable: Id -> bool, weight: int, sigOps: int, maxWeight: int, order: seq<Id>,
                           done: set<Id>, mods: map<Id, ModEntry>, failed: set<Id>, id: Id)
    requires p.anc.Keys == p.txs.Keys
  {
    id in p.txs && forall y :: y in p.txs && (y in mods || y in order) && y !in done && y !in failed ==>
      Refused(p, includable, weight, sigOps, maxWeight, y) || AtMost(ScoreAt(p, mods, y), ScoreAt(p, mods, id))
  }

  /** Of what is left, every package that pays no more than its own transaction pays at most the rate of `id`'s. */
  lemma LeftPaysLess(p: Pool, includable: Id -> bool, weight: int, sigOps: int, maxWeight: int, order: seq<Id>,
                     done: set<Id>, mods: map<Id, ModEntry>, failed: set<Id>, id: Id, y: Id)
    requires p.anc.Keys == p.txs.Keys && Positive(p, mods)
    requires BestLeft(p, includable, weight, sigOps, maxWeight, order, done, mods, failed, id)
    requires y in p.txs && (y in mods || y in order) && y !in done && y !in failed
    requires !Refused(p, includable, weight, sigOps, maxWeight, y)
    ensures AtMost(PackageRate(From(p, mods, y)), OwnRate(p.txs[y])) ==>
            AtMost(PackageRate(From(p, mods, y)), PackageRate(From(p, mods, id)))
  {
    hide AtMost, Refused, Score;
    ScoreBoundsRateIff(p.txs[y], From(p, mods, y));
    assert AtMost(ScoreAt(p, mods, y), ScoreAt(p, mods, id));
  }

  /** All that comes at or after number `mi` has at most its score. */
  lemma LaterAtMost(p: Pool, order: seq<Id>, mi: nat, k: nat, mods: map<Id, ModEntry>)
    requires ByScore(p, order) && mi <= k < |order| && order[mi] !in mods && order[k] !in mods
    ensures AtMost(ScoreAt(p, mods, order[k]), ScoreAt(p, mods, order[mi]))
  {
    hide Precedes, Score;
    var none: map<Id, ModEntry> := map[];
    if mi < k {
      PrecedesIsAtMost(p, none, order[mi], order[k]);
    }
    assert ScoreAt(p, mods, order[mi]) == ScoreAt(p, none, order[mi]);
    assert ScoreAt(p, mods, order[k]) == ScoreAt(p, none, order[k]);
  }

  /** The next transaction to try has the best score of all that are left. */
  lemma NextIsBest(p: Pool, includable: Id -> bool, weight: int, sigOps: int, maxWeight: int, order: seq<Id>, mi: nat,
                   done: set<Id>, mods: map<Id, ModEntry>, failed: set<Id>, id: Id)
    requires Selecting(p, includable, weight, sigOps, maxWeight, order, mi, done, mods, failed) && ByScore(p, order)
    requires Positive(p, mods) && (mi < |order| ==> order[mi] !in mods)
    requires mods.Keys <= p.txs.Keys && IsNext(p, order, mi, mods, id)
    ensures id in p.txs && p.anc.Keys == p.txs.Keys
    ensures BestLeft(p, includable, weight, sigOps, maxWeight, order, done, mods, failed, id)
  {
    hide Precedes, Score, AtMost, TxOk, ModsOk, Refused, ScoreAt, Positive, IsBest;
    NextFacts(p, order, mi, mods, id);
    forall y | y in p.txs && (y in mods || y in order) && y !in done && y !in failed
      ensures Refused(p, includable, weight, sigOps, maxWeight, y)
           || AtMost(ScoreAt(p, mods, y), ScoreAt(p, mods, id))
    {
      if y !in mods {
        var k :| 0 <= k < |order| && order[k] == y;
        if k < mi {
          assert order[..mi][k] == y;
        } else {
          LaterAtMost(p, order, mi, k, mods);
          ScoresPositive(p, mods, y);
          ScoresPositive(p, mods, order[mi]);
          ScoresPositive(p, mods, id);
          AtMostTrans(ScoreAt(p, mods, y), ScoreAt(p, mods, order[mi]), ScoreAt(p, mods, id));
        }
      }
    }
  }

  lemma NextFacts(p: Pool, order: seq<Id>, mi: nat, mods: map<Id, ModEntry>, id: Id)
    requires mods.Keys <= p.txs.Keys && mi <= |order| && forall k :: 0 <= k < |order| ==> order[k] in p.txs
    requires IsNext(p, order, mi, mods, id)
    ensures id in p.txs && forall x :: x in mods ==> AtMost(ScoreAt(p, mods, x), ScoreAt(p, mods, id))
    ensures mi < |order| ==> AtMost(ScoreAt(p, mods, order[mi]), ScoreAt(p, mods, id))
  {
    hide Precedes, ScoreAt;
    assert AtMost(ScoreAt(p, mods, id), ScoreAt(p, mods, id));
    if IsBest(p, mods, id) {
      forall x | x in mods && x != id
        ensures AtMost(ScoreAt(p, mods, x), ScoreAt(p, mods, id))
      {
        PrecedesIsAtMost(p, mods, id, x);
      }
    }
    if mi < |order| && id != order[mi] {
      PrecedesIsAtMost(p, mods, id, order[mi]);
    }
  }

  /** If the best with modified figures does not go before `id`, none of them has a higher score. */
  lemma BestIsBehind(p: Pool, mods: map<Id, ModEntry>, best: Id, id: Id)
    requires Positive(p, mods) && mods.Keys <= p.txs.Keys && IsBest(p, mods, best)
    requires id in p.txs && !Precedes(p, mods, best, id)
    ensures forall x :: x in mods ==> AtMost(ScoreAt(p, mods, x), ScoreAt(p, mods, id))
  {
    hide Precedes, ScoreAt, AtMost, Positive;
    PrecedesIsAtMost(p, mods, best, id);
    forall x | x in mods
      ensures AtMost(ScoreAt(p, mods, x), ScoreAt(p, mods, id))
    {
      if x != best {
        PrecedesIsAtMost(p, mods, best, x);
        ScoresPositive(p, mods, x);
        ScoresPositive(p, mods, best);
        ScoresPositive(p, mods, id);
        AtMostTrans(ScoreAt(p, mods, x), ScoreAt(p, mods, best), ScoreAt(p, mods, id));
      }
    }
  }

  lemma SizesPositive(p: Pool, done: set<Id>, mods: map<Id, ModEntry>, failed: set<Id>)
    requires PoolOk(p) && ModsOk(p, done, mods, failed)
    ensures Positive(p, mods)
  {
    hide Total;
    forall id | id in p.txs
      ensures p.txs[id].size > 0 && From(p, mods, id).size > 0
    {
      assert TxOk(p, id);
      var all := if id in mods then Remaining(p, id, done) else Package(p, id);
      assert id in all;
      OwnSize(p, id, all);
    }
  }

  lemma OwnSize(p: Pool, id: Id, all: set<Id>)
    requires id in p.txs && id in all
    ensures Total(Sizes(p), all) >= p.txs[id].size
  {
    hide Total;
    TotalWithout(Sizes(p), all, id);
    TotalNonNegative(Sizes(p), all - {id});
  }

  // ---------- the rounds of the selection ----------

  /** One round: what was tried, and the state in which it was. */
  datatype Round = Round(id: Id, done: set<Id>, mods: map<Id, ModEntry>, failed: set<Id>, weight: int, sigOps: int)

  /**
  The rounds lead from one block to another: each tries the best that is left, and adds what is left of its package
  or nothing.
   */
  ghost predicate RoundsOk(p: Pool, includable: Id -> bool, maxWeight: int, order: seq<Id>, rounds: seq<Round>,
                           start: set<Id>, end: set<Id>)
    requires p.anc.Keys == p.txs.Keys
  {
    if rounds == [] then start == end else
      var r := rounds[|rounds| - 1];
      && RoundsOk(p, includable, maxWeight, order, rounds[..|rounds| - 1], start, r.done)
      && BestLeft(p, includable, r.weight, r.sigOps, maxWeight, order, r.done, r.mods, r.failed, r.id)
      && (end == r.done || end == r.done + Remaining(p, r.id, r.done))
  }

  lemma NoRounds(p: Pool, includable: Id -> bool, maxWeight: int, order: seq<Id>, start: set<Id>)
    requires p.anc.Keys == p.txs.Keys
    ensures RoundsOk(p, includable, maxWeight, order, [], start, start)
  {
  }

  lemma OrderFacts(p: Pool, order: seq<Id>)
    requires ByScore(p, order)
    ensures forall k :: 0 <= k < |order| ==> order[k] in p.txs
  {
  }

  lemma RoundsNext(p: Pool, includable: Id -> bool, maxWeight: int, order: seq<Id>, rounds: seq<Round>,
                   start: set<Id>, r: Round, end: set<Id>)
    requires p.anc.Keys == p.txs.Keys && RoundsOk(p, includable, maxWeight, order, rounds, start, r.done)
    requires BestLeft(p, includable, r.weight, r.sigOps, maxWeight, order, r.done, r.mods, r.failed, r.id)
    requires end == r.done || end == r.done + Remaining(p, r.id, r.done)
    ensures RoundsOk(p, includable, maxWeight, order, rounds + [r], start, end)
  {
    hide BestLeft;
    assert (rounds + [r])[..|rounds|] == rounds;
  }

  // ---------- a higher fee rate with a lower score ----------

  // Transaction 0 pays nothing, its children 1 and 2 pay for it, and 3 below both is small and pays nothing itself.
  const FAMILY := Pool(
    map[0 := Tx(100, 400, 0, 0, 0, 100, 0, 0, 1),
        1 := Tx(100, 400, 0, 190, 190, 200, 190, 0, 2),
        2 := Tx(100, 400, 0, 190, 190, 200, 190, 0, 2),
        3 := Tx(10, 40, 0, 0, 0, 310, 380, 0, 4)],
    map[0 := {}, 1 := {0}, 2 := {0}, 3 := {0, 1, 2}])

  lemma FamilyTotal(f: Id -> int)
    ensures Total(f, {0}) == f(0) && Total(f, {0, 1}) == f(0) + f(1) && Total(f, {0, 2}) == f(0) + f(2)
    ensures Total(f, {0, 1, 2, 3}) == f(0) + f(1) + f(2) + f(3)
  {
    var none: set<Id> := {};
    assert Total(f, none) == 0;
    TotalWith(f, none, 0);
    assert none + {0} == {0};
    TotalWith(f, {0}, 1);
    TotalWith(f, {0}, 2);
    assert {0} + {1} == {0, 1} && {0} + {2} == {0, 2};
    TotalWith(f, {0, 1}, 2);
    TotalWith(f, {0, 1} + {2}, 3);
    assert {0, 1} + {2} + {3} == {0, 1, 2, 3};
  }

  lemma FamilyParents()
    ensures TxOk(FAMILY, 0) && TxOk(FAMILY, 1)
  {
    hide Total;
    FamilyTotal(Sizes(FAMILY));
    FamilyTotal(SigOps(FAMILY));
    FamilyTotal(ModFees(FAMILY));
    assert Package(FAMILY, 0) == {0} && Package(FAMILY, 1) == {0, 1};
  }

  lemma FamilyChildren()
    ensures TxOk(FAMILY, 2) && TxOk(FAMILY, 3)
  {
    hide Total, Package;
    FamilyTotal(Sizes(FAMILY));
    FamilyTotal(SigOps(FAMILY));
    FamilyTotal(ModFees(FAMILY));
    FamilyPackages();
  }

  lemma FamilyPackages()
    ensures Package(FAMILY, 2) == {0, 2} && Package(FAMILY, 3) == {0, 1, 2, 3}
    ensures |FAMILY.anc[2]| == 1 && |FAMILY.anc[3]| == 3
  {
  }

  lemma FamilyOk()
    ensures PoolOk(FAMILY)
  {
    hide TxOk;
    FamilyParents();
    FamilyChildren();
  }

  lemma FamilyOrder()
    ensures ByScore(FAMILY, [1, 2, 0, 3])
  {
    hide Full;
    var none: map<Id, ModEntry> := map[];
    FamilyFigures();
    assert ScoreAt(FAMILY, none, 0) == Rate(0, 100) && ScoreAt(FAMILY, none, 3) == Rate(0, 10);
    assert ScoreAt(FAMILY, none, 1) == Rate(190, 200) == ScoreAt(FAMILY, none, 2);
  }

  lemma FamilyFigures()
    ensures Full(FAMILY.txs[0]) == ModEntry(100, 0, 0) && Full(FAMILY.txs[3]) == ModEntry(310, 380, 0)
    ensures Full(FAMILY.txs[1]) == ModEntry(200, 190, 0) == Full(FAMILY.txs[2])
  {
  }

  /**
  At a minimum rate of one the selection tries 1 first and ends there, because 190 is less than 200; the package of 3
  would pay 380 for 310.
   */
  lemma RateCanBeHigher()
    ensures PoolOk(FAMILY) && ByScore(FAMILY, [1, 2, 0, 3])
    ensures var first, last := Full(FAMILY.txs[1]), Full(FAMILY.txs[3]);
            first.fees < first.size && last.fees > last.size && !AtMost(PackageRate(last), PackageRate(first))
  {
    hide PoolOk, ByScore;
    FamilyOk();
    FamilyOrder();
    FamilyFigures();
  }
}
