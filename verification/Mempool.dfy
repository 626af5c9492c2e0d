/** The mempool as the block assembler sees it: a finite acyclic graph of transactions with cached totals. */
module Mempool {
  import opened Totals
  import Sets

  type Id = nat

  /** A transaction with its own figures and the cached figures of its package (itself and its ancestors). */
  datatype Tx = Tx(
    size: nat, weight: nat, sigOps: nat, fee: int, modFee: int,
    packageSize: int, packageFees: int, packageSigOps: int, packageCount: int)

  /** `anc` gives the ancestors of a transaction, not counting itself. */
  datatype Pool = Pool(txs: map<Id, Tx>, anc: map<Id, set<Id>>)

  const WITNESS_SCALE_FACTOR := 4

  function Sizes(p: Pool): Id -> int {
    x => if x in p.txs then p.txs[x].size else 0
  }

  function Weights(p: Pool): Id -> int {
    x => if x in p.txs then p.txs[x].weight else 0
  }

  function SigOps(p: Pool): Id -> int {
    x => if x in p.txs then p.txs[x].sigOps else 0
  }

  function Fees(p: Pool): Id -> int {
    x => if x in p.txs then p.txs[x].fee else 0
  }

  function ModFees(p: Pool): Id -> int {
    x => if x in p.txs then p.txs[x].modFee else 0
  }

  function Package(p: Pool, id: Id): set<Id>
    requires id in p.anc
  {
    p.anc[id] + {id}
  }

  /** Ancestor sets are closed and acyclic, and the cached figures are exact. */
  ghost predicate PoolOk(p: Pool) {
    && p.anc.Keys == p.txs.Keys
    && (forall id :: id in p.anc ==> p.anc[id] <= p.txs.Keys && id !in p.anc[id])
    && (forall id, a {:trigger Inherited(p, a, id)} :: id in p.anc && a in p.anc[id] ==> Inherited(p, a, id))
    && (forall id :: id in p.txs ==> TxOk(p, id))
  }

  ghost predicate Inherited(p: Pool, a: Id, id: Id)
    requires id in p.anc
  {
    a in p.anc && p.anc[a] <= p.anc[id]
  }

  ghost predicate TxOk(p: Pool, id: Id)
    requires id in p.txs && p.anc.Keys == p.txs.Keys
  {
    var t := p.txs[id];
    && t.size > 0 && t.weight <= WITNESS_SCALE_FACTOR * t.size
    && t.packageSize == Total(Sizes(p), Package(p, id))
    && t.packageSigOps == Total(SigOps(p), Package(p, id))
    && t.packageFees == Total(ModFees(p), Package(p, id))
    && t.packageCount == |p.anc[id]| + 1
  }

  /** No transaction has been prioritised: modified fees are the fees paid. */
  ghost predicate NoDeltas(p: Pool) {
    forall id :: id in p.txs ==> p.txs[id].fee == p.txs[id].modFee
  }

  lemma NoDeltasTotal(p: Pool, s: set<Id>)
    requires NoDeltas(p)
    ensures Total(Fees(p), s) == Total(ModFees(p), s)
  {
    TotalAtMost(Fees(p), ModFees(p), 1, s);
    TotalAtMost(ModFees(p), Fees(p), 1, s);
  }

  /** A set of transactions that contains the ancestors of its members. */
  ghost predicate Closed(p: Pool, s: set<Id>) {
    s <= p.anc.Keys && forall id :: id in s ==> p.anc[id] <= s
  }

  /** What is left of the package of `id` when the transactions in `done` are already in the block. */
  function Remaining(p: Pool, id: Id, done: set<Id>): set<Id>
    requires id in p.anc
  {
    Package(p, id) - done
  }

  lemma RemainingCloses(p: Pool, id: Id, done: set<Id>)
    requires PoolOk(p) && id in p.anc && Closed(p, done)
    ensures Closed(p, done + Remaining(p, id, done))
  {
    var all := done + Remaining(p, id, done);
    forall x | x in all
      ensures x in p.anc && p.anc[x] <= all
    {
      if x !in done {
        assert x == id || Inherited(p, x, id);
      }
    }
  }

  /** Adding `more` to the block takes the ancestors of `id` among them out of what is left. */
  lemma RemainingTotal(p: Pool, f: Id -> int, id: Id, done: set<Id>, more: set<Id>)
    requires id in p.anc && more !! done && id !in more
    ensures Total(f, Remaining(p, id, done)) == Total(f, Remaining(p, id, done + more)) + Total(f, p.anc[id] * more)
  {
    var left, gone := Remaining(p, id, done + more), p.anc[id] * more;
    assert Remaining(p, id, done) == left + gone;
    TotalUnion(f, left, gone);
  }

  lemma NothingDone(p: Pool, id: Id, done: set<Id>)
    requires id in p.anc && p.anc[id] * done == {} && id !in done
    ensures Remaining(p, id, done) == Package(p, id)
  {
    assert forall x :: x in p.anc[id] && x in done ==> x in p.anc[id] * done;
  }

  lemma CountIs(p: Pool, id: Id)
    requires PoolOk(p) && id in p.anc
    ensures id in p.txs && p.txs[id].packageCount == |p.anc[id]| + 1
  {
    hide Total;
    assert TxOk(p, id);
  }

  lemma AncestorsAreFewer(p: Pool, a: Id, id: Id)
    requires PoolOk(p) && id in p.anc && a in p.anc[id]
    ensures a in p.anc && |p.anc[a]| < |p.anc[id]|
  {
    hide TxOk;
    assert Inherited(p, a, id);
    assert p.anc[a] + {a} <= p.anc[id];
    Sets.CardinalitySubset(p.anc[a] + {a}, p.anc[id]);
  }

  /** A transaction has more ancestors than each of its ancestors. */
  lemma CountsGrow(p: Pool, a: Id, id: Id)
    requires PoolOk(p) && id in p.anc && a in p.anc[id]
    ensures a in p.txs && id in p.txs && p.txs[a].packageCount < p.txs[id].packageCount
  {
    hide PoolOk;
    AncestorsAreFewer(p, a, id);
    CountIs(p, a);
    CountIs(p, id);
  }
}
