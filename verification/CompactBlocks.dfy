/** Compact blocks: short ids and prefilled transactions, and what a receiver makes of them. */
module CompactBlocks {
  import opened Wrappers
  import Sets

  /** A transaction, told apart by its witness hash. */
  type Tx = nat

  datatype Prefilled = Prefilled(index: nat, tx: Tx)

  /** The message: short ids, and prefilled transactions with the gap to the one before. */
  datatype Message = Message(headerNull: bool, shortIds: seq<nat>, prefilled: seq<Prefilled>)

  datatype Status = Ok | Invalid | Failed | CheckBlockFailed

  const MAX_INDEX := 65535
  const MAX_BUCKET_SIZE := 12
  const MAX_TRANSACTIONS := 64_000_000 / 40

  function TxCount(m: Message): nat {
    |m.shortIds| + |m.prefilled|
  }

  // ---------- index coding ----------

  /** The position of the i-th prefilled transaction. */
  function Position(p: seq<Prefilled>, i: nat): (r: nat)
    requires i < |p|
  {
    p[i].index + if i == 0 then 0 else Position(p, i - 1) + 1
  }

  lemma {:induction false} PositionsAscend(p: seq<Prefilled>, i: nat, j: nat)
    requires i < j < |p|
    ensures Position(p, i) < Position(p, j)
  {
    if i < j - 1 {
      PositionsAscend(p, i, j - 1);
    }
  }

  /**
  A prefilled list that is acceptable: real transactions, positions in range, and none beyond the short ids so far.
   */
  ghost predicate GoodPrefilled(m: Message, isNull: Tx -> bool, upTo: nat)
    requires upTo <= |m.prefilled|
  {
    forall i :: 0 <= i < upTo ==>
        !isNull(m.prefilled[i].tx) && Position(m.prefilled, i) <= MAX_INDEX
        && Position(m.prefilled, i) <= |m.shortIds| + i
  }

  ghost predicate Acceptable(m: Message, isNull: Tx -> bool) {
    && !m.headerNull && 0 < TxCount(m) <= MAX_TRANSACTIONS && GoodPrefilled(m, isNull, |m.prefilled|)
  }

  // ---------- slots ----------

  /** The slots when the first `k` prefilled transactions are in place. */
  ghost predicate PrefilledSlots(m: Message, slots: seq<Option<Tx>>, k: nat)
    requires k <= |m.prefilled|
  {
    && |slots| == TxCount(m)
    && (forall i :: 0 <= i < k ==>
          Position(m.prefilled, i) < |slots| && slots[Position(m.prefilled, i)] == Some(m.prefilled[i].tx))
    && (forall p :: 0 <= p < |slots| && slots[p].Some? ==> exists i :: 0 <= i < k && p == Position(m.prefilled, i))
  }

  /** The positions of empty slots in ascending order. */
  function Empty(slots: seq<Option<Tx>>): (r: seq<nat>)
    ensures forall i :: 0 <= i < |r| ==> r[i] < |slots| && slots[r[i]].None?
    ensures forall i, j :: 0 <= i < j < |r| ==> r[i] < r[j]
  {
    if slots == [] then [] else
      var rest := Empty(slots[..|slots| - 1]);
      if slots[|slots| - 1].None? then rest + [|slots| - 1] else rest
  }

  lemma {:induction false} EmptyFinds(slots: seq<Option<Tx>>, p: nat)
    requires p < |slots| && slots[p].None?
    ensures p in Empty(slots)
  {
    var n := |slots| - 1;
    if p < n {
      EmptyFinds(slots[..n], p);
    }
  }

  /** Filling an empty slot takes away one empty position. */
  lemma {:induction false} FillOne(slots: seq<Option<Tx>>, p: nat, t: Tx)
    requires p < |slots| && slots[p].None?
    ensures |Empty(slots[p := Some(t)])| == |Empty(slots)| - 1
  {
    var n := |slots| - 1;
    var next := slots[p := Some(t)];
    if p < n {
      FillOne(slots[..n], p, t);
      assert next[..n] == slots[..n][p := Some(t)];
    } else {
      assert next[..n] == slots[..n];
    }
  }

  function NoSlots(n: nat): seq<Option<Tx>> {
    seq(n, _ => None)
  }

  lemma {:induction false} AllEmpty(n: nat)
    ensures |Empty(NoSlots(n))| == n
  {
    if n > 0 {
      AllEmpty(n - 1);
      assert NoSlots(n)[..n - 1] == NoSlots(n - 1);
    }
  }

  /** Puts the prefilled transactions into their slots; exactly as many slots stay empty as there are short ids. */
  method PlacePrefilled(m: Message, isNull: Tx -> bool) returns (ok: bool, slots: seq<Option<Tx>>)
    ensures ok <==> GoodPrefilled(m, isNull, |m.prefilled|)
    ensures ok ==> PrefilledSlots(m, slots, |m.prefilled|) && |Empty(slots)| == |m.shortIds|
  {
    hide Empty, PrefilledSlots;
    slots := NoSlots(TxCount(m));
    AllEmpty(TxCount(m));
    assert PrefilledSlots(m, slots, 0) by {
      NonePlaced(m);
    }
    var last := -1;
    for i := 0 to |m.prefilled|
      invariant last == if i == 0 then -1 else Position(m.prefilled, i - 1)
      invariant GoodPrefilled(m, isNull, i) && PrefilledSlots(m, slots, i) && |Empty(slots)| == TxCount(m) - i
    {
      if isNull(m.prefilled[i].tx) {
        return false, slots;
      }
      last := last + m.prefilled[i].index + 1;
      assert last == Position(m.prefilled, i);
      if last > MAX_INDEX {
        return false, slots;
      }
      if last > |m.shortIds| + i {
        return false, slots;
      }
      PlaceNext(m, slots, i);
      slots := slots[last := Some(m.prefilled[i].tx)];
    }
    ok := true;
  }

  lemma NonePlaced(m: Message)
    ensures PrefilledSlots(m, NoSlots(TxCount(m)), 0)
  {
  }

  lemma PlaceNext(m: Message, slots: seq<Option<Tx>>, i: nat)
    requires i < |m.prefilled| && PrefilledSlots(m, slots, i) && Position(m.prefilled, i) < TxCount(m)
    ensures |slots| == TxCount(m)
    ensures var p := Position(m.prefilled, i);
            var next := slots[p := Some(m.prefilled[i].tx)];
            slots[p].None? && PrefilledSlots(m, next, i + 1) && |Empty(next)| == |Empty(slots)| - 1
  {
    hide Empty, Position;
    var p := Position(m.prefilled, i);
    forall j | 0 <= j < i
      ensures Position(m.prefilled, j) != p
    {
      PositionsAscend(m.prefilled, j, i);
    }
    FillOne(slots, p, m.prefilled[i].tx);
    var next := slots[p := Some(m.prefilled[i].tx)];
    forall q | 0 <= q < |next| && next[q].Some?
      ensures exists j :: 0 <= j < i + 1 && q == Position(m.prefilled, j)
    {
      if q != p {
        var j :| 0 <= j < i && q == Position(m.prefilled, j);
        assert 0 <= j < i + 1;
      }
    }
  }

  // ---------- short ids ----------

  ghost predicate Distinct(s: seq<nat>) {
    forall i, j :: 0 <= i < j < |s| ==> s[i] != s[j]
  }

  /** The first `k` short ids as a set. */
  function IdSet(s: seq<nat>, k: nat): (r: set<nat>)
    requires k <= |s|
    ensures |r| <= k && forall j :: 0 <= j < k ==> s[j] in r
  {
    if k == 0 then {} else IdSet(s, k - 1) + {s[k - 1]}
  }

  /** The first `k` short ids are mapped to the first `k` empty positions. */
  ghost predicate Assigned(shortIds: seq<nat>, empty: seq<nat>, ids: map<nat, nat>, k: nat)
    requires k <= |shortIds| == |empty|
  {
    forall j :: 0 <= j < k ==> shortIds[j] in ids && ids[shortIds[j]] == empty[j]
  }

  /** They are, unless two of them are equal; then the map is too small. */
  ghost predicate Mapped(shortIds: seq<nat>, empty: seq<nat>, ids: map<nat, nat>, k: nat)
    requires k <= |shortIds| == |empty|
  {
    ids.Keys == IdSet(shortIds, k) && (|ids| == k ==> Assigned(shortIds, empty, ids, k))
  }

  lemma MapNext(shortIds: seq<nat>, empty: seq<nat>, ids: map<nat, nat>, k: nat)
    requires k < |shortIds| == |empty| && Mapped(shortIds, empty, ids, k)
    ensures Mapped(shortIds, empty, ids[shortIds[k] := empty[k]], k + 1)
  {
    var next := ids[shortIds[k] := empty[k]];
    assert next.Keys == ids.Keys + {shortIds[k]};
    if shortIds[k] in ids {
      assert next.Keys == ids.Keys;
    } else {
      assert |next.Keys| == |ids.Keys| + 1;
    }
  }

  lemma MapEnd(shortIds: seq<nat>, empty: seq<nat>, ids: map<nat, nat>)
    requires |shortIds| == |empty| == |ids| && Mapped(shortIds, empty, ids, |shortIds|) && Distinct(empty)
    ensures Distinct(shortIds) && Assigned(shortIds, empty, ids, |shortIds|)
  {
  }

  /** The ids that the hash table keeps in the bucket of `id`. */
  function Neighbours(bucket: nat -> nat, ids: set<nat>, id: nat): set<nat> {
    set x | x in ids && bucket(x) == bucket(id)
  }

  /** No bucket is overfull among the first `k` short ids. */
  ghost predicate Even(bucket: nat -> nat, s: seq<nat>, k: nat)
    requires k <= |s|
  {
    forall i :: 0 <= i < k ==> |Neighbours(bucket, IdSet(s, k), s[i])| <= MAX_BUCKET_SIZE
  }

  lemma EvenNext(bucket: nat -> nat, s: seq<nat>, k: nat)
    requires k < |s| && Even(bucket, s, k)
    ensures Even(bucket, s, k + 1) <==> |Neighbours(bucket, IdSet(s, k + 1), s[k])| <= MAX_BUCKET_SIZE
  {
    var before, after := IdSet(s, k), IdSet(s, k + 1);
    assert after == before + {s[k]};
    forall i | 0 <= i < k
      ensures Neighbours(bucket, after, s[i]) == if bucket(s[i]) == bucket(s[k]) then Neighbours(bucket, after, s[k])
                else Neighbours(bucket, before, s[i])
    {
    }
  }

  /** A bucket that is overfull stays so. */
  lemma {:induction false} UnevenStays(bucket: nat -> nat, s: seq<nat>, k: nat, n: nat)
    requires k <= n <= |s| && !Even(bucket, s, k)
    ensures !Even(bucket, s, n)
    decreases n - k
  {
    if k < n {
      var i :| 0 <= i < k && |Neighbours(bucket, IdSet(s, k), s[i])| > MAX_BUCKET_SIZE;
      Sets.CardinalitySubset(Neighbours(bucket, IdSet(s, k), s[i]), Neighbours(bucket, IdSet(s, k + 1), s[i]));
      UnevenStays(bucket, s, k + 1, n);
    }
  }

  lemma {:induction false} DistinctCount(s: seq<nat>, k: nat)
    requires k <= |s| && Distinct(s)
    ensures |IdSet(s, k)| == k
  {
    if k > 0 {
      DistinctCount(s, k - 1);
      NotYet(s, k - 1, s[k - 1]);
    }
  }

  lemma {:induction false} NotYet(s: seq<nat>, k: nat, x: nat)
    requires k <= |s| && forall i :: 0 <= i < k ==> s[i] != x
    ensures x !in IdSet(s, k)
  {
    if k > 0 {
      NotYet(s, k - 1, x);
    }
  }

  /** Maps the i-th short id to the i-th empty position; fails exactly on equal ids or an overfull bucket. */
  method MapShortIds(m: Message, slots: seq<Option<Tx>>, bucket: nat -> nat) returns (ok: bool, ids: map<nat, nat>)
    requires |Empty(slots)| == |m.shortIds| && |slots| <= MAX_INDEX + 1
    ensures ok <==> Distinct(m.shortIds) && Even(bucket, m.shortIds, |m.shortIds|)
    ensures ok ==> ids.Keys == IdSet(m.shortIds, |m.shortIds|) && |ids| == |m.shortIds|
    ensures ok ==> Assigned(m.shortIds, Empty(slots), ids, |m.shortIds|)
  {
    hide Empty, Assigned, IdSet, Mapped, Even, Distinct, Neighbours;
    ids := map[];
    ok := false;
    var offset: nat := 0;
    ghost var empty := Empty(slots);
    MapStart(m.shortIds, empty, bucket);
    for i := 0 to |m.shortIds|
      invariant Mapped(m.shortIds, empty, ids, i) && Even(bucket, m.shortIds, i)
      invariant forall j :: 0 <= j < i ==> empty[j] < i + offset
      invariant i < |empty| ==> i + offset <= empty[i]
    {
      while slots[i + offset].Some?
        invariant i + offset <= empty[i]
        decreases |slots| - offset
      {
        offset := offset + 1;
      }
      NextEmpty(slots, i, i + offset);
      MapNext(m.shortIds, empty, ids, i);
      var position := (i + offset) % (MAX_INDEX + 1);
      assert position == empty[i];
      ids := ids[m.shortIds[i] := position];
      MapKeys(m.shortIds, empty, ids, i + 1);
      EvenNext(bucket, m.shortIds, i);
      if |Neighbours(bucket, ids.Keys, m.shortIds[i])| > MAX_BUCKET_SIZE {
        UnevenStays(bucket, m.shortIds, i + 1, |m.shortIds|);
        return;
      }
    }
    MapKeys(m.shortIds, empty, ids, |m.shortIds|);
    if |ids| != |m.shortIds| {
      MapTooSmall(m.shortIds);
      return;
    }
    EmptyAscends(slots);
    MapEnd(m.shortIds, empty, ids);
    ok := true;
  }

  lemma EmptyAscends(slots: seq<Option<Tx>>)
    ensures Distinct(Empty(slots))
  {
  }

  lemma MapTooSmall(shortIds: seq<nat>)
    ensures |IdSet(shortIds, |shortIds|)| != |shortIds| ==> !Distinct(shortIds)
  {
    if Distinct(shortIds) {
      DistinctCount(shortIds, |shortIds|);
    }
  }

  lemma MapStart(shortIds: seq<nat>, empty: seq<nat>, bucket: nat -> nat)
    requires |shortIds| == |empty|
    ensures Mapped(shortIds, empty, map[], 0) && Even(bucket, shortIds, 0)
  {
  }

  lemma MapKeys(shortIds: seq<nat>, empty: seq<nat>, ids: map<nat, nat>, k: nat)
    requires k <= |shortIds| == |empty| && Mapped(shortIds, empty, ids, k)
    ensures ids.Keys == IdSet(shortIds, k) && |ids| == |IdSet(shortIds, k)|
  {
  }

  lemma NextEmpty(slots: seq<Option<Tx>>, i: nat, p: nat)
    requires i < |Empty(slots)| && p <= Empty(slots)[i] && slots[p].None? && forall j :: 0 <= j < i ==>
              Empty(slots)[j] < p
    ensures p == Empty(slots)[i] && (i + 1 < |Empty(slots)| ==> p + 1 <= Empty(slots)[i + 1])
  {
    EmptyFinds(slots, p);
    var e := Empty(slots);
    var k :| 0 <= k < |e| && e[k] == p;
    assert k >= i;
  }

  // ---------- looking for candidates ----------

  /** The candidates: first those of the mempool, then the extra ones. */
  datatype Candidates = Candidates(txs: seq<Tx>, poolSize: nat, sid: Tx -> nat)

  ghost predicate GoodCandidates(c: Candidates) {
    c.poolSize <= |c.txs|
  }

  /** The candidate number `a` is among the first `p` of the mempool, or an extra one before number `k`. */
  predicate Seen(c: Candidates, p: nat, k: nat, a: nat) {
    (a < p && a < c.poolSize) || c.poolSize <= a < k
  }

  /** The numbers of the mempool candidates among the first `p` that stand for a short id. */
  ghost function Pooled(c: Candidates, id: nat, p: nat): set<nat> {
    set a: nat | a < |c.txs| && a < p && a < c.poolSize && c.sid(c.txs[a]) == id
  }

  /** The transactions seen that stand for a short id. */
  ghost function Found(c: Candidates, id: nat, p: nat, k: nat): set<Tx> {
    set a: nat | a < |c.txs| && Seen(c, p, k, a) && c.sid(c.txs[a]) == id :: c.txs[a]
  }

  /** One transaction stands for the short id, and the mempool does not list it twice. */
  ghost predicate Holds(c: Candidates, id: nat, p: nat, k: nat) {
    |Pooled(c, id, p)| <= 1 && |Found(c, id, p, k)| == 1
  }

  /** What a slot holds for its short id: the one transaction found for it, and nothing if there is none or several. */
  ghost predicate SlotIs(c: Candidates, id: nat, slot: Option<Tx>, have: bool, p: nat, k: nat) {
    && (have <==> Found(c, id, p, k) != {})
    && (slot.Some? <==> Holds(c, id, p, k))
    && (slot.Some? ==> slot.value in Found(c, id, p, k))
  }

  lemma SlotPoolOther(c: Candidates, id: nat, slot: Option<Tx>, have: bool, p: nat)
    requires p < c.poolSize <= |c.txs| && SlotIs(c, id, slot, have, p, c.poolSize) && c.sid(c.txs[p]) != id
    ensures SlotIs(c, id, slot, have, p + 1, c.poolSize)
  {
    assert Pooled(c, id, p + 1) == Pooled(c, id, p);
    assert Found(c, id, p + 1, c.poolSize) == Found(c, id, p, c.poolSize);
  }

  lemma SlotExtraOther(c: Candidates, id: nat, slot: Option<Tx>, have: bool, p: nat, k: nat)
    requires c.poolSize <= k < |c.txs| && SlotIs(c, id, slot, have, p, k) && c.sid(c.txs[k]) != id
    ensures SlotIs(c, id, slot, have, p, k + 1)
  {
    assert Found(c, id, p, k + 1) == Found(c, id, p, k);
  }

  /** The slot after a candidate with its short id: filled the first time, and given up when another one turns up. */
  function Offer(c: Candidates, slot: Option<Tx>, have: bool, k: nat): Option<Tx>
    requires k < |c.txs|
  {
    if !have then Some(c.txs[k])
    else if slot.Some? && (k < c.poolSize || slot.value != c.txs[k]) then None
    else slot
  }

  lemma PooledIsFound(c: Candidates, id: nat, p: nat, k: nat)
    requires c.poolSize <= |c.txs|
    ensures Pooled(c, id, p) != {} ==> Found(c, id, p, k) != {}
  {
    if Pooled(c, id, p) != {} {
      var a := Sets.Pick(Pooled(c, id, p));
      assert c.txs[a] in Found(c, id, p, k);
    }
  }

  lemma PoolGrows(c: Candidates, id: nat, p: nat)
    requires p < c.poolSize <= |c.txs| && c.sid(c.txs[p]) == id
    ensures Pooled(c, id, p + 1) == Pooled(c, id, p) + {p} && p !in Pooled(c, id, p)
    ensures Found(c, id, p + 1, c.poolSize) == Found(c, id, p, c.poolSize) + {c.txs[p]}
    ensures Found(c, id, p, c.poolSize) == {} <==> Pooled(c, id, p) == {}
  {
    PooledIsFound(c, id, p, c.poolSize);
    forall x | x in Found(c, id, p, c.poolSize)
      ensures Pooled(c, id, p) != {}
    {
      var a: nat :| a < |c.txs| && Seen(c, p, c.poolSize, a) && c.sid(c.txs[a]) == id && c.txs[a] == x;
      assert a in Pooled(c, id, p);
    }
  }

  lemma SlotPoolOffered(c: Candidates, id: nat, slot: Option<Tx>, have: bool, p: nat)
    requires p < c.poolSize <= |c.txs| && SlotIs(c, id, slot, have, p, c.poolSize) && c.sid(c.txs[p]) == id
    ensures SlotIs(c, id, Offer(c, slot, have, p), true, p + 1, c.poolSize)
  {
    hide Pooled, Found;
    PoolGrows(c, id, p);
    Sets.NotEmpty(Pooled(c, id, p));
  }

  lemma SlotExtraOffered(c: Candidates, id: nat, slot: Option<Tx>, have: bool, p: nat, k: nat)
    requires c.poolSize <= k < |c.txs| && SlotIs(c, id, slot, have, p, k) && c.sid(c.txs[k]) == id
    ensures SlotIs(c, id, Offer(c, slot, have, k), true, p, k + 1)
  {
    PooledIsFound(c, id, p, k);
    var found := Found(c, id, p, k);
    assert Found(c, id, p, k + 1) == found + {c.txs[k]};
    if slot.Some? {
      Sets.Singleton(found, slot.value);
    } else if have {
      Sets.CardinalitySubset(found, found + {c.txs[k]});
      Sets.NotEmpty(found);
    }
  }

  /** How many of the given slots are filled. */
  function Filled(slots: seq<Option<Tx>>, positions: seq<nat>): (r: nat)
    requires forall i :: 0 <= i < |positions| ==> positions[i] < |slots|
    ensures r <= |positions|
  {
    if positions == [] then 0 else
      var last := |positions| - 1;
      Filled(slots, positions[..last]) + if slots[positions[last]].Some? then 1 else 0
  }

  lemma {:induction false} FilledUpdate(slots: seq<Option<Tx>>, positions: seq<nat>, i: nat, v: Option<Tx>)
    requires (forall j :: 0 <= j < |positions| ==> positions[j] < |slots|) && Distinct(positions) && i < |positions|
    ensures Filled(slots[positions[i] := v], positions) + (if slots[positions[i]].Some? then 1 else 0) ==
            Filled(slots, positions) + if v.Some? then 1 else 0
    decreases |positions|
  {
    var last := |positions| - 1;
    if i < last {
      FilledUpdate(slots, positions[..last], i, v);
    } else {
      FilledElsewhere(slots, positions[..last], positions[i], v);
    }
  }

  lemma {:induction false} FilledElsewhere(slots: seq<Option<Tx>>, positions: seq<nat>, p: nat, v: Option<Tx>)
    requires (forall j :: 0 <= j < |positions| ==> positions[j] < |slots| && positions[j] != p) && p < |slots|
    ensures Filled(slots[p := v], positions) == Filled(slots, positions)
    decreases |positions|
  {
    if positions != [] {
      FilledElsewhere(slots, positions[..|positions| - 1], p, v);
    }
  }

  lemma {:induction false} AllFilled(slots: seq<Option<Tx>>, positions: seq<nat>, i: nat)
    requires (forall j :: 0 <= j < |positions| ==> positions[j] < |slots|) && Filled(slots, positions) == |positions|
    requires i < |positions|
    ensures slots[positions[i]].Some?
    decreases |positions|
  {
    var last := |positions| - 1;
    if i < last {
      AllFilled(slots, positions[..last], i);
    }
  }

  lemma {:induction false} FilledIsAll(slots: seq<Option<Tx>>, positions: seq<nat>)
    requires forall j :: 0 <= j < |positions| ==> positions[j] < |slots| && slots[positions[j]].Some?
    ensures Filled(slots, positions) == |positions|
    decreases |positions|
  {
    if positions != [] {
      FilledIsAll(slots, positions[..|positions| - 1]);
    }
  }

  /**
  The slots when the first `p` candidates of the mempool and the extra ones before number `k` have been dealt with;
  `base` holds the prefilled ones only.
   */
  ghost predicate Scanned(c: Candidates, shortIds: seq<nat>, base: seq<Option<Tx>>, slots: seq<Option<Tx>>,
                          have: seq<bool>, count: int, p: nat, k: nat) {
    && GoodCandidates(c) && p <= c.poolSize <= k <= |c.txs|
    && |slots| == |have| == |base| && |Empty(base)| == |shortIds|
    && (forall q :: 0 <= q < |base| && base[q].Some? ==> slots[q] == base[q])
    && (forall i :: 0 <= i < |shortIds| ==> SlotIs(c, shortIds[i], slots[Empty(base)[i]], have[Empty(base)[i]], p, k))
    && count == Filled(slots, Empty(base))
  }

  lemma ScanStart(c: Candidates, shortIds: seq<nat>, base: seq<Option<Tx>>, have: seq<bool>)
    requires GoodCandidates(c) && |have| == |base| && |Empty(base)| == |shortIds|
    requires forall q :: 0 <= q < |have| ==> !have[q]
    ensures Scanned(c, shortIds, base, base, have, 0, 0, c.poolSize)
  {
    NoneFilled(base, Empty(base));
    forall i | 0 <= i < |shortIds|
      ensures Found(c, shortIds[i], 0, c.poolSize) == {}
    {
    }
  }

  lemma {:induction false} NoneFilled(slots: seq<Option<Tx>>, positions: seq<nat>)
    requires forall i :: 0 <= i < |positions| ==> positions[i] < |slots| && slots[positions[i]].None?
    ensures Filled(slots, positions) == 0
    decreases |positions|
  {
    if positions != [] {
      NoneFilled(slots, positions[..|positions| - 1]);
    }
  }

  /** A mempool candidate whose short id is not wanted. */
  lemma PoolMiss(c: Candidates, shortIds: seq<nat>, base: seq<Option<Tx>>, slots: seq<Option<Tx>>, have: seq<bool>,
                 count: int, p: nat)
    requires Scanned(c, shortIds, base, slots, have, count, p, c.poolSize) && p < c.poolSize
    requires c.sid(c.txs[p]) !in IdSet(shortIds, |shortIds|)
    ensures Scanned(c, shortIds, base, slots, have, count, p + 1, c.poolSize)
  {
    hide Empty, SlotIs, Filled;
    forall i | 0 <= i < |shortIds|
      ensures SlotIs(c, shortIds[i], slots[Empty(base)[i]], have[Empty(base)[i]], p + 1, c.poolSize)
    {
      SlotPoolOther(c, shortIds[i], slots[Empty(base)[i]], have[Empty(base)[i]], p);
    }
  }

  /** An extra candidate whose short id is not wanted. */
  lemma ExtraMiss(c: Candidates, shortIds: seq<nat>, base: seq<Option<Tx>>, slots: seq<Option<Tx>>, have: seq<bool>,
                  count: int, p: nat, k: nat)
    requires Scanned(c, shortIds, base, slots, have, count, p, k) && k < |c.txs|
    requires c.sid(c.txs[k]) !in IdSet(shortIds, |shortIds|)
    ensures Scanned(c, shortIds, base, slots, have, count, p, k + 1)
  {
    hide Empty, SlotIs, Filled;
    forall i | 0 <= i < |shortIds|
      ensures SlotIs(c, shortIds[i], slots[Empty(base)[i]], have[Empty(base)[i]], p, k + 1)
    {
      SlotExtraOther(c, shortIds[i], slots[Empty(base)[i]], have[Empty(base)[i]], p, k);
    }
  }

  /** The change of the count when a slot changes. */
  function Change(before: Option<Tx>, after: Option<Tx>): int {
    (if after.Some? then 1 else 0) - if before.Some? then 1 else 0
  }

  /** A mempool candidate for the i-th short id. */
  lemma PoolHit(c: Candidates, shortIds: seq<nat>, base: seq<Option<Tx>>, slots: seq<Option<Tx>>, have: seq<bool>,
                count: int, p: nat, i: nat)
    requires Scanned(c, shortIds, base, slots, have, count, p, c.poolSize) && p < c.poolSize
    requires Distinct(shortIds) && i < |shortIds| && shortIds[i] == c.sid(c.txs[p])
    ensures var q := Empty(base)[i];
            var slot := Offer(c, slots[q], have[q], p);
            Scanned(c, shortIds, base, slots[q := slot], have[q := true], count + Change(slots[q], slot), p + 1,
                c.poolSize)
  {
    hide SlotIs, Filled;
    var e := Empty(base);
    var q := e[i];
    var slot := Offer(c, slots[q], have[q], p);
    var slots', have' := slots[q := slot], have[q := true];
    SlotPoolOffered(c, shortIds[i], slots[q], have[q], p);
    forall j | 0 <= j < |shortIds|
      ensures SlotIs(c, shortIds[j], slots'[e[j]], have'[e[j]], p + 1, c.poolSize)
    {
      if j != i {
        SlotPoolOther(c, shortIds[j], slots[e[j]], have[e[j]], p);
        assert e[j] != q;
      }
    }
    FilledUpdate(slots, e, i, slot);
  }

  /** An extra candidate for the i-th short id. */
  lemma ExtraHit(c: Candidates, shortIds: seq<nat>, base: seq<Option<Tx>>, slots: seq<Option<Tx>>, have: seq<bool>,
                 count: int, p: nat, k: nat, i: nat)
    requires Scanned(c, shortIds, base, slots, have, count, p, k) && k < |c.txs|
    requires Distinct(shortIds) && i < |shortIds| && shortIds[i] == c.sid(c.txs[k])
    ensures var q := Empty(base)[i];
            var slot := Offer(c, slots[q], have[q], k);
            Scanned(c, shortIds, base, slots[q := slot], have[q := true], count + Change(slots[q], slot), p, k + 1)
  {
    hide SlotIs, Filled;
    var e := Empty(base);
    var q := e[i];
    var slot := Offer(c, slots[q], have[q], k);
    var slots', have' := slots[q := slot], have[q := true];
    SlotExtraOffered(c, shortIds[i], slots[q], have[q], p, k);
    forall j | 0 <= j < |shortIds|
      ensures SlotIs(c, shortIds[j], slots'[e[j]], have'[e[j]], p, k + 1)
    {
      if j != i {
        SlotExtraOther(c, shortIds[j], slots[e[j]], have[e[j]], p, k);
        assert e[j] != q;
      }
    }
    FilledUpdate(slots, e, i, slot);
  }

  // ---------- where the scans end ----------

  /** Every short id has its transaction. */
  ghost predicate Full(c: Candidates, shortIds: seq<nat>, p: nat, k: nat) {
    forall i :: 0 <= i < |shortIds| ==> Holds(c, shortIds[i], p, k)
  }

  /** How many candidates of the mempool are looked at, when `p` have been: all, or until every slot is filled. */
  ghost function PoolEnd(c: Candidates, shortIds: seq<nat>, p: nat): (r: nat)
    requires p <= c.poolSize
    ensures p <= r <= c.poolSize
    ensures r < c.poolSize ==> Full(c, shortIds, r, c.poolSize)
    decreases c.poolSize - p
  {
    if p == c.poolSize || Full(c, shortIds, p + 1, c.poolSize) then if p == c.poolSize then p else p + 1
    else PoolEnd(c, shortIds, p + 1)
  }

  /** The candidate before which the look at the extra ones ends, when those before `k` have been looked at. */
  ghost function ExtraEnd(c: Candidates, shortIds: seq<nat>, p: nat, k: nat): (r: nat)
    requires k <= |c.txs|
    ensures k <= r <= |c.txs|
    ensures r < |c.txs| ==> Full(c, shortIds, p, r)
    decreases |c.txs| - k
  {
    if k == |c.txs| || Full(c, shortIds, p, k + 1) then if k == |c.txs| then k else k + 1
    else ExtraEnd(c, shortIds, p, k + 1)
  }

  /** The count tells when every slot is filled. */
  lemma CountIsFull(c: Candidates, shortIds: seq<nat>, base: seq<Option<Tx>>, slots: seq<Option<Tx>>, have: seq<bool>,
                    count: int, p: nat, k: nat)
    requires Scanned(c, shortIds, base, slots, have, count, p, k)
    ensures count == |shortIds| <==> Full(c, shortIds, p, k)
  {
    hide Empty, Filled, Holds;
    var e := Empty(base);
    if count == |shortIds| {
      forall i | 0 <= i < |shortIds|
        ensures Holds(c, shortIds[i], p, k)
      {
        AllFilled(slots, e, i);
        assert SlotIs(c, shortIds[i], slots[e[i]], have[e[i]], p, k);
      }
    } else if Full(c, shortIds, p, k) {
      forall i | 0 <= i < |e|
        ensures slots[e[i]].Some?
      {
        assert SlotIs(c, shortIds[i], slots[e[i]], have[e[i]], p, k);
        assert Holds(c, shortIds[i], p, k);
      }
      FilledIsAll(slots, e);
    }
  }

  // ---------- the count of extra transactions ----------

  /** No mempool candidate stands for the short id, and exactly one extra transaction does. */
  ghost predicate Gains(c: Candidates, id: nat, p: nat, k: nat) {
    Pooled(c, id, p) == {} && |Found(c, id, p, k)| == 1
  }

  /** Exactly one mempool candidate stands for the short id, and so does an extra transaction that differs. */
  ghost predicate Loses(c: Candidates, id: nat, p: nat, k: nat) {
    |Pooled(c, id, p)| == 1 && |Found(c, id, p, k)| > 1
  }

  ghost function Gained(c: Candidates, shortIds: seq<nat>, n: nat, p: nat, k: nat): set<nat>
    requires n <= |shortIds|
  {
    set id | id in IdSet(shortIds, n) && Gains(c, id, p, k)
  }

  ghost function Lost(c: Candidates, shortIds: seq<nat>, n: nat, p: nat, k: nat): set<nat>
    requires n <= |shortIds|
  {
    set id | id in IdSet(shortIds, n) && Loses(c, id, p, k)
  }

  /** The mempool fills a slot exactly if it lists one candidate for it. */
  lemma PoolHolds(c: Candidates, id: nat, p: nat)
    requires c.poolSize <= |c.txs|
    ensures Holds(c, id, p, c.poolSize) <==> |Pooled(c, id, p)| == 1
  {
    var pooled, found := Pooled(c, id, p), Found(c, id, p, c.poolSize);
    assert found == set a | a in pooled :: c.txs[a];
    if |pooled| == 1 {
      var a := Sets.Pick(pooled);
      Sets.Singleton(pooled, a);
      assert found == {c.txs[a]};
    } else if found != {} {
      var x := Sets.Pick(found);
      assert pooled != {};
    }
  }

  /** A slot is filled by the extra ones or kept, unless it is lost. */
  lemma HoldsLater(c: Candidates, id: nat, p: nat, k: nat)
    requires c.poolSize <= |c.txs|
    ensures Holds(c, id, p, k) <==> Gains(c, id, p, k) || (|Pooled(c, id, p)| == 1 && !Loses(c, id, p, k))
  {
    PooledIsFound(c, id, p, k);
    Sets.NotEmpty(Pooled(c, id, p));
    Sets.NotEmpty(Found(c, id, p, k));
  }

  lemma SetNext(s: seq<nat>, n: nat)
    requires n < |s| && Distinct(s)
    ensures IdSet(s, n + 1) == IdSet(s, n) + {s[n]} && s[n] !in IdSet(s, n)
  {
    NotYet(s, n, s[n]);
  }

  lemma NextGains(c: Candidates, s: seq<nat>, n: nat, p: nat, k: nat)
    requires n < |s| && Distinct(s)
    ensures |Gained(c, s, n + 1, p, k)| == |Gained(c, s, n, p, k)| + if Gains(c, s[n], p, k) then 1 else 0
  {
    hide IdSet, Gains, Distinct;
    SetNext(s, n);
    if Gains(c, s[n], p, k) {
      assert Gained(c, s, n + 1, p, k) == Gained(c, s, n, p, k) + {s[n]};
    } else {
      assert Gained(c, s, n + 1, p, k) == Gained(c, s, n, p, k);
    }
  }

  lemma NextLosses(c: Candidates, s: seq<nat>, n: nat, p: nat, k: nat)
    requires n < |s| && Distinct(s)
    ensures |Lost(c, s, n + 1, p, k)| == |Lost(c, s, n, p, k)| + if Loses(c, s[n], p, k) then 1 else 0
  {
    hide IdSet, Loses, Distinct;
    SetNext(s, n);
    if Loses(c, s[n], p, k) {
      assert Lost(c, s, n + 1, p, k) == Lost(c, s, n, p, k) + {s[n]};
    } else {
      assert Lost(c, s, n + 1, p, k) == Lost(c, s, n, p, k);
    }
  }

  /** Among the first `n` short ids, the filled slots grow by what is gained less what is lost. */
  lemma {:induction false} CountGrows(c: Candidates, shortIds: seq<nat>, base: seq<Option<Tx>>,
      pooled: seq<Option<Tx>>, had: seq<bool>, poolCount: int, slots: seq<Option<Tx>>, have: seq<bool>, count: int,
      n: nat, p: nat, k: nat)
    requires Distinct(shortIds) && n <= |shortIds|
    requires Scanned(c, shortIds, base, pooled, had, poolCount, p, c.poolSize)
    requires Scanned(c, shortIds, base, slots, have, count, p, k)
    ensures Filled(slots, Empty(base)[..n]) - Filled(pooled, Empty(base)[..n]) ==
            |Gained(c, shortIds, n, p, k)| - |Lost(c, shortIds, n, p, k)|
    decreases n
  {
    hide Empty, IdSet, Holds, Gains, Loses, Gained, Lost, Distinct;
    var e := Empty(base);
    if n == 0 {
      NoGains(c, shortIds, p, k);
    } else {
      var i := n - 1;
      CountGrows(c, shortIds, base, pooled, had, poolCount, slots, have, count, i, p, k);
      NextGains(c, shortIds, i, p, k);
      NextLosses(c, shortIds, i, p, k);
      assert e[..n][..i] == e[..i];
      assert SlotIs(c, shortIds[i], slots[e[i]], have[e[i]], p, k);
      assert SlotIs(c, shortIds[i], pooled[e[i]], had[e[i]], p, c.poolSize);
      PoolHolds(c, shortIds[i], p);
      HoldsLater(c, shortIds[i], p, k);
      NotBoth(c, shortIds[i], p, k);
    }
  }

  lemma NoGains(c: Candidates, shortIds: seq<nat>, p: nat, k: nat)
    ensures Gained(c, shortIds, 0, p, k) == {} && Lost(c, shortIds, 0, p, k) == {}
  {
  }

  lemma NotBoth(c: Candidates, id: nat, p: nat, k: nat)
    ensures Gains(c, id, p, k) ==> |Pooled(c, id, p)| == 0
    ensures Loses(c, id, p, k) ==> |Pooled(c, id, p)| == 1
  {
  }

  /** By how much the filled slots grow during the look at the extra transactions. */
  ghost function ExtraGrowth(c: Candidates, shortIds: seq<nat>): int
    requires GoodCandidates(c)
  {
    var p := PoolEnd(c, shortIds, 0);
    var k := ExtraEnd(c, shortIds, p, c.poolSize);
    |Gained(c, shortIds, |shortIds|, p, k)| - |Lost(c, shortIds, |shortIds|, p, k)|
  }

  lemma GrowthIs(c: Candidates, shortIds: seq<nat>, base: seq<Option<Tx>>, pooled: seq<Option<Tx>>, had: seq<bool>,
                 poolCount: int, slots: seq<Option<Tx>>, have: seq<bool>, count: int)
    requires Distinct(shortIds) && GoodCandidates(c)
    requires var p := PoolEnd(c, shortIds, 0);
             var k := ExtraEnd(c, shortIds, p, c.poolSize);
             && Scanned(c, shortIds, base, pooled, had, poolCount, p, c.poolSize)
             && Scanned(c, shortIds, base, slots, have, count, p, k)
    ensures count - poolCount == ExtraGrowth(c, shortIds)
  {
    hide Empty, SlotIs, Gained, Lost, PoolEnd, ExtraEnd;
    var p := PoolEnd(c, shortIds, 0);
    var k := ExtraEnd(c, shortIds, p, c.poolSize);
    CountGrows(c, shortIds, base, pooled, had, poolCount, slots, have, count, |shortIds|, p, k);
    assert Empty(base)[..|shortIds|] == Empty(base);
  }

  /** A wanted short id that an extra transaction shares with a mempool candidate that differs from it. */
  ghost predicate Disputed(c: Candidates, id: nat) {
    exists a, b :: 0 <= a < c.poolSize <= b < |c.txs| && c.sid(c.txs[a]) == id && c.sid(c.txs[b]) == id
        && c.txs[a] != c.txs[b]
  }

  lemma LostIsDisputed(c: Candidates, id: nat, p: nat, k: nat)
    requires GoodCandidates(c) && Loses(c, id, p, k)
    ensures Disputed(c, id)
  {
    var pooled, found := Pooled(c, id, p), Found(c, id, p, k);
    var a := Sets.Pick(pooled);
    Sets.Singleton(pooled, a);
    assert c.txs[a] in found;
    var x := Sets.Another(found, c.txs[a]);
    var b: nat :| b < |c.txs| && Seen(c, p, k, b) && c.sid(c.txs[b]) == id && c.txs[b] == x;
    assert b !in pooled;
  }

  /** Without a disputed short id the count of extra transactions is not negative. */
  lemma UndisputedGrowth(c: Candidates, shortIds: seq<nat>)
    requires GoodCandidates(c) && forall i :: 0 <= i < |shortIds| ==> !Disputed(c, shortIds[i])
    ensures ExtraGrowth(c, shortIds) >= 0
  {
    hide Disputed, Loses, Gained, PoolEnd, ExtraEnd;
    var p := PoolEnd(c, shortIds, 0);
    var k := ExtraEnd(c, shortIds, p, c.poolSize);
    forall id | id in IdSet(shortIds, |shortIds|)
      ensures !Loses(c, id, p, k)
    {
      var i := InIdSet(shortIds, |shortIds|, id);
      if Loses(c, id, p, k) {
        LostIsDisputed(c, id, p, k);
      }
    }
    assert Lost(c, shortIds, |shortIds|, p, k) == {};
  }

  /** If a short id has no candidate, both scans see everything. */
  lemma SeesAll(c: Candidates, shortIds: seq<nat>, i: nat)
    requires GoodCandidates(c) && i < |shortIds| && forall a :: 0 <= a < |c.txs| ==> c.sid(c.txs[a]) != shortIds[i]
    ensures var n, p, k := |shortIds|, c.poolSize, |c.txs|;
            ExtraGrowth(c, shortIds) == |Gained(c, shortIds, n, p, k)| - |Lost(c, shortIds, n, p, k)|
  {
    hide PoolEnd, ExtraEnd, Gained, Lost;
    forall p: nat, k: nat
      ensures !Full(c, shortIds, p, k)
    {
      assert Found(c, shortIds[i], p, k) == {};
      assert !Holds(c, shortIds[i], p, k);
    }
  }

  /** When every slot is filled at the end, none has been lost. */
  lemma FullLosesNone(c: Candidates, shortIds: seq<nat>, p: nat, k: nat)
    requires Full(c, shortIds, p, k)
    ensures Lost(c, shortIds, |shortIds|, p, k) == {}
  {
    hide Pooled, Found;
    forall id | id in IdSet(shortIds, |shortIds|)
      ensures !Loses(c, id, p, k)
    {
      var i := InIdSet(shortIds, |shortIds|, id);
      assert Holds(c, shortIds[i], p, k);
    }
  }

  /** Some extra candidate makes every slot filled, when those before `k` have been looked at. */
  ghost predicate FillsUp(c: Candidates, shortIds: seq<nat>, p: nat, k: nat) {
    exists j: nat :: k < j <= |c.txs| && Full(c, shortIds, p, j)
  }

  lemma {:induction false} EndIsFull(c: Candidates, shortIds: seq<nat>, p: nat, k: nat)
    requires k <= |c.txs|
    ensures var end := ExtraEnd(c, shortIds, p, k);
            if FillsUp(c, shortIds, p, k) then Full(c, shortIds, p, end) else end == |c.txs|
    decreases |c.txs| - k
  {
    hide Full;
    if k < |c.txs| && !Full(c, shortIds, p, k + 1) {
      EndIsFull(c, shortIds, p, k + 1);
      assert FillsUp(c, shortIds, p, k) <==> FillsUp(c, shortIds, p, k + 1);
    }
  }

  /**
  The count of extra transactions ends up below zero, where the source keeps an unsigned number, if and only if the
  slots are not all filled after any extra candidate and more short ids lose their transaction than gain one.
   */
  lemma GrowthIsNegative(c: Candidates, shortIds: seq<nat>)
    requires GoodCandidates(c)
    ensures var n, p, k := |shortIds|, PoolEnd(c, shortIds, 0), |c.txs|;
            ExtraGrowth(c, shortIds) < 0 <==>
            !FillsUp(c, shortIds, p, c.poolSize) && |Lost(c, shortIds, n, p, k)| > |Gained(c, shortIds, n, p, k)|
  {
    hide Lost, Gained, PoolEnd, ExtraEnd, Full, FillsUp;
    var p := PoolEnd(c, shortIds, 0);
    var k := ExtraEnd(c, shortIds, p, c.poolSize);
    EndIsFull(c, shortIds, p, c.poolSize);
    if FillsUp(c, shortIds, p, c.poolSize) {
      FullLosesNone(c, shortIds, p, k);
    }
  }

  // A block of two transactions, of which the second has the short id 7; every candidate has that id, too.
  const DISPUTED := Message(false, [7], [Prefilled(0, 5)])
  const RIVALS := Candidates([1, 2], 1, (_: Tx) => 7)

  /** The mempool holds 1 and the extra transactions 2: the message is taken in and the count falls to -1. */
  lemma ExtraCanFallBelow(isNull: Tx -> bool, bucket: nat -> nat)
    requires !isNull(5)
    ensures Acceptable(DISPUTED, isNull) && Distinct(DISPUTED.shortIds) && Even(bucket, DISPUTED.shortIds, 1)
    ensures GoodCandidates(RIVALS) && ExtraGrowth(RIVALS, DISPUTED.shortIds) == -1
  {
    hide Full, Even;
    var ids := DISPUTED.shortIds;
    assert Position(DISPUTED.prefilled, 0) == 0;
    OneIsEven(bucket, ids);
    assert PoolEnd(RIVALS, ids, 0) == 1;
    assert ExtraEnd(RIVALS, ids, 1, 1) == 2;
    assert Pooled(RIVALS, 7, 1) == {0};
    RivalsFound();
    assert IdSet(ids, 1) == {7};
    assert Lost(RIVALS, ids, 1, 1, 2) == {7} && Gained(RIVALS, ids, 1, 1, 2) == {};
  }

  lemma OneIsEven(bucket: nat -> nat, s: seq<nat>)
    requires |s| == 1
    ensures Even(bucket, s, 1)
  {
    assert IdSet(s, 1) == {s[0]};
    assert Neighbours(bucket, IdSet(s, 1), s[0]) == {s[0]};
  }

  lemma RivalsFound()
    ensures Found(RIVALS, 7, 1, 2) == {1, 2}
  {
    assert RIVALS.txs[0] == 1 && RIVALS.txs[1] == 2;
    assert Seen(RIVALS, 1, 2, 0) && Seen(RIVALS, 1, 2, 1);
  }

  // ---------- filling the block ----------

  /** The block: what is in the slots, and in empty slots the missing transactions in order. */
  function Merged(slots: seq<Option<Tx>>, missing: seq<Tx>): seq<Tx>
    requires |Empty(slots)| <= |missing|
  {
    if slots == [] then [] else
      var n := |slots| - 1;
      Merged(slots[..n], missing) + [if slots[n].Some? then slots[n].value else missing[|Empty(slots[..n])|]]
  }

  lemma {:induction false} EmptyPrefix(slots: seq<Option<Tx>>, n: nat)
    requires n <= |slots|
    ensures Empty(slots[..n]) <= Empty(slots)
    decreases |slots| - n
  {
    if n < |slots| {
      assert slots[..n + 1][..n] == slots[..n];
      EmptyPrefix(slots, n + 1);
    } else {
      assert slots[..n] == slots;
    }
  }

  /** Slots that hold the block's own transactions, and the missing ones in order, give the block. */
  lemma {:induction false} MergedIsBlock(slots: seq<Option<Tx>>, vtx: seq<Tx>, missing: seq<Tx>)
    requires |slots| == |vtx| && forall p :: 0 <= p < |slots| && slots[p].Some? ==> slots[p].value == vtx[p]
    requires |Empty(slots)| <= |missing| && forall j :: 0 <= j < |Empty(slots)| ==> missing[j] == vtx[Empty(slots)[j]]
    ensures Merged(slots, missing) == vtx
    decreases |slots|
  {
    if slots != [] {
      var n := |slots| - 1;
      MergedIsBlock(slots[..n], vtx[..n], missing);
      assert vtx == vtx[..n] + [vtx[n]];
    }
  }

  // ---------- the receiver ----------

  datatype CheckResult = Valid | Mutated | Bad

  class PartialBlock {
    var headerNull: bool
    var slots: seq<Option<Tx>>
    var prefilledCount: nat
    var mempoolCount: int
    var extraCount: int

    constructor ()
      ensures headerNull && slots == [] && prefilledCount == 0 && mempoolCount == 0 && extraCount == 0
    {
      headerNull, slots := true, [];
      prefilledCount, mempoolCount, extraCount := 0, 0, 0;
    }

    /**
    Takes in a message. A message is invalid exactly if it is not acceptable; equal short ids or an overfull bucket of
    the hash table make it fail. Otherwise the slot of a short id holds the one transaction that was found for it, up
    to the candidates where the scans end, and is empty if there was none or more than one. The count is that of the
    slots filled from candidates, and the count of extra ones what the scan of those added to it.
     */
    method InitData(m: Message, c: Candidates, isNull: Tx -> bool, bucket: nat -> nat)
      returns (status: Status, ghost base: seq<Option<Tx>>, ghost have: seq<bool>)
      requires headerNull && slots == [] && mempoolCount == 0 && extraCount == 0
      requires GoodCandidates(c) && TxCount(m) <= MAX_INDEX
      modifies this
      ensures (status == Invalid <==> !Acceptable(m, isNull)) && status != CheckBlockFailed
      ensures status == Ok <==> Acceptable(m, isNull) && Distinct(m.shortIds) && Even(bucket, m.shortIds, |m.shortIds|)
      ensures status == Ok ==> PrefilledSlots(m, base, |m.prefilled|) && !headerNull
      ensures status == Ok ==>
                var p := PoolEnd(c, m.shortIds, 0);
                var k := ExtraEnd(c, m.shortIds, p, c.poolSize);
                Scanned(c, m.shortIds, base, slots, have, mempoolCount, p, k)
      ensures status == Ok ==> extraCount == ExtraGrowth(c, m.shortIds)
    {
      hide Empty, IdSet, Assigned, Scanned, GoodPrefilled, PrefilledSlots, Even, PoolEnd, ExtraEnd, ExtraGrowth;
      base, have := [], [];
      if m.headerNull || (m.shortIds == [] && m.prefilled == []) {
        return Invalid, base, have;
      }
      if |m.shortIds| + |m.prefilled| > MAX_TRANSACTIONS {
        return Invalid, base, have;
      }
      headerNull := false;
      var ok;
      ok, slots := PlacePrefilled(m, isNull);
      if !ok {
        return Invalid, base, have;
      }
      prefilledCount := |m.prefilled|;
      SlotCount(m, slots);
      var ids;
      ok, ids := MapShortIds(m, slots, bucket);
      if !ok {
        return Failed, base, have;
      }
      base := slots;
      var flags := seq(|slots|, _ => false);
      ScanStart(c, m.shortIds, base, flags);
      flags := ScanPool(m, c, ids, base, flags);
      ghost var pooled, had, poolCount := slots, flags, mempoolCount;
      ghost var p := PoolEnd(c, m.shortIds, 0);
      flags := ScanExtra(m, c, ids, base, flags, p);
      GrowthIs(c, m.shortIds, base, pooled, had, poolCount, slots, flags, mempoolCount);
      have := flags;
      status := Ok;
    }

    method ScanPool(m: Message, c: Candidates, ids: map<nat, nat>, ghost base: seq<Option<Tx>>, have: seq<bool>)
      returns (r: seq<bool>)
      requires GoodCandidates(c) && Scanned(c, m.shortIds, base, slots, have, mempoolCount, 0, c.poolSize)
      requires Distinct(m.shortIds) && ids.Keys == IdSet(m.shortIds, |m.shortIds|) && |Empty(base)| == |m.shortIds|
      requires Assigned(m.shortIds, Empty(base), ids, |m.shortIds|) && |ids| == |m.shortIds|
      modifies this`slots, this`mempoolCount
      ensures Scanned(c, m.shortIds, base, slots, r, mempoolCount, PoolEnd(c, m.shortIds, 0), c.poolSize)
    {
      hide Empty, IdSet, Assigned, Scanned, Full;
      r := have;
      for k := 0 to c.poolSize
        invariant Scanned(c, m.shortIds, base, slots, r, mempoolCount, k, c.poolSize)
        invariant PoolEnd(c, m.shortIds, k) == PoolEnd(c, m.shortIds, 0)
      {
        ScanFacts(c, m.shortIds, base, slots, r, mempoolCount, k, c.poolSize);
        var id := c.sid(c.txs[k]);
        if id in ids {
          ghost var i := Wanted(m.shortIds, Empty(base), ids, id);
          PoolHit(c, m.shortIds, base, slots, r, mempoolCount, k, i);
          var q := ids[id];
          if !r[q] {
            NotHad(c, m.shortIds, base, slots, r, mempoolCount, k, c.poolSize, i);
            slots := slots[q := Some(c.txs[k])];
            r := r[q := true];
            mempoolCount := mempoolCount + 1;
          } else if slots[q].Some? {
            r := r[q := true];
            slots := slots[q := None];
            mempoolCount := mempoolCount - 1;
          } else {
            assert r[q := true] == r && slots[q := None] == slots;
          }
        } else {
          PoolMiss(c, m.shortIds, base, slots, r, mempoolCount, k);
        }
        CountIsFull(c, m.shortIds, base, slots, r, mempoolCount, k + 1, c.poolSize);
        if mempoolCount == |ids| {
          break;
        }
      }
    }

    method ScanExtra(m: Message, c: Candidates, ids: map<nat, nat>, ghost base: seq<Option<Tx>>, have: seq<bool>,
                     ghost p: nat)
      returns (r: seq<bool>)
      requires GoodCandidates(c) && Scanned(c, m.shortIds, base, slots, have, mempoolCount, p, c.poolSize)
      requires Distinct(m.shortIds) && ids.Keys == IdSet(m.shortIds, |m.shortIds|) && |Empty(base)| == |m.shortIds|
      requires Assigned(m.shortIds, Empty(base), ids, |m.shortIds|) && |ids| == |m.shortIds|
      modifies this`slots, this`mempoolCount, this`extraCount
      ensures var k := ExtraEnd(c, m.shortIds, p, c.poolSize);
              Scanned(c, m.shortIds, base, slots, r, mempoolCount, p, k)
      ensures extraCount - old(extraCount) == mempoolCount - old(mempoolCount)
    {
      hide Empty, IdSet, Assigned, Scanned, Full;
      r := have;
      for k := c.poolSize to |c.txs|
        invariant Scanned(c, m.shortIds, base, slots, r, mempoolCount, p, k)
        invariant ExtraEnd(c, m.shortIds, p, k) == ExtraEnd(c, m.shortIds, p, c.poolSize)
        invariant extraCount - old(extraCount) == mempoolCount - old(mempoolCount)
      {
        ScanFacts(c, m.shortIds, base, slots, r, mempoolCount, p, k);
        var id := c.sid(c.txs[k]);
        if id in ids {
          ghost var i := Wanted(m.shortIds, Empty(base), ids, id);
          ExtraHit(c, m.shortIds, base, slots, r, mempoolCount, p, k, i);
          var q := ids[id];
          if !r[q] {
            NotHad(c, m.shortIds, base, slots, r, mempoolCount, p, k, i);
            slots := slots[q := Some(c.txs[k])];
            r := r[q := true];
            mempoolCount := mempoolCount + 1;
            extraCount := extraCount + 1;
          } else if slots[q].Some? && slots[q].value != c.txs[k] {
            r := r[q := true];
            slots := slots[q := None];
            mempoolCount := mempoolCount - 1;
            extraCount := extraCount - 1;
          } else {
            assert r[q := true] == r && slots[q := slots[q]] == slots;
          }
        } else {
          ExtraMiss(c, m.shortIds, base, slots, r, mempoolCount, p, k);
        }
        CountIsFull(c, m.shortIds, base, slots, r, mempoolCount, p, k + 1);
        if mempoolCount == |ids| {
          break;
        }
      }
    }

    method IsTxAvailable(index: nat) returns (r: bool)
      requires !headerNull && index < |slots|
      ensures r <==> slots[index].Some?
    {
      r := slots[index] != None;
    }

    /**
    Completes the block with the missing transactions. Too few or too many of them make it invalid; with too few,
    the transactions that have been moved into the block are gone from their slots.
     */
    method FillBlock(missing: seq<Tx>, check: seq<Tx> -> CheckResult) returns (status: Status, block: seq<Tx>)
      requires !headerNull
      modifies this
      ensures |Empty(old(slots))| > |missing| ==> status == Invalid && !headerNull && |slots| == |old(slots)|
      ensures |Empty(old(slots))| > |missing| ==> forall j :: 0 <= j < |slots| ==>
        slots[j] == if j < Empty(old(slots))[|missing|] then None else old(slots)[j]
      ensures |Empty(old(slots))| <= |missing| ==> headerNull && slots == [] && block == Merged(old(slots), missing)
      ensures |Empty(old(slots))| < |missing| ==> status == Invalid
      ensures |Empty(old(slots))| == |missing| ==>
                status == match check(block) case Valid => Ok case Mutated => Failed case Bad => CheckBlockFailed
    {
      hide Empty;
      ghost var before := slots;
      block := [];
      var offset := 0;
      FillStart(slots, missing);
      for i := 0 to |slots|
        invariant !headerNull && |slots| == |before| && Filling(before, missing, i, offset, block)
        invariant forall j :: 0 <= j < i ==> slots[j] == None
        invariant forall j :: i <= j < |slots| ==> slots[j] == before[j]
      {
        FillNext(before, missing, i, offset, block);
        if slots[i].None? {
          if |missing| <= offset {
            return Invalid, block;
          }
          block := block + [missing[offset]];
          offset := offset + 1;
        } else {
          block := block + [slots[i].value];
          slots := slots[i := None];
        }
      }
      FillEnd(before, missing, offset, block);
      headerNull := true;
      slots := [];
      if |missing| != offset {
        return Invalid, block;
      }
      match check(block) {
        case Valid => status := Ok;
        case Mutated => status := Failed;
        case Bad => status := CheckBlockFailed;
      }
    }
  }

  /** The block of the first `i` slots, for which `offset` missing transactions were used. */
  ghost predicate Filling(slots: seq<Option<Tx>>, missing: seq<Tx>, i: nat, offset: nat, block: seq<Tx>) {
    i <= |slots| && offset == |Empty(slots[..i])| <= |missing| && block == Merged(slots[..i], missing)
  }

  lemma FillStart(slots: seq<Option<Tx>>, missing: seq<Tx>)
    ensures Filling(slots, missing, 0, 0, [])
  {
  }

  lemma FillNext(slots: seq<Option<Tx>>, missing: seq<Tx>, i: nat, offset: nat, block: seq<Tx>)
    requires Filling(slots, missing, i, offset, block) && i < |slots|
    ensures slots[i].Some? ==> Filling(slots, missing, i + 1, offset, block + [slots[i].value])
    ensures slots[i].None? && offset < |missing| ==>
              Filling(slots, missing, i + 1, offset + 1, block + [missing[offset]])
    ensures slots[i].None? && offset >= |missing| ==> |Empty(slots)| > |missing| && Empty(slots)[|missing|] == i
  {
    assert slots[..i + 1][..i] == slots[..i];
    EmptyPrefix(slots, i + 1);
  }

  lemma FillEnd(slots: seq<Option<Tx>>, missing: seq<Tx>, offset: nat, block: seq<Tx>)
    requires Filling(slots, missing, |slots|, offset, block)
    ensures offset == |Empty(slots)| <= |missing| && block == Merged(slots, missing)
  {
    assert slots[..|slots|] == slots;
  }

  // ---------- an honest sender ----------

  /** The message describes the block: prefilled transactions are its own, and so are the short ids of the rest. */
  ghost predicate Describes(m: Message, sid: Tx -> nat, base: seq<Option<Tx>>, vtx: seq<Tx>) {
    && |vtx| == TxCount(m) == |base| && |Empty(base)| == |m.shortIds|
    && (forall i :: 0 <= i < |m.prefilled| ==>
          Position(m.prefilled, i) < |vtx| && m.prefilled[i].tx == vtx[Position(m.prefilled, i)])
    && (forall i :: 0 <= i < |m.shortIds| ==> m.shortIds[i] == sid(vtx[Empty(base)[i]]))
  }

  /** No candidate has the short id that the sender gives to a different transaction of the block. */
  ghost predicate NoCollision(c: Candidates, sid: Tx -> nat, vtx: seq<Tx>) {
    forall a, p :: 0 <= a < |c.txs| && 0 <= p < |vtx| && c.sid(c.txs[a]) == sid(vtx[p]) ==> c.txs[a] == vtx[p]
  }

  /**
  Without collisions every slot is empty or holds the block's own transaction; and if the mempool lists no
  transaction twice, a transaction that is among the candidates, under the sender's short id, is there. The sender
  hashes witness ids or plain ids; the receiver always hashes witness ids.
   */
  lemma HonestSlots(m: Message, c: Candidates, sid: Tx -> nat, base: seq<Option<Tx>>, slots: seq<Option<Tx>>,
                    have: seq<bool>, count: int, vtx: seq<Tx>, i: nat)
    requires PrefilledSlots(m, base, |m.prefilled|) && GoodCandidates(c)
    requires var p := PoolEnd(c, m.shortIds, 0);
             var k := ExtraEnd(c, m.shortIds, p, c.poolSize);
             Scanned(c, m.shortIds, base, slots, have, count, p, k)
    requires Describes(m, sid, base, vtx) && NoCollision(c, sid, vtx) && i < |vtx|
    ensures slots[i] == None || slots[i] == Some(vtx[i])
    ensures base[i].Some? ==> slots[i] == Some(vtx[i])
    ensures NoDuplicates(c) && vtx[i] in c.txs && c.sid(vtx[i]) == sid(vtx[i]) ==> slots[i] == Some(vtx[i])
  {
    hide Empty, Filled, Position, PoolEnd, ExtraEnd, Holds, NoCollision, NoDuplicates;
    if base[i].Some? {
      var j :| 0 <= j < |m.prefilled| && i == Position(m.prefilled, j);
    } else {
      EmptyFinds(base, i);
      var j :| 0 <= j < |Empty(base)| && Empty(base)[j] == i;
      var p := PoolEnd(c, m.shortIds, 0);
      var k := ExtraEnd(c, m.shortIds, p, c.poolSize);
      assert SlotIs(c, m.shortIds[j], slots[i], have[i], p, k);
      OnlyOwn(c, sid, vtx, i, p, k);
      if slots[i].None? && NoDuplicates(c) && vtx[i] in c.txs && c.sid(vtx[i]) == sid(vtx[i]) {
        OwnHolds(c, m.shortIds, sid, vtx, i, j);
      }
    }
  }

  /** Without collisions nothing but the block's own transaction is found for its short id. */
  lemma OnlyOwn(c: Candidates, sid: Tx -> nat, vtx: seq<Tx>, i: nat, p: nat, k: nat)
    requires NoCollision(c, sid, vtx) && i < |vtx|
    ensures Found(c, sid(vtx[i]), p, k) <= {vtx[i]}
  {
  }

  /** The mempool lists no transaction twice. */
  ghost predicate NoDuplicates(c: Candidates) {
    forall a, b :: 0 <= a < b < c.poolSize && b < |c.txs| ==> c.txs[a] != c.txs[b]
  }

  lemma OwnHolds(c: Candidates, shortIds: seq<nat>, sid: Tx -> nat, vtx: seq<Tx>, i: nat, j: nat)
    requires GoodCandidates(c) && NoCollision(c, sid, vtx) && NoDuplicates(c) && i < |vtx|
    requires j < |shortIds| && shortIds[j] == sid(vtx[i])
    requires vtx[i] in c.txs && c.sid(vtx[i]) == sid(vtx[i])
    ensures var p := PoolEnd(c, shortIds, 0);
            var k := ExtraEnd(c, shortIds, p, c.poolSize);
            Holds(c, shortIds[j], p, k)
  {
    hide PoolEnd, ExtraEnd, NoCollision, NoDuplicates, Pooled;
    var id := shortIds[j];
    var p := PoolEnd(c, shortIds, 0);
    var k := ExtraEnd(c, shortIds, p, c.poolSize);
    OnlyOwn(c, sid, vtx, i, p, k);
    OwnOnce(c, sid, vtx, i, p);
    if k < |c.txs| {
      assert Holds(c, id, p, k);
    } else {
      var x := vtx[i];
      if p < c.poolSize {
        assert Holds(c, id, p, c.poolSize);
        x := Sets.Pick(Found(c, id, p, c.poolSize));
      } else {
        var a :| 0 <= a < |c.txs| && c.txs[a] == vtx[i];
        assert Seen(c, p, k, a);
      }
      assert x in Found(c, id, p, k);
      assert Found(c, id, p, k) == {vtx[i]};
    }
  }

  lemma OwnOnce(c: Candidates, sid: Tx -> nat, vtx: seq<Tx>, i: nat, p: nat)
    requires GoodCandidates(c) && NoCollision(c, sid, vtx) && NoDuplicates(c) && i < |vtx|
    ensures |Pooled(c, sid(vtx[i]), p)| <= 1
  {
    var pooled := Pooled(c, sid(vtx[i]), p);
    if pooled != {} {
      var a := Sets.Pick(pooled);
      assert forall b :: b in pooled ==> c.txs[b] == vtx[i] == c.txs[a];
      assert pooled == {a};
    }
  }

  /** The short ids of all transactions but the first. */
  function ShortIds(vtx: seq<Tx>, sid: Tx -> nat): seq<nat>
    requires vtx != []
  {
    seq<nat>(|vtx| - 1, i requires 0 <= i < |vtx| - 1 => sid(vtx[i + 1]))
  }

  /** The message that a sender makes of a block: the first transaction itself, and short ids of the others. */
  method MakeMessage(vtx: seq<Tx>, sid: Tx -> nat) returns (m: Message)
    requires vtx != []
    ensures m == Message(false, ShortIds(vtx, sid), [Prefilled(0, vtx[0])])
  {
    var ids: seq<nat> := seq(|vtx| - 1, _ => 0);
    for i := 1 to |vtx|
      invariant |ids| == |vtx| - 1 && forall j :: 1 <= j < i ==> ids[j - 1] == sid(vtx[j])
    {
      ids := ids[i - 1 := sid(vtx[i])];
    }
    m := Message(false, ids, [Prefilled(0, vtx[0])]);
  }

  lemma {:induction false} EmptyBehindFirst(slots: seq<Option<Tx>>)
    requires slots != [] && slots[0].Some? && forall p :: 1 <= p < |slots| ==> slots[p].None?
    ensures |Empty(slots)| == |slots| - 1 && forall i :: 0 <= i < |slots| - 1 ==> Empty(slots)[i] == i + 1
    decreases |slots|
  {
    if |slots| > 1 {
      EmptyBehindFirst(slots[..|slots| - 1]);
    } else {
      assert slots[..0] == [];
    }
  }

  /** The sender's message is acceptable and describes the block. */
  lemma MessageDescribes(m: Message, vtx: seq<Tx>, sid: Tx -> nat, isNull: Tx -> bool, base: seq<Option<Tx>>)
    requires 0 < |vtx| <= MAX_INDEX && !isNull(vtx[0])
    requires m == Message(false, ShortIds(vtx, sid), [Prefilled(0, vtx[0])])
    ensures Acceptable(m, isNull)
    ensures PrefilledSlots(m, base, |m.prefilled|) ==> Describes(m, sid, base, vtx)
  {
    hide Empty;
    assert Position(m.prefilled, 0) == 0;
    if PrefilledSlots(m, base, |m.prefilled|) {
      assert base[Position(m.prefilled, 0)].Some?;
      EmptyBehindFirst(base);
    }
  }

  /**
  From the sender to the rebuilt block: without collisions, whatever the candidates are, the block comes out exactly
  when the missing transactions are sent in order, unless the short ids were refused.
   */
  method SendAndRebuild(vtx: seq<Tx>, sid: Tx -> nat, c: Candidates, isNull: Tx -> bool, bucket: nat -> nat,
                        check: seq<Tx> -> CheckResult)
    returns (status: Status, block: seq<Tx>)
    requires 0 < |vtx| <= MAX_INDEX && !isNull(vtx[0]) && check(vtx) == Valid
    requires GoodCandidates(c) && NoCollision(c, sid, vtx)
    ensures status == Ok || status == Failed
    ensures status == Ok <==> Distinct(ShortIds(vtx, sid)) && Even(bucket, ShortIds(vtx, sid), |vtx| - 1)
    ensures status == Ok ==> block == vtx
  {
    hide Even, Distinct, Empty, Scanned, PrefilledSlots, Describes, Merged, NoCollision, PoolEnd, ExtraEnd;
    var m := MakeMessage(vtx, sid);
    var receiver := new PartialBlock();
    ghost var base, have;
    status, base, have := receiver.InitData(m, c, isNull, bucket);
    MessageDescribes(m, vtx, sid, isNull, base);
    block := [];
    if status != Ok {
      return;
    }
    ghost var p := PoolEnd(c, m.shortIds, 0);
    ghost var k := ExtraEnd(c, m.shortIds, p, c.poolSize);
    ScanFacts(c, m.shortIds, base, receiver.slots, have, receiver.mempoolCount, p, k);
    DescribesCount(m, sid, base, vtx);
    forall i | 0 <= i < |vtx|
      ensures receiver.slots[i] == None || receiver.slots[i] == Some(vtx[i])
    {
      HonestSlots(m, c, sid, base, receiver.slots, have, receiver.mempoolCount, vtx, i);
    }
    var missing := Missing(receiver.slots, vtx);
    MergedIsBlock(receiver.slots, vtx, missing);
    status, block := receiver.FillBlock(missing, check);
  }

  lemma DescribesCount(m: Message, sid: Tx -> nat, base: seq<Option<Tx>>, vtx: seq<Tx>)
    requires Describes(m, sid, base, vtx)
    ensures |base| == |vtx|
  {
  }

  /** The transactions of a block that a receiver has to ask for, in order. */
  method Missing(slots: seq<Option<Tx>>, vtx: seq<Tx>) returns (r: seq<Tx>)
    requires |slots| == |vtx|
    ensures |r| == |Empty(slots)| && forall j :: 0 <= j < |r| ==> r[j] == vtx[Empty(slots)[j]]
  {
    r := [];
    for i := 0 to |slots|
      invariant |r| == |Empty(slots[..i])| && forall j :: 0 <= j < |r| ==> r[j] == vtx[Empty(slots[..i])[j]]
    {
      assert slots[..i + 1][..i] == slots[..i];
      if slots[i].None? {
        r := r + [vtx[i]];
      }
    }
    assert slots[..|slots|] == slots;
  }

  // ---------- differential indexes of a request ----------

  ghost predicate Ascending(s: seq<nat>) {
    forall i, j :: 0 <= i < j < |s| ==> s[i] < s[j]
  }

  const WORD := 0x1_0000_0000_0000_0000

  /** The gaps that are sent; unsigned, so that an index that does not ascend becomes a huge number. */
  function Gaps(indexes: seq<nat>): seq<nat> {
    seq<nat>(|indexes|, i requires 0 <= i < |indexes| => (indexes[i] - if i == 0 then 0 else indexes[i - 1] + 1) % WORD)
  }

  /** The indexes that are read from gaps, from `offset` on; nothing if one exceeds 16 bits. */
  function FromGaps(gaps: seq<nat>, offset: nat): Option<seq<nat>>
    decreases |gaps|
  {
    if gaps == [] then Some([])
    else if gaps[0] > MAX_INDEX || gaps[0] + offset > MAX_INDEX then None
    else match FromGaps(gaps[1..], gaps[0] + offset + 1)
      case None => None
      case Some(rest) => Some([gaps[0] + offset] + rest)
  }

  method WriteIndexes(indexes: seq<nat>) returns (gaps: seq<nat>)
    ensures gaps == Gaps(indexes)
  {
    gaps := [];
    for i := 0 to |indexes|
      invariant gaps == Gaps(indexes)[..i]
    {
      var index := (indexes[i] - if i == 0 then 0 else indexes[i - 1] + 1) % WORD;
      gaps := gaps + [index];
    }
  }

  method ReadIndexes(gaps: seq<nat>) returns (r: Option<seq<nat>>)
    ensures r == FromGaps(gaps, 0)
  {
    for i := 0 to |gaps|
      invariant forall j :: 0 <= j < i ==> gaps[j] <= MAX_INDEX
    {
      if gaps[i] > MAX_INDEX {
        TooLarge(gaps, 0, i);
        return None;
      }
    }
    var indexes: seq<nat> := gaps;
    var offset: nat := 0;
    ReadStart(gaps);
    for j := 0 to |indexes|
      invariant |indexes| == |gaps| && forall k :: j <= k < |gaps| ==> indexes[k] == gaps[k]
      invariant FromGaps(gaps, 0) == Prepend(indexes[..j], FromGaps(gaps[j..], offset))
    {
      ReadStep(gaps, indexes[..j], j, offset);
      if indexes[j] + offset > MAX_INDEX {
        return None;
      }
      ghost var before := indexes[..j];
      indexes := indexes[j := indexes[j] + offset];
      assert indexes[..j + 1] == before + [indexes[j]];
      offset := indexes[j] + 1;
    }
    ReadEnd(gaps, indexes, offset);
    return Some(indexes);
  }

  function Prepend(done: seq<nat>, rest: Option<seq<nat>>): Option<seq<nat>> {
    match rest
    case None => None
    case Some(r) => Some(done + r)
  }

  lemma ReadStart(gaps: seq<nat>)
    ensures FromGaps(gaps, 0) == Prepend([], FromGaps(gaps[0..], 0))
  {
    assert gaps[0..] == gaps;
    if FromGaps(gaps, 0).Some? {
      assert [] + FromGaps(gaps, 0).value == FromGaps(gaps, 0).value;
    }
  }

  lemma ReadStep(gaps: seq<nat>, done: seq<nat>, j: nat, offset: nat)
    requires j < |gaps| && gaps[j] <= MAX_INDEX
    ensures var v := gaps[j] + offset;
            Prepend(done, FromGaps(gaps[j..], offset)) ==
            if v > MAX_INDEX then None else Prepend(done + [v], FromGaps(gaps[j + 1..], v + 1))
  {
    var v := gaps[j] + offset;
    assert gaps[j..][1..] == gaps[j + 1..];
    if v <= MAX_INDEX && FromGaps(gaps[j + 1..], v + 1).Some? {
      var r := FromGaps(gaps[j + 1..], v + 1).value;
      assert done + ([v] + r) == done + [v] + r;
    }
  }

  lemma ReadEnd(gaps: seq<nat>, indexes: seq<nat>, offset: nat)
    requires |indexes| == |gaps|
    ensures Prepend(indexes[..|gaps|], FromGaps(gaps[|gaps|..], offset)) == Some(indexes)
  {
    assert indexes[..|gaps|] + [] == indexes;
  }

  lemma {:induction false} TooLarge(gaps: seq<nat>, offset: nat, i: nat)
    requires i < |gaps| && gaps[i] > MAX_INDEX
    ensures FromGaps(gaps, offset) == None
    decreases |gaps|
  {
    if i > 0 {
      TooLarge(gaps[1..], gaps[0] + offset + 1, i - 1);
    }
  }

  /** Indexes that are read ascend and fit into 16 bits. */
  lemma {:induction false} ReadAscends(gaps: seq<nat>, offset: nat)
    requires FromGaps(gaps, offset).Some?
    ensures var r := FromGaps(gaps, offset).value;
            |r| == |gaps| && Ascending(r) && forall i :: 0 <= i < |r| ==> offset <= r[i] <= MAX_INDEX
    decreases |gaps|
  {
    if gaps != [] {
      ReadAscends(gaps[1..], gaps[0] + offset + 1);
    }
  }

  /** Reading gives back 16-bit indexes exactly if they ascend. */
  lemma IndexRoundTrip(indexes: seq<nat>)
    requires forall i :: 0 <= i < |indexes| ==> indexes[i] <= MAX_INDEX
    ensures FromGaps(Gaps(indexes), 0) == Some(indexes) <==> Ascending(indexes)
  {
    if Ascending(indexes) {
      ReadBack(indexes, 0);
      assert Gaps(indexes)[0..] == Gaps(indexes) && indexes[0..] == indexes;
    } else if FromGaps(Gaps(indexes), 0) == Some(indexes) {
      ReadAscends(Gaps(indexes), 0);
    }
  }

  lemma {:induction false} ReadBack(indexes: seq<nat>, k: nat)
    requires k <= |indexes| && Ascending(indexes) && forall i :: 0 <= i < |indexes| ==> indexes[i] <= MAX_INDEX
    ensures FromGaps(Gaps(indexes)[k..], if k == 0 then 0 else indexes[k - 1] + 1) == Some(indexes[k..])
    decreases |indexes| - k
  {
    hide Gaps, Ascending;
    GapCount(indexes);
    if k < |indexes| {
      ReadBack(indexes, k + 1);
      GapIs(indexes, k);
      var gaps := Gaps(indexes);
      assert gaps[k..][0] == gaps[k] && gaps[k..][1..] == gaps[k + 1..];
      assert indexes[k..] == [indexes[k]] + indexes[k + 1..];
    }
  }

  lemma GapCount(indexes: seq<nat>)
    ensures |Gaps(indexes)| == |indexes|
  {
  }

  lemma GapIs(indexes: seq<nat>, k: nat)
    requires k < |indexes| && Ascending(indexes) && indexes[k] <= MAX_INDEX && |Gaps(indexes)| == |indexes|
    ensures Gaps(indexes)[k] == indexes[k] - if k == 0 then 0 else indexes[k - 1] + 1
  {
    if k > 0 {
      assert indexes[k - 1] < indexes[k];
    }
  }

  lemma SlotCount(m: Message, slots: seq<Option<Tx>>)
    requires PrefilledSlots(m, slots, |m.prefilled|)
    ensures |slots| == TxCount(m)
  {
  }

  lemma ScanFacts(c: Candidates, shortIds: seq<nat>, base: seq<Option<Tx>>, slots: seq<Option<Tx>>, have: seq<bool>,
                  count: int, p: nat, k: nat)
    requires Scanned(c, shortIds, base, slots, have, count, p, k)
    ensures p <= c.poolSize <= k <= |c.txs| && |slots| == |have| == |base| && |Empty(base)| == |shortIds|
    ensures forall i :: 0 <= i < |Empty(base)| ==> Empty(base)[i] < |base|
  {
  }

  /** The short id that a position belongs to. */
  lemma Wanted(shortIds: seq<nat>, empty: seq<nat>, ids: map<nat, nat>, id: nat) returns (i: nat)
    requires |shortIds| == |empty| && ids.Keys == IdSet(shortIds, |shortIds|) && id in ids
    requires Assigned(shortIds, empty, ids, |shortIds|)
    ensures i < |shortIds| && shortIds[i] == id && ids[id] == empty[i]
  {
    i := InIdSet(shortIds, |shortIds|, id);
  }

  lemma {:induction false} InIdSet(s: seq<nat>, k: nat, id: nat) returns (i: nat)
    requires k <= |s| && id in IdSet(s, k)
    ensures i < k && s[i] == id
    decreases k
  {
    if s[k - 1] == id {
      i := k - 1;
    } else {
      i := InIdSet(s, k - 1, id);
    }
  }

  lemma NotHad(c: Candidates, shortIds: seq<nat>, base: seq<Option<Tx>>, slots: seq<Option<Tx>>, have: seq<bool>,
               count: int, p: nat, k: nat, i: nat)
    requires Scanned(c, shortIds, base, slots, have, count, p, k) && i < |shortIds| && !have[Empty(base)[i]]
    ensures slots[Empty(base)[i]].None?
  {
    hide Empty, Filled;
    assert SlotIs(c, shortIds[i], slots[Empty(base)[i]], have[Empty(base)[i]], p, k);
  }
}
