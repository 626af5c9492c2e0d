/**
Loading what was saved gives the same address manager back, up to a renaming of ids: nothing is
lost, and both tables are restored slot for slot.
 */
module AddrManRoundTrip {
  import opened Wrappers
  import opened AddrManState
  import opened AddrManInvariant
  import opened AddrManDisk
  import opened Sets

  // ---------- the order in which entries are written ----------

  lemma {:induction false} AscendingMembers(ids: set<int>)
    ensures |Ascending(ids)| == |ids|
    ensures forall id :: id in Ascending(ids) <==> id in ids
    ensures forall i, j :: 0 <= i < j < |Ascending(ids)| ==> Ascending(ids)[i] < Ascending(ids)[j]
    decreases ids
  {
    if ids != {} {
      var m := Least(ids);
      AscendingMembers(ids - {m});
      var rest := Ascending(ids - {m});
      assert Ascending(ids) == [m] + rest;
      forall i | 0 <= i < |rest|
        ensures m < rest[i]
      {
        assert rest[i] in rest;
      }
      forall id | id in ids
        ensures id in Ascending(ids)
      {
        if id != m {
          assert id in rest;
        }
      }
    }
  }

  /** All ids in the order in which their entries are written; positions here are the ids on load. */
  ghost function Order(s: State): seq<int> {
    NewList(s) + TriedList(s)
  }

  lemma OrderFacts(s: State)
    requires Loose(s, {}, 0)
    ensures |NewList(s)| == s.nNew && |TriedList(s)| == s.nTried
    ensures forall id :: id in NewList(s) <==> id in NewIds(s)
    ensures forall id :: id in TriedList(s) <==> id in TriedIds(s)
    ensures forall id :: id in Order(s) <==> id in s.info
    ensures forall i, j :: 0 <= i < j < |Order(s)| ==> Order(s)[i] != Order(s)[j]
  {
    hide RandomOk, AddrOk, NewSlotsOk, TriedOk, IdsOk;
    TriedHaveNoRefs(s);
    assert forall id :: id in s.info ==> (s.info[id].refCount != 0 <==> !s.info[id].inTried);
    assert ReferencedIds(s) == NewIds(s);
    AscendingMembers(NewIds(s));
    AscendingMembers(TriedIds(s));
    Disjoint(NewList(s), TriedList(s), NewIds(s), TriedIds(s));
  }

  lemma Disjoint(a: seq<int>, b: seq<int>, x: set<int>, y: set<int>)
    requires x !! y
    requires forall id :: id in a <==> id in x
    requires forall id :: id in b <==> id in y
    requires forall i, j :: 0 <= i < j < |a| ==> a[i] < a[j]
    requires forall i, j :: 0 <= i < j < |b| ==> b[i] < b[j]
    ensures forall i, j :: 0 <= i < j < |a + b| ==> (a + b)[i] != (a + b)[j]
  {
    forall i, j | 0 <= i < |a| && 0 <= j < |b|
      ensures a[i] != b[j]
    {
      var p, q := a[i], b[j];
      assert p in a && q in b;
      assert p in x && q in y;
    }
  }

  lemma TriedHaveNoRefs(s: State)
    requires Loose(s, {}, 0)
    ensures forall id :: id in s.info && s.info[id].inTried ==> s.info[id].refCount == 0
  {
    hide RandomOk, AddrOk, TriedOk;
    forall id | id in s.info && s.info[id].inTried
      ensures s.info[id].refCount == 0
    {
      assert forall c :: 0 <= c < NEW_BUCKET_COUNT ==> s.newTable[c][NewPos(s, id, c)] != id;
      assert NewBuckets(s, id) == {};
    }
  }

  lemma InvWritable(s: State)
    requires Loose(s, {}, 0)
    ensures Writable(s)
  {
    hide RandomOk, AddrOk, TriedOk, RefsOk, CountsOk;
    OrderFacts(s);
    forall k | 0 <= k < |NewList(s)|
      ensures NewList(s)[k] in s.info
    {
      var id := NewList(s)[k];
      assert id in NewList(s);
    }
    forall k | 0 <= k < |TriedList(s)|
      ensures TriedList(s)[k] in s.info
    {
      var id := TriedList(s)[k];
      assert id in TriedList(s);
    }
  }

  /** `ord` lists every entry once, the new ones first. */
  ghost predicate OrderOk(s: State, ord: seq<int>) {
    && 0 <= s.nNew && 0 <= s.nTried && |ord| == s.nNew + s.nTried
    && (forall k :: 0 <= k < |ord| ==> ord[k] in s.info && (s.info[ord[k]].inTried <==> k >= s.nNew))
    && (forall i, j :: 0 <= i < j < |ord| ==> ord[i] != ord[j])
    && (forall id :: id in s.info ==> id in ord)
  }

  lemma OrderIsOk(s: State)
    requires Loose(s, {}, 0)
    ensures OrderOk(s, Order(s))
  {
    hide RandomOk, AddrOk, TriedOk, RefsOk, CountsOk, NewSlotsOk, IdsOk;
    OrderFacts(s);
    forall k | 0 <= k < |Order(s)|
      ensures Order(s)[k] in s.info && (s.info[Order(s)[k]].inTried <==> k >= s.nNew)
    {
      var id := Order(s)[k];
      if k < s.nNew {
        assert id == NewList(s)[k];
        assert id in NewList(s);
      } else {
        assert id == TriedList(s)[k - s.nNew];
        assert id in TriedList(s);
      }
    }
  }

  /** The id on load of the entry `id`; a free slot stays free. */
  ghost function Rename(ord: seq<int>, id: int): int {
    if id in ord then IndexOf(ord, id) else FREE
  }

  lemma RenameOf(s: State, ord: seq<int>, k: nat)
    requires OrderOk(s, ord) && k < |ord|
    ensures Rename(ord, ord[k]) == k
  {
    var id := ord[k];
    assert id in ord;
  }

  // ---------- partly loaded states ----------

  /** Slot (b, p) comes before slot `q` of bucket `bq` in the file. */
  predicate Before(b: int, p: int, bq: int, q: int) {
    b < bq || (b == bq && p < q)
  }

  ghost function Seen(s: State, id: int, bq: nat, q: nat): set<int>
    requires Shape(s) && id in s.info
  {
    set b | b in NewBuckets(s, id) && Before(b, NewPos(s, id, b), bq, q)
  }

  ghost function LoadedInfo(s: State, ord: seq<int>, j: nat, bq: nat, q: nat): Info
    requires Shape(s) && OrderOk(s, ord) && j < |ord|
  {
    FromDisk(ToDisk(s.info[ord[j]])).(
      randomPos := j,
      inTried := j >= s.nNew,
      refCount := |Seen(s, ord[j], bq, q)|)
  }

  ghost function LoadedTried(s: State, ord: seq<int>, n: nat): (t: seq<seq<int>>)
    requires Shape(s)
    ensures TableShape(t, TRIED_BUCKET_COUNT)
    ensures forall b, p :: 0 <= b < TRIED_BUCKET_COUNT && 0 <= p < BUCKET_SIZE ==>
              t[b][p] == if Rename(ord, s.triedTable[b][p]) < n then Rename(ord, s.triedTable[b][p]) else FREE
  {
    seq(TRIED_BUCKET_COUNT, b requires 0 <= b < TRIED_BUCKET_COUNT =>
      seq(BUCKET_SIZE, p requires 0 <= p < BUCKET_SIZE =>
        if Rename(ord, s.triedTable[b][p]) < n then Rename(ord, s.triedTable[b][p]) else FREE))
  }

  ghost function LoadedNew(s: State, ord: seq<int>, bq: nat, q: nat): (t: seq<seq<int>>)
    requires Shape(s)
    ensures TableShape(t, NEW_BUCKET_COUNT)
    ensures forall b, p :: 0 <= b < NEW_BUCKET_COUNT && 0 <= p < BUCKET_SIZE ==>
              t[b][p] == if Before(b, p, bq, q) then Rename(ord, s.newTable[b][p]) else FREE
  {
    seq(NEW_BUCKET_COUNT, b requires 0 <= b < NEW_BUCKET_COUNT =>
      seq(BUCKET_SIZE, p requires 0 <= p < BUCKET_SIZE =>
        if Before(b, p, bq, q) then Rename(ord, s.newTable[b][p]) else FREE))
  }

  /** The state after `n` entries of `ord` and the slots before slot `q` of bucket `bq` were read. */
  ghost function Loaded(s: State, ord: seq<int>, n: nat, bq: nat, q: nat, idCount: int): (t: State)
    requires Shape(s) && OrderOk(s, ord) && n <= |ord|
    ensures Shape(t)
  {
    State(s.net, s.key, idCount,
          map j: int | 0 <= j < n :: LoadedInfo(s, ord, j, bq, q),
          map a | a in s.addrIds && Rename(ord, s.addrIds[a]) < n :: Rename(ord, s.addrIds[a]),
          seq(n, j => j),
          s.nTried, LoadedTried(s, ord, n), s.nNew, LoadedNew(s, ord, bq, q), 1, s.collisions)
  }

  lemma TablesEqual(t: seq<seq<int>>, u: seq<seq<int>>, rows: nat)
    requires TableShape(t, rows) && TableShape(u, rows)
    requires forall b, p :: 0 <= b < rows && 0 <= p < BUCKET_SIZE ==> t[b][p] == u[b][p]
    ensures t == u
  {
    forall b | 0 <= b < rows
      ensures t[b] == u[b]
    {
    }
  }

  // ---------- reading entries ----------

  lemma NothingLoaded(s: State, ord: seq<int>)
    requires Shape(s) && OrderOk(s, ord) && AddrOk(s)
    ensures Cleared(s.net, s.key, s.collisions).(nNew := s.nNew, nTried := s.nTried) == Loaded(s, ord, 0, 0, 0, 0)
  {
    var t := Loaded(s, ord, 0, 0, 0, 0);
    forall a | a in s.addrIds
      ensures Rename(ord, s.addrIds[a]) >= 0
    {
      var id := s.addrIds[a];
      assert id in s.info;
    }
    TablesEqual(t.triedTable, EmptyTable(TRIED_BUCKET_COUNT), TRIED_BUCKET_COUNT);
    TablesEqual(t.newTable, EmptyTable(NEW_BUCKET_COUNT), NEW_BUCKET_COUNT);
  }

  /** The entry read at position `n`. */
  ghost function ReadInfo(s: State, ord: seq<int>, n: nat): Info
    requires OrderOk(s, ord) && n < |ord|
  {
    FromDisk(ToDisk(s.info[ord[n]])).(inTried := n >= s.nNew)
  }

  lemma EntryInfo(s: State, ord: seq<int>, n: nat, idCount: int)
    requires Shape(s) && OrderOk(s, ord) && n < |ord|
    ensures var r := Loaded(s, ord, n, 0, 0, idCount);
            r.info[n as int := ReadInfo(s, ord, n).(randomPos := n)] == Loaded(s, ord, n + 1, 0, 0, idCount).info
  {
    assert Seen(s, ord[n], 0, 0) == {};
  }

  lemma EntryAddress(s: State, ord: seq<int>, n: nat, idCount: int)
    requires Shape(s) && OrderOk(s, ord) && AddrOk(s) && n < |ord|
    ensures var r := Loaded(s, ord, n, 0, 0, idCount);
            r.addrIds[s.info[ord[n]].addr.service.net := n as int] == Loaded(s, ord, n + 1, 0, 0, idCount).addrIds
  {
    var id := ord[n];
    RenameOf(s, ord, n);
    var net := s.info[id].addr.service.net;
    assert s.addrIds[net] == id;
    forall a | a in s.addrIds
      ensures Rename(ord, s.addrIds[a]) == n <==> a == net
    {
      var x := s.addrIds[a];
      assert x in s.info;
      assert x in ord;
    }
  }

  lemma EntryLoaded(s: State, ord: seq<int>, n: nat, idCount: int)
    requires Shape(s) && OrderOk(s, ord) && AddrOk(s) && n < |ord|
    ensures var t := AddEntry(Loaded(s, ord, n, 0, 0, idCount), n, ReadInfo(s, ord, n));
            var u := Loaded(s, ord, n + 1, 0, 0, idCount);
            t.info == u.info && t.addrIds == u.addrIds && t.random == u.random
  {
    hide AddrOk, LoadedInfo, LoadedTried, LoadedNew, Rename;
    EntryInfo(s, ord, n, idCount);
    EntryAddress(s, ord, n, idCount);
  }

  lemma NewEntryTried(s: State, ord: seq<int>, n: nat)
    requires Shape(s) && OrderOk(s, ord) && TriedOk(s) && IdsOk(s) && n < s.nNew
    ensures LoadedTried(s, ord, n + 1) == LoadedTried(s, ord, n)
  {
    forall b, p | 0 <= b < TRIED_BUCKET_COUNT && 0 <= p < BUCKET_SIZE
      ensures Rename(ord, s.triedTable[b][p]) != n
    {
      var x := s.triedTable[b][p];
      if x in ord {
        assert ord[IndexOf(ord, x)] == x;
        assert x != FREE;
      }
    }
    TablesEqual(LoadedTried(s, ord, n + 1), LoadedTried(s, ord, n), TRIED_BUCKET_COUNT);
  }

  lemma TriedEntryTried(s: State, ord: seq<int>, n: nat)
    requires Shape(s) && OrderOk(s, ord) && TriedOk(s) && IdsOk(s) && s.nNew <= n < |ord|
    ensures var b, p := TriedRow(s, ord[n]), TriedPos(s, ord[n]);
            && LoadedTried(s, ord, n)[b][p] == FREE
            && LoadedTried(s, ord, n + 1) == SetSlot(LoadedTried(s, ord, n), b, p, n)
  {
    var id := ord[n];
    RenameOf(s, ord, n);
    var row, pos := TriedRow(s, id), TriedPos(s, id);
    assert s.triedTable[row][pos] == id;
    forall b, p | 0 <= b < TRIED_BUCKET_COUNT && 0 <= p < BUCKET_SIZE
      ensures Rename(ord, s.triedTable[b][p]) == n <==> b == row && p == pos
    {
      var x := s.triedTable[b][p];
      if x in ord {
        assert ord[IndexOf(ord, x)] == x;
        assert x != FREE;
      }
    }
    TablesEqual(LoadedTried(s, ord, n + 1), SetSlot(LoadedTried(s, ord, n), row, pos, n), TRIED_BUCKET_COUNT);
  }

  lemma {:induction false} ReadNewLoads(s: State, ord: seq<int>, n: nat, rest: seq<Token>)
    requires Shape(s) && OrderOk(s, ord) && AddrOk(s) && TriedOk(s) && IdsOk(s) && n <= s.nNew
    ensures ReadNew(Loaded(s, ord, n, 0, 0, 0), n, true, EntryTokens(s, ord[n..s.nNew]) + rest)
         == Some((Loaded(s, ord, s.nNew, 0, 0, 0), rest))
    decreases s.nNew - n
  {
    hide AddrOk, TriedOk, IdsOk;
    if n < s.nNew {
      var ids := ord[n..s.nNew];
      assert ids[1..] == ord[n + 1..s.nNew];
      var tokens := EntryTokens(s, ids) + rest;
      assert tokens[1..] == EntryTokens(s, ord[n + 1..s.nNew]) + rest;
      EntryLoaded(s, ord, n, 0);
      NewEntryTried(s, ord, n);
      ReadNewLoads(s, ord, n + 1, rest);
    } else {
      assert EntryTokens(s, ord[n..s.nNew]) + rest == rest;
    }
  }

  /** What reading the next tried entry does. */
  lemma TriedEntryLoads(s: State, ord: seq<int>, n: nat)
    requires Shape(s) && OrderOk(s, ord) && AddrOk(s) && TriedOk(s) && IdsOk(s) && s.nNew <= n < |ord|
    ensures var l, i := Loaded(s, ord, n, 0, 0, n), FromDisk(ToDisk(s.info[ord[n]]));
            var b := TriedBucket(l.net, l.key, i.addr.service);
            var p := BucketPosition(l.net, l.key, false, b, i.addr.service);
            && l.triedTable[b][p] == FREE && l.idCount == n
            && AddEntry(l, n, i.(inTried := true)).(triedTable := SetSlot(l.triedTable, b, p, n), idCount := n + 1)
            == Loaded(s, ord, n + 1, 0, 0, n + 1)
  {
    hide AddrOk, TriedOk, IdsOk, LoadedInfo, LoadedTried, LoadedNew, Rename;
    EntryLoaded(s, ord, n, n);
    TriedEntryTried(s, ord, n);
  }

  lemma {:induction false} ReadTriedLoads(s: State, ord: seq<int>, n: nat, rest: seq<Token>)
    requires Shape(s) && OrderOk(s, ord) && AddrOk(s) && TriedOk(s) && IdsOk(s) && s.nNew <= n <= |ord|
    ensures ReadTried(Loaded(s, ord, n, 0, 0, n), |ord| - n, 0, EntryTokens(s, ord[n..]) + rest)
         == Some((Loaded(s, ord, |ord|, 0, 0, |ord|), 0, rest))
    decreases |ord| - n
  {
    hide AddrOk, TriedOk, IdsOk, Loaded, AddEntry, SetSlot, FromDisk, ToDisk;
    if n < |ord| {
      var ids := ord[n..];
      assert ids[1..] == ord[n + 1..];
      var tokens := EntryTokens(s, ids) + rest;
      assert tokens[0] == Entry(ToDisk(s.info[ord[n]])) && tokens[1..] == EntryTokens(s, ord[n + 1..]) + rest;
      TriedEntryLoads(s, ord, n);
      ReadTriedLoads(s, ord, n + 1, rest);
    } else {
      assert EntryTokens(s, ord[n..]) + rest == rest;
    }
  }

  // ---------- reading slots ----------

  lemma SeenFree(s: State, id: int, b: nat, p: nat)
    requires Shape(s) && IdsOk(s) && id in s.info && b < NEW_BUCKET_COUNT && p < BUCKET_SIZE && s.newTable[b][p] != id
    ensures Seen(s, id, b, p + 1) == Seen(s, id, b, p)
  {
    assert forall c :: c in NewBuckets(s, id) && c == b ==> NewPos(s, id, c) != p;
  }

  lemma SeenNext(s: State, id: int, b: nat, p: nat)
    requires Shape(s) && NewSlotsOk(s) && id in s.info && b < NEW_BUCKET_COUNT && p < BUCKET_SIZE
    requires s.newTable[b][p] == id && id != FREE
    ensures NewPos(s, id, b) == p && b !in Seen(s, id, b, p) && Seen(s, id, b, p + 1) == Seen(s, id, b, p) + {b}
  {
    assert b in NewBuckets(s, id);
  }

  /** No slot of bucket `b` is left after its last one. */
  lemma BucketDone(s: State, ord: seq<int>, n: nat, b: nat, idCount: int)
    requires Shape(s) && OrderOk(s, ord) && n <= |ord| && b < NEW_BUCKET_COUNT
    ensures Loaded(s, ord, n, b, BUCKET_SIZE, idCount) == Loaded(s, ord, n, b + 1, 0, idCount)
  {
    forall j | 0 <= j < n
      ensures Seen(s, ord[j], b, BUCKET_SIZE) == Seen(s, ord[j], b + 1, 0)
    {
    }
    TablesEqual(LoadedNew(s, ord, b, BUCKET_SIZE), LoadedNew(s, ord, b + 1, 0), NEW_BUCKET_COUNT);
  }

  lemma FreeSlotLoads(s: State, ord: seq<int>, b: nat, p: nat, idCount: int)
    requires Shape(s) && IdsOk(s) && OrderOk(s, ord) && b < NEW_BUCKET_COUNT && p < BUCKET_SIZE
    requires s.newTable[b][p] == FREE
    ensures Loaded(s, ord, |ord|, b, p + 1, idCount) == Loaded(s, ord, |ord|, b, p, idCount)
  {
    forall j | 0 <= j < |ord|
      ensures Seen(s, ord[j], b, p + 1) == Seen(s, ord[j], b, p)
    {
      SeenFree(s, ord[j], b, p);
    }
    assert Rename(ord, FREE) == FREE by {
      assert forall k :: 0 <= k < |ord| ==> ord[k] != FREE;
    }
    TablesEqual(LoadedNew(s, ord, b, p + 1), LoadedNew(s, ord, b, p), NEW_BUCKET_COUNT);
  }

  /** Reading the index of the holder of slot (b, p) puts it into that slot. */
  lemma HeldSlotTable(s: State, ord: seq<int>, b: nat, p: nat)
    requires Shape(s) && OrderOk(s, ord) && b < NEW_BUCKET_COUNT && p < BUCKET_SIZE
    ensures LoadedNew(s, ord, b, p)[b][p] == FREE
    ensures LoadedNew(s, ord, b, p + 1) == SetSlot(LoadedNew(s, ord, b, p), b, p, Rename(ord, s.newTable[b][p]))
  {
    TablesEqual(LoadedNew(s, ord, b, p + 1), SetSlot(LoadedNew(s, ord, b, p), b, p, Rename(ord, s.newTable[b][p])),
        NEW_BUCKET_COUNT);
  }

  lemma HeldSlotEntry(s: State, ord: seq<int>, b: nat, p: nat, k: nat, j: nat)
    requires Shape(s) && IdsOk(s) && NewSlotsOk(s) && OrderOk(s, ord) && b < NEW_BUCKET_COUNT && p < BUCKET_SIZE
    requires k < |ord| && j < |ord| && s.newTable[b][p] == ord[k]
    ensures var i := LoadedInfo(s, ord, j, b, p);
            LoadedInfo(s, ord, j, b, p + 1) == if j == k then i.(refCount := i.refCount + 1) else i
  {
    if j == k {
      SeenNext(s, ord[k], b, p);
    } else {
      SeenFree(s, ord[j], b, p);
    }
  }

  lemma HeldSlotInfo(s: State, ord: seq<int>, b: nat, p: nat, k: nat, idCount: int)
    requires Shape(s) && IdsOk(s) && NewSlotsOk(s) && OrderOk(s, ord) && b < NEW_BUCKET_COUNT && p < BUCKET_SIZE
    requires k < |ord| && s.newTable[b][p] == ord[k]
    ensures var r := Loaded(s, ord, |ord|, b, p, idCount);
            r.info[k as int := r.info[k].(refCount := r.info[k].refCount + 1)] ==
                Loaded(s, ord, |ord|, b, p + 1, idCount).info
  {
    hide IdsOk, NewSlotsOk, LoadedInfo, LoadedTried, LoadedNew, Rename;
    forall j | 0 <= j < |ord|
      ensures var i := LoadedInfo(s, ord, j, b, p);
              LoadedInfo(s, ord, j, b, p + 1) == if j == k then i.(refCount := i.refCount + 1) else i
    {
      HeldSlotEntry(s, ord, b, p, k, j);
    }
  }

  /** The entry read at position `k` belongs into the slot from which its index was written. */
  lemma HeldSlotPosition(s: State, ord: seq<int>, b: nat, p: nat, k: nat, idCount: int)
    requires Shape(s) && IdsOk(s) && NewSlotsOk(s) && OrderOk(s, ord) && b < NEW_BUCKET_COUNT && p < BUCKET_SIZE
    requires k < |ord| && s.newTable[b][p] == ord[k]
    ensures NewPos(Loaded(s, ord, |ord|, b, p, idCount), k, b) == p
  {
    SeenNext(s, ord[k], b, p);
  }

  lemma SeenWithinLimit(s: State, ord: seq<int>, b: nat, p: nat, k: nat)
    requires Shape(s) && IdsOk(s) && NewSlotsOk(s) && RefsOk(s, {}) && OrderOk(s, ord)
    requires b < NEW_BUCKET_COUNT && p < BUCKET_SIZE && k < |ord| && s.newTable[b][p] == ord[k]
    ensures |Seen(s, ord[k], b, p)| < NEW_BUCKETS_PER_ADDRESS && k < s.nNew
  {
    var id := ord[k];
    SeenNext(s, id, b, p);
    CardinalitySubset(Seen(s, id, b, p + 1), NewBuckets(s, id));
  }

  lemma HeldSlotLoads(s: State, ord: seq<int>, b: nat, p: nat, k: nat, idCount: int)
    requires Shape(s) && IdsOk(s) && NewSlotsOk(s) && RefsOk(s, {}) && OrderOk(s, ord)
    requires b < NEW_BUCKET_COUNT && p < BUCKET_SIZE && k < |ord| && s.newTable[b][p] == ord[k]
    ensures PlaceIndex(Loaded(s, ord, |ord|, b, p, idCount), b, k, true) == Loaded(s, ord, |ord|, b, p + 1, idCount)
  {
    hide IdsOk, RefsOk, NewSlotsOk, LoadedNew, LoadedTried, Rename, BucketPosition;
    RenameOf(s, ord, k);
    HeldSlotTable(s, ord, b, p);
    HeldSlotInfo(s, ord, b, p, k, idCount);
    HeldSlotPosition(s, ord, b, p, k, idCount);
    SeenWithinLimit(s, ord, b, p, k);
  }

  lemma HolderRank(s: State, b: nat, p: nat) returns (k: nat)
    requires Writable(s) && b < NEW_BUCKET_COUNT && p < BUCKET_SIZE && s.newTable[b][p] != FREE
    ensures k == IndexOf(NewList(s), s.newTable[b][p]) && k < |Order(s)| && Order(s)[k] == s.newTable[b][p]
  {
    k := IndexOf(NewList(s), s.newTable[b][p]);
  }

  lemma {:induction false} ReadSlotsLoads(s: State, b: nat, p: nat, idCount: int, rest: seq<Token>)
    requires Loose(s, {}, 0) && Writable(s) && OrderOk(s, Order(s)) && b < NEW_BUCKET_COUNT && p <= BUCKET_SIZE
    ensures var ord := Order(s);
            ReadSlots(Loaded(s, ord, |ord|, b, p, idCount), b, |SlotTokens(s, b, p)|, true, SlotTokens(s, b, p) + rest)
            == Some((Loaded(s, ord, |ord|, b, BUCKET_SIZE, idCount), rest))
    decreases BUCKET_SIZE - p
  {
    hide RandomOk, AddrOk, TriedOk, RefsOk, CountsOk, NewSlotsOk, IdsOk, Loaded, PlaceIndex, Order, NewList, OrderOk;
    if p == BUCKET_SIZE {
      assert SlotTokens(s, b, p) + rest == rest;
    } else if s.newTable[b][p] == FREE {
      FreeSlotLoads(s, Order(s), b, p, idCount);
      ReadSlotsLoads(s, b, p + 1, idCount, rest);
    } else {
      var k := HolderRank(s, b, p);
      HeldSlotLoads(s, Order(s), b, p, k, idCount);
      ReadSlotsLoads(s, b, p + 1, idCount, rest);
      var tokens := SlotTokens(s, b, p) + rest;
      assert tokens[1..] == SlotTokens(s, b, p + 1) + rest;
    }
  }

  lemma {:induction false} ReadBucketsLoads(s: State, b: nat, idCount: int)
    requires Loose(s, {}, 0) && Writable(s) && OrderOk(s, Order(s)) && b <= NEW_BUCKET_COUNT
    ensures var ord := Order(s);
            ReadBuckets(Loaded(s, ord, |ord|, b, 0, idCount), b, NEW_BUCKET_COUNT, true, BucketTokens(s, b))
            == Some((Loaded(s, ord, |ord|, NEW_BUCKET_COUNT, 0, idCount), []))
    decreases NEW_BUCKET_COUNT - b
  {
    hide Loose, Loaded, ReadSlots, SlotTokens, Order, OrderOk;
    if b < NEW_BUCKET_COUNT {
      var rest := BucketTokens(s, b + 1);
      ReadSlotsLoads(s, b, 0, idCount, rest);
      BucketDone(s, Order(s), |Order(s)|, b, idCount);
      ReadBucketsLoads(s, b + 1, idCount);
      var tokens := BucketTokens(s, b);
      assert tokens[1..] == SlotTokens(s, b, 0) + rest;
    }
  }

  lemma {:induction false} NothingPruned(s: State, todo: set<int>)
    requires forall id :: id in s.info && !s.info[id].inTried ==> s.info[id].refCount != 0
    ensures Prune(s, todo) == (s, 0)
    decreases todo
  {
    if todo != {} {
      NothingPruned(s, todo - {Least(todo)});
    }
  }

  // ---------- the counts fit the limits checked on load ----------

  lemma NewCountFits(s: State)
    requires Loose(s, {}, 0)
    ensures 0 <= s.nNew <= NEW_BUCKET_COUNT * BUCKET_SIZE
  {
    hide RandomOk, AddrOk, TriedOk, IdsOk;
    var f := (k: nat) => if k < NEW_BUCKET_COUNT * BUCKET_SIZE then s.newTable[k / BUCKET_SIZE][k % BUCKET_SIZE]
        else FREE;
    var n := NEW_BUCKET_COUNT * BUCKET_SIZE;
    forall id | id in NewIds(s)
      ensures id in set k: nat | k < n :: f(k)
    {
      var b := Pick(NewBuckets(s, id));
      var k := b * BUCKET_SIZE + NewPos(s, id, b);
      assert k / BUCKET_SIZE == b && k % BUCKET_SIZE == NewPos(s, id, b);
      assert f(k) == id;
    }
    ImageSize(f, n);
    CardinalitySubset(NewIds(s), set k: nat | k < n :: f(k));
  }

  lemma TriedCountFits(s: State)
    requires Loose(s, {}, 0)
    ensures 0 <= s.nTried <= TRIED_BUCKET_COUNT * BUCKET_SIZE
  {
    hide RandomOk, AddrOk, NewSlotsOk, IdsOk, RefsOk;
    var f := (k: nat) => if k < TRIED_BUCKET_COUNT * BUCKET_SIZE then s.triedTable[k / BUCKET_SIZE][k % BUCKET_SIZE]
        else FREE;
    var n := TRIED_BUCKET_COUNT * BUCKET_SIZE;
    forall id | id in TriedIds(s)
      ensures id in set k: nat | k < n :: f(k)
    {
      var b, p := TriedRow(s, id), TriedPos(s, id);
      var k := b * BUCKET_SIZE + p;
      assert k / BUCKET_SIZE == b && k % BUCKET_SIZE == p;
      assert f(k) == id;
    }
    ImageSize(f, n);
    CardinalitySubset(TriedIds(s), set k: nat | k < n :: f(k));
  }

  // ---------- the round trip ----------

  /** The address manager that loading a saved `s` gives. */
  ghost function Restored(s: State): (t: State)
    requires Shape(s) && OrderOk(s, Order(s))
    ensures Shape(t)
  {
    Loaded(s, Order(s), |Order(s)|, NEW_BUCKET_COUNT, 0, |Order(s)|)
  }

  lemma RestoredRefs(s: State, k: nat)
    requires Loose(s, {}, 0) && OrderOk(s, Order(s)) && k < |Order(s)|
    ensures Seen(s, Order(s)[k], NEW_BUCKET_COUNT, 0) == NewBuckets(s, Order(s)[k])
    ensures Restored(s).info[k].refCount == s.info[Order(s)[k]].refCount
  {
    hide RandomOk, AddrOk, TriedOk, IdsOk, NewSlotsOk, Order;
    assert Seen(s, Order(s)[k], NEW_BUCKET_COUNT, 0) == NewBuckets(s, Order(s)[k]);
  }

  lemma OrderParts(s: State)
    requires Loose(s, {}, 0) && OrderOk(s, Order(s))
    ensures 0 <= s.nNew && 0 <= s.nTried && |Order(s)| == s.nNew + s.nTried
    ensures Order(s)[0..s.nNew] == NewList(s) && Order(s)[s.nNew..] == TriedList(s)
  {
    hide RandomOk, AddrOk, TriedOk, RefsOk, CountsOk, NewSlotsOk, IdsOk, NewList, TriedList;
    OrderFacts(s);
  }

  lemma BodyRoundTrip(s: State)
    requires Loose(s, {}, 0) && Writable(s) && OrderOk(s, Order(s))
    ensures UnserializeBody(Loaded(s, Order(s), 0, 0, 0, 0), NEW_BUCKET_COUNT, true,
                            EntryTokens(s, NewList(s)) + EntryTokens(s, TriedList(s)) + BucketTokens(s, 0))
         == Some(Load(Restored(s), 0, 0))
  {
    hide RandomOk, AddrOk, TriedOk, RefsOk, CountsOk, NewSlotsOk, IdsOk, ReadNew, ReadTried, ReadBuckets, EntryTokens,
         BucketTokens, LoadedTried, LoadedNew, LoadedInfo, Rename, Prune, Order, NewList, TriedList, OrderOk;
    var ord := Order(s);
    OrderParts(s);
    var news, trieds, buckets := EntryTokens(s, NewList(s)), EntryTokens(s, TriedList(s)), BucketTokens(s, 0);
    assert news + trieds + buckets == news + (trieds + buckets);
    ReadNewLoads(s, ord, 0, trieds + buckets);
    ReadTriedLoads(s, ord, s.nNew, buckets);
    ReadBucketsLoads(s, 0, |ord|);
    RestoredNotPruned(s);
  }

  lemma RestoredNotPruned(s: State)
    requires Loose(s, {}, 0) && OrderOk(s, Order(s))
    ensures Prune(Restored(s), Restored(s).info.Keys) == (Restored(s), 0)
  {
    hide RandomOk, AddrOk, TriedOk, RefsOk, CountsOk, NewSlotsOk, IdsOk, Order, LoadedTried, LoadedNew, Rename;
    forall id | id in Restored(s).info && !Restored(s).info[id].inTried
      ensures Restored(s).info[id].refCount != 0
    {
      RestoredRefs(s, id);
      ReferencedIfNew(s, id);
    }
    NothingPruned(Restored(s), Restored(s).info.Keys);
  }

  lemma ReferencedIfNew(s: State, k: nat)
    requires Loose(s, {}, 0) && OrderOk(s, Order(s)) && k < s.nNew
    ensures s.info[Order(s)[k]].refCount != 0
  {
    hide RandomOk, AddrOk, TriedOk, IdsOk, NewSlotsOk, Order;
    var id := Order(s)[k];
    assert id in s.info && !s.info[id].inTried;
  }

  /** The round trip for a loader whose pending collisions are those of the saver. */
  lemma OwnRoundTrip(s: State, randomKey: Key)
    requires Loose(s, {}, 0)
    ensures Writable(s) && OrderOk(s, Order(s))
    ensures Unserialize(s.net, randomKey, s.collisions, Serialize(s)) == Some(Load(Restored(s), 0, 0))
  {
    hide RandomOk, TriedOk, RefsOk, CountsOk, NewSlotsOk, IdsOk, UnserializeBody, EntryTokens, BucketTokens, Restored,
         Loaded;
    InvWritable(s);
    OrderIsOk(s);
    NewCountFits(s);
    TriedCountFits(s);
    NothingLoaded(s, Order(s));
    BodyRoundTrip(s);
    var tokens := Serialize(s);
    var body := EntryTokens(s, NewList(s)) + EntryTokens(s, TriedList(s)) + BucketTokens(s, 0);
    assert tokens[6..] == body;
  }

  /** `t` is `s` with every id replaced by its position in `ord`; the two times of attempts are not saved. */
  ghost predicate Renamed(s: State, t: State, ord: seq<int>)
    requires Shape(s) && Shape(t)
  {
    && t.key == s.key && t.nNew == s.nNew && t.nTried == s.nTried
    && (forall id :: id in s.info ==>
          Rename(ord, id) in t.info && RenamedEntry(ord, id, s.info[id], t.info[Rename(ord, id)]))
    && (forall j :: j in t.info ==> 0 <= j < |ord| && ord[j] in s.info && Rename(ord, ord[j]) == j)
    && (forall b, p :: 0 <= b < NEW_BUCKET_COUNT && 0 <= p < BUCKET_SIZE ==>
          t.newTable[b][p] == Rename(ord, s.newTable[b][p]))
    && (forall b, p :: 0 <= b < TRIED_BUCKET_COUNT && 0 <= p < BUCKET_SIZE ==>
          t.triedTable[b][p] == Rename(ord, s.triedTable[b][p]))
  }

  ghost predicate RenamedEntry(ord: seq<int>, id: int, i: Info, j: Info) {
    && 0 <= Rename(ord, id) < |ord| && ord[Rename(ord, id)] == id
    && j == i.(lastTry := 0, lastCountAttempt := 0, randomPos := Rename(ord, id))
  }

  lemma RestoredIsRenaming(s: State)
    requires Loose(s, {}, 0) && OrderOk(s, Order(s))
    ensures Renamed(s, Restored(s), Order(s))
  {
    hide RandomOk, AddrOk, TriedOk, RefsOk, CountsOk, NewSlotsOk, IdsOk, Order;
    var t, ord := Restored(s), Order(s);
    forall id | id in s.info
      ensures Rename(ord, id) in t.info && ord[Rename(ord, id)] == id
      ensures t.info[Rename(ord, id)] == s.info[id].(lastTry := 0, lastCountAttempt := 0, randomPos := Rename(ord, id))
    {
      assert id in ord;
      RestoredRefs(s, Rename(ord, id));
    }
    forall j | 0 <= j < |ord|
      ensures Rename(ord, ord[j]) == j
    {
      RenameOf(s, ord, j);
    }
  }

  lemma RestoredIndexes(s: State)
    requires Loose(s, {}, 0) && OrderOk(s, Order(s))
    ensures IdsOk(Restored(s)) && RandomOk(Restored(s)) && AddrOk(Restored(s))
  {
    hide RandomOk, TriedOk, RefsOk, CountsOk, NewSlotsOk, IdsOk, Order, LoadedTried, LoadedNew;
    RestoredIsRenaming(s);
    RestoredOrder(s);
    var t, ord := Restored(s), Order(s);
    forall id | id in t.info
      ensures var a := t.info[id].addr.service.net; a in t.addrIds && t.addrIds[a] == id
    {
      var x := ord[id];
      assert x in s.info;
      assert s.addrIds[s.info[x].addr.service.net] == x;
    }
    forall a | a in t.addrIds
      ensures t.addrIds[a] in t.info && t.info[t.addrIds[a]].addr.service.net == a
    {
      var x := s.addrIds[a];
      assert x in s.info;
    }
  }

  lemma RestoredOrder(s: State)
    requires Shape(s) && OrderOk(s, Order(s))
    ensures IdsOk(Restored(s)) && RandomOk(Restored(s))
  {
    hide Order, LoadedTried, LoadedNew, Rename;
  }

  lemma RestoredSlots(s: State)
    requires Loose(s, {}, 0) && OrderOk(s, Order(s))
    ensures TriedOk(Restored(s)) && NewSlotsOk(Restored(s))
  {
    hide RandomOk, AddrOk, RefsOk, CountsOk, Order, Restored, Rename;
    RestoredIsRenaming(s);
    var t, ord := Restored(s), Order(s);
    assert t.net == s.net by {
      RestoredNetwork(s);
    }
    RenameFree(s);
    forall b, p | 0 <= b < TRIED_BUCKET_COUNT && 0 <= p < BUCKET_SIZE && t.triedTable[b][p] != FREE
      ensures var id := t.triedTable[b][p];
              id in t.info && t.info[id].inTried && TriedRow(t, id) == b && TriedPos(t, id) == p
    {
      var x := s.triedTable[b][p];
      assert x != FREE;
      assert x in s.info;
    }
    forall id | id in t.info && t.info[id].inTried
      ensures t.triedTable[TriedRow(t, id)][TriedPos(t, id)] == id
    {
      var x := ord[id];
      assert x in s.info;
      assert s.triedTable[TriedRow(s, x)][TriedPos(s, x)] == x;
    }
    forall b, p | 0 <= b < NEW_BUCKET_COUNT && 0 <= p < BUCKET_SIZE && t.newTable[b][p] != FREE
      ensures var id := t.newTable[b][p];
              id in t.info && !t.info[id].inTried && NewPos(t, id, b) == p
    {
      var x := s.newTable[b][p];
      assert x != FREE;
      assert x in s.info;
    }
  }

  lemma RestoredNetwork(s: State)
    requires Shape(s) && OrderOk(s, Order(s))
    ensures Restored(s).net == s.net && Restored(s).collisions == s.collisions
  {
  }

  lemma RenameFree(s: State)
    requires IdsOk(s) && OrderOk(s, Order(s))
    ensures Rename(Order(s), FREE) == FREE
  {
    hide Order;
    assert forall k :: 0 <= k < |Order(s)| ==> Order(s)[k] != FREE;
  }

  lemma RestoredCounts(s: State)
    requires Loose(s, {}, 0) && OrderOk(s, Order(s))
    ensures RefsOk(Restored(s), {}) && CountsOk(Restored(s), 0)
  {
    hide RandomOk, AddrOk, TriedOk, CountsOk, NewSlotsOk, Order, Restored, Rename;
    RestoredIsRenaming(s);
    var t, ord := Restored(s), Order(s);
    RestoredNetwork(s);
    forall id | id in t.info
      ensures NewBuckets(t, id) == NewBuckets(s, ord[id])
    {
      RestoredBuckets(s, id);
    }
    RestoredCardinalities(s);
  }

  lemma RestoredBuckets(s: State, k: int)
    requires Loose(s, {}, 0) && OrderOk(s, Order(s)) && k in Restored(s).info
    ensures 0 <= k < |Order(s)| && NewBuckets(Restored(s), k) == NewBuckets(s, Order(s)[k])
  {
    hide RandomOk, AddrOk, TriedOk, CountsOk, RefsOk, Order, Restored, Rename;
    RestoredIsRenaming(s);
    RestoredNetwork(s);
    RenameFree(s);
    var t, ord := Restored(s), Order(s);
    var x := ord[k];
    assert x in s.info;
    forall b | 0 <= b < NEW_BUCKET_COUNT
      ensures t.newTable[b][NewPos(t, k, b)] == k <==> s.newTable[b][NewPos(s, x, b)] == x
    {
      var y := s.newTable[b][NewPos(s, x, b)];
      assert y != FREE ==> y in s.info;
    }
  }

  lemma RestoredCardinalities(s: State)
    requires Shape(s) && OrderOk(s, Order(s))
    ensures CountsOk(Restored(s), 0)
  {
    hide Order, LoadedTried, LoadedNew, Rename;
    var t, ord := Restored(s), Order(s);
    assert NewIds(t) == Range(0, s.nNew);
    assert TriedIds(t) == Range(s.nNew, s.nTried);
  }

  lemma RestoredLoose(s: State)
    requires Loose(s, {}, 0) && OrderOk(s, Order(s))
    ensures Loose(Restored(s), {}, 0)
  {
    hide RandomOk, AddrOk, TriedOk, RefsOk, CountsOk, NewSlotsOk, IdsOk, Order, Restored;
    RestoredIndexes(s);
    RestoredSlots(s);
    RestoredCounts(s);
  }

  // ---------- any loader ----------

  /** The state with other pending collisions; they are not saved, and a loader keeps its own. */
  function Under(s: State, pending: set<int>): State {
    s.(collisions := pending)
  }

  lemma {:induction false} EntryTokensSame(s: State, t: State, ids: seq<int>)
    requires t.info == s.info && forall k :: 0 <= k < |ids| ==> ids[k] in s.info
    ensures EntryTokens(t, ids) == EntryTokens(s, ids)
  {
    if ids != [] {
      EntryTokensSame(s, t, ids[1..]);
    }
  }

  lemma {:induction false} SlotTokensSame(s: State, t: State, b: nat, p: nat)
    requires Writable(s) && Writable(t) && t.newTable == s.newTable && NewList(t) == NewList(s)
    requires b < NEW_BUCKET_COUNT && p <= BUCKET_SIZE
    ensures SlotTokens(t, b, p) == SlotTokens(s, b, p)
    decreases BUCKET_SIZE - p
  {
    hide NewList, IndexOf;
    if p < BUCKET_SIZE {
      SlotTokensSame(s, t, b, p + 1);
    }
  }

  lemma {:induction false} BucketTokensSame(s: State, t: State, b: nat)
    requires Writable(s) && Writable(t) && t.newTable == s.newTable && NewList(t) == NewList(s) && b <= NEW_BUCKET_COUNT
    ensures BucketTokens(t, b) == BucketTokens(s, b)
    decreases NEW_BUCKET_COUNT - b
  {
    hide NewList, SlotTokens;
    if b < NEW_BUCKET_COUNT {
      SlotTokensSame(s, t, b, 0);
      BucketTokensSame(s, t, b + 1);
    }
  }

  lemma SameLists(s: State, pending: set<int>)
    ensures NewList(Under(s, pending)) == NewList(s) && TriedList(Under(s, pending)) == TriedList(s)
  {
    var t := Under(s, pending);
    assert ReferencedIds(t) == ReferencedIds(s) && TriedIds(t) == TriedIds(s);
  }

  lemma SameInvariant(s: State, pending: set<int>)
    requires Loose(s, {}, 0)
    ensures Loose(Under(s, pending), {}, 0)
  {
    var t := Under(s, pending);
    forall id | id in s.info
      ensures NewBuckets(t, id) == NewBuckets(s, id)
    {
    }
    assert NewIds(t) == NewIds(s) && TriedIds(t) == TriedIds(s);
  }

  /** The file does not depend on the pending collisions. */
  lemma SameFile(s: State, pending: set<int>)
    requires Loose(s, {}, 0)
    ensures Loose(Under(s, pending), {}, 0) && Writable(s) && Writable(Under(s, pending))
    ensures OrderOk(Under(s, pending), Order(Under(s, pending)))
    ensures Serialize(Under(s, pending)) == Serialize(s)
  {
    hide Loose, NewList, TriedList, EntryTokens, BucketTokens, OrderOk;
    var t := Under(s, pending);
    SameInvariant(s, pending);
    InvWritable(s);
    InvWritable(t);
    OrderIsOk(t);
    SameLists(s, pending);
    EntryTokensSame(s, t, NewList(s));
    EntryTokensSame(s, t, TriedList(s));
    BucketTokensSame(s, t, 0);
  }

  /** What a loader with `pending` collisions makes of the file of `s`. */
  ghost function Reloaded(s: State, pending: set<int>): (t: State)
    requires Loose(s, {}, 0)
    ensures Shape(t)
  {
    SameFile(s, pending);
    Restored(Under(s, pending))
  }

  /**
  Loading what Serialize wrote succeeds and loses neither a tried nor a new entry, whatever the loader has pending.
   */
  lemma RoundTrip(s: State, randomKey: Key, pending: set<int>)
    requires Loose(s, {}, 0)
    ensures Writable(s)
    ensures Unserialize(s.net, randomKey, pending, Serialize(s)) == Some(Load(Reloaded(s, pending), 0, 0))
  {
    hide Loose, Writable, OrderOk, Serialize, Unserialize, Restored;
    SameFile(s, pending);
    OwnRoundTrip(Under(s, pending), randomKey);
  }

  /**
  The loaded address manager is the saved one with its ids renamed: `Rename` maps the old ids one to one onto the
  new ones, every entry keeps its data and its references, and every slot of both tables holds the renamed entry.
   */
  lemma ReloadedIsRenaming(s: State, pending: set<int>)
    requires Loose(s, {}, 0)
    ensures Renamed(s, Reloaded(s, pending), Order(s)) && Reloaded(s, pending).collisions == pending
  {
    hide Loose, OrderOk, Restored, Rename, NewList, TriedList;
    SameFile(s, pending);
    SameLists(s, pending);
    RestoredIsRenaming(Under(s, pending));
    RestoredNetwork(Under(s, pending));
  }

  /** The loader's pending ids fit the file: at most ten, each the number of an entry whose tried slot is occupied. */
  ghost predicate PendingFits(s: State, pending: set<int>)
    requires Shape(s)
  {
    var ord := Order(s);
    && |pending| <= SET_TRIED_COLLISION_SIZE
    && (forall id :: id in pending ==> 0 <= id < |ord| && ord[id] in s.info && TriedSlotTaken(s, ord[id]))
  }

  predicate TriedSlotTaken(s: State, id: int)
    requires Shape(s) && id in s.info
  {
    s.triedTable[TriedRow(s, id)][TriedPos(s, id)] != FREE
  }

  lemma RestoredTriedSlot(s: State, id: int)
    requires Loose(s, {}, 0) && OrderOk(s, Order(s)) && 0 <= id < |Order(s)|
    ensures var t, x := Restored(s), Order(s)[id];
            && id in t.info && x in s.info
            && (TriedSlotTaken(t, id) <==> TriedSlotTaken(s, x))
  {
    hide RandomOk, AddrOk, RefsOk, CountsOk, NewSlotsOk, Order, Restored, Rename;
    RestoredIsRenaming(s);
    RestoredNetwork(s);
    RenameFree(s);
    var x := Order(s)[id];
    assert x in s.info;
    var y := s.triedTable[TriedRow(s, x)][TriedPos(s, x)];
    assert y != FREE ==> y in s.info;
  }

  lemma RestoredSize(s: State)
    requires Shape(s) && OrderOk(s, Order(s))
    ensures Restored(s).idCount == |Order(s)| && forall id :: id in Restored(s).info <==> 0 <= id < |Order(s)|
  {
    hide Order, LoadedTried, LoadedNew, Rename;
  }

  lemma RestoredInv(s: State)
    requires Loose(s, {}, 0) && OrderOk(s, Order(s))
    ensures Inv(Restored(s)) <==> PendingFits(s, s.collisions)
  {
    hide RandomOk, AddrOk, TriedOk, RefsOk, CountsOk, NewSlotsOk, IdsOk, Order, Restored, TriedRow, TriedPos;
    RestoredLoose(s);
    RestoredNetwork(s);
    RestoredSize(s);
    forall id | 0 <= id < |Order(s)|
      ensures Order(s)[id] in s.info && id in Restored(s).info
      ensures TriedSlotTaken(Restored(s), id) <==> TriedSlotTaken(s, Order(s)[id])
    {
      RestoredTriedSlot(s, id);
    }
  }

  /**
  The loaded address manager satisfies the full invariant if and only if the loader's pending collisions fit the file.
   */
  lemma ReloadedInv(s: State, pending: set<int>)
    requires Loose(s, {}, 0)
    ensures Loose(Reloaded(s, pending), {}, 0)
    ensures Inv(Reloaded(s, pending)) <==> PendingFits(s, pending)
    ensures Inv(Reloaded(s, {}))
  {
    hide Loose, OrderOk, Restored, CollisionsOk, PendingFits, Inv;
    SameFile(s, pending);
    RestoredLoose(Under(s, pending));
    RestoredInv(Under(s, pending));
    FitsUnder(s, pending);
    SameFile(s, {});
    RestoredInv(Under(s, {}));
    FitsUnder(s, {});
    NothingPending(s);
  }

  lemma FitsUnder(s: State, pending: set<int>)
    requires Shape(s)
    ensures PendingFits(Under(s, pending), pending) <==> PendingFits(s, pending)
  {
    SameLists(s, pending);
  }

  lemma NothingPending(s: State)
    requires Shape(s)
    ensures PendingFits(s, {})
  {
  }

  /** A consistent address manager of network `n` wrote the file. */
  ghost predicate Saved(s: State, n: Network, tokens: seq<Token>) {
    Loose(s, {}, 0) && Writable(s) && s.net == n && tokens == Serialize(s)
  }

  lemma SavedLoads(s: State, n: Network, randomKey: Key, pending: set<int>, tokens: seq<Token>)
    requires Saved(s, n, tokens)
    ensures Loose(s, {}, 0) && Unserialize(n, randomKey, pending, tokens) == Some(Load(Reloaded(s, pending), 0, 0))
    ensures Inv(Reloaded(s, pending)) <==> PendingFits(s, pending)
    ensures pending == {} ==> Inv(Reloaded(s, pending))
  {
    hide Loose, Unserialize, Serialize, Reloaded, PendingFits;
    RoundTrip(s, randomKey, pending);
    ReloadedInv(s, pending);
  }
}
