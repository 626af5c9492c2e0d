/**
The consistency invariant of the address manager and the proof that every operation keeps it.

Inside MakeTried, Add and ClearNew the tables pass through states in which some entries have no
slot at all.  `Loose` is the invariant with such entries listed in `floating`, and with the
counter of new entries `behind` the true number by a known amount; `Inv` is the case in which
nothing is loose.
 */
module AddrManInvariant {
  import opened AddrManState
  import opened Sets

  // ---------- the invariant ----------

  ghost predicate IdsOk(s: State) {
    0 <= s.idCount && forall id :: id in s.info ==> 0 <= id < s.idCount
  }

  /** The random-order vector and the positions stored in the entries are inverse to each other. */
  ghost predicate RandomOk(s: State) {
    && (forall i :: 0 <= i < |s.random| ==> s.random[i] in s.info && s.info[s.random[i]].randomPos == i)
    && (forall id :: id in s.info ==>
          0 <= s.info[id].randomPos < |s.random| && s.random[s.info[id].randomPos] == id)
  }

  /** The address index is a bijection onto the ids. */
  ghost predicate AddrOk(s: State) {
    && (forall id :: id in s.info ==>
          s.info[id].addr.service.net in s.addrIds && s.addrIds[s.info[id].addr.service.net] == id)
    && (forall a :: a in s.addrIds ==>
          s.addrIds[a] in s.info && s.info[s.addrIds[a]].addr.service.net == a)
  }

  /** Tried entries sit exactly in their own computed slot, and nothing else is in the table. */
  ghost predicate TriedOk(s: State)
    requires Shape(s)
  {
    && (forall b, p :: 0 <= b < TRIED_BUCKET_COUNT && 0 <= p < BUCKET_SIZE && s.triedTable[b][p] != FREE ==>
          var id := s.triedTable[b][p];
          id in s.info && s.info[id].inTried && TriedRow(s, id) == b && TriedPos(s, id) == p)
    && (forall id :: id in s.info && s.info[id].inTried ==>
          s.triedTable[TriedRow(s, id)][TriedPos(s, id)] == id)
  }

  /** Every occupied new slot holds an untried entry at that entry's position for the bucket. */
  ghost predicate NewSlotsOk(s: State)
    requires Shape(s)
  {
    forall b, p :: 0 <= b < NEW_BUCKET_COUNT && 0 <= p < BUCKET_SIZE && s.newTable[b][p] != FREE ==>
      var id := s.newTable[b][p];
      id in s.info && !s.info[id].inTried && NewPos(s, id, b) == p
  }

  /** Reference counts are exact, and within 1..8 for new entries that are not floating. */
  ghost predicate RefsOk(s: State, floating: set<int>)
    requires Shape(s)
  {
    && (forall id :: id in s.info ==> s.info[id].refCount == |NewBuckets(s, id)|)
    && (forall id :: id in s.info && !s.info[id].inTried && id !in floating ==>
          1 <= s.info[id].refCount <= NEW_BUCKETS_PER_ADDRESS)
    && (forall id :: id in floating ==> id in s.info && !s.info[id].inTried && s.info[id].refCount == 0)
  }

  ghost function NewIds(s: State): set<int> {
    set id | id in s.info && !s.info[id].inTried
  }

  ghost function TriedIds(s: State): set<int> {
    set id | id in s.info && s.info[id].inTried
  }

  ghost predicate CountsOk(s: State, behind: int) {
    s.nTried == |TriedIds(s)| && s.nNew == |NewIds(s)| - behind
  }

  ghost predicate Loose(s: State, floating: set<int>, behind: int) {
    && Shape(s)
    && IdsOk(s)
    && RandomOk(s)
    && AddrOk(s)
    && TriedOk(s)
    && NewSlotsOk(s)
    && RefsOk(s, floating)
    && CountsOk(s, behind)
  }

  /** Every pending collision that is still known has an occupied slot in the tried table. */
  ghost predicate CollisionsOk(s: State)
    requires Shape(s)
  {
    && |s.collisions| <= SET_TRIED_COLLISION_SIZE
    && (forall id :: id in s.collisions ==> 0 <= id < s.idCount)
    && (forall id :: id in s.collisions && id in s.info ==>
          s.triedTable[TriedRow(s, id)][TriedPos(s, id)] != FREE)
  }

  ghost predicate Inv(s: State) {
    Loose(s, {}, 0) && CollisionsOk(s)
  }

  // ---------- changes that touch statistics and random positions only ----------

  /** `t` differs from `s` at most in statistics of entries and in the random order. */
  ghost predicate SameStructure(s: State, t: State) {
    && t.net == s.net && t.key == s.key && t.idCount == s.idCount
    && t.addrIds == s.addrIds && t.triedTable == s.triedTable && t.newTable == s.newTable
    && t.nTried == s.nTried && t.nNew == s.nNew
    && t.info.Keys == s.info.Keys
    && (forall id :: id in s.info ==> id in t.info && SameEntry(s.info[id], t.info[id]))
  }

  ghost predicate SameEntry(i: Info, j: Info) {
    i.addr.service == j.addr.service && i.refCount == j.refCount && i.inTried == j.inTried
  }

  lemma StructureSame(s: State, t: State)
    requires Shape(s) && SameStructure(s, t)
    ensures NewIds(t) == NewIds(s) && TriedIds(t) == TriedIds(s)
    ensures forall id :: id in s.info ==> NewBuckets(t, id) == NewBuckets(s, id)
  {
    forall id | id in s.info
      ensures NewBuckets(t, id) == NewBuckets(s, id) && t.info[id].inTried == s.info[id].inTried
    {
      assert SameEntry(s.info[id], t.info[id]);
    }
    assert forall id :: id in t.info <==> id in s.info;
    assert forall id :: id in NewIds(t) <==> id in NewIds(s);
    assert forall id :: id in TriedIds(t) <==> id in TriedIds(s);
  }

  lemma StructureKeepsSlots(s: State, t: State)
    requires Shape(s) && TriedOk(s) && NewSlotsOk(s) && SameStructure(s, t)
    ensures TriedOk(t) && NewSlotsOk(t)
  {
    assert forall id :: id in t.info <==> id in s.info;
    assert forall id :: id in s.info ==> SameEntry(s.info[id], t.info[id]);
  }

  lemma StructureKeepsLoose(s: State, t: State, floating: set<int>, behind: int)
    requires Loose(s, floating, behind) && SameStructure(s, t) && RandomOk(t)
    ensures Loose(t, floating, behind)
  {
    hide RandomOk, TriedOk, NewSlotsOk;
    StructureSame(s, t);
    StructureKeepsSlots(s, t);
    assert forall id :: id in t.info <==> id in s.info;
    assert forall id :: id in s.info ==> SameEntry(s.info[id], t.info[id]);
  }

  lemma StructureKeepsCollisions(s: State, t: State)
    requires Shape(s) && CollisionsOk(s) && SameStructure(s, t) && t.collisions <= s.collisions
    ensures CollisionsOk(t)
  {
    CardinalitySubset(t.collisions, s.collisions);
  }

  lemma InfoUpdate(s: State, id: int, i: Info)
    requires Inv(s) && id in s.info && SameEntry(s.info[id], i) && i.randomPos == s.info[id].randomPos
    ensures Inv(WithInfo(s, id, i))
  {
    var t := WithInfo(s, id, i);
    StructureKeepsLoose(s, t, {}, 0);
    StructureKeepsCollisions(s, t);
  }

  // ---------- SwapRandom, Delete, ClearNew ----------

  lemma SwapEffect(s: State, i: nat, j: nat)
    requires RandomOk(s) && i < |s.random| && j < |s.random|
    ensures RandomOk(SwapRandom(s, i, j)) && SameStructure(s, SwapRandom(s, i, j))
    ensures SwapRandom(s, i, j).random == s.random[i := s.random[j]][j := s.random[i]]
    ensures SwapRandom(s, i, j).collisions == s.collisions
    ensures forall id :: id in s.info ==> SwapRandom(s, i, j).info[id].(randomPos := 0) == s.info[id].(randomPos := 0)
  {
    if i != j {
      assert s.random[i] != s.random[j];
    }
  }

  lemma SwapKeeps(s: State, i: nat, j: nat, floating: set<int>, behind: int)
    requires Loose(s, floating, behind) && i < |s.random| && j < |s.random|
    ensures Loose(SwapRandom(s, i, j), floating, behind)
  {
    hide IdsOk, AddrOk, RandomOk, TriedOk, NewSlotsOk, RefsOk, CountsOk, SwapRandom;
    SwapEffect(s, i, j);
    StructureKeepsLoose(s, SwapRandom(s, i, j), floating, behind);
  }

  lemma DeleteEffect(s: State, id: int)
    requires RandomOk(s) && id in s.info
    ensures Delete(s, id).info.Keys == s.info.Keys - {id}
    ensures forall x :: x in s.info && x != id ==> Delete(s, id).info[x].(randomPos := 0) == s.info[x].(randomPos := 0)
    ensures OnlyEntriesGone(s, Delete(s, id))
  {
  }

  lemma DeleteKeeps(s: State, id: int, floating: set<int>, behind: int)
    requires Loose(s, floating, behind) && id in floating
    ensures Loose(Delete(s, id), floating - {id}, behind)
  {
    hide IdsOk, AddrOk, RandomOk, TriedOk, NewSlotsOk, RefsOk, CountsOk, SwapRandom, WithoutLast;
    FloatingIsKnown(s, id, floating);
    DeleteIsSwap(s, id);
    var pos, last := s.info[id].randomPos, |s.random| - 1;
    SwapKeeps(s, pos, last, floating, behind);
    WithoutLastKeeps(SwapRandom(s, pos, last), id, floating, behind);
  }

  lemma FloatingIsKnown(s: State, id: int, floating: set<int>)
    requires Shape(s) && RefsOk(s, floating) && id in floating
    ensures id in s.info
  {
    hide NewBuckets;
  }

  lemma DeleteIsSwap(s: State, id: int)
    requires RandomOk(s) && id in s.info
    ensures var pos, last := s.info[id].randomPos, |s.random| - 1;
            && 0 <= pos <= last && id in SwapRandom(s, pos, last).info
            && |SwapRandom(s, pos, last).random| == last + 1 && SwapRandom(s, pos, last).random[last] == id
            && Delete(s, id) == WithoutLast(SwapRandom(s, pos, last), id)
  {
  }

  lemma WithoutLastKeeps(s: State, id: int, floating: set<int>, behind: int)
    requires Loose(s, floating, behind) && id in floating && s.random != [] && s.random[|s.random| - 1] == id
    ensures Loose(WithoutLast(s, id), floating - {id}, behind)
  {
    var t := WithoutLast(s, id);
    DeleteIndexes(s, t, id);
    assert NewIds(t) == NewIds(s) - {id} && TriedIds(t) == TriedIds(s);
    DeleteSlots(s, t, id, floating);
  }

  lemma DeleteIndexes(s: State, t: State, id: int)
    requires RandomOk(s) && AddrOk(s) && id in s.info && s.info[id].randomPos == |s.random| - 1
    requires t.info == s.info - {id} && t.random == s.random[..|s.random| - 1]
    requires t.addrIds == s.addrIds - {s.info[id].addr.service.net}
    ensures RandomOk(t) && AddrOk(t)
  {
  }

  /** Everything except the entries, their index, their order and the counter of new ones. */
  ghost predicate OnlyEntriesGone(s: State, t: State) {
    && t.net == s.net && t.key == s.key && t.idCount == s.idCount
    && t.triedTable == s.triedTable && t.newTable == s.newTable
    && t.nTried == s.nTried && t.lastGood == s.lastGood && t.collisions == s.collisions
  }

  lemma DeleteSlots(s: State, t: State, id: int, floating: set<int>)
    requires Shape(s) && Shape(t) && IdsOk(s) && TriedOk(s) && NewSlotsOk(s) && RefsOk(s, floating) && id in floating
    requires OnlyEntriesGone(s, t) && t.info == s.info - {id}
    ensures TriedOk(t) && NewSlotsOk(t) && RefsOk(t, floating - {id})
  {
    assert NewBuckets(s, id) == {};
    forall b, p | 0 <= b < NEW_BUCKET_COUNT && 0 <= p < BUCKET_SIZE
      ensures s.newTable[b][p] != id
    {
      assert b !in NewBuckets(s, id);
    }
    forall x | x in t.info
      ensures NewBuckets(t, x) == NewBuckets(s, x)
    {
    }
  }

  /** Changes of slots touch neither the order, nor the index, nor which entries there are. */
  ghost predicate SameIndexes(s: State, t: State) {
    && t.net == s.net && t.key == s.key
    && t.random == s.random && t.addrIds == s.addrIds && t.idCount == s.idCount
    && t.info.Keys == s.info.Keys
    && (forall x :: x in s.info ==>
          t.info[x].randomPos == s.info[x].randomPos && t.info[x].addr.service == s.info[x].addr.service)
  }

  lemma IndexesKept(s: State, t: State)
    requires IdsOk(s) && RandomOk(s) && AddrOk(s) && SameIndexes(s, t)
    ensures IdsOk(t) && RandomOk(t) && AddrOk(t)
  {
    assert forall x :: x in t.info <==> x in s.info;
    assert forall i :: 0 <= i < |t.random| ==> t.random[i] == s.random[i] && s.random[i] in s.info;
  }

  lemma SameBuckets(s: State, t: State, x: int)
    requires Shape(s) && Shape(t) && t.net == s.net && t.key == s.key && x in s.info && x in t.info
    requires t.info[x].addr.service == s.info[x].addr.service
    requires forall c :: 0 <= c < NEW_BUCKET_COUNT ==>
               (t.newTable[c][NewPos(s, x, c)] == x <==> s.newTable[c][NewPos(s, x, c)] == x)
    ensures NewBuckets(t, x) == NewBuckets(s, x)
  {
  }

  lemma DropSlotKeeps(s: State, b: nat, p: nat, floating: set<int>, behind: int)
    requires Loose(s, floating, behind) && b < NEW_BUCKET_COUNT && p < BUCKET_SIZE && s.newTable[b][p] != FREE
    ensures s.newTable[b][p] !in floating
    ensures Loose(DropSlot(s, b, p), FloatingAfterDrop(s, b, p, floating), behind)
  {
    hide TriedOk, RandomOk, AddrOk, RefsOk;
    DropSlotSlots(s, b, p);
    DropSlotRefs(s, b, p, floating);
    DropSlotCounts(s, b, p);
    IndexesKept(s, DropSlot(s, b, p));
  }

  ghost function FloatingAfterDrop(s: State, b: nat, p: nat, floating: set<int>): set<int>
    requires Shape(s) && b < NEW_BUCKET_COUNT && p < BUCKET_SIZE && s.newTable[b][p] in s.info
  {
    if s.info[s.newTable[b][p]].refCount == 1 then floating + {s.newTable[b][p]} else floating
  }

  lemma DropSlotCounts(s: State, b: nat, p: nat)
    requires Shape(s) && b < NEW_BUCKET_COUNT && p < BUCKET_SIZE && s.newTable[b][p] in s.info
    ensures NewIds(DropSlot(s, b, p)) == NewIds(s) && TriedIds(DropSlot(s, b, p)) == TriedIds(s)
  {
  }

  lemma DropSlotRefs(s: State, b: nat, p: nat, floating: set<int>)
    requires Shape(s) && IdsOk(s) && TriedOk(s) && NewSlotsOk(s) && RefsOk(s, floating)
    requires b < NEW_BUCKET_COUNT && p < BUCKET_SIZE && s.newTable[b][p] != FREE
    ensures s.newTable[b][p] !in floating
    ensures RefsOk(DropSlot(s, b, p), FloatingAfterDrop(s, b, p, floating))
  {
    hide TriedOk, NewSlotsOk, RefsOk, DropSlot, NewBuckets, FloatingAfterDrop;
    SlotIsBucket(s, b, p);
    DropSlotSlots(s, b, p);
    DropSlotCount(s, b, p, floating);
  }

  lemma SlotIsBucket(s: State, b: nat, p: nat)
    requires Shape(s) && NewSlotsOk(s) && b < NEW_BUCKET_COUNT && p < BUCKET_SIZE && s.newTable[b][p] != FREE
    ensures var id := s.newTable[b][p];
            && id in s.info && !s.info[id].inTried && b in NewBuckets(s, id)
            && NewBuckets(DropSlot(s, b, p), id) == NewBuckets(s, id) - {b}
  {
  }

  lemma DropSlotCount(s: State, b: nat, p: nat, floating: set<int>)
    requires Shape(s) && RefsOk(s, floating) && b < NEW_BUCKET_COUNT && p < BUCKET_SIZE
    requires var id := s.newTable[b][p];
             && id in s.info && !s.info[id].inTried && b in NewBuckets(s, id)
             && NewBuckets(DropSlot(s, b, p), id) == NewBuckets(s, id) - {b}
    requires forall x :: x in s.info && x != s.newTable[b][p] ==>
               NewBuckets(DropSlot(s, b, p), x) == NewBuckets(s, x)
    ensures s.newTable[b][p] !in floating
    ensures RefsOk(DropSlot(s, b, p), FloatingAfterDrop(s, b, p, floating))
  {
    hide NewBuckets;
  }

  lemma DropSlotSlots(s: State, b: nat, p: nat)
    requires Shape(s) && IdsOk(s) && TriedOk(s) && NewSlotsOk(s)
    requires b < NEW_BUCKET_COUNT && p < BUCKET_SIZE && s.newTable[b][p] != FREE
    ensures TriedOk(DropSlot(s, b, p)) && NewSlotsOk(DropSlot(s, b, p))
    ensures forall x :: x in s.info && x != s.newTable[b][p] ==> NewBuckets(DropSlot(s, b, p), x) == NewBuckets(s, x)
  {
    var id := s.newTable[b][p];
    var r := DropSlot(s, b, p);
    forall x | x in s.info && x != id
      ensures NewBuckets(r, x) == NewBuckets(s, x)
    {
      SameBuckets(s, r, x);
    }
  }

  lemma ClearNewKeeps(s: State, b: nat, p: nat, floating: set<int>, behind: int)
    requires Loose(s, floating, behind) && b < NEW_BUCKET_COUNT && p < BUCKET_SIZE
    ensures Loose(ClearNew(s, b, p), floating, behind)
  {
    hide TriedOk, RandomOk, AddrOk, RefsOk, CountsOk;
    var id := s.newTable[b][p];
    if id != FREE {
      DropSlotKeeps(s, b, p, floating, behind);
      var s1 := DropSlot(s, b, p);
      if s1.info[id].refCount == 0 {
        DeleteKeeps(s1, id, floating + {id}, behind);
        assert floating + {id} - {id} == floating;
      }
    }
  }

  /** What ClearNew leaves as it was: everything but the holder of the slot, which loses the slot. */
  ghost predicate Untouched(s: State, t: State, except: int) {
    && t.net == s.net && t.key == s.key && t.idCount == s.idCount
    && t.triedTable == s.triedTable && t.nTried == s.nTried && t.lastGood == s.lastGood && t.collisions == s.collisions
    && t.info.Keys <= s.info.Keys
    && (forall x :: x in s.info && x != except ==>
          x in t.info && t.info[x].(randomPos := 0) == s.info[x].(randomPos := 0))
  }

  lemma ClearNewEffect(s: State, b: nat, p: nat)
    requires Shape(s) && RandomOk(s) && NewSlotsOk(s) && b < NEW_BUCKET_COUNT && p < BUCKET_SIZE
    ensures ClearNew(s, b, p).newTable == SetSlot(s.newTable, b, p, FREE)
    ensures Untouched(s, ClearNew(s, b, p), s.newTable[b][p])
  {
    var id := s.newTable[b][p];
    if id == FREE {
      assert s.newTable[b] == s.newTable[b][p := FREE];
    } else {
      var s1 := DropSlot(s, b, p);
      assert RandomOk(s1);
      DeleteEffect(s1, id);
    }
  }

  // ---------- into a new slot ----------

  lemma PutSlotSlots(s: State, id: int, b: nat, refs: int)
    requires Shape(s) && IdsOk(s) && TriedOk(s) && NewSlotsOk(s)
    requires id in s.info && !s.info[id].inTried && b < NEW_BUCKET_COUNT && s.newTable[b][NewPos(s, id, b)] == FREE
    ensures var r := PutSlot(s, id, b, NewPos(s, id, b), refs);
            && TriedOk(r) && NewSlotsOk(r)
            && (forall x :: x in s.info && x != id ==> NewBuckets(r, x) == NewBuckets(s, x))
            && b !in NewBuckets(s, id) && NewBuckets(r, id) == NewBuckets(s, id) + {b}
  {
    var r := PutSlot(s, id, b, NewPos(s, id, b), refs);
    forall x | x in s.info && x != id
      ensures NewBuckets(r, x) == NewBuckets(s, x)
    {
      SameBuckets(s, r, x);
    }
  }

  lemma PutSlotRefs(s: State, id: int, b: nat, floating: set<int>)
    requires Shape(s) && RefsOk(s, floating) && id in s.info && !s.info[id].inTried && b < NEW_BUCKET_COUNT
    requires s.info[id].refCount < NEW_BUCKETS_PER_ADDRESS
    requires var r := PutSlot(s, id, b, NewPos(s, id, b), s.info[id].refCount + 1);
             && (forall x :: x in s.info && x != id ==> NewBuckets(r, x) == NewBuckets(s, x))
             && b !in NewBuckets(s, id) && NewBuckets(r, id) == NewBuckets(s, id) + {b}
    ensures RefsOk(PutSlot(s, id, b, NewPos(s, id, b), s.info[id].refCount + 1), floating - {id})
  {
    hide NewBuckets;
  }

  lemma PutSlotCounts(s: State, id: int, b: nat, behind: int)
    requires Shape(s) && CountsOk(s, behind) && id in s.info && b < NEW_BUCKET_COUNT
    ensures CountsOk(PutSlot(s, id, b, NewPos(s, id, b), s.info[id].refCount + 1), behind)
  {
    var r := PutSlot(s, id, b, NewPos(s, id, b), s.info[id].refCount + 1);
    assert NewIds(r) == NewIds(s) && TriedIds(r) == TriedIds(s);
  }

  lemma PutSlotKeeps(s: State, id: int, b: nat, floating: set<int>, behind: int)
    requires Loose(s, floating, behind) && id in s.info && !s.info[id].inTried
    requires b < NEW_BUCKET_COUNT && s.newTable[b][NewPos(s, id, b)] == FREE
    requires s.info[id].refCount < NEW_BUCKETS_PER_ADDRESS
    ensures Loose(PutSlot(s, id, b, NewPos(s, id, b), s.info[id].refCount + 1), floating - {id}, behind)
  {
    hide TriedOk, NewSlotsOk, RandomOk, AddrOk, IdsOk, RefsOk, CountsOk, NewBuckets;
    PutSlotSlots(s, id, b, s.info[id].refCount + 1);
    PutSlotRefs(s, id, b, floating);
    PutSlotCounts(s, id, b, behind);
    IndexesKept(s, PutSlot(s, id, b, NewPos(s, id, b), s.info[id].refCount + 1));
  }

  // ---------- MakeTried ----------

  lemma LeaveNewSlots(s: State, id: int)
    requires Shape(s) && IdsOk(s) && TriedOk(s) && NewSlotsOk(s) && id in s.info
    ensures TriedOk(LeaveNew(s, id)) && NewSlotsOk(LeaveNew(s, id))
    ensures NewBuckets(LeaveNew(s, id), id) == {}
    ensures forall x :: x in s.info && x != id ==> NewBuckets(LeaveNew(s, id), x) == NewBuckets(s, x)
  {
    var r := LeaveNew(s, id);
    assert NewSlotsOk(r);
    forall x | x in s.info && x != id
      ensures NewBuckets(r, x) == NewBuckets(s, x)
    {
      SameBuckets(s, r, x);
    }
  }

  lemma LeaveNewRefs(s: State, id: int)
    requires Shape(s) && RefsOk(s, {}) && id in s.info && !s.info[id].inTried
    requires NewBuckets(LeaveNew(s, id), id) == {}
    requires forall x :: x in s.info && x != id ==> NewBuckets(LeaveNew(s, id), x) == NewBuckets(s, x)
    ensures RefsOk(LeaveNew(s, id), {id})
  {
    hide NewBuckets, Vacated;
  }

  lemma LeaveNewCounts(s: State, id: int)
    requires Shape(s) && CountsOk(s, 0) && id in s.info
    ensures CountsOk(LeaveNew(s, id), 1)
  {
    hide NewBuckets, Vacated;
    var r := LeaveNew(s, id);
    assert NewIds(r) == NewIds(s) && TriedIds(r) == TriedIds(s);
  }

  lemma LeaveNewKeeps(s: State, id: int)
    requires Loose(s, {}, 0) && id in s.info && !s.info[id].inTried
    ensures Loose(LeaveNew(s, id), {id}, 1)
  {
    hide TriedOk, NewSlotsOk, RandomOk, AddrOk, IdsOk, RefsOk, CountsOk, NewBuckets, Vacated;
    LeaveNewSlots(s, id);
    LeaveNewRefs(s, id);
    LeaveNewCounts(s, id);
    IndexesKept(s, LeaveNew(s, id));
  }

  lemma LeaveTriedSlots(s: State, b: nat, p: nat)
    requires Shape(s) && IdsOk(s) && TriedOk(s) && NewSlotsOk(s)
    requires b < TRIED_BUCKET_COUNT && p < BUCKET_SIZE && s.triedTable[b][p] != FREE
    ensures TriedOk(LeaveTried(s, b, p)) && NewSlotsOk(LeaveTried(s, b, p))
    ensures NewBuckets(s, s.triedTable[b][p]) == {}
  {
    var id := s.triedTable[b][p];
    assert forall c :: 0 <= c < NEW_BUCKET_COUNT ==> s.newTable[c][NewPos(s, id, c)] != id;
  }

  lemma LeaveTriedCounts(s: State, b: nat, p: nat)
    requires Shape(s) && b < TRIED_BUCKET_COUNT && p < BUCKET_SIZE
    requires s.triedTable[b][p] in s.info && s.info[s.triedTable[b][p]].inTried
    ensures var id, r := s.triedTable[b][p], LeaveTried(s, b, p);
            && id in TriedIds(s) && TriedIds(r) == TriedIds(s) - {id}
            && id !in NewIds(s) && NewIds(r) == NewIds(s) + {id}
            && (forall x :: x in s.info ==> NewBuckets(r, x) == NewBuckets(s, x))
  {
    var r := LeaveTried(s, b, p);
    forall x | x in s.info
      ensures NewBuckets(r, x) == NewBuckets(s, x)
    {
      SameBuckets(s, r, x);
    }
  }

  lemma TriedHolder(s: State, b: nat, p: nat)
    requires Shape(s) && TriedOk(s) && b < TRIED_BUCKET_COUNT && p < BUCKET_SIZE && s.triedTable[b][p] != FREE
    ensures s.triedTable[b][p] in s.info && s.info[s.triedTable[b][p]].inTried
  {
  }

  lemma LeaveTriedRefs(s: State, b: nat, p: nat, floating: set<int>)
    requires Shape(s) && RefsOk(s, floating) && b < TRIED_BUCKET_COUNT && p < BUCKET_SIZE
    requires s.triedTable[b][p] in s.info && s.info[s.triedTable[b][p]].inTried
    requires NewBuckets(s, s.triedTable[b][p]) == {}
    ensures s.triedTable[b][p] !in floating
    ensures RefsOk(LeaveTried(s, b, p), floating + {s.triedTable[b][p]})
  {
    LeaveTriedCounts(s, b, p);
  }

  lemma LeaveTriedKeeps(s: State, b: nat, p: nat, floating: set<int>, behind: int)
    requires Loose(s, floating, behind) && b < TRIED_BUCKET_COUNT && p < BUCKET_SIZE && s.triedTable[b][p] != FREE
    ensures s.triedTable[b][p] !in floating
    ensures Loose(LeaveTried(s, b, p), floating + {s.triedTable[b][p]}, behind + 1)
  {
    hide TriedOk, NewSlotsOk, RandomOk, AddrOk, IdsOk, RefsOk;
    TriedHolder(s, b, p);
    var r := LeaveTried(s, b, p);
    LeaveTriedSlots(s, b, p);
    LeaveTriedRefs(s, b, p, floating);
    LeaveTriedCounts(s, b, p);
    IndexesKept(s, r);
  }

  ghost function SourceBucket(s: State, id: int): (b: nat)
    requires id in s.info
    ensures b < NEW_BUCKET_COUNT
  {
    NewBucket(s.net, s.key, s.info[id].addr.service, s.info[id].source)
  }

  lemma FloatingHasNoSlot(s: State, id: int, floating: set<int>, b: nat)
    requires Shape(s) && RefsOk(s, floating) && id in floating && b < NEW_BUCKET_COUNT
    ensures id in s.info && !s.info[id].inTried && s.info[id].refCount == 0
    ensures s.newTable[b][NewPos(s, id, b)] != id
  {
    assert b !in NewBuckets(s, id);
  }

  lemma BackToNewKeeps(s: State, id: int, floating: set<int>, behind: int)
    requires Loose(s, floating, behind) && id in floating
    ensures Loose(BackToNew(s, id), floating - {id}, behind - 1)
  {
    hide TriedOk, NewSlotsOk, RandomOk, AddrOk, IdsOk, CountsOk;
    var b := SourceBucket(s, id);
    FloatingHasNoSlot(s, id, floating, b);
    var p := NewPos(s, id, b);
    ClearNewKeeps(s, b, p, floating, behind);
    ClearNewEffect(s, b, p);
    var s1 := ClearNew(s, b, p);
    PutSlotKeeps(s1, id, b, floating, behind);
    CountUp(PutSlot(s1, id, b, p, 1), floating - {id}, behind);
  }

  lemma CountUp(s: State, floating: set<int>, behind: int)
    requires Loose(s, floating, behind)
    ensures Loose(s.(nNew := s.nNew + 1), floating, behind - 1)
  {
    var t := s.(nNew := s.nNew + 1);
    assert NewIds(t) == NewIds(s) && TriedIds(t) == TriedIds(s);
    forall x | x in s.info
      ensures NewBuckets(t, x) == NewBuckets(s, x)
    {
    }
  }

  lemma EnterTriedSlots(s: State, id: int)
    requires Shape(s) && IdsOk(s) && TriedOk(s) && NewSlotsOk(s)
    requires id in s.info && !s.info[id].inTried && NewBuckets(s, id) == {}
    requires s.triedTable[TriedRow(s, id)][TriedPos(s, id)] == FREE
    ensures TriedOk(EnterTried(s, id, TriedRow(s, id), TriedPos(s, id)))
    ensures NewSlotsOk(EnterTried(s, id, TriedRow(s, id), TriedPos(s, id)))
  {
    forall c, q | 0 <= c < NEW_BUCKET_COUNT && 0 <= q < BUCKET_SIZE
      ensures s.newTable[c][q] != id
    {
      assert c !in NewBuckets(s, id);
    }
  }

  lemma EnterTriedCounts(s: State, id: int)
    requires Shape(s) && id in s.info && !s.info[id].inTried
    ensures var r := EnterTried(s, id, TriedRow(s, id), TriedPos(s, id));
            && id !in TriedIds(s) && TriedIds(r) == TriedIds(s) + {id}
            && id in NewIds(s) && NewIds(r) == NewIds(s) - {id}
            && (forall x :: x in s.info ==> NewBuckets(r, x) == NewBuckets(s, x))
  {
    var r := EnterTried(s, id, TriedRow(s, id), TriedPos(s, id));
    forall x | x in s.info
      ensures NewBuckets(r, x) == NewBuckets(s, x)
    {
      SameBuckets(s, r, x);
    }
  }

  lemma EnterTriedRefs(s: State, id: int)
    requires Shape(s) && RefsOk(s, {id}) && id in s.info && !s.info[id].inTried
    ensures RefsOk(EnterTried(s, id, TriedRow(s, id), TriedPos(s, id)), {})
  {
    EnterTriedCounts(s, id);
  }

  lemma EnterTriedKeeps(s: State, id: int)
    requires Loose(s, {id}, 1) && id in s.info && s.triedTable[TriedRow(s, id)][TriedPos(s, id)] == FREE
    ensures Loose(EnterTried(s, id, TriedRow(s, id), TriedPos(s, id)), {}, 0)
  {
    hide TriedOk, NewSlotsOk, RandomOk, AddrOk, IdsOk, RefsOk;
    FloatingHasNoSlots(s, id);
    EnterTriedSlots(s, id);
    EnterTriedRefs(s, id);
    EnterTriedCounts(s, id);
    IndexesKept(s, EnterTried(s, id, TriedRow(s, id), TriedPos(s, id)));
  }

  lemma FloatingHasNoSlots(s: State, id: int)
    requires Shape(s) && RefsOk(s, {id})
    ensures id in s.info && !s.info[id].inTried && NewBuckets(s, id) == {}
  {
  }
}
