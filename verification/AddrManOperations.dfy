/**
Every operation of the address manager keeps the invariant, and what each of them does to the
entries: who is moved, who may be forgotten, and what can never be lost.
 */
module AddrManOperations {
  import opened Wrappers
  import opened AddrManState
  import opened AddrManInvariant
  import opened Sets

  /** An entry without its place in the tables. */
  function Bare(i: Info): Info {
    i.(refCount := 0, inTried := false, randomPos := 0)
  }

  /** All entries survive with their data, except possibly `lost`, which was not a tried entry. */
  ghost predicate Survive(s: State, t: State, lost: int) {
    && t.net == s.net && t.key == s.key && t.idCount == s.idCount
    && t.lastGood == s.lastGood && t.collisions == s.collisions
    && t.info.Keys <= s.info.Keys
    && (forall x :: x in s.info && x != lost ==> x in t.info && Bare(t.info[x]) == Bare(s.info[x]))
    && (lost in s.info && lost in t.info ==> Bare(t.info[lost]) == Bare(s.info[lost]))
    && (lost in s.info && lost !in t.info ==> !s.info[lost].inTried)
  }

  /** Slots of the tried table, once occupied, stay occupied. */
  ghost predicate TriedGrows(s: State, t: State)
    requires Shape(s) && Shape(t)
  {
    forall b, p :: 0 <= b < TRIED_BUCKET_COUNT && 0 <= p < BUCKET_SIZE && s.triedTable[b][p] != FREE ==>
      t.triedTable[b][p] != FREE
  }

  lemma CollisionsKept(s: State, t: State)
    requires Shape(s) && Shape(t) && CollisionsOk(s) && TriedGrows(s, t)
    requires t.net == s.net && t.key == s.key && t.idCount >= s.idCount && t.collisions <= s.collisions
    requires forall x :: x in s.collisions && x in t.info ==>
               x in s.info && t.info[x].addr.service == s.info[x].addr.service
    ensures CollisionsOk(t)
  {
    CardinalitySubset(t.collisions, s.collisions);
  }

  // ---------- MakeTried ----------

  lemma ClearNewSurvive(s: State, b: nat, p: nat)
    requires Shape(s) && RandomOk(s) && NewSlotsOk(s) && b < NEW_BUCKET_COUNT && p < BUCKET_SIZE
    ensures Survive(s, ClearNew(s, b, p), s.newTable[b][p])
    ensures ClearNew(s, b, p).triedTable == s.triedTable
    ensures ClearNew(s, b, p).newTable == SetSlot(s.newTable, b, p, FREE)
  {
    ClearNewEffect(s, b, p);
    var t := ClearNew(s, b, p);
    forall x | x in s.info && x != s.newTable[b][p]
      ensures x in t.info && Bare(t.info[x]) == Bare(s.info[x])
    {
      assert t.info[x].(randomPos := 0) == s.info[x].(randomPos := 0);
    }
  }

  /** The entry that gives way when `id` returns to the new table. */
  function Displaced(s: State, id: int): int
    requires Shape(s) && id in s.info
  {
    var b := NewBucket(s.net, s.key, s.info[id].addr.service, s.info[id].source);
    s.newTable[b][NewPos(s, id, b)]
  }

  lemma BackToNewSurvive(s: State, id: int)
    requires Shape(s) && RandomOk(s) && NewSlotsOk(s) && id in s.info && Displaced(s, id) != id
    ensures Survive(s, BackToNew(s, id), Displaced(s, id))
    ensures BackToNew(s, id).triedTable == s.triedTable
    ensures id in BackToNew(s, id).info && BackToNew(s, id).info[id].inTried == s.info[id].inTried
  {
    hide ClearNew;
    var b := SourceBucket(s, id);
    ClearNewSurvive(s, b, NewPos(s, id, b));
    ClearNewEffect(s, b, NewPos(s, id, b));
    assert ClearNew(s, b, NewPos(s, id, b)).info[id].(randomPos := 0) == s.info[id].(randomPos := 0);
  }

  /** The entry forgotten by MakeTried, if any: FREE when no tried entry has to be evicted. */
  function Forgotten(s: State, id: int): int
    requires Shape(s) && id in s.info
  {
    var evicted := s.triedTable[TriedRow(s, id)][TriedPos(s, id)];
    if evicted == FREE || evicted !in s.info then FREE else Displaced(LeaveNew(s, id), evicted)
  }

  lemma EvictKeeps(s: State, id: int, b: nat, p: nat)
    requires Loose(s, {id}, 1) && id in s.info && b < TRIED_BUCKET_COUNT && p < BUCKET_SIZE
    ensures Loose(Evict(s, b, p), {id}, 1)
  {
    hide TriedOk, NewSlotsOk, RandomOk, AddrOk, IdsOk, RefsOk, CountsOk;
    if s.triedTable[b][p] != FREE {
      var old_ := s.triedTable[b][p];
      TriedHolder(s, b, p);
      LeaveTriedKeeps(s, b, p, {id}, 1);
      BackToNewKeeps(LeaveTried(s, b, p), old_, {id} + {old_}, 2);
      assert {id} + {old_} - {old_} == {id};
    }
  }

  lemma EvictEffect(s: State, id: int, b: nat, p: nat)
    requires Loose(s, {id}, 1) && id in s.info && b < TRIED_BUCKET_COUNT && p < BUCKET_SIZE
    ensures Evict(s, b, p).triedTable == SetSlot(s.triedTable, b, p, FREE)
    ensures id in Evict(s, b, p).info
    ensures var old_ := s.triedTable[b][p];
            old_ in s.info ==>
              && Survive(s, Evict(s, b, p), Displaced(s, old_))
              && old_ in Evict(s, b, p).info && !Evict(s, b, p).info[old_].inTried
    ensures s.triedTable[b][p] !in s.info ==> Evict(s, b, p) == s
  {
    hide TriedOk, NewSlotsOk, RandomOk, AddrOk, IdsOk, CountsOk, RefsOk, LeaveTried, BackToNew, Survive, Displaced;
    var old_ := s.triedTable[b][p];
    if old_ == FREE {
      assert s.triedTable[b] == s.triedTable[b][p := FREE];
      FreeIsNoId(s);
    } else {
      TriedHolder(s, b, p);
      EvictHolder(s, id, b, p);
    }
  }

  lemma EvictHolder(s: State, id: int, b: nat, p: nat)
    requires Loose(s, {id}, 1) && id in s.info && b < TRIED_BUCKET_COUNT && p < BUCKET_SIZE
    requires s.triedTable[b][p] != FREE && s.triedTable[b][p] in s.info
    ensures var old_, t := s.triedTable[b][p], BackToNew(LeaveTried(s, b, p), s.triedTable[b][p]);
            && t.triedTable == SetSlot(s.triedTable, b, p, FREE) && id in t.info
            && Survive(s, t, Displaced(s, old_)) && old_ in t.info && !t.info[old_].inTried
  {
    hide TriedOk, NewSlotsOk, RandomOk, AddrOk, IdsOk, CountsOk, RefsOk, BackToNew;
    var old_ := s.triedTable[b][p];
    LeaveTriedKeeps(s, b, p, {id}, 1);
    var s1 := LeaveTried(s, b, p);
    var nb := SourceBucket(s1, old_);
    FloatingHasNoSlot(s1, old_, {id} + {old_}, nb);
    FloatingHasNoSlot(s1, id, {id} + {old_}, nb);
    BackToNewSurvive(s1, old_);
    NotDisplaced(s, id, old_);
  }

  lemma FreeIsNoId(s: State)
    requires IdsOk(s)
    ensures FREE !in s.info
  {
  }

  /** A floating entry holds no slot, so it is not the one displaced. */
  lemma NotDisplaced(s: State, id: int, other: int)
    requires Shape(s) && NewSlotsOk(s) && RefsOk(s, {id}) && IdsOk(s) && other in s.info
    ensures Displaced(s, other) != id
  {
    var b := SourceBucket(s, other);
    assert b !in NewBuckets(s, id);
  }

  lemma MakeTriedKeeps(s: State, id: int)
    requires Loose(s, {}, 0) && id in s.info && !s.info[id].inTried
    ensures Loose(MakeTried(s, id), {}, 0)
  {
    hide TriedOk, NewSlotsOk, RandomOk, AddrOk, IdsOk, RefsOk, CountsOk;
    var b, p := TriedRow(s, id), TriedPos(s, id);
    LeaveNewKeeps(s, id);
    var s1 := LeaveNew(s, id);
    EvictKeeps(s1, id, b, p);
    EvictEffect(s1, id, b, p);
    var s2 := Evict(s1, b, p);
    EnterTriedKeeps(s2, id);
  }

  /** Steps that lose nobody, before and after one that may lose `lost`. */
  lemma SurviveChain(s: State, s1: State, s2: State, t: State, lost: int)
    requires Survive(s, s1, FREE) && FREE !in s.info && Survive(s1, s2, lost) && Survive(s2, t, FREE)
    requires lost in s.info && lost !in s2.info ==> !s.info[lost].inTried
    ensures Survive(s, t, lost)
  {
    assert FREE !in s1.info && FREE !in s2.info;
    forall x | x in s.info && (x != lost || x in s2.info)
      ensures x in t.info && Bare(t.info[x]) == Bare(s.info[x])
    {
      assert Bare(s1.info[x]) == Bare(s.info[x]);
      assert Bare(s2.info[x]) == Bare(s1.info[x]);
    }
  }

  lemma MakeTriedEffect(s: State, id: int)
    requires Loose(s, {}, 0) && id in s.info && !s.info[id].inTried
    ensures MakeTried(s, id).triedTable == SetSlot(s.triedTable, TriedRow(s, id), TriedPos(s, id), id)
    ensures id in MakeTried(s, id).info && MakeTried(s, id).info[id].inTried
    ensures Survive(s, MakeTried(s, id), Forgotten(s, id)) && Forgotten(s, id) != id
    ensures var evicted := s.triedTable[TriedRow(s, id)][TriedPos(s, id)];
            evicted in s.info ==> evicted in MakeTried(s, id).info && !MakeTried(s, id).info[evicted].inTried
  {
    hide TriedOk, NewSlotsOk, RandomOk, AddrOk, CountsOk, RefsOk, IdsOk;
    FreeIsNoId(s);
    var b, p := TriedRow(s, id), TriedPos(s, id);
    LeaveNewKeeps(s, id);
    var s1 := LeaveNew(s, id);
    EvictEffect(s1, id, b, p);
    var s2 := Evict(s1, b, p);
    var t := EnterTried(s2, id, b, p);
    var evicted := s.triedTable[b][p];
    NotInTriedTable(s, id, b, p);
    assert Survive(s, s1, FREE) && Survive(s2, t, FREE);
    SetSlotTwice(s.triedTable, b, p, id);
    if evicted in s.info {
      NotDisplaced(s1, id, evicted);
      SurviveChain(s, s1, s2, t, Displaced(s1, evicted));
    }
  }

  lemma SetSlotTwice(t: seq<seq<int>>, b: nat, p: nat, id: int)
    requires b < |t| && p < |t[b]|
    ensures SetSlot(SetSlot(t, b, p, FREE), b, p, id) == SetSlot(t, b, p, id)
  {
    assert t[b][p := FREE][p := id] == t[b][p := id];
  }

  lemma NotInTriedTable(s: State, id: int, b: nat, p: nat)
    requires Shape(s) && IdsOk(s) && TriedOk(s) && id in s.info && !s.info[id].inTried
    requires b < TRIED_BUCKET_COUNT && p < BUCKET_SIZE
    ensures s.triedTable[b][p] != id
  {
  }

  // ---------- Good ----------

  lemma LeavesCollisions(s: State, id: int)
    requires Inv(s) && id in s.info && !s.info[id].inTried
    ensures Inv(MakeTried(s, id))
  {
    hide TriedOk, NewSlotsOk, RandomOk, AddrOk, IdsOk, RefsOk, CountsOk, CollisionsOk;
    MakeTriedKeeps(s, id);
    MakeTriedEffect(s, id);
    FreeIsNoId(s);
    var r := MakeTried(s, id);
    SurviveKeepsCollisions(s, r, Forgotten(s, id));
  }

  lemma SurviveKeepsCollisions(s: State, t: State, lost: int)
    requires Shape(s) && Shape(t) && CollisionsOk(s) && Survive(s, t, lost) && TriedGrows(s, t)
    ensures CollisionsOk(t)
  {
    forall x | x in s.collisions && x in t.info
      ensures x in s.info && t.info[x].addr.service == s.info[x].addr.service
    {
      assert Bare(t.info[x]) == Bare(s.info[x]);
    }
    CollisionsKept(s, t);
  }

  /** The entry Good is about, when its address is known with the same port. */
  ghost predicate Knows(s: State, addr: Service, id: int) {
    Find(s, addr.net) == Some(id) && s.info[id].addr.service == addr
  }

  /** The statistics Good writes before it decides about the tables. */
  function Marked(s: State, id: int, time: int): State
    requires id in s.info
  {
    WithInfo(s.(lastGood := time), id, s.info[id].(lastSuccess := time, lastTry := time, attempts := 0))
  }

  lemma MarkedKeeps(s: State, id: int, time: int)
    requires Inv(s) && id in s.info
    ensures Inv(Marked(s, id, time)) && Inv(s.(lastGood := time))
    ensures Marked(s, id, time).triedTable == s.triedTable
  {
    var s0 := s.(lastGood := time);
    LastGoodIrrelevant(s, time);
    InfoUpdate(s0, id, s.info[id].(lastSuccess := time, lastTry := time, attempts := 0));
  }

  lemma LastGoodIrrelevant(s: State, time: int)
    requires Inv(s)
    ensures Inv(s.(lastGood := time))
  {
    var t := s.(lastGood := time);
    StructureKeepsLoose(s, t, {}, 0);
    StructureKeepsCollisions(s, t);
  }

  lemma HasNewBucket(s: State, id: int)
    requires Loose(s, {}, 0) && id in s.info && !s.info[id].inTried
    ensures NewBuckets(s, id) != {}
  {
  }

  lemma GoodKeeps(s: State, addr: Service, testBeforeEvict: bool, time: int)
    requires Inv(s)
    ensures Inv(Good(s, addr, testBeforeEvict, time))
  {
    hide TriedOk, NewSlotsOk, RandomOk, AddrOk, IdsOk, RefsOk, CountsOk, CollisionsOk, MakeTried;
    LastGoodIrrelevant(s, time);
    match Find(s.(lastGood := time), addr.net) {
      case None =>
      case Some(id) =>
        if s.info[id].addr.service == addr {
          MarkedKeeps(s, id, time);
          var s1 := Marked(s, id, time);
          if !s1.info[id].inTried && !(testBeforeEvict && s1.triedTable[TriedRow(s1, id)][TriedPos(s1, id)] != FREE) {
            LeavesCollisions(s1, id);
          } else if !s1.info[id].inTried && |s1.collisions| < SET_TRIED_COLLISION_SIZE {
            RecordCollision(s1, id);
          }
        }
    }
  }

  lemma RecordCollision(s: State, id: int)
    requires Inv(s) && id in s.info && s.triedTable[TriedRow(s, id)][TriedPos(s, id)] != FREE
    requires |s.collisions| < SET_TRIED_COLLISION_SIZE
    ensures Inv(s.(collisions := s.collisions + {id}))
  {
    var t := s.(collisions := s.collisions + {id});
    StructureKeepsLoose(s, t, {}, 0);
  }

  // ---------- Add ----------

  lemma PlaceNewKeeps(s: State, id: int, source: NetAddr, now: int, floating: set<int>)
    requires Loose(s, floating, 0) && floating <= {id} && id in s.info && !s.info[id].inTried
    requires s.info[id].refCount < NEW_BUCKETS_PER_ADDRESS
    ensures Loose(PlaceNew(s, id, source, now), {}, 0)
  {
    hide TriedOk, NewSlotsOk, RandomOk, AddrOk, IdsOk, CountsOk, ClearNew, PutSlot, Delete;
    var b := NewBucket(s.net, s.key, s.info[id].addr.service, source);
    var p := NewPos(s, id, b);
    assert floating - {id} == {};
    assert id !in floating ==> floating == {};
    if s.newTable[b][p] == id {
      SlotHolderNotFloating(s, b, p, floating);
    } else {
      ClearNewKeeps(s, b, p, floating, 0);
      ClearNewEffect(s, b, p);
      PutSlotKeeps(ClearNew(s, b, p), id, b, floating, 0);
      if id in floating {
        DeleteKeeps(s, id, floating, 0);
      }
    }
  }

  lemma SlotHolderNotFloating(s: State, b: nat, p: nat, floating: set<int>)
    requires Shape(s) && NewSlotsOk(s) && IdsOk(s) && RefsOk(s, floating)
    requires b < NEW_BUCKET_COUNT && p < BUCKET_SIZE && s.newTable[b][p] in s.info
    ensures s.newTable[b][p] !in floating
  {
    assert b in NewBuckets(s, s.newTable[b][p]);
  }

  lemma DeleteSurvive(s: State, id: int)
    requires RandomOk(s) && id in s.info && !s.info[id].inTried
    ensures Survive(s, Delete(s, id), id) && Delete(s, id).triedTable == s.triedTable
  {
    DeleteEffect(s, id);
    var t := Delete(s, id);
    forall x | x in s.info && x != id
      ensures Bare(t.info[x]) == Bare(s.info[x])
    {
      assert t.info[x].(randomPos := 0) == s.info[x].(randomPos := 0);
    }
  }

  lemma PlaceNewSurvive(s: State, id: int, source: NetAddr, now: int)
    requires Shape(s) && RandomOk(s) && NewSlotsOk(s) && id in s.info && !s.info[id].inTried
    ensures PlaceNew(s, id, source, now).triedTable == s.triedTable
    ensures Survive(s, PlaceNew(s, id, source, now), NewHolder(s, id, source))
         || Survive(s, PlaceNew(s, id, source, now), id)
  {
    hide RandomOk, NewSlotsOk, Delete, ClearNew;
    var b := NewBucket(s.net, s.key, s.info[id].addr.service, source);
    ClearNewSurvive(s, b, NewPos(s, id, b));
    DeleteSurvive(s, id);
  }

  /** The holder of the new slot that `id` gets for this source. */
  function NewHolder(s: State, id: int, source: NetAddr): int
    requires Shape(s) && id in s.info
  {
    var b := NewBucket(s.net, s.key, s.info[id].addr.service, source);
    s.newTable[b][NewPos(s, id, b)]
  }

  lemma CreatedKeeps(s: State, addr: Address, source: NetAddr, penalty: int)
    requires Loose(s, {}, 0) && addr.service.net !in s.addrIds
    ensures Loose(Created(s, addr, source, penalty), {s.idCount}, 0)
  {
    hide TriedOk, NewSlotsOk, RandomOk, AddrOk, RefsOk, CountsOk;
    CreatedIndexes(s, addr, source, penalty);
    CreatedSlots(s, addr, source, penalty);
    CreatedCounts(s, addr, source, penalty);
  }

  lemma CreatedCounts(s: State, addr: Address, source: NetAddr, penalty: int)
    requires IdsOk(s) && CountsOk(s, 0)
    ensures CountsOk(Created(s, addr, source, penalty), 0)
  {
    var t := Created(s, addr, source, penalty);
    assert NewIds(t) == NewIds(s) + {s.idCount} && TriedIds(t) == TriedIds(s);
  }

  lemma CreatedIndexes(s: State, addr: Address, source: NetAddr, penalty: int)
    requires IdsOk(s) && RandomOk(s) && AddrOk(s) && addr.service.net !in s.addrIds
    ensures RandomOk(Created(s, addr, source, penalty)) && AddrOk(Created(s, addr, source, penalty))
  {
  }

  lemma CreatedSlots(s: State, addr: Address, source: NetAddr, penalty: int)
    requires Shape(s) && IdsOk(s) && TriedOk(s) && NewSlotsOk(s) && RefsOk(s, {})
    ensures var t := Created(s, addr, source, penalty);
            TriedOk(t) && NewSlotsOk(t) && RefsOk(t, {s.idCount})
  {
    var t := Created(s, addr, source, penalty);
    assert forall x :: x in s.info ==> t.info[x] == s.info[x];
    assert forall c, q :: 0 <= c < NEW_BUCKET_COUNT && 0 <= q < BUCKET_SIZE ==> s.newTable[c][q] != s.idCount;
    assert NewBuckets(t, s.idCount) == {};
    forall x | x in s.info
      ensures NewBuckets(t, x) == NewBuckets(s, x)
    {
      SameBuckets(s, t, x);
    }
  }

  lemma CreatedCollisions(s: State, addr: Address, source: NetAddr, penalty: int)
    requires Inv(s)
    ensures CollisionsOk(Created(s, addr, source, penalty))
  {
    var t := Created(s, addr, source, penalty);
    assert forall x :: x in s.info ==> t.info[x] == s.info[x];
  }

  lemma PlaceNewInv(s: State, id: int, source: NetAddr, now: int, floating: set<int>)
    requires Loose(s, floating, 0) && floating <= {id} && id in s.info && !s.info[id].inTried && CollisionsOk(s)
    requires s.info[id].refCount < NEW_BUCKETS_PER_ADDRESS
    ensures Inv(PlaceNew(s, id, source, now))
  {
    hide TriedOk, NewSlotsOk, RandomOk, AddrOk, IdsOk, CountsOk, RefsOk, CollisionsOk, PlaceNew;
    PlaceNewKeeps(s, id, source, now, floating);
    PlaceNewSurvive(s, id, source, now);
    var t := PlaceNew(s, id, source, now);
    if Survive(s, t, id) {
      SurviveKeepsCollisions(s, t, id);
    } else {
      SurviveKeepsCollisions(s, t, NewHolder(s, id, source));
    }
  }

  lemma AddKeeps(s: State, addr: Address, source: NetAddr, penalty: int, now: int, rnd: nat)
    requires Inv(s)
    ensures Inv(Add(s, addr, source, penalty, now, rnd).0)
  {
    hide TriedOk, NewSlotsOk, RandomOk, AddrOk, IdsOk, CountsOk, CollisionsOk, PlaceNew;
    if s.net.routable(addr.service.net) {
      var pen := if addr.service.net == source then 0 else penalty;
      match Find(s, addr.service.net) {
        case Some(id) =>
          InfoUpdate(s, id, Refreshed(s.info[id], addr, pen, now));
          var s1 := WithInfo(s, id, Refreshed(s.info[id], addr, pen, now));
          if MayMultiply(s1.info[id], addr, rnd) {
            PlaceNewInv(s1, id, source, now, {});
          }
        case None =>
          NotFoundNotIndexed(s, addr.service.net);
          CreatedKeeps(s, addr, source, pen);
          CreatedCollisions(s, addr, source, pen);
          PlaceNewInv(Created(s, addr, source, pen), s.idCount, source, now, {s.idCount});
      }
    }
  }

  lemma NotFoundNotIndexed(s: State, a: NetAddr)
    requires AddrOk(s) && Find(s, a) == None
    ensures a !in s.addrIds
  {
  }

  // ---------- is a new address stored? ----------

  /** The new slot of an unknown address is free, or its holder may be thrown out. */
  predicate NewSlotOpen(s: State, a: Service, source: NetAddr, now: int)
    requires Shape(s)
  {
    var b := NewBucket(s.net, s.key, a, source);
    var h := s.newTable[b][BucketPosition(s.net, s.key, true, b, a)];
    h == FREE || (h in s.info && (IsTerrible(s.info[h], now) || s.info[h].refCount > 1))
  }

  lemma CreatedStays(s: State, addr: Address, source: NetAddr, penalty: int, now: int)
    requires Loose(s, {}, 0) && addr.service.net !in s.addrIds
    ensures var c := Created(s, addr, source, penalty);
            s.idCount in PlaceNew(c, s.idCount, source, now).info <==> NewSlotOpen(s, addr.service, source, now)
  {
    hide TriedOk, AddrOk, RefsOk, CountsOk, Delete, ClearNew, IsTerrible, BucketPosition;
    var c, id := Created(s, addr, source, penalty), s.idCount;
    CreatedKeeps(s, addr, source, penalty);
    var b := NewBucket(s.net, s.key, addr.service, source);
    var p := NewPos(c, id, b);
    var h := s.newTable[b][p];
    assert h != FREE ==> h in s.info && h != id;
    ClearNewEffect(c, b, p);
    DeleteEffect(c, id);
  }

  /**
  Add of a routable unknown address returns true; the address is known afterwards if and only if its new slot was
  open. Otherwise the entry is deleted again at once.
   */
  lemma AddStores(s: State, addr: Address, source: NetAddr, penalty: int, now: int, rnd: nat)
    requires Inv(s) && s.net.routable(addr.service.net) && Find(s, addr.service.net) == None
    ensures var (t, isNew) := Add(s, addr, source, penalty, now, rnd);
            isNew && (Find(t, addr.service.net).Some? <==> NewSlotOpen(s, addr.service, source, now))
  {
    hide TriedOk, NewSlotsOk, RandomOk, IdsOk, RefsOk, CountsOk, CollisionsOk, PlaceNew, NewSlotOpen;
    var pen := if addr.service.net == source then 0 else penalty;
    NotFoundNotIndexed(s, addr.service.net);
    CreatedStays(s, addr, source, pen, now);
    CreatedKeeps(s, addr, source, pen);
    AddKeeps(s, addr, source, penalty, now, rnd);
    var c, id := Created(s, addr, source, pen), s.idCount;
    PlaceNewSurvive(c, id, source, now);
    FindAfter(c, PlaceNew(c, id, source, now), id, NewHolder(c, id, source));
  }

  lemma FindAfter(c: State, r: State, id: int, holder: int)
    requires AddrOk(c) && AddrOk(r) && id in c.info && (Survive(c, r, holder) || Survive(c, r, id))
    ensures Find(r, c.info[id].addr.service.net).Some? <==> id in r.info
  {
    var a := c.info[id].addr.service.net;
    assert forall x :: x in r.info ==> x in c.info && Bare(r.info[x]) == Bare(c.info[x]);
    if a in r.addrIds {
      var x := r.addrIds[a];
      assert x in r.info;
      assert c.info[x].addr.service.net == a;
    }
  }

  /** A network in which all addresses share one slot. */
  const CROWDED := Network((_: seq<nat>) => 0, (_: NetAddr) => 0, (_: NetAddr) => true, (_: NetAddr) => true)

  function Announced(a: NetAddr): Address {
    Address(Service(a, 0), {}, 1000)
  }

  /** The first address takes the slot of the second, which Add reports as new and forgets. */
  lemma AddCanForget()
    ensures var s := Add(Cleared(CROWDED, 1, {}), Announced(1), 9, 0, 1000, 0).0;
            var (t, isNew) := Add(s, Announced(2), 9, 0, 1000, 0);
            Inv(s) && Find(s, 2) == None && isNew && Find(t, 2) == None
  {
    var s0 := Cleared(CROWDED, 1, {});
    assert NewIds(s0) == {} && TriedIds(s0) == {};
    AddKeeps(s0, Announced(1), 9, 0, 1000, 0);
    FirstAdded();
    AddStores(Add(s0, Announced(1), 9, 0, 1000, 0).0, Announced(2), 9, 0, 1000, 0);
  }

  lemma FirstAdded()
    ensures var s := Add(Cleared(CROWDED, 1, {}), Announced(1), 9, 0, 1000, 0).0;
            s.net == CROWDED && s.key == 1 && Find(s, 2) == None && !NewSlotOpen(s, Announced(2).service, 9, 1000)
  {
    hide Delete;
    var s0 := Cleared(CROWDED, 1, {});
    var c := Created(s0, Announced(1), 9, 0);
    assert NewBucket(CROWDED, 1, Service(1, 0), 9) == 0 && NewPos(c, 0, 0) == 0;
    assert s0.newTable[0][0] == FREE;
    assert Add(s0, Announced(1), 9, 0, 1000, 0).0 == PutSlot(c, 0, 0, 0, 1);
  }

  // ---------- statistics only ----------

  lemma AttemptKeeps(s: State, addr: Service, countFailure: bool, time: int)
    requires Inv(s)
    ensures Inv(Attempt(s, addr, countFailure, time))
  {
    hide Loose, CollisionsOk;
    if Find(s, addr.net).Some? {
      var id := Find(s, addr.net).value;
      var i := s.info[id];
      InfoUpdate(s, id, i.(lastTry := time, lastCountAttempt := time, attempts := i.attempts + 1));
      InfoUpdate(s, id, i.(lastTry := time));
    }
  }

  lemma ConnectedKeeps(s: State, addr: Service, time: int)
    requires Inv(s)
    ensures Inv(Connected(s, addr, time))
  {
    hide Loose, CollisionsOk;
    if Find(s, addr.net).Some? {
      var id := Find(s, addr.net).value;
      InfoUpdate(s, id, s.info[id].(addr := s.info[id].addr.(time := ToUint32(time))));
    }
  }

  lemma SetServicesKeeps(s: State, addr: Service, services: set<nat>)
    requires Inv(s)
    ensures Inv(SetServices(s, addr, services))
  {
    hide Loose, CollisionsOk;
    if Find(s, addr.net).Some? {
      var id := Find(s, addr.net).value;
      InfoUpdate(s, id, s.info[id].(addr := s.info[id].addr.(services := services)));
    }
  }

  // ---------- GetAddr ----------

  /** The addresses of the good entries among the first `n` of the random order. */
  ghost function Collect(s: State, n: nat, now: int): seq<Address>
    requires n <= |s.random| && RandomOk(s)
  {
    if n == 0 then []
    else
      var i := s.info[s.random[n - 1]];
      Collect(s, n - 1, now) + if IsTerrible(i, now) then [] else [i.addr]
  }

  /** `t` is `s` in another random order. */
  ghost predicate Reordered(s: State, t: State) {
    && SameStructure(s, t) && t.collisions == s.collisions && |t.random| == |s.random|
    && (forall id :: id in s.info ==> t.info[id].(randomPos := 0) == s.info[id].(randomPos := 0))
  }

  lemma {:induction false} CollectFrame(s: State, t: State, n: nat, now: int)
    requires RandomOk(s) && RandomOk(t) && Reordered(s, t) && n <= |s.random|
    requires forall i :: 0 <= i < n ==> t.random[i] == s.random[i]
    ensures Collect(t, n, now) == Collect(s, n, now)
  {
    if n > 0 {
      CollectFrame(s, t, n - 1, now);
      var id := s.random[n - 1];
      assert t.info[id].(randomPos := 0) == s.info[id].(randomPos := 0);
    }
  }

  lemma ShuffleStep(s: State, n: nat, j: nat, now: int)
    requires Loose(s, {}, 0) && n < |s.random| && n <= j < |s.random|
    ensures var s1 := SwapRandom(s, n, j);
            && Loose(s1, {}, 0) && Reordered(s, s1) && RandomOk(s1) && |s1.random| == |s.random|
            && Collect(s1, n, now) == Collect(s, n, now)
  {
    hide TriedOk, NewSlotsOk, AddrOk, IdsOk, RefsOk, CountsOk, SwapRandom, RandomOk;
    SwapKeeps(s, n, j, {}, 0);
    SwapEffect(s, n, j);
    CollectFrame(s, SwapRandom(s, n, j), n, now);
  }

  lemma CollectNext(s: State, n: nat, now: int)
    requires RandomOk(s) && n < |s.random|
    ensures s.random[n] in s.info
    ensures var i := s.info[s.random[n]];
            Collect(s, n + 1, now) == if IsTerrible(i, now) then Collect(s, n, now) else Collect(s, n, now) + [i.addr]
  {
    hide IsTerrible;
  }

  ghost predicate Collected(s: State, got: seq<Address>, m: nat, limit: nat, now: int) {
    && Loose(s, {}, 0) && m <= |s.random| && got == Collect(s, m, now) && |got| <= limit
    && (m == |s.random| || |got| == limit)
  }

  lemma {:induction false} ShuffleResult(s: State, n: nat, limit: nat, got: seq<Address>, now: int, rnd: nat -> nat)
    returns (m: nat)
    requires Loose(s, {}, 0) && RandomOk(s) && n <= |s.random| && got == Collect(s, n, now) && |got| <= limit
    ensures var (t, all) := Shuffle(s, n, limit, got, now, rnd);
            Reordered(s, t) && Collected(t, all, m, limit, now)
    decreases |s.random| - n
  {
    hide Loose, RandomOk, SwapRandom, IsTerrible, Collect, Reordered, Collected;
    if n == |s.random| || |got| >= limit {
      m := n;
      ReorderedSame(s);
      CollectedHere(s, got, n, limit, now);
    } else {
      var j := rnd(n) % (|s.random| - n) + n;
      ShuffleStep(s, n, j, now);
      var s1 := SwapRandom(s, n, j);
      CollectNext(s1, n, now);
      var i := s1.info[s1.random[n]];
      var more := if IsTerrible(i, now) then got else got + [i.addr];
      m := ShuffleResult(s1, n + 1, limit, more, now, rnd);
      ReorderedTrans(s, s1, Shuffle(s1, n + 1, limit, more, now, rnd).0);
    }
  }

  lemma CollectedHere(s: State, got: seq<Address>, n: nat, limit: nat, now: int)
    requires Loose(s, {}, 0) && n <= |s.random| && got == Collect(s, n, now) && |got| <= limit
    requires n == |s.random| || |got| >= limit
    ensures Collected(s, got, n, limit, now)
  {
    hide Loose;
  }

  lemma ReorderedSame(s: State)
    ensures Reordered(s, s)
  {
  }

  lemma ReorderedTrans(s: State, t: State, u: State)
    requires Reordered(s, t) && Reordered(t, u)
    ensures Reordered(s, u)
  {
    assert forall id :: id in s.info <==> id in t.info;
    assert forall id :: id in s.info ==> SameEntry(s.info[id], t.info[id]) && SameEntry(t.info[id], u.info[id]);
  }

  ghost function GoodIds(s: State, now: int): set<int> {
    set id | id in s.info && !IsTerrible(s.info[id], now)
  }

  ghost function GoodPrefix(s: State, n: nat, now: int): set<int>
    requires n <= |s.random| && RandomOk(s)
  {
    set i | 0 <= i < n && !IsTerrible(s.info[s.random[i]], now) :: s.random[i]
  }

  lemma {:induction false} CollectCount(s: State, n: nat, now: int)
    requires RandomOk(s) && n <= |s.random|
    ensures |Collect(s, n, now)| == |GoodPrefix(s, n, now)|
  {
    if n > 0 {
      CollectCount(s, n - 1, now);
      var id := s.random[n - 1];
      assert id !in GoodPrefix(s, n - 1, now);
      if IsTerrible(s.info[id], now) {
        assert GoodPrefix(s, n, now) == GoodPrefix(s, n - 1, now);
      } else {
        assert GoodPrefix(s, n, now) == GoodPrefix(s, n - 1, now) + {id};
      }
    }
  }

  /** `a` is the address of a good entry, as found through the address index. */
  ghost predicate GoodAddress(s: State, a: Address, now: int) {
    && a.service.net in s.addrIds && s.addrIds[a.service.net] in s.info
    && s.info[s.addrIds[a.service.net]].addr == a
    && !IsTerrible(s.info[s.addrIds[a.service.net]], now)
  }

  /** Every collected address belongs to a good entry, and no entry is collected twice. */
  lemma {:induction false} CollectDistinct(s: State, n: nat, now: int)
    requires RandomOk(s) && AddrOk(s) && n <= |s.random|
    ensures forall k :: 0 <= k < |Collect(s, n, now)| ==>
              GoodAddress(s, Collect(s, n, now)[k], now)
                  && s.info[s.addrIds[Collect(s, n, now)[k].service.net]].randomPos < n
    ensures forall k, l :: 0 <= k < l < |Collect(s, n, now)| ==>
              Collect(s, n, now)[k].service.net != Collect(s, n, now)[l].service.net
  {
    if n > 0 {
      CollectDistinct(s, n - 1, now);
      var c := Collect(s, n - 1, now);
      var id := s.random[n - 1];
      if IsTerrible(s.info[id], now) {
        assert Collect(s, n, now) == c;
      } else {
        assert Collect(s, n, now) == c + [s.info[id].addr];
        assert GoodAddress(s, s.info[id].addr, now);
        assert forall k :: 0 <= k < |c| ==> s.info[s.addrIds[c[k].service.net]].randomPos < n - 1;
      }
    }
  }

  /** GetAddr returns distinct good addresses, as many of them as there are up to the limit. */
  lemma GetAddrResult(s: State, now: int, rnd: nat -> nat)
    requires Inv(s)
    ensures var (t, got) := GetAddr(s, now, rnd);
            && Inv(t) && Reordered(s, t)
            && |got| ==
                  (if |GoodIds(s, now)| < GetAddrLimit(|s.random|) then |GoodIds(s, now)| else GetAddrLimit(|s.random|))
            && (forall k :: 0 <= k < |got| ==> GoodAddress(t, got[k], now))
            && (forall k, l :: 0 <= k < l < |got| ==> got[k].service.net != got[l].service.net)
  {
    hide TriedOk, NewSlotsOk, AddrOk, IdsOk, RefsOk, CountsOk, RandomOk, CollisionsOk, Shuffle, GetAddrLimit,
         IsTerrible, GoodIds;
    var limit := GetAddrLimit(|s.random|);
    var m := ShuffleResult(s, 0, limit, [], now, rnd);
    var (t, got) := GetAddr(s, now, rnd);
    StructureKeepsCollisions(s, t);
    GoodCounts(s, t, m, now);
    CollectDistinct(t, m, now);
  }

  lemma GoodCounts(s: State, t: State, m: nat, now: int)
    requires RandomOk(s) && RandomOk(t) && Reordered(s, t) && m <= |t.random|
    ensures |Collect(t, m, now)| <= |GoodIds(s, now)|
    ensures m == |t.random| ==> |Collect(t, m, now)| == |GoodIds(s, now)|
  {
    CollectCount(t, m, now);
    forall id | id in s.info
      ensures IsTerrible(t.info[id], now) == IsTerrible(s.info[id], now)
    {
      assert t.info[id].(randomPos := 0) == s.info[id].(randomPos := 0);
    }
    assert forall id :: id in GoodIds(t, now) <==> id in GoodIds(s, now);
    assert GoodIds(t, now) == GoodIds(s, now);
    assert GoodPrefix(t, m, now) <= GoodIds(t, now);
    CardinalitySubset(GoodPrefix(t, m, now), GoodIds(t, now));
    if m == |t.random| {
      forall id | id in GoodIds(t, now)
        ensures id in GoodPrefix(t, m, now)
      {
        assert t.random[t.info[id].randomPos] == id;
      }
      assert GoodPrefix(t, m, now) == GoodIds(t, now);
    }
  }

  // ---------- collisions ----------

  lemma DropCollision(s: State, id: int)
    requires Inv(s)
    ensures Inv(s.(collisions := s.collisions - {id}))
  {
    var t := s.(collisions := s.collisions - {id});
    StructureKeepsLoose(s, t, {}, 0);
    StructureKeepsCollisions(s, t);
  }

  lemma ResolveStepKeeps(s: State, id: int, now: int)
    requires Inv(s)
    ensures Inv(ResolveStep(s, id, now))
  {
    hide TriedOk, NewSlotsOk, RandomOk, AddrOk, IdsOk, RefsOk, CountsOk, CollisionsOk, Good;
    if id in s.info {
      GoodKeeps(s, s.info[id].addr.service, false, now);
    }
    DropCollision(ResolveOne(s, id, now).0, id);
  }

  lemma {:induction false} ResolveKeeps(s: State, todo: set<int>, now: int)
    requires Inv(s)
    ensures Inv(Resolve(s, todo, now))
    decreases todo
  {
    if todo != {} {
      hide Inv, ResolveStep;
      var id := Least(todo);
      ResolveStepKeeps(s, id, now);
      ResolveKeeps(ResolveStep(s, id, now), todo - {id}, now);
    }
  }

  /** A pending collision that is still known always has a tried entry to test, which is returned. */
  lemma SelectCollisionResult(s: State, id: int)
    requires Inv(s) && id in s.collisions
    ensures Inv(SelectCollision(s, id).0)
    ensures id in s.info ==> SelectCollision(s, id).1.Some? && SelectCollision(s, id).1.value.inTried
  {
    DropCollision(s, id);
  }
}
