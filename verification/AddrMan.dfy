/**
The address manager itself: the tables in mutable fields, updated step by step with the source's
loops and assertions.  Every method is proved to compute the function of the same name in
AddrManState, so all that is proved there holds of the object.
 */
module AddrManObject {
  import opened Wrappers
  import Radix
  import S = AddrManState
  import opened AddrManState
  import opened AddrManInvariant
  import opened AddrManOperations
  import opened AddrManDisk
  import opened AddrManRoundTrip
  import opened AddrManCheck
  import opened Sets

  /** The new buckets below `n` in which entry `id` sits. */
  ghost function NewBucketsBelow(s: State, id: int, n: nat): set<int>
    requires Shape(s) && id in s.info && n <= NEW_BUCKET_COUNT
  {
    set b | 0 <= b < n && s.newTable[b][NewPos(s, id, b)] == id
  }

  lemma PositionInRange(s: State, id: int)
    requires RandomOk(s) && id in s.info
    ensures 0 <= s.info[id].randomPos < |s.random| && s.random[s.info[id].randomPos] == id
  {
  }

  lemma PositionFilled(s: State, n: nat)
    requires RandomOk(s) && n < |s.random|
    ensures s.random[n] in s.info
  {
  }

  lemma ShuffleNext(s: State, n: nat, limit: nat, got: seq<Address>, now: int, rnd: nat -> nat)
    requires n < |s.random| && |got| < limit
    ensures var s1 := S.SwapRandom(s, n, rnd(n) % (|s.random| - n) + n);
            n < |s1.random| && s1.random[n] in s1.info ==>
              var i := s1.info[s1.random[n]];
              Shuffle(s, n, limit, got, now, rnd) ==
                  Shuffle(s1, n + 1, limit, if IsTerrible(i, now) then got else got + [i.addr], now, rnd)
  {
    hide IsTerrible, S.SwapRandom;
  }

  lemma ShuffleEnd(s: State, n: nat, limit: nat, got: seq<Address>, now: int, rnd: nat -> nat)
    requires n <= |s.random| && (n == |s.random| || |got| >= limit)
    ensures Shuffle(s, n, limit, got, now, rnd) == (s, got)
  {
  }

  lemma NothingVacated(s: State, id: int)
    requires Shape(s) && id in s.info
    ensures Vacated(s, id, 0) == s.newTable && NewBucketsBelow(s, id, 0) == {}
  {
  }

  lemma VacateNext(s: State, id: int, n: nat)
    requires Shape(s) && id in s.info && n < NEW_BUCKET_COUNT
    ensures Vacated(s, id, n)[n] == s.newTable[n]
    ensures var p := NewPos(s, id, n);
            var t := Vacated(s, id, n);
            Vacated(s, id, n + 1) == if t[n][p] == id then SetSlot(t, n, p, FREE) else t
  {
    var p := NewPos(s, id, n);
    var t := Vacated(s, id, n);
    var u := if t[n][p] == id then SetSlot(t, n, p, FREE) else t;
    assert forall b :: 0 <= b < NEW_BUCKET_COUNT ==> Vacated(s, id, n + 1)[b] == u[b];
  }

  lemma CountNext(s: State, id: int, n: nat)
    requires Shape(s) && id in s.info && n < NEW_BUCKET_COUNT
    ensures |NewBucketsBelow(s, id, n + 1)|
         == |NewBucketsBelow(s, id, n)| + if s.newTable[n][NewPos(s, id, n)] == id then 1 else 0
  {
    hide NewPos;
    var before, after := NewBucketsBelow(s, id, n), NewBucketsBelow(s, id, n + 1);
    if s.newTable[n][NewPos(s, id, n)] == id {
      assert forall b :: b in after <==> b in before + {n};
      assert after == before + {n} && n !in before;
    } else {
      assert forall b :: b in after <==> b in before;
      assert after == before;
    }
  }

  lemma AllVacated(s: State, id: int)
    requires Shape(s) && id in s.info
    ensures NewBucketsBelow(s, id, NEW_BUCKET_COUNT) == NewBuckets(s, id)
  {
  }

  // ---------- facts about writing and reading ----------

  lemma BucketsEnd(s: State)
    requires Writable(s)
    ensures BucketTokens(s, NEW_BUCKET_COUNT) == []
  {
  }

  lemma NextBucketTokens(s: State, b: nat, tokens: seq<Token>)
    requires Writable(s) && b < NEW_BUCKET_COUNT
    ensures tokens + BucketTokens(s, b) ==
              tokens + ([Number(|SlotTokens(s, b, 0)|)] + SlotTokens(s, b, 0)) + BucketTokens(s, b + 1)
  {
    hide SlotTokens, Writable;
  }

  lemma NoSlotTokens(s: State, b: nat)
    requires Writable(s) && b < NEW_BUCKET_COUNT
    ensures Shape(s) && SlotTokens(s, b, BUCKET_SIZE) == []
  {
  }

  lemma NextSlotTokens(s: State, b: nat, p: nat)
    requires Writable(s) && b < NEW_BUCKET_COUNT && p < BUCKET_SIZE
    ensures var id := s.newTable[b][p];
            if id == FREE then SlotTokens(s, b, p) == SlotTokens(s, b, p + 1)
            else id in NewList(s) && SlotTokens(s, b, p) == [Number(IndexOf(NewList(s), id))] + SlotTokens(s, b, p + 1)
  {
  }

  lemma {:induction false} EntryTokensSplit(s: State, a: seq<int>, b: seq<int>)
    requires forall k :: 0 <= k < |a| ==> a[k] in s.info
    requires forall k :: 0 <= k < |b| ==> b[k] in s.info
    ensures EntryTokens(s, a + b) == EntryTokens(s, a) + EntryTokens(s, b)
  {
    if a == [] {
      assert a + b == b;
    } else {
      EntryTokensSplit(s, a[1..], b);
      assert (a + b)[1..] == a[1..] + b;
    }
  }

  lemma EntryTokensNext(s: State, ids: seq<int>, n: nat)
    requires n < |ids| && forall k :: 0 <= k < |ids| ==> ids[k] in s.info
    ensures EntryTokens(s, ids[..n + 1]) == EntryTokens(s, ids[..n]) + [Entry(ToDisk(s.info[ids[n]]))]
  {
    assert ids[..n + 1] == ids[..n] + [ids[n]];
    EntryTokensSplit(s, ids[..n], [ids[n]]);
    assert EntryTokens(s, [ids[n]][1..]) == [];
  }

  lemma NoEntryTokens(s: State)
    ensures EntryTokens(s, []) == []
  {
  }

  lemma AllAscending(s: State, wanted: set<int>)
    requires wanted <= s.info.Keys
    ensures |Ascending(wanted)| == |wanted|
    ensures forall k :: 0 <= k < |Ascending(wanted)| ==> Ascending(wanted)[k] in s.info
    ensures Ascending(wanted * s.info.Keys) == Ascending(wanted)
    ensures Ascending(wanted * {}) == []
  {
    AscendingMembers(wanted);
    var all := Ascending(wanted);
    forall k | 0 <= k < |all|
      ensures all[k] in s.info
    {
      var id := all[k];
      assert id in all;
    }
    assert wanted * s.info.Keys == wanted && wanted * {} == {};
  }

  /** The wanted ids among those still to visit, when the smallest of them is visited. */
  lemma AscendingNext(wanted: set<int>, todo: set<int>)
    requires todo != {}
    ensures var id := Least(todo);
            Ascending(wanted * todo) == if id in wanted then [id] + Ascending(wanted * (todo - {id}))
                else Ascending(wanted * (todo - {id}))
  {
    var id := Least(todo);
    if id in wanted {
      assert id in wanted * todo;
      assert Least(wanted * todo) == id;
      assert wanted * todo - {id} == wanted * (todo - {id});
    } else {
      assert wanted * todo == wanted * (todo - {id});
    }
  }

  lemma AddEntryOrder(s: State, id: int, i: Info)
    requires RandomOk(s) && id !in s.info
    ensures RandomOk(AddEntry(s, id, i))
  {
  }

  lemma NoEntriesOrder(s: State)
    requires s.info == map[] && s.random == []
    ensures RandomOk(s)
  {
  }

  lemma PutSlotOrder(s: State, id: int, b: nat, p: nat, refs: int)
    requires Shape(s) && RandomOk(s) && id in s.info && b < NEW_BUCKET_COUNT && p < BUCKET_SIZE
    ensures RandomOk(PutSlot(s, id, b, p, refs))
  {
  }

  /** The order depends on the entries alone. */
  lemma TablesOrder(s: State, t: State)
    requires RandomOk(s) && t.info == s.info && t.random == s.random
    ensures RandomOk(t)
  {
  }

  lemma DeleteOrder(s: State, id: int)
    requires RandomOk(s) && id in s.info
    ensures RandomOk(Delete(s, id)) && Delete(s, id).info.Keys == s.info.Keys - {id}
  {
    hide RandomOk, S.SwapRandom;
    DeleteEffect(s, id);
    PositionInRange(s, id);
    SwapEffect(s, s.info[id].randomPos, |s.random| - 1);
    WithoutLastOrder(S.SwapRandom(s, s.info[id].randomPos, |s.random| - 1), id);
  }

  lemma WithoutLastOrder(s: State, id: int)
    requires RandomOk(s) && id in s.info && s.random != [] && s.random[|s.random| - 1] == id
    ensures RandomOk(WithoutLast(s, id))
  {
  }

  lemma SamePlaces(s: State, id: int)
    requires Shape(s) && id in s.info
    ensures var t := LeaveNew(s, id);
            && id in t.info && t.info[id].addr == s.info[id].addr && t.net == s.net && t.key == s.key
  {
  }

  lemma ReferencedCount(s: State)
    requires Loose(s, {}, 0)
    ensures |ReferencedIds(s)| == s.nNew && |TriedIds(s)| == s.nTried
  {
    hide RandomOk, AddrOk, TriedOk, NewSlotsOk, IdsOk;
    TriedHaveNoRefs(s);
    assert forall id :: id in s.info ==> (s.info[id].refCount != 0 <==> !s.info[id].inTried);
    assert ReferencedIds(s) == NewIds(s);
  }

  lemma IndexesAreRanks(s: State, index: map<int, nat>)
    requires forall id :: id in ReferencedIds(s) ==>
              id in index && index[id] < |NewList(s)| && NewList(s)[index[id]] == id
    ensures forall id :: id in NewList(s) ==> id in index && index[id] == IndexOf(NewList(s), id)
  {
    AscendingMembers(ReferencedIds(s));
    var all := NewList(s);
    assert forall i, j :: 0 <= i < |all| && 0 <= j < |all| && all[i] == all[j] ==> i == j;
  }

  class AddrMan {
    const net: Network
    var key: Key
    var idCount: int
    var info: map<int, Info>
    var addrIds: map<NetAddr, int>
    var random: seq<int>
    var nTried: int
    var triedTable: seq<seq<int>>
    var nNew: int
    var newTable: seq<seq<int>>
    var lastGood: int
    var collisions: set<int>

    ghost function Value(): State
      reads this
    {
      State(net, key, idCount, info, addrIds, random, nTried, triedTable, nNew, newTable, lastGood, collisions)
    }

    ghost predicate Valid()
      reads this
    {
      Inv(Value())
    }

    constructor (net: Network, key: Key)
      ensures Valid() && Value() == Cleared(net, key, {})
    {
      this.net := net;
      this.key := key;
      random := [];
      newTable := EmptyTable(NEW_BUCKET_COUNT);
      triedTable := EmptyTable(TRIED_BUCKET_COUNT);
      idCount, nTried, nNew, lastGood := 0, 0, 0, 1;
      info, addrIds, collisions := map[], map[], {};
      new;
      assert NewIds(Value()) == {} && TriedIds(Value()) == {};
    }

    method Find(a: NetAddr) returns (id: Option<int>)
      ensures id == S.Find(Value(), a)
    {
      if a !in addrIds {
        return None;
      }
      if addrIds[a] in info {
        return Some(addrIds[a]);
      }
      return None;
    }

    method Create(addr: Address, source: NetAddr) returns (id: int)
      modifies this
      ensures id == old(idCount) && Value() == S.Create(old(Value()), addr, source)
    {
      id := idCount;
      idCount := idCount + 1;
      info := info[id := Info(addr, source, 0, 0, 0, 0, 0, false, -1)];
      addrIds := addrIds[addr.service.net := id];
      info := info[id := info[id].(randomPos := |random|)];
      random := random + [id];
    }

    method SwapRandom(pos1: nat, pos2: nat)
      requires RandomOk(Value()) && pos1 < |random| && pos2 < |random|
      modifies this
      ensures Value() == S.SwapRandom(old(Value()), pos1, pos2)
    {
      if pos1 == pos2 {
        return;
      }
      assert pos1 < |random| && pos2 < |random|;
      var id1, id2 := random[pos1], random[pos2];
      assert id1 in info && id2 in info;
      info := info[id1 := info[id1].(randomPos := pos2)];
      info := info[id2 := info[id2].(randomPos := pos1)];
      random := random[pos1 := id2];
      random := random[pos2 := id1];
    }

    method Delete(id: int)
      requires RandomOk(Value()) && id in info && !info[id].inTried && info[id].refCount == 0
      modifies this
      ensures Value() == S.Delete(old(Value()), id)
    {
      hide RandomOk, S.SwapRandom;
      ghost var s := Value();
      PositionInRange(s, id);
      SwapRandom(info[id].randomPos, |random| - 1);
      SwapEffect(s, s.info[id].randomPos, |s.random| - 1);
      random := random[..|random| - 1];
      addrIds := addrIds - {info[id].addr.service.net};
      info := info - {id};
      nNew := nNew - 1;
    }

    method ClearNew(bucket: nat, pos: nat, ghost floating: set<int>, ghost behind: int)
      requires bucket < NEW_BUCKET_COUNT && pos < BUCKET_SIZE
      requires Loose(Value(), floating, behind)
      modifies this
      ensures Value() == S.ClearNew(old(Value()), bucket, pos)
    {
      if newTable[bucket][pos] != FREE {
        ghost var s := Value();
        var id := newTable[bucket][pos];
        assert bucket in NewBuckets(s, id);
        assert info[id].refCount > 0;
        DropSlotKeeps(s, bucket, pos, floating, behind);
        info := info[id := info[id].(refCount := info[id].refCount - 1)];
        newTable := SetSlot(newTable, bucket, pos, FREE);
        assert Value() == DropSlot(s, bucket, pos);
        if info[id].refCount == 0 {
          Delete(id);
        }
      }
    }

    /** First part of MakeTried: the loop over all new buckets. */
    method LeaveNew(id: int)
      requires Loose(Value(), {}, 0) && id in info && !info[id].inTried
      modifies this
      ensures Value() == S.LeaveNew(old(Value()), id)
      ensures Loose(Value(), {id}, 1)
    {
      hide TriedOk, NewSlotsOk, RandomOk, AddrOk, IdsOk, RefsOk, CountsOk, Vacated, NewBuckets, NewBucketsBelow;
      ghost var s := Value();
      var service := info[id].addr.service;
      var bucket := 0;
      NothingVacated(s, id);
      while bucket < NEW_BUCKET_COUNT
        invariant 0 <= bucket <= NEW_BUCKET_COUNT
        invariant newTable == Vacated(s, id, bucket)
        invariant info == s.info[id := s.info[id].(refCount := s.info[id].refCount - |NewBucketsBelow(s, id, bucket)|)]
        invariant Value() == s.(info := info, newTable := newTable)
      {
        var pos := BucketPosition(net, key, true, bucket, service);
        VacateNext(s, id, bucket);
        CountNext(s, id, bucket);
        if newTable[bucket][pos] == id {
          newTable := SetSlot(newTable, bucket, pos, FREE);
          info := info[id := info[id].(refCount := info[id].refCount - 1)];
        }
        bucket := bucket + 1;
      }
      nNew := nNew - 1;
      AllVacated(s, id);
      LeaveNewKeeps(s, id);
    }

    method MakeTried(id: int)
      requires Loose(Value(), {}, 0) && id in info && !info[id].inTried
      modifies this
      ensures Value() == S.MakeTried(old(Value()), id)
      ensures Loose(Value(), {}, 0)
    {
      hide TriedOk, NewSlotsOk, RandomOk, AddrOk, IdsOk, RefsOk, CountsOk, S.LeaveNew, S.Evict, S.EnterTried, Survive;
      ghost var s := Value();
      MakeTriedKeeps(s, id);
      SamePlaces(s, id);
      LeaveNew(id);
      ghost var s1 := Value();
      FloatingHasNoSlot(s1, id, {id}, 0);
      assert info[id].refCount == 0;
      var triedBucket := TriedBucket(net, key, info[id].addr.service);
      var triedPos := BucketPosition(net, key, false, triedBucket, info[id].addr.service);
      EvictEffect(s1, id, triedBucket, triedPos);
      if triedTable[triedBucket][triedPos] != FREE {
        Evict(triedBucket, triedPos, id);
      } else {
        FreeIsNoId(s1);
      }
      assert triedTable[triedBucket][triedPos] == FREE;
      EnterTried(id, triedBucket, triedPos);
    }

    /** Last part of MakeTried: the entry takes its tried slot. */
    method EnterTried(id: int, bucket: nat, pos: nat)
      requires Shape(Value()) && id in info && bucket < TRIED_BUCKET_COUNT && pos < BUCKET_SIZE
      modifies this
      ensures Value() == S.EnterTried(old(Value()), id, bucket, pos)
    {
      triedTable := SetSlot(triedTable, bucket, pos, id);
      nTried := nTried + 1;
      info := info[id := info[id].(inTried := true)];
    }

    /** Middle part of MakeTried: the holder of the tried slot returns to the new table. */
    method Evict(bucket: nat, pos: nat, ghost moving: int)
      requires bucket < TRIED_BUCKET_COUNT && pos < BUCKET_SIZE
      requires Loose(Value(), {moving}, 1) && triedTable[bucket][pos] != FREE
      modifies this
      ensures Value() == S.Evict(old(Value()), bucket, pos)
    {
      hide TriedOk, NewSlotsOk, RandomOk, AddrOk, IdsOk, RefsOk, CountsOk, S.BackToNew;
      ghost var s := Value();
      var idEvict := triedTable[bucket][pos];
      TriedHolder(s, bucket, pos);
      assert idEvict in info;
      LeaveTriedKeeps(s, bucket, pos, {moving}, 1);
      info := info[idEvict := info[idEvict].(inTried := false)];
      triedTable := SetSlot(triedTable, bucket, pos, FREE);
      nTried := nTried - 1;
      assert Value() == LeaveTried(s, bucket, pos);
      BackToNew(idEvict, {moving} + {idEvict}, 2);
    }

    method BackToNew(id: int, ghost floating: set<int>, ghost behind: int)
      requires Loose(Value(), floating, behind) && id in floating && id in info
      modifies this
      ensures Value() == S.BackToNew(old(Value()), id)
    {
      hide TriedOk, NewSlotsOk, RandomOk, AddrOk, IdsOk, RefsOk, CountsOk, S.ClearNew;
      ghost var s := Value();
      var bucket := NewBucket(net, key, info[id].addr.service, info[id].source);
      var pos := BucketPosition(net, key, true, bucket, info[id].addr.service);
      FloatingHasNoSlot(s, id, floating, bucket);
      ClearNewSurvive(s, bucket, pos);
      ClearNew(bucket, pos, floating, behind);
      assert newTable[bucket][pos] == FREE;
      info := info[id := info[id].(refCount := 1)];
      newTable := SetSlot(newTable, bucket, pos, id);
      nNew := nNew + 1;
    }

    method Good(addr: Service, testBeforeEvict: bool, time: int, rnd: nat)
      requires Valid() && rnd < NEW_BUCKET_COUNT
      modifies this
      ensures Valid() && Value() == S.Good(old(Value()), addr, testBeforeEvict, time)
    {
      hide TriedOk, NewSlotsOk, RandomOk, AddrOk, IdsOk, RefsOk, CountsOk, CollisionsOk, S.MakeTried;
      ghost var s := Value();
      GoodKeeps(s, addr, testBeforeEvict, time);
      lastGood := time;
      var found := Find(addr.net);
      if found.None? {
        return;
      }
      var id := found.value;
      if info[id].addr.service != addr {
        return;
      }
      MarkedKeeps(s, id, time);
      info := info[id := info[id].(lastSuccess := time, lastTry := time, attempts := 0)];
      if info[id].inTried {
        return;
      }
      var bucket := FindNewBucket(id, rnd);
      if bucket.None? {
        return;
      }
      var triedBucket := TriedBucket(net, key, info[id].addr.service);
      var triedPos := BucketPosition(net, key, false, triedBucket, info[id].addr.service);
      if testBeforeEvict && triedTable[triedBucket][triedPos] != FREE {
        if |collisions| < SET_TRIED_COLLISION_SIZE {
          collisions := collisions + {id};
        }
      } else {
        MakeTried(id);
      }
    }

    /** The search of Good for a new bucket that holds entry `id`, from a random start. */
    method FindNewBucket(id: int, rnd: nat) returns (bucket: Option<nat>)
      requires Shape(Value()) && id in info && rnd < NEW_BUCKET_COUNT
      ensures bucket.None? <==> NewBuckets(Value(), id) == {}
      ensures bucket.Some? ==> bucket.value in NewBuckets(Value(), id)
    {
      var n := 0;
      while n < NEW_BUCKET_COUNT
        invariant 0 <= n <= NEW_BUCKET_COUNT
        invariant forall b :: 0 <= b < NEW_BUCKET_COUNT && (b - rnd) % NEW_BUCKET_COUNT < n ==>
                  b !in NewBuckets(Value(), id)
      {
        var b := (n + rnd) % NEW_BUCKET_COUNT;
        var pos := BucketPosition(net, key, true, b, info[id].addr.service);
        if newTable[b][pos] == id {
          assert b in NewBuckets(Value(), id);
          return Some(b);
        }
        n := n + 1;
      }
      assert forall b :: b in NewBuckets(Value(), id) ==> (b - rnd) % NEW_BUCKET_COUNT < n;
      return None;
    }

    method Add(addr: Address, source: NetAddr, penalty: int, now: int, rnd: nat) returns (isNew: bool)
      requires Valid()
      modifies this
      ensures Valid() && (Value(), isNew) == S.Add(old(Value()), addr, source, penalty, now, rnd)
      ensures isNew ==>
                (S.Find(Value(), addr.service.net).Some? <==> NewSlotOpen(old(Value()), addr.service, source, now))
    {
      hide TriedOk, NewSlotsOk, RandomOk, AddrOk, IdsOk, CountsOk, CollisionsOk, S.PlaceNew, NewSlotOpen;
      ghost var s := Value();
      AddKeeps(s, addr, source, penalty, now, rnd);
      if !net.routable(addr.service.net) {
        return false;
      }
      var pen := penalty;
      var found := Find(addr.service.net);
      if addr.service.net == source {
        pen := 0;
      }
      var id;
      if found.Some? {
        id := found.value;
        isNew := false;
        var may := UpdateKnown(id, addr, pen, now, rnd);
        if !may {
          return;
        }
        InfoUpdate(s, id, Refreshed(s.info[id], addr, pen, now));
        PlaceNew(id, source, now, {});
      } else {
        NotFoundNotIndexed(s, addr.service.net);
        AddStores(s, addr, source, penalty, now, rnd);
        id := Enter(addr, source, pen);
        isNew := true;
        PlaceNew(id, source, now, {id});
      }
    }

    /** A new entry, with the penalty taken off its time. */
    method Enter(addr: Address, source: NetAddr, pen: int) returns (id: int)
      requires Valid() && addr.service.net !in addrIds
      modifies this
      ensures id == old(idCount) && Value() == Created(old(Value()), addr, source, pen)
      ensures Loose(Value(), {id}, 0) && id in info && !info[id].inTried
    {
      hide TriedOk, NewSlotsOk, RandomOk, AddrOk, IdsOk, CountsOk, RefsOk, CollisionsOk;
      ghost var s := Value();
      CreatedKeeps(s, addr, source, pen);
      id := Create(addr, source);
      info := info[id := info[id].(addr := info[id].addr.(time := ToUint32(Radix.Max(0, info[id].addr.time - pen))))];
      nNew := nNew + 1;
    }

    /** What Add does with an entry it knows; says whether the entry may get one more reference. */
    method UpdateKnown(id: int, addr: Address, pen: int, now: int, rnd: nat) returns (may: bool)
      requires id in info
      modifies this`info
      ensures info == old(info)[id := Refreshed(old(info)[id], addr, pen, now)]
      ensures may <==> MayMultiply(info[id], addr, rnd)
    {
      var online := now - addr.time < DAY;
      var interval := if online then HOUR else DAY;
      if addr.time != 0 && (info[id].addr.time == 0 || info[id].addr.time < addr.time - interval - pen) {
        info := info[id := info[id].(addr := info[id].addr.(time := ToUint32(Radix.Max(0, addr.time - pen))))];
      }
      info := info[id := info[id].(addr := info[id].addr.(services := info[id].addr.services + addr.services))];
      if addr.time == 0 || (info[id].addr.time != 0 && addr.time <= info[id].addr.time) {
        return false;
      }
      if info[id].inTried {
        return false;
      }
      if info[id].refCount == NEW_BUCKETS_PER_ADDRESS {
        return false;
      }
      var factor, n := 1, 0;
      while n < info[id].refCount
        invariant 0 <= n && (n <= info[id].refCount || n == 0)
        invariant factor == Factor(n)
      {
        factor := factor * 2;
        n := n + 1;
      }
      assert factor == Factor(info[id].refCount);
      if factor > 1 && rnd % factor != 0 {
        return false;
      }
      return true;
    }

    /** Last part of Add: entry `id` into the new bucket that `source` selects. */
    method PlaceNew(id: int, source: NetAddr, now: int, ghost floating: set<int>)
      requires Loose(Value(), floating, 0) && floating <= {id} && id in info && !info[id].inTried
      modifies this
      ensures Value() == S.PlaceNew(old(Value()), id, source, now)
    {
      hide TriedOk, RandomOk, AddrOk, IdsOk, CountsOk, S.ClearNew, S.Delete;
      ghost var s := Value();
      var bucket := NewBucket(net, key, info[id].addr.service, source);
      var pos := BucketPosition(net, key, true, bucket, info[id].addr.service);
      if newTable[bucket][pos] != id {
        var insert := newTable[bucket][pos] == FREE;
        if !insert {
          var existing := info[newTable[bucket][pos]];
          if IsTerrible(existing, now) || (existing.refCount > 1 && info[id].refCount == 0) {
            insert := true;
          }
        }
        if insert {
          ClearNewSurvive(s, bucket, pos);
          ClearNew(bucket, pos, floating, 0);
          info := info[id := info[id].(refCount := info[id].refCount + 1)];
          newTable := SetSlot(newTable, bucket, pos, id);
        } else if info[id].refCount == 0 {
          Delete(id);
        }
      }
    }

    method Attempt(addr: Service, countFailure: bool, time: int)
      requires Valid()
      modifies this
      ensures Valid() && Value() == S.Attempt(old(Value()), addr, countFailure, time)
    {
      hide Loose, CollisionsOk;
      ghost var s := Value();
      AttemptKeeps(s, addr, countFailure, time);
      var found := Find(addr.net);
      if found.None? {
        return;
      }
      var id := found.value;
      if info[id].addr.service != addr {
        return;
      }
      info := info[id := info[id].(lastTry := time)];
      if countFailure && info[id].lastCountAttempt < lastGood {
        info := info[id := info[id].(lastCountAttempt := time)];
        info := info[id := info[id].(attempts := info[id].attempts + 1)];
      }
      assert Value() == S.Attempt(s, addr, countFailure, time);
    }

    method Connected(addr: Service, time: int)
      requires Valid()
      modifies this
      ensures Valid() && Value() == S.Connected(old(Value()), addr, time)
    {
      hide Loose, CollisionsOk;
      ConnectedKeeps(Value(), addr, time);
      var found := Find(addr.net);
      if found.None? || info[found.value].addr.service != addr {
        return;
      }
      var id := found.value;
      if time - info[id].addr.time > 20 * 60 {
        info := info[id := info[id].(addr := info[id].addr.(time := ToUint32(time)))];
      }
    }

    method SetServices(addr: Service, services: set<nat>)
      requires Valid()
      modifies this
      ensures Valid() && Value() == S.SetServices(old(Value()), addr, services)
    {
      hide Loose, CollisionsOk;
      SetServicesKeeps(Value(), addr, services);
      var found := Find(addr.net);
      if found.None? || info[found.value].addr.service != addr {
        return;
      }
      var id := found.value;
      info := info[id := info[id].(addr := info[id].addr.(services := services))];
    }

    method GetAddr(now: int, rnd: nat -> nat) returns (addrs: seq<Address>)
      requires Valid()
      modifies this
      ensures Valid() && (Value(), addrs) == S.GetAddr(old(Value()), now, rnd)
    {
      hide TriedOk, NewSlotsOk, AddrOk, IdsOk, RefsOk, CountsOk, CollisionsOk, RandomOk, SameStructure, GoodAddress;
      hide S.SwapRandom, S.Shuffle, IsTerrible, GetAddrLimit, Reordered;
      ghost var s := Value();
      GetAddrResult(s, now, rnd);
      var nodes := GetAddrLimit(|random|);
      addrs := [];
      var n := 0;
      while n < |random|
        invariant 0 <= n <= |random|
        invariant Loose(Value(), {}, 0)
        invariant Shuffle(Value(), n, nodes, addrs, now, rnd) == S.GetAddr(s, now, rnd)
        decreases |random| - n
      {
        if |addrs| >= nodes {
          break;
        }
        ShuffleNext(Value(), n, nodes, addrs, now, rnd);
        Draw(n, rnd(n) % (|random| - n) + n);
        if !IsTerrible(info[random[n]], now) {
          addrs := addrs + [info[random[n]].addr];
        }
        n := n + 1;
      }
      ShuffleEnd(Value(), n, nodes, addrs, now, rnd);
    }

    method Draw(n: nat, pos: nat)
      requires Loose(Value(), {}, 0) && n < |random| && pos < |random|
      modifies this
      ensures Value() == S.SwapRandom(old(Value()), n, pos)
      ensures Loose(Value(), {}, 0) && |random| == old(|random|) && random[n] in info
    {
      hide TriedOk, NewSlotsOk, AddrOk, IdsOk, RefsOk, CountsOk, RandomOk, SameStructure, S.SwapRandom;
      SwapKeeps(Value(), n, pos, {}, 0);
      SwapEffect(Value(), n, pos);
      SwapRandom(n, pos);
      PositionFilled(Value(), n);
    }

    /** The loop visits the pending collisions in ascending order, as a sorted set does. */
    method ResolveCollisions(now: int, rnd: int -> nat)
      requires Valid()
      modifies this
      ensures Valid() && Value() == Resolve(old(Value()), old(collisions), now)
    {
      hide TriedOk, NewSlotsOk, RandomOk, AddrOk, IdsOk, RefsOk, CountsOk, CollisionsOk, ResolveStep;
      ghost var s := Value();
      var todo := collisions;
      while todo != {}
        invariant Valid()
        invariant Resolve(Value(), todo, now) == Resolve(s, s.collisions, now)
        decreases todo
      {
        ghost var least := Least(todo);
        var id :| id in todo && forall x :: x in todo ==> id <= x;
        assert id == least;
        ResolveStepKeeps(Value(), id, now);
        ResolveOne(id, now, rnd(id) % NEW_BUCKET_COUNT);
        todo := todo - {id};
      }
    }

    method ResolveOne(id: int, now: int, rnd: nat)
      requires Valid() && rnd < NEW_BUCKET_COUNT
      modifies this
      ensures Value() == ResolveStep(old(Value()), id, now)
    {
      hide NewSlotsOk, RandomOk, AddrOk, IdsOk, RefsOk, CountsOk, CollisionsOk, S.Good;
      var over := false;
      if id !in info {
        over := true;
      } else {
        var triedBucket := TriedBucket(net, key, info[id].addr.service);
        var triedPos := BucketPosition(net, key, false, triedBucket, info[id].addr.service);
        if !net.valid(info[id].addr.service.net) {
          over := true;
        } else if triedTable[triedBucket][triedPos] != FREE {
          var old_ := info[triedTable[triedBucket][triedPos]];
          if now - old_.lastSuccess < REPLACEMENT_HOURS * HOUR {
            over := true;
          } else if now - old_.lastTry < REPLACEMENT_HOURS * HOUR {
            if now - old_.lastTry > 60 {
              Good(info[id].addr.service, false, now, rnd);
              over := true;
            }
          } else if now - info[id].lastSuccess > TEST_WINDOW {
            Good(info[id].addr.service, false, now, rnd);
            over := true;
          }
        } else {
          Good(info[id].addr.service, false, now, rnd);
          over := true;
        }
      }
      if over {
        collisions := collisions - {id};
      }
    }

    /** `choice` is the pending collision drawn at random.  The tried slot read here is occupied. */
    method SelectTriedCollision(choice: int) returns (found: Option<Info>)
      requires Valid() && (collisions != {} ==> choice in collisions)
      modifies this
      ensures Valid()
      ensures old(collisions) == {} ==> found == None && Value() == old(Value())
      ensures old(collisions) != {} ==> (Value(), found) == SelectCollision(old(Value()), choice)
    {
      hide NewSlotsOk, RandomOk, AddrOk, IdsOk, RefsOk, CountsOk;
      if collisions == {} {
        return None;
      }
      SelectCollisionResult(Value(), choice);
      if choice !in info {
        collisions := collisions - {choice};
        return None;
      }
      var triedBucket := TriedBucket(net, key, info[choice].addr.service);
      var triedPos := BucketPosition(net, key, false, triedBucket, info[choice].addr.service);
      var idOld := triedTable[triedBucket][triedPos];
      assert idOld in info;
      return Some(info[idOld]);
    }

    // ---------- saving and loading ----------

    /** Writes the entries with the given ids, in ascending order, and numbers them. */
    method WriteEntries(wanted: set<int>, limit: int) returns (tokens: seq<Token>, index: map<int, nat>)
      requires wanted <= info.Keys && |wanted| == limit
      ensures forall k :: 0 <= k < |Ascending(wanted)| ==> Ascending(wanted)[k] in info
      ensures tokens == EntryTokens(Value(), Ascending(wanted))
      ensures forall id :: id in wanted ==>
                id in index && index[id] < |Ascending(wanted)| && Ascending(wanted)[index[id]] == id
    {
      hide EntryTokens, Ascending;
      ghost var s, all := Value(), Ascending(wanted);
      AllAscending(s, wanted);
      var todo, ids := info.Keys, 0;
      tokens, index := [], map[];
      assert tokens == EntryTokens(s, all[..0]) by {
        NoEntryTokens(s);
      }
      while todo != {}
        invariant 0 <= ids <= |all| && all[ids..] == Ascending(wanted * todo)
        invariant tokens == EntryTokens(s, all[..ids])
        invariant forall id :: id in wanted && id !in todo ==> id in index && index[id] < |all| && all[index[id]] == id
        decreases todo
      {
        AscendingNext(wanted, todo);
        ghost var least := Least(todo);
        var id :| id in todo && forall x :: x in todo ==> id <= x;
        assert id == least;
        index := index[id := ids];
        if id in wanted {
          assert ids != limit;
          assert all[ids] == all[ids..][0] == id;
          assert all[ids + 1..] == all[ids..][1..];
          EntryTokensNext(s, all, ids);
          tokens := tokens + [Entry(ToDisk(info[id]))];
          ids := ids + 1;
        }
        todo := todo - {id};
      }
      assert all[..ids] == all;
    }

    method WriteBucket(bucket: nat, index: map<int, nat>) returns (tokens: seq<Token>)
      requires Writable(Value()) && bucket < NEW_BUCKET_COUNT
      requires forall id :: id in NewList(Value()) ==> id in index && index[id] == IndexOf(NewList(Value()), id)
      ensures tokens == [Number(|SlotTokens(Value(), bucket, 0)|)] + SlotTokens(Value(), bucket, 0)
    {
      hide SlotTokens, IndexOf;
      ghost var s := Value();
      NoSlotTokens(s, bucket);
      var size, i := 0, 0;
      while i < BUCKET_SIZE
        invariant 0 <= i <= BUCKET_SIZE
        invariant size + |SlotTokens(s, bucket, i)| == |SlotTokens(s, bucket, 0)|
      {
        NextSlotTokens(s, bucket, i);
        if newTable[bucket][i] != FREE {
          size := size + 1;
        }
        i := i + 1;
      }
      tokens := [Number(size)];
      i := 0;
      while i < BUCKET_SIZE
        invariant 0 <= i <= BUCKET_SIZE
        invariant tokens + SlotTokens(s, bucket, i) == [Number(size)] + SlotTokens(s, bucket, 0)
      {
        NextSlotTokens(s, bucket, i);
        if newTable[bucket][i] != FREE {
          var id := newTable[bucket][i];
          tokens := tokens + [Number(index[id])];
        }
        i := i + 1;
      }
    }

    method WriteBuckets(index: map<int, nat>) returns (tokens: seq<Token>)
      requires Writable(Value())
      requires forall id :: id in NewList(Value()) ==> id in index && index[id] == IndexOf(NewList(Value()), id)
      ensures tokens == BucketTokens(Value(), 0)
    {
      hide SlotTokens, NewList, BucketTokens, Writable;
      ghost var s := Value();
      tokens := [];
      BucketsEnd(s);
      var bucket := 0;
      while bucket < NEW_BUCKET_COUNT
        invariant 0 <= bucket <= NEW_BUCKET_COUNT
        invariant tokens + BucketTokens(s, bucket) == BucketTokens(s, 0)
      {
        var more := WriteBucket(bucket, index);
        NextBucketTokens(s, bucket, tokens);
        tokens := tokens + more;
        bucket := bucket + 1;
      }
    }

    method Serialize() returns (tokens: seq<Token>)
      requires Valid()
      ensures Writable(Value()) && tokens == AddrManDisk.Serialize(Value())
    {
      hide RandomOk, AddrOk, TriedOk, RefsOk, CountsOk, NewSlotsOk, IdsOk, CollisionsOk;
      hide EntryTokens, SlotTokens, BucketTokens, Ascending, IndexOf;
      ghost var s := Value();
      InvWritable(s);
      ReferencedCount(s);
      tokens := [Byte(VERSION), Byte(KEY_SIZE), KeyToken(key), Number(nNew), Number(nTried),
          Number(FlipBit30(NEW_BUCKET_COUNT))];
      var referenced := set id | id in info && info[id].refCount != 0;
      var entries, index := WriteEntries(referenced, nNew);
      IndexesAreRanks(s, index);
      tokens := tokens + entries;
      var tried := set id | id in info && info[id].inTried;
      var triedEntries, _ := WriteEntries(tried, nTried);
      tokens := tokens + triedEntries;
      var buckets := WriteBuckets(index);
      tokens := tokens + buckets;
    }

    method LoadNewEntry(n: nat, entry: DiskEntry, usable: bool)
      requires Shape(Value()) && RandomOk(Value()) && n !in info
      modifies this
      ensures var s1 := AddEntry(old(Value()), n, FromDisk(entry));
              Value() == if usable then s1 else PlaceBySource(s1, n)
      ensures Shape(Value()) && RandomOk(Value()) && info.Keys == old(info.Keys) + {n} && nNew == old(nNew)
    {
      hide RandomOk;
      AddEntryOrder(Value(), n, FromDisk(entry));
      info := info[n := FromDisk(entry)];
      addrIds := addrIds[info[n].addr.service.net := n];
      info := info[n := info[n].(randomPos := |random|)];
      random := random + [n];
      assert Value() == AddEntry(old(Value()), n, FromDisk(entry));
      if !usable {
        var bucket := NewBucket(net, key, info[n].addr.service, info[n].source);
        var pos := BucketPosition(net, key, true, bucket, info[n].addr.service);
        if newTable[bucket][pos] == FREE {
          PutSlotOrder(Value(), n, bucket, pos, info[n].refCount + 1);
          newTable := SetSlot(newTable, bucket, pos, n);
          info := info[n := info[n].(refCount := info[n].refCount + 1)];
        }
      }
    }

    method LoadTriedEntry(e: DiskEntry) returns (kept: bool)
      requires Shape(Value()) && RandomOk(Value()) && idCount !in info
      modifies this
      ensures var i := FromDisk(e);
              var b := TriedBucket(net, old(key), i.addr.service);
              var p := BucketPosition(net, old(key), false, b, i.addr.service);
              && (kept <==> old(triedTable)[b][p] == FREE)
              && (!kept ==> Value() == old(Value()))
              && (kept ==> Value() == AddEntry(old(Value()), old(idCount), i.(inTried := true)).(
                             triedTable := SetSlot(old(triedTable), b, p, old(idCount)), idCount := old(idCount) + 1))
      ensures Shape(Value()) && RandomOk(Value())
    {
      hide RandomOk;
      var entry := FromDisk(e);
      var bucket := TriedBucket(net, key, entry.addr.service);
      var pos := BucketPosition(net, key, false, bucket, entry.addr.service);
      if triedTable[bucket][pos] != FREE {
        return false;
      }
      AddEntryOrder(Value(), idCount, entry.(inTried := true));
      entry := entry.(randomPos := |random|);
      entry := entry.(inTried := true);
      random := random + [idCount];
      info := info[idCount := entry];
      addrIds := addrIds[entry.addr.service.net := idCount];
      ghost var s1 := Value();
      assert s1 == AddEntry(old(Value()), idCount, FromDisk(e).(inTried := true));
      triedTable := SetSlot(triedTable, bucket, pos, idCount);
      idCount := idCount + 1;
      TablesOrder(s1, Value());
      kept := true;
    }

    /** Reads the new entries; `ok` is false when the stream ends too early. */
    method ReadNewEntries(usable: bool, tokens: seq<Token>) returns (ok: bool, rest: seq<Token>)
      requires Shape(Value()) && info == map[] && random == []
      modifies this
      ensures ok <==> ReadNew(old(Value()), 0, usable, tokens).Some?
      ensures ok ==> ReadNew(old(Value()), 0, usable, tokens).value == (Value(), rest)
      ensures ok ==> RandomOk(Value()) && (forall id :: id in info ==> 0 <= id < nNew) && nNew == old(nNew)
    {
      hide RandomOk, AddEntry, PlaceBySource, FromDisk, TableShape;
      ghost var s := Value();
      rest := tokens;
      var n := 0;
      NoEntriesOrder(s);
      while n < nNew
        invariant 0 <= n && (n <= nNew || n == 0) && nNew == s.nNew
        invariant Shape(Value()) && RandomOk(Value())
        invariant forall id :: id in info ==> 0 <= id < n
        invariant ReadNew(Value(), n, usable, rest) == ReadNew(s, 0, usable, tokens)
        decreases nNew - n
      {
        if rest == [] || !rest[0].Entry? {
          return false, rest;
        }
        LoadNewEntry(n, rest[0].entry, usable);
        rest := rest[1..];
        n := n + 1;
      }
      ok := true;
    }

    method ReadTriedEntries(tokens: seq<Token>) returns (ok: bool, lost: nat, rest: seq<Token>)
      requires Shape(Value()) && RandomOk(Value()) && forall id :: id in info ==> id < idCount
      modifies this
      ensures ok <==> ReadTried(old(Value()), old(nTried), 0, tokens).Some?
      ensures ok ==> ReadTried(old(Value()), old(nTried), 0, tokens).value == (Value(), lost, rest)
      ensures ok ==> RandomOk(Value())
    {
      hide RandomOk, FromDisk, TriedBucket, BucketPosition;
      ghost var s := Value();
      rest, lost := tokens, 0;
      var n := 0;
      while n < nTried
        invariant 0 <= n && nTried == s.nTried
        invariant Shape(Value()) && RandomOk(Value())
        invariant forall id :: id in info ==> id < idCount
        invariant ReadTried(Value(), nTried - n, lost, rest) == ReadTried(s, s.nTried, 0, tokens)
        decreases nTried - n
      {
        if rest == [] || !rest[0].Entry? {
          return false, lost, rest;
        }
        var kept := LoadTriedEntry(rest[0].entry);
        if !kept {
          lost := lost + 1;
        }
        rest := rest[1..];
        n := n + 1;
      }
      ok := true;
    }

    method ReadBucket(bucket: nat, size: int, usable: bool, tokens: seq<Token>) returns (ok: bool, rest: seq<Token>)
      requires Shape(Value()) && RandomOk(Value()) && (usable ==> bucket < NEW_BUCKET_COUNT)
      modifies this
      ensures ok <==> ReadSlots(old(Value()), bucket, size, usable, tokens).Some?
      ensures ok ==> ReadSlots(old(Value()), bucket, size, usable, tokens).value == (Value(), rest)
      ensures ok ==> RandomOk(Value())
    {
      hide RandomOk;
      ghost var s := Value();
      rest := tokens;
      var n := 0;
      while n < size
        invariant 0 <= n
        invariant Shape(Value()) && RandomOk(Value())
        invariant ReadSlots(Value(), bucket, size - n, usable, rest) == ReadSlots(s, bucket, size, usable, tokens)
        decreases size - n
      {
        if rest == [] || !rest[0].Number? {
          return false, rest;
        }
        var index := rest[0].n;
        if 0 <= index < nNew && index in info {
          var pos := BucketPosition(net, key, true, bucket, info[index].addr.service);
          if usable && newTable[bucket][pos] == FREE && info[index].refCount < NEW_BUCKETS_PER_ADDRESS {
            PutSlotOrder(Value(), index, bucket, pos, info[index].refCount + 1);
            info := info[index := info[index].(refCount := info[index].refCount + 1)];
            newTable := SetSlot(newTable, bucket, pos, index);
          }
        }
        rest := rest[1..];
        n := n + 1;
      }
      ok := true;
    }

    method ReadNewTable(buckets: int, usable: bool, tokens: seq<Token>) returns (ok: bool)
      requires Shape(Value()) && RandomOk(Value()) && (usable ==> buckets == NEW_BUCKET_COUNT)
      modifies this
      ensures ok <==> ReadBuckets(old(Value()), 0, buckets, usable, tokens).Some?
      ensures ok ==> ReadBuckets(old(Value()), 0, buckets, usable, tokens).value.0 == Value()
      ensures ok ==> RandomOk(Value())
    {
      hide RandomOk, ReadSlots;
      ghost var s := Value();
      var rest := tokens;
      var bucket := 0;
      while bucket < buckets
        invariant 0 <= bucket
        invariant Shape(Value()) && RandomOk(Value())
        invariant ReadBuckets(Value(), bucket, buckets, usable, rest) == ReadBuckets(s, 0, buckets, usable, tokens)
        decreases buckets - bucket
      {
        if rest == [] || !rest[0].Number? {
          return false;
        }
        ok, rest := ReadBucket(bucket, rest[0].n, usable, rest[1..]);
        if !ok {
          return;
        }
        bucket := bucket + 1;
      }
      ok := true;
    }

    /** Deletes the new entries that ended up without a reference. */
    method PruneEntries() returns (pruned: nat)
      requires RandomOk(Value())
      modifies this
      ensures (Value(), pruned) == Prune(old(Value()), old(info.Keys))
    {
      hide RandomOk, S.Delete;
      ghost var s := Value();
      var todo := info.Keys;
      pruned := 0;
      while todo != {}
        invariant RandomOk(Value())
        invariant var (t, n) := Prune(Value(), todo); Prune(s, s.info.Keys) == (t, n + pruned)
        decreases todo
      {
        ghost var least := Least(todo);
        var id :| id in todo && forall x :: x in todo ==> id <= x;
        assert id == least;
        if id in info && !info[id].inTried && info[id].refCount == 0 {
          DeleteOrder(Value(), id);
          Delete(id);
          pruned := pruned + 1;
        }
        todo := todo - {id};
      }
    }

    /**
    Loads a saved address manager; `ok` is false where the source throws. A file that a consistent manager wrote is
    loaded without loss, and the loaded manager is valid if and only if the pending collisions fit it.
     */
    method Unserialize(randomKey: Key, tokens: seq<Token>) returns (ok: bool, lostTried: nat, lostNew: nat)
      modifies this
      ensures forall s: State :: Saved(s, net, tokens) ==>
                ok && lostTried == 0 && lostNew == 0 && Value() == Reloaded(s, old(collisions))
      ensures forall s: State :: Saved(s, net, tokens) ==> (Valid() <==> PendingFits(s, old(collisions)))
      ensures old(collisions) == {} && (exists s: State :: Saved(s, net, tokens)) ==> Valid()
      ensures ok <==> AddrManDisk.Unserialize(net, randomKey, old(collisions), tokens).Some?
      ensures ok ==>
                AddrManDisk.Unserialize(net, randomKey, old(collisions), tokens).value ==
                Load(Value(), lostTried, lostNew)
    {
      ok, lostTried, lostNew := LoadFile(randomKey, tokens);
      forall s: State | Saved(s, net, tokens)
        ensures ok && lostTried == 0 && lostNew == 0 && Value() == Reloaded(s, old(collisions))
        ensures Valid() <==> PendingFits(s, old(collisions))
        ensures old(collisions) == {} ==> Valid()
      {
        SavedLoads(s, net, randomKey, old(collisions), tokens);
      }
    }

    method LoadFile(randomKey: Key, tokens: seq<Token>) returns (ok: bool, lostTried: nat, lostNew: nat)
      modifies this
      ensures ok <==> AddrManDisk.Unserialize(net, randomKey, old(collisions), tokens).Some?
      ensures ok ==>
                AddrManDisk.Unserialize(net, randomKey, old(collisions), tokens).value ==
                Load(Value(), lostTried, lostNew)
    {
      hide ReadNew, ReadTried, ReadBuckets, Prune, RandomOk;
      lostTried, lostNew := 0, 0;
      Clear(randomKey);
      if !(|tokens| >= 6 && tokens[0].Byte? && tokens[1].Byte? && tokens[2].KeyToken?
           && tokens[3].Number? && tokens[4].Number? && tokens[5].Number?) {
        return false, 0, 0;
      }
      if tokens[1].b != KEY_SIZE {
        return false, 0, 0;
      }
      key, nNew, nTried := tokens[2].key, tokens[3].n, tokens[4].n;
      var buckets := tokens[5].n;
      if tokens[0].b != 0 {
        buckets := FlipBit30(buckets);
      }
      if nNew > NEW_BUCKET_COUNT * BUCKET_SIZE || nTried > TRIED_BUCKET_COUNT * BUCKET_SIZE {
        return false, 0, 0;
      }
      var usable := tokens[0].b == VERSION && buckets == NEW_BUCKET_COUNT;
      ok, lostTried, lostNew := UnserializeTables(buckets, usable, tokens[6..]);
    }

    method UnserializeTables(buckets: int, usable: bool, tokens: seq<Token>)
      returns (ok: bool, lostTried: nat, lostNew: nat)
      requires Shape(Value()) && info == map[] && random == [] && (usable ==> buckets == NEW_BUCKET_COUNT)
      modifies this
      ensures ok <==> UnserializeBody(old(Value()), buckets, usable, tokens).Some?
      ensures ok ==> UnserializeBody(old(Value()), buckets, usable, tokens).value == Load(Value(), lostTried, lostNew)
    {
      hide ReadNew, ReadTried, ReadBuckets, Prune, RandomOk;
      lostTried, lostNew := 0, 0;
      var rest;
      ok, rest := ReadNewEntries(usable, tokens);
      if !ok {
        return;
      }
      ghost var s1 := Value();
      idCount := nNew;
      TablesOrder(s1, Value());
      ok, lostTried, rest := ReadTriedEntries(rest);
      if !ok {
        return;
      }
      ghost var s2 := Value();
      nTried := nTried - lostTried;
      TablesOrder(s2, Value());
      ok := ReadNewTable(buckets, usable, rest);
      if !ok {
        return;
      }
      lostNew := PruneEntries();
    }

    method Clear(randomKey: Key)
      modifies this
      ensures Value() == Cleared(net, randomKey, old(collisions))
    {
      random := [];
      key := randomKey;
      newTable := EmptyTable(NEW_BUCKET_COUNT);
      triedTable := EmptyTable(TRIED_BUCKET_COUNT);
      idCount, nTried, nNew, lastGood := 0, 0, 0, 1;
      info, addrIds := map[], map[];
    }

    // ---------- the self-check ----------

    /** The tests on entry `id` alone; they add its address to the index when it is missing there. */
    method CheckEntry(id: int, ghost s: State, ghost done: set<int>) returns (code: int)
      requires id in info && done <= s.info.Keys && id !in done
      requires Value() == s.(addrIds := SeenIndex(s, done)) && IndexGrew(s.addrIds, addrIds)
      modifies this`addrIds
      ensures code == EntryCode(s, id) && IndexGrew(s.addrIds, addrIds)
      ensures code == 0 ==> addrIds == SeenIndex(s, done + {id})
    {
      AddressLookup(s, done, id);
      var i := info[id];
      if i.inTried {
        if i.lastSuccess == 0 {
          return -1;
        }
        if i.refCount != 0 {
          return -2;
        }
      } else {
        if i.refCount < 0 || i.refCount > NEW_BUCKETS_PER_ADDRESS {
          return -3;
        }
        if i.refCount == 0 {
          return -4;
        }
      }
      var a := i.addr.service.net;
      if a !in addrIds {
        addrIds := addrIds[a := 0];
      }
      if addrIds[a] != id {
        return -5;
      }
      if i.randomPos < 0 || i.randomPos >= |random| || random[i.randomPos] != id {
        return -14;
      }
      if i.lastTry < 0 {
        return -6;
      }
      if i.lastSuccess < 0 {
        return -8;
      }
      return 0;
    }

    method CheckEntries() returns (code: int, tried: set<int>, untried: map<int, int>)
      requires Shape(Value())
      modifies this`addrIds
      ensures IndexGrew(old(addrIds), addrIds)
      ensures code != 0 ==> Fault(old(Value()), code)
      ensures code == 0 ==> EntriesPass(old(Value())) && addrIds == SeenIndex(old(Value()), info.Keys)
      ensures code == 0 ==>
                tried == TriedIds(old(Value())) && untried == RefCounts(old(Value()), info.Keys)
                && untried.Keys == NewIds(old(Value()))
    {
      hide EntryCode, EntriesChecked, SeenIndex, EntriesPass, RefCounts;
      ghost var s := Value();
      code, tried, untried := 0, {}, map[];
      var todo := info.Keys;
      NoneChecked(s);
      assert s.info.Keys - todo == {};
      while todo != {}
        invariant todo <= s.info.Keys && EntriesChecked(s, s.info.Keys - todo, tried, untried)
        invariant Value() == s.(addrIds := SeenIndex(s, s.info.Keys - todo)) && IndexGrew(s.addrIds, addrIds)
        decreases todo
      {
        ghost var least := Least(todo);
        var id :| id in todo && forall x :: x in todo ==> id <= x;
        ghost var done := s.info.Keys - todo;
        code := CheckEntry(id, s, done);
        if code != 0 {
          EntryFault(s, id);
          return;
        }
        EntryChecked(s, done, tried, untried, id);
        if info[id].inTried {
          tried := tried + {id};
        } else {
          untried := untried[id := info[id].refCount];
        }
        todo := todo - {id};
        assert s.info.Keys - todo == done + {id};
      }
      assert s.info.Keys - todo == s.info.Keys;
      AllChecked(s, tried, untried);
    }

    method CheckTriedBucket(ghost s: State, bucket: nat, tried: set<int>) returns (code: int, left: set<int>)
      requires Value() == s.(addrIds := addrIds) && Shape(s)
      requires bucket < TRIED_BUCKET_COUNT && TriedChecked(s, bucket, 0, tried)
      ensures code != 0 ==> Fault(s, code)
      ensures code == 0 ==> TriedChecked(s, bucket, BUCKET_SIZE, left)
    {
      hide TriedChecked, Fault;
      code, left := 0, tried;
      for i := 0 to BUCKET_SIZE
        invariant TriedChecked(s, bucket, i, left) && code == 0
      {
        TriedNext(s, bucket, i, left);
        TriedFault(s, bucket, i);
        var id := triedTable[bucket][i];
        if id != FREE {
          if id !in left {
            return -11, left;
          }
          if TriedBucket(net, key, info[id].addr.service) != bucket {
            return -17, left;
          }
          if BucketPosition(net, key, false, bucket, info[id].addr.service) != i {
            return -18, left;
          }
          left := left - {id};
        }
      }
    }

    method CheckTried(ghost s: State, tried: set<int>) returns (code: int, left: set<int>)
      requires Value() == s.(addrIds := addrIds) && Shape(s) && tried == TriedIds(s)
      ensures code != 0 ==> Fault(s, code)
      ensures code == 0 ==> (left == {} <==> TriedOk(s) && !FreeIsTried(s)) && (left != {} ==> Fault(s, -13))
    {
      hide TriedChecked, Fault, TriedIds, TriedOk;
      code, left := 0, tried;
      TriedStart(s);
      for n := 0 to TRIED_BUCKET_COUNT
        invariant TriedChecked(s, n, 0, left) && code == 0
      {
        code, left := CheckTriedBucket(s, n, left);
        if code != 0 {
          return;
        }
        TriedBucketEnd(s, n, left);
      }
      TriedEnd(s, left);
    }

    method CheckNewBucket(ghost s: State, bucket: nat, untried: map<int, int>) returns (code: int, left: map<int, int>)
      requires Value() == s.(addrIds := addrIds) && Shape(s)
      requires bucket < NEW_BUCKET_COUNT && NewChecked(s, bucket, 0, untried)
      ensures code != 0 ==> Fault(s, code)
      ensures code == 0 ==> NewChecked(s, bucket, BUCKET_SIZE, left)
    {
      hide NewChecked, Fault, NewRefsExact;
      code, left := 0, untried;
      for i := 0 to BUCKET_SIZE
        invariant NewChecked(s, bucket, i, left) && code == 0
      {
        NewNext(s, bucket, i, left);
        NewFault(s, bucket, i);
        var id := newTable[bucket][i];
        if id != FREE {
          if id !in left {
            return -12, left;
          }
          if BucketPosition(net, key, true, bucket, info[id].addr.service) != i {
            return -19, left;
          }
          if left[id] - 1 == 0 {
            left := left - {id};
          } else {
            left := left[id := left[id] - 1];
          }
        }
      }
    }

    method CheckNew(ghost s: State, untried: map<int, int>) returns (code: int, left: map<int, int>)
      requires Value() == s.(addrIds := addrIds) && Shape(s) && EntriesPass(s) && untried == RefCounts(s, s.info.Keys)
      ensures code != 0 ==> Fault(s, code)
      ensures code == 0 ==> NewSlotsOk(s) && (left == map[] ==> !FreeIsNew(s) && NewRefsExact(s))
      ensures code == 0 && left != map[] ==> FreeIsNew(s) || !NewRefsExact(s)
    {
      hide NewChecked, Fault, EntriesPass, RefCounts, NewSlotsOk, NewRefsExact;
      code, left := 0, untried;
      NewStart(s);
      for n := 0 to NEW_BUCKET_COUNT
        invariant NewChecked(s, n, 0, left) && code == 0
      {
        code, left := CheckNewBucket(s, n, left);
        if code != 0 {
          return;
        }
        NewBucketEnd(s, n, left);
      }
      NewEnd(s, left);
    }

    /** The self-check. Looking up an address that is missing in the index adds it there. */
    method Check() returns (code: int)
      requires Shape(Value())
      modifies this`addrIds
      ensures code == 0 <==> Passes(old(Value()))
      ensures code != 0 ==> Fault(old(Value()), code)
      ensures IndexGrew(old(addrIds), addrIds)
      ensures code == 0 ==> addrIds == SeenIndex(old(Value()), info.Keys)
    {
      hide Fault, EntriesPass, RefCounts, NewSlotsOk, NewRefsExact, TriedOk, TriedIds, NewIds, CountsOk, SeenIndex;
      ghost var s := Value();
      code := CheckParts(s);
      if code != 0 {
        FaultFails(s, code);
      }
    }

    method CheckParts(ghost s: State) returns (code: int)
      requires s == Value() && Shape(s)
      modifies this`addrIds
      ensures code == 0 ==> Passes(s) && addrIds == SeenIndex(s, info.Keys)
      ensures code != 0 ==> Fault(s, code)
      ensures IndexGrew(s.addrIds, addrIds)
    {
      hide Fault, EntriesPass, RefCounts, NewSlotsOk, NewRefsExact, TriedOk, TriedIds, NewIds, CountsOk, SeenIndex;
      CountFaults(s);
      if |random| != nTried + nNew {
        return -7;
      }
      var tried, untried;
      code, tried, untried := CheckEntries();
      if code != 0 {
        return;
      }
      if |tried| != nTried {
        return -9;
      }
      if |untried.Keys| != nNew {
        return -10;
      }
      code, tried := CheckTried(s, tried);
      if code != 0 {
        return;
      }
      code, untried := CheckNew(s, untried);
      if code != 0 {
        return;
      }
      if tried != {} {
        return -13;
      }
      if untried != map[] {
        return -15;
      }
      if key == 0 {
        return -16;
      }
      return 0;
    }
  }
}
