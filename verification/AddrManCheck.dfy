/**
The self-check of the address manager: what its zero result means, and that every run of calls
on a fresh manager passes it.
 */
module AddrManCheck {
  import opened AddrManState
  import opened AddrManInvariant
  import opened AddrManOperations
  import opened AddrManRoundTrip
  import opened AddrManRuns
  import opened Sets

  // ---------- what is checked ----------

  /** The lookup that tests this adds a missing address under id 0, so only entry 0 may lack one. */
  predicate AddressPasses(s: State, id: int)
    requires id in s.info
  {
    var a := s.info[id].addr.service.net;
    if a in s.addrIds then s.addrIds[a] == id else id == 0
  }

  predicate PositionPasses(s: State, id: int)
    requires id in s.info
  {
    var pos := s.info[id].randomPos;
    0 <= pos < |s.random| && s.random[pos] == id
  }

  /** The first fault of an entry by itself, or zero. */
  function EntryCode(s: State, id: int): int
    requires id in s.info
  {
    var i := s.info[id];
    if i.inTried && i.lastSuccess == 0 then -1
    else if i.inTried && i.refCount != 0 then -2
    else if !i.inTried && !(0 <= i.refCount <= NEW_BUCKETS_PER_ADDRESS) then -3
    else if !i.inTried && i.refCount == 0 then -4
    else if !AddressPasses(s, id) then -5
    else if !PositionPasses(s, id) then -14
    else if i.lastTry < 0 then -6
    else if i.lastSuccess < 0 then -8
    else 0
  }

  ghost predicate EntriesPass(s: State) {
    forall id :: id in s.info ==> EntryCode(s, id) == 0
  }

  predicate TriedSlotOk(s: State, b: int, p: int)
    requires Shape(s) && 0 <= b < TRIED_BUCKET_COUNT && 0 <= p < BUCKET_SIZE
  {
    var id := s.triedTable[b][p];
    id == FREE || (id in s.info && s.info[id].inTried && TriedRow(s, id) == b && TriedPos(s, id) == p)
  }

  predicate NewSlotOk(s: State, b: int, p: int)
    requires Shape(s) && 0 <= b < NEW_BUCKET_COUNT && 0 <= p < BUCKET_SIZE
  {
    var id := s.newTable[b][p];
    id == FREE || (id in s.info && !s.info[id].inTried && NewPos(s, id, b) == p)
  }

  ghost predicate NewRefsExact(s: State)
    requires Shape(s)
  {
    forall id :: id in s.info && !s.info[id].inTried ==> s.info[id].refCount == |NewBuckets(s, id)|
  }

  /** An entry whose id is the mark of a free slot is not found in any table. */
  predicate FreeIsTried(s: State) {
    FREE in s.info && s.info[FREE].inTried
  }

  predicate FreeIsNew(s: State) {
    FREE in s.info && !s.info[FREE].inTried
  }

  ghost predicate Passes(s: State)
    requires Shape(s)
  {
    && |s.random| == s.nTried + s.nNew && EntriesPass(s) && CountsOk(s, 0) && FREE !in s.info
    && TriedOk(s) && NewSlotsOk(s) && NewRefsExact(s) && s.key != 0
  }

  ghost predicate WrongNewSlot(s: State)
    requires Shape(s)
  {
    exists b, p :: 0 <= b < NEW_BUCKET_COUNT && 0 <= p < BUCKET_SIZE && !NewSlotOk(s, b, p)
  }

  predicate InTriedSlot(s: State, id: int)
    requires Shape(s) && id in s.info
  {
    s.triedTable[TriedRow(s, id)][TriedPos(s, id)] == id
  }

  /** What each nonzero result means. */
  ghost predicate Fault(s: State, code: int)
    requires Shape(s)
  {
    match code
    case -7 => |s.random| != s.nTried + s.nNew
    case -9 => |TriedIds(s)| != s.nTried
    case -10 => |NewIds(s)| != s.nNew
    case -11 => exists b, p :: 0 <= b < TRIED_BUCKET_COUNT && 0 <= p < BUCKET_SIZE && !TriedSlotOk(s, b, p)
    case -12 => !NewRefsExact(s) || WrongNewSlot(s)
    case -13 => FreeIsTried(s) || exists id :: id in s.info && s.info[id].inTried && !InTriedSlot(s, id)
    case -15 => FreeIsNew(s) || !NewRefsExact(s)
    case -16 => s.key == 0
    case -17 => exists b, p :: 0 <= b < TRIED_BUCKET_COUNT && 0 <= p < BUCKET_SIZE && !TriedSlotOk(s, b, p)
    case -18 => exists b, p :: 0 <= b < TRIED_BUCKET_COUNT && 0 <= p < BUCKET_SIZE && !TriedSlotOk(s, b, p)
    case -19 => WrongNewSlot(s)
    case _ => code != 0 && exists id :: id in s.info && EntryCode(s, id) == code
  }

  lemma FaultFails(s: State, code: int)
    requires Shape(s) && Fault(s, code)
    ensures !Passes(s)
  {
    hide CountsOk, NewRefsExact, EntryCode;
    assert TriedOk(s) ==> forall b, p :: 0 <= b < TRIED_BUCKET_COUNT && 0 <= p < BUCKET_SIZE ==> TriedSlotOk(s, b, p);
    assert NewSlotsOk(s) ==> forall b, p :: 0 <= b < NEW_BUCKET_COUNT && 0 <= p < BUCKET_SIZE ==> NewSlotOk(s, b, p);
    CountsMean(s);
  }

  lemma CountsMean(s: State)
    ensures CountsOk(s, 0) <==> s.nTried == |TriedIds(s)| && s.nNew == |NewIds(s)|
  {
  }

  // ---------- the steps of the check ----------

  /** The index after the entries `done` were looked up. */
  function SeenIndex(s: State, done: set<int>): map<NetAddr, int>
    requires done <= s.info.Keys
  {
    if 0 in done && s.info[0].addr.service.net !in s.addrIds
    then s.addrIds[s.info[0].addr.service.net := 0] else s.addrIds
  }

  lemma AddressLookup(s: State, done: set<int>, id: int)
    requires done <= s.info.Keys && id in s.info && id !in done
    ensures var index, a := SeenIndex(s, done), s.info[id].addr.service.net;
            var found := if a in index then index else index[a := 0];
            && (found[a] == id <==> AddressPasses(s, id))
            && (found[a] == id ==> found == SeenIndex(s, done + {id}))
  {
  }

  /** `index` is `before` with some missing addresses of entries added under id 0. */
  ghost predicate IndexGrew(before: map<NetAddr, int>, index: map<NetAddr, int>) {
    && (forall a :: a in before ==> a in index && index[a] == before[a])
    && (forall a :: a in index && a !in before ==> index[a] == 0)
  }

  function RefCounts(s: State, ids: set<int>): map<int, int>
    requires ids <= s.info.Keys
  {
    map id | id in ids && !s.info[id].inTried :: s.info[id].refCount
  }

  ghost predicate EntriesChecked(s: State, done: set<int>, tried: set<int>, untried: map<int, int>) {
    && done <= s.info.Keys && (forall id :: id in done ==> EntryCode(s, id) == 0)
    && tried == TriedIds(s) * done && untried == RefCounts(s, done)
  }

  lemma EntryChecked(s: State, done: set<int>, tried: set<int>, untried: map<int, int>, id: int)
    requires EntriesChecked(s, done, tried, untried) && id in s.info && EntryCode(s, id) == 0
    ensures if s.info[id].inTried then EntriesChecked(s, done + {id}, tried + {id}, untried)
            else EntriesChecked(s, done + {id}, tried, untried[id := s.info[id].refCount])
  {
    hide EntryCode;
    assert forall x :: x in TriedIds(s) <==> x in s.info && s.info[x].inTried;
    if s.info[id].inTried {
      assert TriedIds(s) * (done + {id}) == TriedIds(s) * done + {id};
      assert RefCounts(s, done + {id}) == RefCounts(s, done);
    } else {
      assert TriedIds(s) * (done + {id}) == TriedIds(s) * done;
      assert RefCounts(s, done + {id}) == RefCounts(s, done)[id := s.info[id].refCount];
    }
  }

  lemma AllChecked(s: State, tried: set<int>, untried: map<int, int>)
    requires EntriesChecked(s, s.info.Keys, tried, untried)
    ensures EntriesPass(s) && tried == TriedIds(s) && untried == RefCounts(s, s.info.Keys) && untried.Keys == NewIds(s)
  {
    assert TriedIds(s) * s.info.Keys == TriedIds(s);
    assert forall id :: id in untried.Keys <==> id in NewIds(s);
  }

  /** The tried entries whose slot comes before slot (b, p) and holds them. */
  ghost function TriedSeen(s: State, b: int, p: int): set<int>
    requires Shape(s)
  {
    set id | id in TriedIds(s) && id != FREE && s.triedTable[TriedRow(s, id)][TriedPos(s, id)] == id
             && Before(TriedRow(s, id), TriedPos(s, id), b, p)
  }

  ghost predicate TriedChecked(s: State, b: int, p: int, tried: set<int>)
    requires Shape(s)
  {
    && (forall c, q :: 0 <= c < TRIED_BUCKET_COUNT && 0 <= q < BUCKET_SIZE && Before(c, q, b, p) ==>
          TriedSlotOk(s, c, q))
    && tried == TriedIds(s) - TriedSeen(s, b, p)
  }

  lemma TriedStart(s: State)
    requires Shape(s)
    ensures TriedChecked(s, 0, 0, TriedIds(s))
  {
  }

  lemma TriedNext(s: State, b: nat, p: nat, tried: set<int>)
    requires Shape(s) && b < TRIED_BUCKET_COUNT && p < BUCKET_SIZE && TriedChecked(s, b, p, tried)
    ensures var x := s.triedTable[b][p];
            && (x != FREE && x !in tried ==> !TriedSlotOk(s, b, p))
            && (x in tried ==> x in s.info && s.info[x].inTried)
            && (TriedSlotOk(s, b, p) ==> TriedChecked(s, b, p + 1, if x == FREE then tried else tried - {x}))
  {
    var x := s.triedTable[b][p];
    if TriedSlotOk(s, b, p) {
      assert forall id :: id in TriedSeen(s, b, p + 1) <==> id in TriedSeen(s, b, p) || (id == x && x != FREE);
    }
  }

  lemma TriedBucketEnd(s: State, b: nat, tried: set<int>)
    requires Shape(s) && TriedChecked(s, b, BUCKET_SIZE, tried)
    ensures TriedChecked(s, b + 1, 0, tried)
  {
    assert forall id :: id in TriedSeen(s, b + 1, 0) <==> id in TriedSeen(s, b, BUCKET_SIZE);
    assert TriedSeen(s, b + 1, 0) == TriedSeen(s, b, BUCKET_SIZE);
  }

  lemma TriedSlots(s: State)
    requires Shape(s)
    requires forall b, p :: 0 <= b < TRIED_BUCKET_COUNT && 0 <= p < BUCKET_SIZE ==> TriedSlotOk(s, b, p)
    requires forall id :: id in s.info && s.info[id].inTried ==> s.triedTable[TriedRow(s, id)][TriedPos(s, id)] == id
    ensures TriedOk(s)
  {
    forall b, p | 0 <= b < TRIED_BUCKET_COUNT && 0 <= p < BUCKET_SIZE && s.triedTable[b][p] != FREE
      ensures var id := s.triedTable[b][p];
              id in s.info && s.info[id].inTried && TriedRow(s, id) == b && TriedPos(s, id) == p
    {
      assert TriedSlotOk(s, b, p);
    }
  }

  lemma NewSlots(s: State)
    requires Shape(s) && forall b, p :: 0 <= b < NEW_BUCKET_COUNT && 0 <= p < BUCKET_SIZE ==> NewSlotOk(s, b, p)
    ensures NewSlotsOk(s)
  {
    forall b, p | 0 <= b < NEW_BUCKET_COUNT && 0 <= p < BUCKET_SIZE && s.newTable[b][p] != FREE
      ensures var id := s.newTable[b][p]; id in s.info && !s.info[id].inTried && NewPos(s, id, b) == p
    {
      assert NewSlotOk(s, b, p);
    }
  }

  lemma TriedEnd(s: State, tried: set<int>)
    requires Shape(s) && TriedChecked(s, TRIED_BUCKET_COUNT, 0, tried)
    ensures tried == {} <==> TriedOk(s) && !FreeIsTried(s)
    ensures tried != {} ==> Fault(s, -13)
  {
    hide NewRefsExact;
    var seen := TriedSeen(s, TRIED_BUCKET_COUNT, 0);
    assert FreeIsTried(s) ==> FREE in TriedIds(s) - seen;
    if tried == {} {
      forall id | id in s.info && s.info[id].inTried
        ensures s.triedTable[TriedRow(s, id)][TriedPos(s, id)] == id
      {
        assert id in TriedIds(s) && (id in tried <==> id !in seen);
      }
      TriedSlots(s);
    } else {
      var id := Pick(tried);
      assert id == FREE || s.triedTable[TriedRow(s, id)][TriedPos(s, id)] != id;
    }
  }

  ghost function SeenCount(s: State, id: int, b: nat, p: nat): nat
    requires Shape(s) && id in s.info
  {
    if id == FREE then 0 else |Seen(s, id, b, p)|
  }

  /** The references of untried entries that slots before (b, p) do not account for. */
  ghost function Unseen(s: State, b: nat, p: nat): map<int, int>
    requires Shape(s)
  {
    map id | id in s.info && !s.info[id].inTried
        && s.info[id].refCount > SeenCount(s, id, b, p) :: s.info[id].refCount - SeenCount(s, id, b, p)
  }

  ghost predicate SeenWithin(s: State, b: nat, p: nat)
    requires Shape(s)
  {
    forall id :: id in s.info && !s.info[id].inTried ==> SeenCount(s, id, b, p) <= s.info[id].refCount
  }

  ghost predicate NewChecked(s: State, b: nat, p: nat, untried: map<int, int>)
    requires Shape(s)
  {
    && (forall c, q :: 0 <= c < NEW_BUCKET_COUNT && 0 <= q < BUCKET_SIZE && Before(c, q, b, p) ==> NewSlotOk(s, c, q))
    && untried == Unseen(s, b, p) && SeenWithin(s, b, p)
  }

  lemma NewStart(s: State)
    requires Shape(s) && EntriesPass(s)
    ensures NewChecked(s, 0, 0, RefCounts(s, s.info.Keys))
  {
    forall id | id in s.info && !s.info[id].inTried
      ensures Seen(s, id, 0, 0) == {} && s.info[id].refCount > 0
    {
      assert EntryCode(s, id) == 0;
    }
    assert Unseen(s, 0, 0) == RefCounts(s, s.info.Keys);
  }

  lemma SeenGrows(s: State, id: int, b: nat, p: nat)
    requires Shape(s) && id in s.info && b in NewBuckets(s, id) && NewPos(s, id, b) == p
    ensures b !in Seen(s, id, b, p) && Seen(s, id, b, p + 1) == Seen(s, id, b, p) + {b}
  {
    hide NewBuckets, NewPos;
    assert forall c :: c in Seen(s, id, b, p + 1) <==> c in Seen(s, id, b, p) || c == b;
  }

  lemma SeenStays(s: State, id: int, b: nat, p: nat)
    requires Shape(s) && id in s.info && !(b in NewBuckets(s, id) && NewPos(s, id, b) == p)
    ensures Seen(s, id, b, p + 1) == Seen(s, id, b, p)
  {
    hide NewBuckets, NewPos;
    assert forall c :: c in Seen(s, id, b, p + 1) <==> c in Seen(s, id, b, p);
  }

  lemma SeenMore(s: State, id: int, b: nat, p: nat)
    requires Shape(s) && id in s.info && b < NEW_BUCKET_COUNT && p < BUCKET_SIZE
    ensures |Seen(s, id, b, p + 1)| == |Seen(s, id, b, p)| + if s.newTable[b][p] == id && NewPos(s, id, b) == p then 1
              else 0
    ensures |Seen(s, id, b, p + 1)| <= |NewBuckets(s, id)|
  {
    hide Seen, NewPos;
    if b in NewBuckets(s, id) && NewPos(s, id, b) == p {
      SeenGrows(s, id, b, p);
    } else {
      SeenStays(s, id, b, p);
    }
    SeenAmong(s, id, b, p + 1);
  }

  lemma SeenAmong(s: State, id: int, b: nat, p: nat)
    requires Shape(s) && id in s.info
    ensures |Seen(s, id, b, p)| <= |NewBuckets(s, id)|
  {
    hide NewBuckets;
    CardinalitySubset(Seen(s, id, b, p), NewBuckets(s, id));
  }

  function LessOne(untried: map<int, int>, x: int): map<int, int> {
    if x !in untried then untried else if untried[x] == 1 then untried - {x} else untried[x := untried[x] - 1]
  }

  lemma NewNext(s: State, b: nat, p: nat, untried: map<int, int>)
    requires Shape(s) && b < NEW_BUCKET_COUNT && p < BUCKET_SIZE && NewChecked(s, b, p, untried)
    ensures var x := s.newTable[b][p];
            && (x != FREE && x !in untried ==> !NewSlotOk(s, b, p) || !NewRefsExact(s))
            && (x in untried ==> x in s.info && !s.info[x].inTried)
            && (NewSlotOk(s, b, p) && (x == FREE || x in untried) ==>
                  NewChecked(s, b, p + 1, if x == FREE then untried else LessOne(untried, x)))
  {
    hide Seen, NewBuckets;
    var x := s.newTable[b][p];
    forall id | id in s.info
      ensures |Seen(s, id, b, p + 1)| == |Seen(s, id, b, p)| + if x == id && NewPos(s, id, b) == p then 1 else 0
      ensures |Seen(s, id, b, p + 1)| <= |NewBuckets(s, id)|
    {
      SeenMore(s, id, b, p);
    }
    if NewSlotOk(s, b, p) && (x == FREE || x in untried) {
      UnseenNext(s, b, p);
    }
  }

  lemma UnseenNext(s: State, b: nat, p: nat)
    requires Shape(s) && b < NEW_BUCKET_COUNT && p < BUCKET_SIZE && NewSlotOk(s, b, p)
    requires SeenWithin(s, b, p)
    requires var x := s.newTable[b][p];
             && (x == FREE || x in Unseen(s, b, p))
             && forall id :: id in s.info ==>
                  |Seen(s, id, b, p + 1)| == |Seen(s, id, b, p)| + if x == id && NewPos(s, id, b) == p then 1 else 0
    ensures var x := s.newTable[b][p];
            Unseen(s, b, p + 1) == if x == FREE then Unseen(s, b, p) else LessOne(Unseen(s, b, p), x)
  {
    hide Seen, NewPos;
  }

  lemma NewBucketEnd(s: State, b: nat, untried: map<int, int>)
    requires Shape(s) && NewChecked(s, b, BUCKET_SIZE, untried)
    ensures NewChecked(s, b + 1, 0, untried)
  {
    forall id | id in s.info
      ensures Seen(s, id, b + 1, 0) == Seen(s, id, b, BUCKET_SIZE)
    {
    }
    assert Unseen(s, b + 1, 0) == Unseen(s, b, BUCKET_SIZE);
  }

  lemma EntriesReferenced(s: State)
    requires EntriesPass(s)
    ensures forall id :: id in s.info && !s.info[id].inTried ==> s.info[id].refCount > 0
  {
    forall id | id in s.info && !s.info[id].inTried
      ensures s.info[id].refCount > 0
    {
      assert EntryCode(s, id) == 0;
    }
  }

  lemma NewEnd(s: State, untried: map<int, int>)
    requires Shape(s) && EntriesPass(s) && NewChecked(s, NEW_BUCKET_COUNT, 0, untried)
    ensures NewSlotsOk(s) && (untried != map[] ==> FreeIsNew(s) || !NewRefsExact(s))
    ensures untried == map[] ==> !FreeIsNew(s) && NewRefsExact(s)
  {
    NewSlots(s);
    forall id | id in s.info
      ensures Seen(s, id, NEW_BUCKET_COUNT, 0) == NewBuckets(s, id)
    {
    }
    if untried != map[] {
      var id := Pick(untried.Keys);
      assert id == FREE || s.info[id].refCount > |NewBuckets(s, id)|;
    } else {
      assert forall id :: id in s.info && !s.info[id].inTried ==> id !in untried;
      EntriesReferenced(s);
    }
  }

  // ---------- which result means what ----------

  lemma NoneChecked(s: State)
    ensures EntriesChecked(s, {}, {}, map[]) && SeenIndex(s, {}) == s.addrIds
  {
  }

  lemma EntryFault(s: State, id: int)
    requires Shape(s) && id in s.info && EntryCode(s, id) != 0
    ensures Fault(s, EntryCode(s, id))
  {
    hide NewRefsExact;
  }

  lemma TriedFault(s: State, b: nat, p: nat)
    requires Shape(s) && b < TRIED_BUCKET_COUNT && p < BUCKET_SIZE
    ensures !TriedSlotOk(s, b, p) ==> Fault(s, -11) && Fault(s, -17) && Fault(s, -18)
  {
    hide NewRefsExact, TriedSlotOk;
  }

  lemma NewFault(s: State, b: nat, p: nat)
    requires Shape(s) && b < NEW_BUCKET_COUNT && p < BUCKET_SIZE
    ensures !NewSlotOk(s, b, p) ==> Fault(s, -12) && Fault(s, -19)
    ensures !NewRefsExact(s) ==> Fault(s, -12)
  {
    hide NewRefsExact, NewSlotOk;
  }

  lemma CountFaults(s: State)
    requires Shape(s)
    ensures |s.random| != s.nTried + s.nNew ==> Fault(s, -7)
    ensures |TriedIds(s)| != s.nTried ==> Fault(s, -9)
    ensures |NewIds(s)| != s.nNew ==> Fault(s, -10)
    ensures |TriedIds(s)| == s.nTried && |NewIds(s)| == s.nNew ==> CountsOk(s, 0)
    ensures FreeIsNew(s) || !NewRefsExact(s) ==> Fault(s, -15)
    ensures s.key == 0 ==> Fault(s, -16)
  {
    hide NewRefsExact, TriedIds, NewIds;
  }

  // ---------- a passed check is the invariant ----------

  ghost predicate StatsOk(s: State) {
    forall id :: id in s.info ==>
      s.info[id].lastTry >= 0 && s.info[id].lastSuccess >= 0 && (s.info[id].inTried ==> s.info[id].lastSuccess != 0)
  }

  /** No address is left in the index without its entry. */
  ghost predicate IndexSound(s: State) {
    forall a :: a in s.addrIds ==> s.addrIds[a] in s.info && s.info[s.addrIds[a]].addr.service.net == a
  }

  ghost predicate FirstIndexed(s: State) {
    0 in s.info ==> s.info[0].addr.service.net in s.addrIds
  }

  /**
  The check passes exactly when the invariant holds with sane statistics and a key, but for three
  things it does not look at: the id counter, stale addresses in the index, and the address of entry 0.
   */
  lemma PassesIsInvariant(s: State)
    requires Shape(s)
    ensures Passes(s) && IdsOk(s) && IndexSound(s) && FirstIndexed(s) <==> Loose(s, {}, 0) && StatsOk(s) && s.key != 0
  {
    hide TriedOk, NewSlotsOk, NewRefsExact, CountsOk, RandomOk, EntriesPass, StatsOk, AddrOk, RefsOk, IdsOk, IndexSound,
         FirstIndexed;
    if Passes(s) && IdsOk(s) && IndexSound(s) && FirstIndexed(s) {
      PassedEntries(s);
      PassedOrder(s);
      PassedRefs(s);
    }
    if Loose(s, {}, 0) && StatsOk(s) {
      FreeIsNoId(s);
      ConsistentEntries(s);
      ConsistentOrder(s);
    }
  }

  /** For a consistent manager the check is about the statistics and the key alone. */
  lemma ConsistentPasses(s: State)
    requires Loose(s, {}, 0)
    ensures Passes(s) <==> StatsOk(s) && s.key != 0
  {
    hide TriedOk, NewSlotsOk, NewRefsExact, CountsOk, RandomOk, EntriesPass, StatsOk, AddrOk, RefsOk, IdsOk;
    if StatsOk(s) {
      PassesIsInvariant(s);
    }
    if EntriesPass(s) {
      PassedStats(s);
    }
  }

  lemma PassedStats(s: State)
    requires EntriesPass(s)
    ensures StatsOk(s)
  {
    forall id | id in s.info
      ensures s.info[id].lastTry >= 0 && s.info[id].lastSuccess >= 0
      ensures (s.info[id].inTried ==> s.info[id].lastSuccess != 0)
    {
      assert EntryCode(s, id) == 0;
    }
  }

  lemma PassedEntries(s: State)
    requires EntriesPass(s) && IndexSound(s) && FirstIndexed(s)
    ensures AddrOk(s) && StatsOk(s)
  {
    forall id | id in s.info
      ensures var a := s.info[id].addr.service.net; a in s.addrIds && s.addrIds[a] == id
    {
      assert EntryCode(s, id) == 0;
    }
  }

  ghost function Positions(s: State, ids: set<int>): set<int>
    requires ids <= s.info.Keys
  {
    set id | id in ids :: s.info[id].randomPos
  }

  lemma {:induction false} PositionsCount(s: State, ids: set<int>)
    requires ids <= s.info.Keys && forall id :: id in ids ==> PositionPasses(s, id)
    ensures |Positions(s, ids)| == |ids|
    decreases ids
  {
    if ids != {} {
      var id := Pick(ids);
      var rest := ids - {id};
      PositionsCount(s, rest);
      assert ids == rest + {id};
      assert Positions(s, ids) == Positions(s, rest) + {s.info[id].randomPos};
      assert s.info[id].randomPos !in Positions(s, rest);
    }
  }

  /** As many different positions as there are entries leave no room for anything else in the order. */
  lemma PassedOrder(s: State)
    requires EntriesPass(s) && CountsOk(s, 0) && |s.random| == s.nTried + s.nNew
    ensures RandomOk(s)
  {
    hide EntryCode, PositionPasses;
    forall id | id in s.info
      ensures PositionPasses(s, id)
    {
      PositionOfPassed(s, id);
    }
    PositionsCount(s, s.info.Keys);
    KeysSplit(s);
    AllPositions(s);
  }

  lemma PositionOfPassed(s: State, id: int)
    requires id in s.info && EntriesPass(s)
    ensures PositionPasses(s, id)
  {
    assert EntryCode(s, id) == 0;
  }

  lemma KeysSplit(s: State)
    ensures |s.info.Keys| == |TriedIds(s)| + |NewIds(s)|
  {
    assert s.info.Keys == TriedIds(s) + NewIds(s) && TriedIds(s) !! NewIds(s);
  }

  lemma AllPositions(s: State)
    requires |Positions(s, s.info.Keys)| == |s.random| && forall id :: id in s.info ==> PositionPasses(s, id)
    ensures RandomOk(s)
  {
    var all, taken := Range(0, |s.random|), Positions(s, s.info.Keys);
    assert taken <= all;
    EqualSubset(taken, all);
    forall i | 0 <= i < |s.random|
      ensures s.random[i] in s.info && s.info[s.random[i]].randomPos == i
    {
      assert i in taken;
    }
  }

  lemma EqualSubset(a: set<int>, b: set<int>)
    requires a <= b && |a| == |b|
    ensures a == b
  {
    assert b == a + (b - a);
  }

  /** A tried entry has no reference from the new table. */
  lemma NoNewBuckets(s: State, id: int)
    requires Shape(s) && NewSlotsOk(s) && id in s.info && s.info[id].inTried && id != FREE
    ensures NewBuckets(s, id) == {}
  {
  }

  lemma PassedRefs(s: State)
    requires Shape(s) && EntriesPass(s) && NewSlotsOk(s) && NewRefsExact(s) && IdsOk(s)
    ensures RefsOk(s, {})
  {
    hide NewSlotsOk;
    forall id | id in s.info
      ensures s.info[id].refCount == |NewBuckets(s, id)|
      ensures (!s.info[id].inTried ==> 1 <= s.info[id].refCount <= NEW_BUCKETS_PER_ADDRESS)
    {
      assert EntryCode(s, id) == 0;
      if s.info[id].inTried {
        NoNewBuckets(s, id);
      }
    }
  }

  lemma ConsistentEntries(s: State)
    requires Loose(s, {}, 0) && StatsOk(s)
    ensures EntriesPass(s) && IndexSound(s) && FirstIndexed(s) && NewRefsExact(s)
  {
    hide TriedOk, NewSlotsOk, CountsOk;
    forall id | id in s.info
      ensures EntryCode(s, id) == 0
    {
      if s.info[id].inTried {
        NoNewBuckets(s, id);
      }
    }
  }

  lemma ConsistentOrder(s: State)
    requires Loose(s, {}, 0)
    ensures |s.random| == s.nTried + s.nNew
  {
    hide TriedOk, NewSlotsOk, AddrOk, RefsOk, IdsOk;
    assert forall id :: id in s.info ==> PositionPasses(s, id);
    PositionsCount(s, s.info.Keys);
    KeysSplit(s);
    forall i | 0 <= i < |s.random|
      ensures i in Positions(s, s.info.Keys)
    {
      var id := s.random[i];
      assert id in s.info.Keys && s.info[id].randomPos == i;
    }
    assert Positions(s, s.info.Keys) == Range(0, |s.random|);
  }

  // ---------- every run passes ----------

  /** The key and the statistics of `t` are those of `s`, and at most `x` became a tried entry. */
  ghost predicate StatsFrom(s: State, t: State, x: int) {
    t.key == s.key && forall id :: id in t.info ==> id in s.info && StatsFromEntry(s.info[id], t.info[id], id == x)
  }

  predicate StatsFromEntry(i: Info, j: Info, mayEnter: bool) {
    j.lastTry == i.lastTry && j.lastSuccess == i.lastSuccess && (j.inTried ==> i.inTried || mayEnter)
  }

  lemma StatsKept(s: State, t: State, x: int)
    requires StatsOk(s) && StatsFrom(s, t, x) && (x in s.info ==> s.info[x].lastSuccess != 0)
    ensures StatsOk(t)
  {
    assert forall id :: id in t.info ==> id in s.info;
  }

  lemma StatsTrans(s: State, t: State, u: State, x: int)
    requires StatsFrom(s, t, x) && StatsFrom(t, u, x)
    ensures StatsFrom(s, u, x)
  {
    forall id | id in u.info
      ensures id in s.info && StatsFromEntry(s.info[id], u.info[id], id == x)
    {
      assert id in t.info;
    }
  }

  lemma DeleteStats(s: State, id: int, x: int)
    ensures StatsFrom(s, Delete(s, id), x)
  {
  }

  lemma ClearNewStats(s: State, b: nat, p: nat, x: int)
    requires Shape(s) && b < NEW_BUCKET_COUNT && p < BUCKET_SIZE
    ensures StatsFrom(s, ClearNew(s, b, p), x)
  {
    hide Delete;
    var id := s.newTable[b][p];
    if id in s.info {
      var s1 := DropSlot(s, b, p);
      DeleteStats(s1, id, x);
      StatsTrans(s, s1, Delete(s1, id), x);
    }
  }

  lemma BackToNewStats(s: State, id: int, x: int)
    requires Shape(s) && id in s.info
    ensures StatsFrom(s, BackToNew(s, id), x)
  {
    hide ClearNew;
    var b := NewBucket(s.net, s.key, s.info[id].addr.service, s.info[id].source);
    var p := NewPos(s, id, b);
    ClearNewStats(s, b, p, x);
    var s1 := ClearNew(s, b, p);
    if id in s1.info {
      StatsTrans(s, s1, PutSlot(s1, id, b, p, 1).(nNew := s1.nNew + 1), x);
    }
  }

  lemma EvictStats(s: State, b: nat, p: nat, x: int)
    requires Shape(s) && b < TRIED_BUCKET_COUNT && p < BUCKET_SIZE
    ensures StatsFrom(s, Evict(s, b, p), x)
  {
    hide BackToNew;
    var id := s.triedTable[b][p];
    if id in s.info {
      var s1 := LeaveTried(s, b, p);
      BackToNewStats(s1, id, x);
      StatsTrans(s, s1, BackToNew(s1, id), x);
    }
  }

  lemma MakeTriedStats(s: State, id: int)
    requires Shape(s) && id in s.info
    ensures StatsFrom(s, MakeTried(s, id), id)
  {
    hide Evict, Vacated;
    var b, p := TriedRow(s, id), TriedPos(s, id);
    var s1 := LeaveNew(s, id);
    var s2 := Evict(s1, b, p);
    EvictStats(s1, b, p, id);
    StatsTrans(s, s1, s2, id);
    StatsTrans(s, s2, EnterTried(s2, id, b, p), id);
  }

  /**
  Good writes its time into the entry it finds, as last success and last try. That is sane for a time after the epoch;
  the epoch itself is sane only for an entry that stays among the new ones.
   */
  predicate GoodTimely(s: State, addr: Service, testBeforeEvict: bool, time: int)
    requires Shape(s)
  {
    match Find(s, addr.net)
    case None => true
    case Some(id) =>
      s.info[id].addr.service != addr || time > 0
          || (time == 0 && !s.info[id].inTried && MustWait(s, id, testBeforeEvict))
  }

  lemma MarkedStats(s: State, id: int, time: int)
    requires StatsOk(s) && id in s.info
    ensures StatsOk(Marked(s, id, time)) <==> time > 0 || (time == 0 && !s.info[id].inTried)
  {
    var t := Marked(s, id, time);
    assert t.info[id].lastSuccess == time && t.info[id].lastTry == time && t.info[id].inTried == s.info[id].inTried;
  }

  /** When the found entry moves. */
  lemma MovedStats(s: State, id: int, time: int)
    requires Inv(s) && StatsOk(s) && id in s.info && !s.info[id].inTried
    ensures StatsOk(MakeTried(Marked(s, id, time), id)) <==> time > 0
    ensures MakeTried(Marked(s, id, time), id).key == s.key
    ensures MakeTried(Marked(s, id, time), id).collisions == s.collisions
  {
    hide TriedOk, NewSlotsOk, RandomOk, AddrOk, IdsOk, RefsOk, CountsOk, CollisionsOk, MakeTried;
    var s1 := Marked(s, id, time);
    MarkedKeeps(s, id, time);
    MarkedStats(s, id, time);
    MakeTriedStats(s1, id);
    MakeTriedEffect(s1, id);
    if time > 0 {
      StatsKept(s1, MakeTried(s1, id), id);
    } else {
      assert MakeTried(s1, id).info[id].lastSuccess == time;
    }
  }

  lemma GoodStats(s: State, addr: Service, testBeforeEvict: bool, time: int)
    requires Inv(s) && StatsOk(s)
    ensures var t := Good(s, addr, testBeforeEvict, time);
            (StatsOk(t) <==> GoodTimely(s, addr, testBeforeEvict, time)) && t.key == s.key
    ensures !testBeforeEvict ==> Good(s, addr, testBeforeEvict, time).collisions == s.collisions
  {
    hide TriedOk, NewSlotsOk, RandomOk, AddrOk, IdsOk, RefsOk, CountsOk, CollisionsOk, MakeTried, NewBuckets;
    if Find(s, addr.net).Some? {
      var id := Find(s, addr.net).value;
      var s1 := Marked(s, id, time);
      MarkedKeeps(s, id, time);
      MarkedStats(s, id, time);
      if !s.info[id].inTried {
        HasNewBucket(s1, id);
        MovedStats(s, id, time);
        CollisionsDoNotMatter(s1, s1.collisions + {id});
      }
    }
  }

  lemma CollisionsDoNotMatter(s: State, pending: set<int>)
    ensures StatsOk(s.(collisions := pending)) <==> StatsOk(s)
  {
  }

  lemma PlaceNewStats(s: State, id: int, source: NetAddr, now: int)
    requires Shape(s) && id in s.info
    ensures StatsFrom(s, PlaceNew(s, id, source, now), FREE)
  {
    hide ClearNew, Delete, IsTerrible;
    var b := NewBucket(s.net, s.key, s.info[id].addr.service, source);
    var p := NewPos(s, id, b);
    ClearNewStats(s, b, p, FREE);
    DeleteStats(s, id, FREE);
    var s1 := ClearNew(s, b, p);
    if id in s1.info {
      StatsTrans(s, s1, PutSlot(s1, id, b, p, s1.info[id].refCount + 1), FREE);
    }
  }

  lemma AddStats(s: State, addr: Address, source: NetAddr, penalty: int, now: int, rnd: nat)
    requires Shape(s) && StatsOk(s) && FREE !in s.info && FREE != s.idCount
    ensures var t := Add(s, addr, source, penalty, now, rnd).0; StatsOk(t) && t.key == s.key
  {
    hide PlaceNew, MayMultiply;
    if s.net.routable(addr.service.net) {
      var pen := if addr.service.net == source then 0 else penalty;
      match Find(s, addr.service.net) {
        case Some(id) =>
          var s1 := WithInfo(s, id, Refreshed(s.info[id], addr, pen, now));
          PlaceNewStats(s1, id, source, now);
          StatsKept(s1, PlaceNew(s1, id, source, now), FREE);
        case None =>
          var s1 := Created(s, addr, source, pen);
          PlaceNewStats(s1, s.idCount, source, now);
          StatsKept(s1, PlaceNew(s1, s.idCount, source, now), FREE);
      }
    }
  }

  lemma SwapStats(s: State, i: nat, j: nat)
    requires StatsOk(s)
    ensures var t := SwapRandom(s, i, j); StatsOk(t) && t.key == s.key && |t.random| == |s.random|
  {
  }

  lemma {:induction false} ShuffleStats(s: State, n: nat, limit: nat, got: seq<Address>, now: int, rnd: nat -> nat)
    requires StatsOk(s) && n <= |s.random|
    ensures var t := Shuffle(s, n, limit, got, now, rnd).0; StatsOk(t) && t.key == s.key
    decreases |s.random| - n
  {
    hide IsTerrible, SwapRandom, StatsOk;
    if n < |s.random| && |got| < limit {
      SwapStats(s, n, rnd(n) % (|s.random| - n) + n);
      var s1 := SwapRandom(s, n, rnd(n) % (|s.random| - n) + n);
      if s1.random[n] in s1.info {
        var i := s1.info[s1.random[n]];
        ShuffleStats(s1, n + 1, limit, if IsTerrible(i, now) then got else got + [i.addr], now, rnd);
      }
    }
  }

  /** A collision is resolved in favour of the waiting entry only at a time after the epoch. */
  lemma ResolveStepStats(s: State, id: int, now: int)
    requires Inv(s) && StatsOk(s) && id in s.collisions
    ensures var t := ResolveStep(s, id, now); StatsOk(t) && t.key == s.key && s.collisions - {id} <= t.collisions
  {
    hide NewSlotsOk, RandomOk, AddrOk, IdsOk, RefsOk, CountsOk, Good;
    if id in s.info {
      GoodStats(s, s.info[id].addr.service, false, now);
      var holder := s.triedTable[TriedRow(s, id)][TriedPos(s, id)];
      assert holder in s.info && s.info[holder].lastSuccess >= 0;
    }
    var (t, over) := ResolveOne(s, id, now);
    CollisionsDoNotMatter(t, t.collisions - {id});
  }

  lemma {:induction false} ResolveStats(s: State, todo: set<int>, now: int)
    requires Inv(s) && StatsOk(s) && todo <= s.collisions
    ensures var t := Resolve(s, todo, now); StatsOk(t) && t.key == s.key
    decreases todo
  {
    hide TriedOk, NewSlotsOk, RandomOk, AddrOk, IdsOk, RefsOk, CountsOk, CollisionsOk, ResolveStep, StatsOk;
    if todo != {} {
      var id := Least(todo);
      ResolveStepKeeps(s, id, now);
      ResolveStepStats(s, id, now);
      ResolveStats(ResolveStep(s, id, now), todo - {id}, now);
    }
  }

  /** The times that a call records are sane: what Good and Attempt ask of their time for the entry they find. */
  ghost predicate Timely(s: State, c: Call)
    requires Shape(s)
  {
    match c
    case GoodCall(a, test, now) => GoodTimely(s, a, test, now)
    case AttemptCall(a, _, now) => now >= 0 || forall id :: !Knows(s, a, id)
    case _ => true
  }

  lemma AttemptStats(s: State, addr: Service, countFailure: bool, time: int)
    requires StatsOk(s)
    ensures var t := Attempt(s, addr, countFailure, time);
            (StatsOk(t) <==> time >= 0 || forall id :: !Knows(s, addr, id)) && t.key == s.key
  {
    if Find(s, addr.net).Some? {
      var id := Find(s, addr.net).value;
      if s.info[id].addr.service == addr {
        assert Knows(s, addr, id);
        assert Attempt(s, addr, countFailure, time).info[id].lastTry == time;
      }
    }
  }

  /** A call keeps the statistics sane if and only if it is timely. */
  lemma StepStats(s: State, c: Call)
    requires Inv(s) && StatsOk(s)
    ensures (StatsOk(Step(s, c)) <==> Timely(s, c)) && Step(s, c).key == s.key
  {
    hide TriedOk, NewSlotsOk, RandomOk, AddrOk, RefsOk, CountsOk, CollisionsOk, Add, Good, Attempt, Shuffle, Resolve;
    match c
    case AddCall(a, source, penalty, now, rnd) => AddStats(s, a, source, penalty, now, rnd);
    case GoodCall(a, test, now) => GoodStats(s, a, test, now);
    case AttemptCall(a, count, now) => AttemptStats(s, a, count, now);
    case ConnectedCall(a, now) =>
    case SetServicesCall(a, services) =>
    case GetAddrCall(now, shuffle) => ShuffleStats(s, 0, GetAddrLimit(|s.random|), [], now, shuffle);
    case ResolveCollisionsCall(now) => ResolveStats(s, s.collisions, now);
    case SelectTriedCollisionCall(id) =>
  }

  ghost predicate AllTimely(s: State, calls: seq<Call>)
    requires Shape(s)
    decreases |calls|
  {
    calls == [] || (Timely(s, calls[0]) && AllTimely(Step(s, calls[0]), calls[1..]))
  }

  /** The self-check passes before the run and after each of its calls. */
  ghost predicate AllPass(s: State, calls: seq<Call>)
    requires Shape(s)
    decreases |calls|
  {
    Passes(s) && (calls == [] || AllPass(Step(s, calls[0]), calls[1..]))
  }

  lemma {:induction false} RunPasses(s: State, calls: seq<Call>)
    requires Inv(s) && StatsOk(s) && s.key != 0
    ensures AllPass(s, calls) <==> AllTimely(s, calls)
    decreases |calls|
  {
    hide TriedOk, NewSlotsOk, RandomOk, AddrOk, IdsOk, RefsOk, CountsOk, CollisionsOk, Step, StatsOk, Passes, Timely;
    ConsistentPasses(s);
    if calls != [] {
      StepKeeps(s, calls[0]);
      StepStats(s, calls[0]);
      var t := Step(s, calls[0]);
      ConsistentPasses(t);
      if Timely(s, calls[0]) {
        RunPasses(t, calls[1..]);
      }
    }
  }

  /**
  On a fresh manager the self-check passes throughout a run if and only if there is a key and every call is timely.
   */
  lemma EveryRunPasses(n: Network, key: Key, calls: seq<Call>)
    ensures AllPass(Cleared(n, key, {}), calls) <==> key != 0 && AllTimely(Cleared(n, key, {}), calls)
  {
    hide TriedOk, NewSlotsOk, RandomOk, AddrOk, IdsOk, RefsOk, CountsOk, CollisionsOk, Passes, AllTimely;
    var s := Cleared(n, key, {});
    ClearedInv(n, key, {});
    ConsistentPasses(s);
    if key != 0 {
      RunPasses(s, calls);
    }
  }

  /** It is so when every time that is recorded is after the epoch. */
  lemma {:induction false} LateTimesAreTimely(s: State, calls: seq<Call>)
    requires Shape(s) && forall k :: 0 <= k < |calls| && (calls[k].GoodCall? || calls[k].AttemptCall?) ==>
              calls[k].now > 0
    ensures AllTimely(s, calls)
    decreases |calls|
  {
    hide Step;
    if calls != [] {
      LateTimesAreTimely(Step(s, calls[0]), calls[1..]);
    }
  }

  /** An address that is announced and then found good at a time before the epoch: the self-check fails afterwards. */
  lemma EarlyGoodFails(n: Network, key: Key, a: Address, source: NetAddr)
    requires n.routable(a.service.net)
    ensures var s := Step(Cleared(n, key, {}), AddCall(a, source, 0, 0, 0));
            !Passes(Step(s, GoodCall(a.service, false, -1)))
  {
    hide TriedOk, NewSlotsOk, RandomOk, AddrOk, IdsOk, RefsOk, CountsOk, CollisionsOk, Passes, Add, Good;
    var s0 := Cleared(n, key, {});
    ClearedInv(n, key, {});
    var c := AddCall(a, source, 0, 0, 0);
    StepKeeps(s0, c);
    StepStats(s0, c);
    var s := Step(s0, c);
    FirstIsStored(n, key, a, source);
    StepStats(s, GoodCall(a.service, false, -1));
    StepKeeps(s, GoodCall(a.service, false, -1));
    ConsistentPasses(Step(s, GoodCall(a.service, false, -1)));
  }

  lemma FirstIsStored(n: Network, key: Key, a: Address, source: NetAddr)
    requires n.routable(a.service.net)
    ensures Knows(Add(Cleared(n, key, {}), a, source, 0, 0, 0).0, a.service, 0)
  {
    hide Delete;
    var s0 := Cleared(n, key, {});
    var c := Created(s0, a, source, 0);
    var b := NewBucket(n, key, a.service, source);
    var p := NewPos(c, 0, b);
    assert s0.newTable[b][p] == FREE;
    assert Add(s0, a, source, 0, 0, 0).0 == PutSlot(c, 0, b, p, 1);
  }
}
