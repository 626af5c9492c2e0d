/** Whole runs of the address manager, and what its operations promise to their callers. */
module AddrManRuns {
  import opened Wrappers
  import opened AddrManState
  import opened AddrManInvariant
  import opened AddrManOperations
  import opened AddrManDisk
  import opened AddrManRoundTrip
  import opened Sets

  /** A call, with the clock readings and random numbers it meets. */
  datatype Call =
    | AddCall(address: Address, source: NetAddr, penalty: int, now: int, rnd: nat)
    | GoodCall(service: Service, testBeforeEvict: bool, now: int)
    | AttemptCall(service: Service, countFailure: bool, now: int)
    | ConnectedCall(service: Service, now: int)
    | SetServicesCall(service: Service, services: set<nat>)
    | GetAddrCall(now: int, shuffle: nat -> nat)
    | ResolveCollisionsCall(now: int)
    | SelectTriedCollisionCall(choice: int)

  ghost function Step(s: State, c: Call): (t: State)
    requires Shape(s)
    ensures Shape(t)
  {
    match c
    case AddCall(a, source, penalty, now, rnd) => Add(s, a, source, penalty, now, rnd).0
    case GoodCall(a, test, now) => Good(s, a, test, now)
    case AttemptCall(a, count, now) => Attempt(s, a, count, now)
    case ConnectedCall(a, now) => Connected(s, a, now)
    case SetServicesCall(a, services) => SetServices(s, a, services)
    case GetAddrCall(now, shuffle) => GetAddr(s, now, shuffle).0
    case ResolveCollisionsCall(now) => Resolve(s, s.collisions, now)
    case SelectTriedCollisionCall(id) => if id in s.collisions then SelectCollision(s, id).0 else s
  }

  ghost function Run(s: State, calls: seq<Call>): (t: State)
    requires Shape(s)
    ensures Shape(t)
    decreases |calls|
  {
    if calls == [] then s else Run(Step(s, calls[0]), calls[1..])
  }

  lemma StepKeeps(s: State, c: Call)
    requires Inv(s)
    ensures Inv(Step(s, c))
  {
    hide TriedOk, NewSlotsOk, RandomOk, AddrOk, IdsOk, RefsOk, CountsOk, CollisionsOk, Add, Good, Attempt, Connected,
         SetServices, GetAddr, Resolve, SelectCollision;
    match c
    case AddCall(a, source, penalty, now, rnd) => AddKeeps(s, a, source, penalty, now, rnd);
    case GoodCall(a, test, now) => GoodKeeps(s, a, test, now);
    case AttemptCall(a, count, now) => AttemptKeeps(s, a, count, now);
    case ConnectedCall(a, now) => ConnectedKeeps(s, a, now);
    case SetServicesCall(a, services) => SetServicesKeeps(s, a, services);
    case GetAddrCall(now, shuffle) => GetAddrResult(s, now, shuffle);
    case ResolveCollisionsCall(now) => ResolveKeeps(s, s.collisions, now);
    case SelectTriedCollisionCall(id) =>
      if id in s.collisions {
        SelectCollisionResult(s, id);
      }
  }

  /** Clear keeps the pending collisions; the cleared manager is consistent exactly if there are none. */
  lemma ClearedInv(n: Network, key: Key, pending: set<int>)
    ensures Loose(Cleared(n, key, pending), {}, 0)
    ensures Inv(Cleared(n, key, pending)) <==> pending == {}
  {
    var s := Cleared(n, key, pending);
    assert NewIds(s) == {} && TriedIds(s) == {};
    if pending != {} {
      var id := Pick(pending);
      assert !(0 <= id < s.idCount);
    }
  }

  /**
  A collision that outlives Clear: the next address gets its id, and SelectTriedCollision reads a free tried slot.
   */
  lemma CollisionsOutliveClear(n: Network, key: Key, a: Address, source: NetAddr)
    requires n.routable(a.service.net)
    ensures var s := Add(Cleared(n, key, {0}), a, source, 0, 0, 0).0;
            && 0 in s.collisions && 0 in s.info
            && s.triedTable[TriedRow(s, 0)][TriedPos(s, 0)] == FREE && SelectCollision(s, 0).1 == None
  {
    hide Delete;
    var s0 := Cleared(n, key, {0});
    var c := Created(s0, a, source, 0);
    var b := NewBucket(n, key, a.service, source);
    var p := NewPos(c, 0, b);
    assert s0.newTable[b][p] == FREE;
    assert Add(s0, a, source, 0, 0, 0).0 == PutSlot(c, 0, b, p, 1);
  }

  lemma {:induction false} RunKeeps(s: State, calls: seq<Call>)
    requires Inv(s)
    ensures Inv(Run(s, calls))
    decreases |calls|
  {
    hide TriedOk, NewSlotsOk, RandomOk, AddrOk, IdsOk, RefsOk, CountsOk, CollisionsOk, Step;
    if calls != [] {
      StepKeeps(s, calls[0]);
      RunKeeps(Step(s, calls[0]), calls[1..]);
    }
  }

  /** The invariant holds after every run of calls on a fresh address manager. */
  lemma EveryRunIsConsistent(n: Network, key: Key, calls: seq<Call>)
    ensures Inv(Run(Cleared(n, key, {}), calls))
  {
    ClearedInv(n, key, {});
    RunKeeps(Cleared(n, key, {}), calls);
  }

  /** A manager that was saved after any run and loaded without pending collisions is consistent after any later run. */
  lemma LaterRunsAreConsistent(n: Network, key: Key, calls: seq<Call>, randomKey: Key, later: seq<Call>)
    ensures var s := Run(Cleared(n, key, {}), calls);
            && Loose(s, {}, 0) && Writable(s)
            && Unserialize(s.net, randomKey, {}, Serialize(s)) == Some(Load(Reloaded(s, {}), 0, 0))
            && Inv(Run(Reloaded(s, {}), later))
  {
    hide TriedOk, NewSlotsOk, RandomOk, AddrOk, IdsOk, RefsOk, CountsOk, CollisionsOk, Run, Unserialize, Serialize,
         Reloaded, Writable;
    EveryRunIsConsistent(n, key, calls);
    var s := Run(Cleared(n, key, {}), calls);
    RoundTrip(s, randomKey, {});
    ReloadedInv(s, {});
    RunKeeps(Reloaded(s, {}), later);
  }

  // ---------- the tried table never shrinks ----------

  lemma GoodTriedGrows(s: State, addr: Service, testBeforeEvict: bool, time: int)
    requires Inv(s)
    ensures TriedGrows(s, Good(s, addr, testBeforeEvict, time))
  {
    hide TriedOk, NewSlotsOk, RandomOk, AddrOk, IdsOk, RefsOk, CountsOk, CollisionsOk, MakeTried;
    if Find(s, addr.net).Some? {
      var id := Find(s, addr.net).value;
      MarkedKeeps(s, id, time);
      var s1 := Marked(s, id, time);
      FreeIsNoId(s1);
      if !s1.info[id].inTried {
        MakeTriedEffect(s1, id);
      }
    }
  }

  lemma AddKeepsTried(s: State, addr: Address, source: NetAddr, penalty: int, now: int, rnd: nat)
    requires Inv(s)
    ensures Add(s, addr, source, penalty, now, rnd).0.triedTable == s.triedTable
  {
    hide TriedOk, NewSlotsOk, RandomOk, AddrOk, IdsOk, CountsOk, CollisionsOk, PlaceNew;
    if s.net.routable(addr.service.net) {
      var pen := if addr.service.net == source then 0 else penalty;
      match Find(s, addr.service.net) {
        case Some(id) =>
          var s1 := WithInfo(s, id, Refreshed(s.info[id], addr, pen, now));
          InfoUpdate(s, id, Refreshed(s.info[id], addr, pen, now));
          if !s1.info[id].inTried {
            PlaceNewSurvive(s1, id, source, now);
          }
        case None =>
          NotFoundNotIndexed(s, addr.service.net);
          CreatedKeeps(s, addr, source, pen);
          PlaceNewSurvive(Created(s, addr, source, pen), s.idCount, source, now);
      }
    }
  }

  lemma ResolveStepTriedGrows(s: State, id: int, now: int)
    requires Inv(s)
    ensures TriedGrows(s, ResolveStep(s, id, now))
  {
    hide TriedOk, NewSlotsOk, RandomOk, AddrOk, IdsOk, RefsOk, CountsOk, CollisionsOk, Good;
    if id in s.info {
      GoodTriedGrows(s, s.info[id].addr.service, false, now);
    }
  }

  lemma {:induction false} ResolveTriedGrows(s: State, todo: set<int>, now: int)
    requires Inv(s)
    ensures TriedGrows(s, Resolve(s, todo, now))
    decreases todo
  {
    hide TriedOk, NewSlotsOk, RandomOk, AddrOk, IdsOk, RefsOk, CountsOk, CollisionsOk, ResolveStep;
    if todo != {} {
      var id := Least(todo);
      ResolveStepKeeps(s, id, now);
      ResolveStepTriedGrows(s, id, now);
      ResolveTriedGrows(ResolveStep(s, id, now), todo - {id}, now);
    }
  }

  lemma StepTriedGrows(s: State, c: Call)
    requires Inv(s)
    ensures TriedGrows(s, Step(s, c))
  {
    hide TriedOk, NewSlotsOk, RandomOk, AddrOk, IdsOk, RefsOk, CountsOk, CollisionsOk, Add, Good, Resolve, Shuffle;
    match c
    case AddCall(a, source, penalty, now, rnd) => AddKeepsTried(s, a, source, penalty, now, rnd);
    case GoodCall(a, test, now) => GoodTriedGrows(s, a, test, now);
    case AttemptCall(a, count, now) =>
    case ConnectedCall(a, now) =>
    case SetServicesCall(a, services) =>
    case GetAddrCall(now, shuffle) =>
    case ResolveCollisionsCall(now) => ResolveTriedGrows(s, s.collisions, now);
    case SelectTriedCollisionCall(id) =>
  }

  /** A slot of the tried table, once occupied, is occupied after every continuation of the run. */
  lemma {:induction false} RunTriedGrows(s: State, calls: seq<Call>)
    requires Inv(s)
    ensures TriedGrows(s, Run(s, calls))
    decreases |calls|
  {
    hide TriedOk, NewSlotsOk, RandomOk, AddrOk, IdsOk, RefsOk, CountsOk, CollisionsOk, Step;
    if calls != [] {
      StepKeeps(s, calls[0]);
      StepTriedGrows(s, calls[0]);
      RunTriedGrows(Step(s, calls[0]), calls[1..]);
    }
  }

  // ---------- Good ----------

  /** Good would have to evict a tried entry, and the caller wants that entry tested first. */
  predicate MustWait(s: State, id: int, testBeforeEvict: bool)
    requires Shape(s) && id in s.info
  {
    testBeforeEvict && s.triedTable[TriedRow(s, id)][TriedPos(s, id)] != FREE
  }

  /**
  Good on a known untried address that need not wait moves it into its slot of the tried table.
  The entry evicted from there is back among the new ones, at most one entry is forgotten, and
  that one was not a tried entry.
   */
  lemma GoodMoves(s: State, addr: Service, testBeforeEvict: bool, time: int, id: int)
    requires Inv(s) && Knows(s, addr, id) && !s.info[id].inTried && !MustWait(s, id, testBeforeEvict)
    ensures var t := Good(s, addr, testBeforeEvict, time);
            var evicted := s.triedTable[TriedRow(s, id)][TriedPos(s, id)];
            && id in t.info && t.info[id].inTried
            && t.triedTable == SetSlot(s.triedTable, TriedRow(s, id), TriedPos(s, id), id)
            && (evicted in s.info ==> evicted in t.info && !t.info[evicted].inTried)
            && (forall x :: x in s.info && s.info[x].inTried ==> x in t.info)
            && |s.info.Keys - t.info.Keys| <= 1
  {
    hide TriedOk, NewSlotsOk, RandomOk, AddrOk, IdsOk, RefsOk, CountsOk, CollisionsOk, MakeTried;
    MarkedKeeps(s, id, time);
    var s1 := Marked(s, id, time);
    HasNewBucket(s1, id);
    MakeTriedEffect(s1, id);
    SurviveLoses(s1, MakeTried(s1, id), Forgotten(s1, id));
  }

  /** Otherwise no entry moves; a waiting address is recorded as a collision while there is room. */
  lemma GoodWaits(s: State, addr: Service, testBeforeEvict: bool, time: int, id: int)
    requires Inv(s) && Knows(s, addr, id) && (s.info[id].inTried || MustWait(s, id, testBeforeEvict))
    ensures var t := Good(s, addr, testBeforeEvict, time);
            && t.newTable == s.newTable && t.triedTable == s.triedTable && t.info.Keys == s.info.Keys
            && t.info[id].inTried == s.info[id].inTried
            && t.collisions == if !s.info[id].inTried && |s.collisions| < SET_TRIED_COLLISION_SIZE
                               then s.collisions + {id} else s.collisions
  {
    hide TriedOk, NewSlotsOk, RandomOk, AddrOk, IdsOk, RefsOk, CountsOk, CollisionsOk, MakeTried;
    MarkedKeeps(s, id, time);
    var s1 := Marked(s, id, time);
    if !s.info[id].inTried {
      HasNewBucket(s1, id);
    }
  }

  lemma SurviveLoses(s: State, t: State, lost: int)
    requires Survive(s, t, lost)
    ensures |s.info.Keys - t.info.Keys| <= 1
    ensures forall x :: x in s.info && s.info[x].inTried ==> x in t.info
  {
    assert forall x :: x in s.info.Keys - t.info.Keys ==> x == lost;
    CardinalitySubset(s.info.Keys - t.info.Keys, {lost});
  }

  // ---------- how many buckets one network group can reach ----------

  /** Addresses of one network group share at most 8 buckets of the tried table. */
  lemma TriedBucketsOfGroup(n: Network, key: Key, addresses: set<Service>, g: nat)
    requires forall a :: a in addresses ==> n.group(a.net) == g
    ensures |set a | a in addresses :: TriedBucket(n, key, a)| <= TRIED_BUCKETS_PER_GROUP
  {
    var f := (h: nat) => n.cheapHash([key, g, h]) % TRIED_BUCKET_COUNT;
    ImageSize(f, TRIED_BUCKETS_PER_GROUP);
    forall a | a in addresses
      ensures TriedBucket(n, key, a) in set i: nat | i < TRIED_BUCKETS_PER_GROUP :: f(i)
    {
      var h := n.cheapHash([key, a.net, a.port]) % TRIED_BUCKETS_PER_GROUP;
      assert TriedBucket(n, key, a) == f(h);
    }
    CardinalitySubset(set a | a in addresses :: TriedBucket(n, key, a), set i: nat | i < TRIED_BUCKETS_PER_GROUP ::
        f(i));
  }

  /** Sources of one network group can place addresses into at most 64 buckets of the new table. */
  lemma NewBucketsOfSourceGroup(n: Network, key: Key, announced: set<(Service, NetAddr)>, g: nat)
    requires forall a :: a in announced ==> n.group(a.1) == g
    ensures |set a | a in announced :: NewBucket(n, key, a.0, a.1)| <= NEW_BUCKETS_PER_SOURCE_GROUP
  {
    var f := (h: nat) => n.cheapHash([key, g, h]) % NEW_BUCKET_COUNT;
    ImageSize(f, NEW_BUCKETS_PER_SOURCE_GROUP);
    forall a | a in announced
      ensures NewBucket(n, key, a.0, a.1) in set i: nat | i < NEW_BUCKETS_PER_SOURCE_GROUP :: f(i)
    {
      var h := n.cheapHash([key, n.group(a.0.net), g]) % NEW_BUCKETS_PER_SOURCE_GROUP;
      assert NewBucket(n, key, a.0, a.1) == f(h);
    }
    CardinalitySubset(set a | a in announced ::
        NewBucket(n, key, a.0, a.1), set i: nat | i < NEW_BUCKETS_PER_SOURCE_GROUP :: f(i));
  }
}
