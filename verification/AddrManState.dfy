/**
The address manager as a value: its tables, and every operation written as a function from
state to state.  The class in AddrMan.dfy keeps the same tables in mutable fields and is proved
to compute exactly these functions.

Two functions are left uninterpreted: the keyed hash and the grouping of addresses by network
range.  Everything computed from them (bucket numbers, slots) follows the source.
 */
module AddrManState {
  import opened Wrappers
  import opened Sets
  import Radix

  const TRIED_BUCKET_COUNT := 256
  const NEW_BUCKET_COUNT := 1024
  const BUCKET_SIZE := 64
  const TRIED_BUCKETS_PER_GROUP := 8
  const NEW_BUCKETS_PER_SOURCE_GROUP := 64
  const NEW_BUCKETS_PER_ADDRESS := 8
  const HORIZON_DAYS := 30
  const RETRIES := 3
  const MAX_FAILURES := 10
  const MIN_FAIL_DAYS := 7
  const REPLACEMENT_HOURS := 4
  const GETADDR_MAX_PCT := 23
  const GETADDR_MAX := 2500
  const SET_TRIED_COLLISION_SIZE := 10
  const TEST_WINDOW := 40 * 60
  const HOUR := 60 * 60
  const DAY := 24 * HOUR

  /** The content of a free slot of either table. */
  const FREE := -1

  type Key = nat
  type NetAddr = nat

  /** An address with a port.  Entries are looked up by `net` alone. */
  datatype Service = Service(net: NetAddr, port: nat)

  /** A service with its announced service bits and its last-seen time (32 bits). */
  datatype Address = Address(service: Service, services: set<nat>, time: nat)

  datatype Info = Info(
    addr: Address,
    source: NetAddr,
    lastTry: int,
    lastCountAttempt: int,
    lastSuccess: int,
    attempts: int,
    refCount: int,
    inTried: bool,
    randomPos: int)

  /** The keyed hash over the fields written to it, the network group of an address, and the
      two address tests of the network layer. */
  datatype Network = Network(
    cheapHash: seq<nat> -> nat,
    group: NetAddr -> nat,
    routable: NetAddr -> bool,
    valid: NetAddr -> bool)

  datatype State = State(
    net: Network,
    key: Key,
    idCount: int,
    info: map<int, Info>,
    addrIds: map<NetAddr, int>,
    random: seq<int>,
    nTried: int,
    triedTable: seq<seq<int>>,
    nNew: int,
    newTable: seq<seq<int>>,
    lastGood: int,
    collisions: set<int>)

  function ToUint32(x: int): nat {
    x % 0x1_0000_0000
  }

  // ---------- placement ----------

  function TriedBucket(n: Network, key: Key, a: Service): (b: nat)
    ensures b < TRIED_BUCKET_COUNT
  {
    var hash1 := n.cheapHash([key, a.net, a.port]);
    n.cheapHash([key, n.group(a.net), hash1 % TRIED_BUCKETS_PER_GROUP]) % TRIED_BUCKET_COUNT
  }

  function NewBucket(n: Network, key: Key, a: Service, source: NetAddr): (b: nat)
    ensures b < NEW_BUCKET_COUNT
  {
    var hash1 := n.cheapHash([key, n.group(a.net), n.group(source)]);
    n.cheapHash([key, n.group(source), hash1 % NEW_BUCKETS_PER_SOURCE_GROUP]) % NEW_BUCKET_COUNT
  }

  function BucketPosition(n: Network, key: Key, isNew: bool, bucket: nat, a: Service): (p: nat)
    ensures p < BUCKET_SIZE
  {
    n.cheapHash([key, if isNew then 'N' as int else 'K' as int, bucket, a.net, a.port]) % BUCKET_SIZE
  }

  /** Slot `b` of a new bucket, and the tried bucket and slot, in which entry `id` may sit. */
  function NewPos(s: State, id: int, b: nat): (p: nat)
    requires id in s.info
    ensures p < BUCKET_SIZE
  {
    BucketPosition(s.net, s.key, true, b, s.info[id].addr.service)
  }

  function TriedRow(s: State, id: int): (b: nat)
    requires id in s.info
    ensures b < TRIED_BUCKET_COUNT
  {
    TriedBucket(s.net, s.key, s.info[id].addr.service)
  }

  function TriedPos(s: State, id: int): (p: nat)
    requires id in s.info
    ensures p < BUCKET_SIZE
  {
    BucketPosition(s.net, s.key, false, TriedRow(s, id), s.info[id].addr.service)
  }

  function IsTerrible(i: Info, now: int): bool {
    if i.lastTry != 0 && i.lastTry >= now - 60 then false
    else if i.addr.time > now + 10 * 60 then true
    else if i.addr.time == 0 || now - i.addr.time > HORIZON_DAYS * DAY then true
    else if i.lastSuccess == 0 && i.attempts >= RETRIES then true
    else if now - i.lastSuccess > MIN_FAIL_DAYS * DAY && i.attempts >= MAX_FAILURES then true
    else false
  }

  // ---------- shape ----------

  predicate TableShape(t: seq<seq<int>>, rows: nat) {
    |t| == rows && forall b :: 0 <= b < rows ==> |t[b]| == BUCKET_SIZE
  }

  predicate Shape(s: State) {
    TableShape(s.newTable, NEW_BUCKET_COUNT) && TableShape(s.triedTable, TRIED_BUCKET_COUNT)
  }

  function SetSlot(t: seq<seq<int>>, b: nat, p: nat, id: int): (r: seq<seq<int>>)
    requires b < |t| && p < |t[b]|
  {
    t[b := t[b][p := id]]
  }

  function EmptyTable(rows: nat): (t: seq<seq<int>>)
    ensures TableShape(t, rows)
  {
    seq(rows, _ => seq(BUCKET_SIZE, _ => FREE))
  }

  // ---------- operations ----------

  function Cleared(n: Network, key: Key, collisions: set<int>): (s: State)
    ensures Shape(s)
  {
    State(n, key, 0, map[], map[], [], 0, EmptyTable(TRIED_BUCKET_COUNT),
          0, EmptyTable(NEW_BUCKET_COUNT), 1, collisions)
  }

  function Find(s: State, a: NetAddr): Option<int> {
    if a in s.addrIds && s.addrIds[a] in s.info then Some(s.addrIds[a]) else None
  }

  function WithInfo(s: State, id: int, i: Info): State {
    s.(info := s.info[id := i])
  }

  function Create(s: State, addr: Address, source: NetAddr): State {
    var id := s.idCount;
    s.(idCount := id + 1,
       info := s.info[id := Info(addr, source, 0, 0, 0, 0, 0, false, |s.random|)],
       addrIds := s.addrIds[addr.service.net := id],
       random := s.random + [id])
  }

  function SwapRandom(s: State, i: nat, j: nat): State {
    if i == j || !(i < |s.random| && j < |s.random|) || s.random[i] !in s.info || s.random[j] !in s.info then s
    else
      var a, b := s.random[i], s.random[j];
      var info1 := s.info[a := s.info[a].(randomPos := j)];
      s.(info := info1[b := info1[b].(randomPos := i)], random := s.random[i := b][j := a])
  }

  /** The state without entry `id`, which is last in the random order. */
  function WithoutLast(s: State, id: int): State
    requires id in s.info && s.random != []
  {
    s.(random := s.random[..|s.random| - 1],
       addrIds := s.addrIds - {s.info[id].addr.service.net},
       info := s.info - {id},
       nNew := s.nNew - 1)
  }

  function Delete(s: State, id: int): State {
    if id !in s.info || s.random == [] || s.info[id].randomPos < 0 then s
    else WithoutLast(SwapRandom(s, s.info[id].randomPos, |s.random| - 1), id)
  }

  /** New slot (b, p) emptied, with one reference less for the entry that held it. */
  function DropSlot(s: State, b: nat, p: nat): (r: State)
    requires Shape(s) && b < NEW_BUCKET_COUNT && p < BUCKET_SIZE && s.newTable[b][p] in s.info
    ensures Shape(r)
  {
    var id := s.newTable[b][p];
    s.(info := s.info[id := s.info[id].(refCount := s.info[id].refCount - 1)],
       newTable := SetSlot(s.newTable, b, p, FREE))
  }

  function ClearNew(s: State, b: nat, p: nat): (r: State)
    requires Shape(s) && b < NEW_BUCKET_COUNT && p < BUCKET_SIZE
    ensures Shape(r)
  {
    var id := s.newTable[b][p];
    if id == FREE || id !in s.info then s
    else
      var s1 := DropSlot(s, b, p);
      if s1.info[id].refCount == 0 then Delete(s1, id) else s1
  }

  /** Entry `id` written into new slot (b, p), and its reference count set to `refs`. */
  function PutSlot(s: State, id: int, b: nat, p: nat, refs: int): (r: State)
    requires Shape(s) && id in s.info && b < NEW_BUCKET_COUNT && p < BUCKET_SIZE
    ensures Shape(r)
  {
    s.(info := s.info[id := s.info[id].(refCount := refs)], newTable := SetSlot(s.newTable, b, p, id))
  }

  /** The new buckets in which entry `id` sits. */
  function NewBuckets(s: State, id: int): set<int>
    requires Shape(s) && id in s.info
  {
    set b | 0 <= b < NEW_BUCKET_COUNT && s.newTable[b][NewPos(s, id, b)] == id
  }

  /** The new table with entry `id` taken out of the first `n` buckets. */
  function Vacated(s: State, id: int, n: nat): (t: seq<seq<int>>)
    requires Shape(s) && id in s.info && n <= NEW_BUCKET_COUNT
    ensures TableShape(t, NEW_BUCKET_COUNT)
  {
    seq(NEW_BUCKET_COUNT, b requires 0 <= b < NEW_BUCKET_COUNT =>
      var p := NewPos(s, id, b);
      if b < n && s.newTable[b][p] == id then s.newTable[b][p := FREE] else s.newTable[b])
  }

  /** MakeTried, first part: out of all new buckets. */
  function LeaveNew(s: State, id: int): (r: State)
    requires Shape(s) && id in s.info
    ensures Shape(r)
  {
    s.(newTable := Vacated(s, id, NEW_BUCKET_COUNT),
       info := s.info[id := s.info[id].(refCount := s.info[id].refCount - |NewBuckets(s, id)|)],
       nNew := s.nNew - 1)
  }

  /** MakeTried, second part: the holder of tried slot (b, p) leaves the tried table ... */
  function LeaveTried(s: State, b: nat, p: nat): (r: State)
    requires Shape(s) && b < TRIED_BUCKET_COUNT && p < BUCKET_SIZE && s.triedTable[b][p] in s.info
    ensures Shape(r)
  {
    var id := s.triedTable[b][p];
    s.(info := s.info[id := s.info[id].(inTried := false)],
       triedTable := SetSlot(s.triedTable, b, p, FREE),
       nTried := s.nTried - 1)
  }

  /** ... and takes the new slot of its original source, whose holder loses it. */
  function BackToNew(s: State, id: int): (r: State)
    requires Shape(s) && id in s.info
    ensures Shape(r)
  {
    var b := NewBucket(s.net, s.key, s.info[id].addr.service, s.info[id].source);
    var p := NewPos(s, id, b);
    var s1 := ClearNew(s, b, p);
    if id !in s1.info then s1 else PutSlot(s1, id, b, p, 1).(nNew := s1.nNew + 1)
  }

  function Evict(s: State, b: nat, p: nat): (r: State)
    requires Shape(s) && b < TRIED_BUCKET_COUNT && p < BUCKET_SIZE
    ensures Shape(r)
  {
    var id := s.triedTable[b][p];
    if id == FREE || id !in s.info then s else BackToNew(LeaveTried(s, b, p), id)
  }

  function EnterTried(s: State, id: int, b: nat, p: nat): (r: State)
    requires Shape(s) && b < TRIED_BUCKET_COUNT && p < BUCKET_SIZE
    ensures Shape(r)
  {
    if id !in s.info then s
    else
      s.(triedTable := SetSlot(s.triedTable, b, p, id),
         nTried := s.nTried + 1,
         info := s.info[id := s.info[id].(inTried := true)])
  }

  function MakeTried(s: State, id: int): (r: State)
    requires Shape(s) && id in s.info
    ensures Shape(r)
  {
    var b, p := TriedRow(s, id), TriedPos(s, id);
    EnterTried(Evict(LeaveNew(s, id), b, p), id, b, p)
  }

  function Good(s: State, addr: Service, testBeforeEvict: bool, time: int): (r: State)
    requires Shape(s)
    ensures Shape(r)
  {
    var s0 := s.(lastGood := time);
    match Find(s0, addr.net)
    case None => s0
    case Some(id) =>
      if s0.info[id].addr.service != addr then s0
      else
        var s1 := WithInfo(s0, id, s0.info[id].(lastSuccess := time, lastTry := time, attempts := 0));
        if s1.info[id].inTried || NewBuckets(s1, id) == {} then s1
        else if testBeforeEvict && s1.triedTable[TriedRow(s1, id)][TriedPos(s1, id)] != FREE then
          if |s1.collisions| < SET_TRIED_COLLISION_SIZE then s1.(collisions := s1.collisions + {id}) else s1
        else MakeTried(s1, id)
  }

  /** Every reference halves the chance of getting one more. */
  function Factor(refs: int): nat {
    Radix.Pow2(Radix.Max(0, refs))
  }

  /** Put entry `id` into the new bucket chosen by `source`, if its slot there may be taken. */
  function PlaceNew(s: State, id: int, source: NetAddr, now: int): (r: State)
    requires Shape(s) && id in s.info
    ensures Shape(r)
  {
    var b := NewBucket(s.net, s.key, s.info[id].addr.service, source);
    var p := NewPos(s, id, b);
    var holder := s.newTable[b][p];
    if holder == id then s
    else if holder == FREE
         || (holder in s.info
             && (IsTerrible(s.info[holder], now) || (s.info[holder].refCount > 1 && s.info[id].refCount == 0))) then
      var s1 := ClearNew(s, b, p);
      if id !in s1.info then s1 else PutSlot(s1, id, b, p, s1.info[id].refCount + 1)
    else if s.info[id].refCount == 0 then Delete(s, id)
    else s
  }

  /** What Add does to the statistics of an entry it already knows. */
  function Refreshed(i: Info, addr: Address, penalty: int, now: int): Info {
    var interval := if now - addr.time < DAY then HOUR else DAY;
    var time := if addr.time != 0 && (i.addr.time == 0 || i.addr.time < addr.time - interval - penalty)
                then ToUint32(Radix.Max(0, addr.time - penalty)) else i.addr.time;
    i.(addr := i.addr.(time := time, services := i.addr.services + addr.services))
  }

  /** May an announcement `addr` give the known, already refreshed entry `i` one more reference? */
  predicate MayMultiply(i: Info, addr: Address, rnd: nat) {
    && addr.time != 0
    && (i.addr.time == 0 || addr.time > i.addr.time)
    && !i.inTried
    && i.refCount != NEW_BUCKETS_PER_ADDRESS
    && (Factor(i.refCount) > 1 ==> rnd % Factor(i.refCount) == 0)
  }

  function Created(s: State, addr: Address, source: NetAddr, penalty: int): State {
    var s1 := Create(s, addr, source);
    var i := s1.info[s.idCount];
    WithInfo(s1, s.idCount, i.(addr := i.addr.(time := ToUint32(Radix.Max(0, i.addr.time - penalty))))).(nNew :=
        s1.nNew + 1)
  }

  function Add(s: State, addr: Address, source: NetAddr, penalty: int, now: int, rnd: nat): (r: (State, bool))
    requires Shape(s)
    ensures Shape(r.0)
  {
    if !s.net.routable(addr.service.net) then (s, false)
    else
      var pen := if addr.service.net == source then 0 else penalty;
      match Find(s, addr.service.net)
      case Some(id) =>
        var s1 := WithInfo(s, id, Refreshed(s.info[id], addr, pen, now));
        (if MayMultiply(s1.info[id], addr, rnd) then PlaceNew(s1, id, source, now) else s1, false)
      case None =>
        (PlaceNew(Created(s, addr, source, pen), s.idCount, source, now), true)
  }

  function Attempt(s: State, addr: Service, countFailure: bool, time: int): State {
    match Find(s, addr.net)
    case None => s
    case Some(id) =>
      var i := s.info[id];
      if i.addr.service != addr then s
      else if countFailure && i.lastCountAttempt < s.lastGood then
        WithInfo(s, id, i.(lastTry := time, lastCountAttempt := time, attempts := i.attempts + 1))
      else WithInfo(s, id, i.(lastTry := time))
  }

  function Connected(s: State, addr: Service, time: int): State {
    match Find(s, addr.net)
    case None => s
    case Some(id) =>
      var i := s.info[id];
      if i.addr.service == addr && time - i.addr.time > 20 * 60
      then WithInfo(s, id, i.(addr := i.addr.(time := ToUint32(time)))) else s
  }

  function SetServices(s: State, addr: Service, services: set<nat>): State {
    match Find(s, addr.net)
    case None => s
    case Some(id) =>
      var i := s.info[id];
      if i.addr.service == addr then WithInfo(s, id, i.(addr := i.addr.(services := services))) else s
  }

  /** The shuffle of GetAddr from position `n` on, with the addresses it collects. */
  function Shuffle(s: State, n: nat, limit: nat, got: seq<Address>, now: int, rnd: nat -> nat): (r: (State,
                   seq<Address>))
    requires n <= |s.random|
    ensures r.0.newTable == s.newTable && r.0.triedTable == s.triedTable
    decreases |s.random| - n
  {
    if n == |s.random| || |got| >= limit then (s, got)
    else
      var s1 := SwapRandom(s, n, rnd(n) % (|s.random| - n) + n);
      if s1.random[n] !in s1.info then (s1, got)
      else
        var i := s1.info[s1.random[n]];
        Shuffle(s1, n + 1, limit, if IsTerrible(i, now) then got else got + [i.addr], now, rnd)
  }

  function GetAddrLimit(size: nat): nat {
    var nodes := GETADDR_MAX_PCT * size / 100;
    if nodes > GETADDR_MAX then GETADDR_MAX else nodes
  }

  function GetAddr(s: State, now: int, rnd: nat -> nat): (State, seq<Address>) {
    Shuffle(s, 0, GetAddrLimit(|s.random|), [], now, rnd)
  }

  /** One round of ResolveCollisions: the state after it and whether the collision is over. */
  function ResolveOne(s: State, id: int, now: int): (r: (State, bool))
    requires Shape(s)
    ensures Shape(r.0)
  {
    if id !in s.info then (s, true)
    else
      var i := s.info[id];
      if !s.net.valid(i.addr.service.net) then (s, true)
      else
        var holder := s.triedTable[TriedRow(s, id)][TriedPos(s, id)];
        if holder == FREE then (Good(s, i.addr.service, false, now), true)
        else if holder !in s.info then (s, false)
        else
          var o := s.info[holder];
          if now - o.lastSuccess < REPLACEMENT_HOURS * HOUR then (s, true)
          else if now - o.lastTry < REPLACEMENT_HOURS * HOUR then
            if now - o.lastTry > 60 then (Good(s, i.addr.service, false, now), true) else (s, false)
          else if now - i.lastSuccess > TEST_WINDOW then (Good(s, i.addr.service, false, now), true)
          else (s, false)
  }

  function ResolveStep(s: State, id: int, now: int): (r: State)
    requires Shape(s)
    ensures Shape(r)
  {
    var (s1, over) := ResolveOne(s, id, now);
    if over then s1.(collisions := s1.collisions - {id}) else s1
  }

  /** ResolveCollisions over the ids still to visit; the source visits its set in ascending order. */
  ghost function Resolve(s: State, todo: set<int>, now: int): (r: State)
    requires Shape(s)
    ensures Shape(r)
    decreases todo
  {
    if todo == {} then s
    else
      var id := Least(todo);
      Resolve(ResolveStep(s, id, now), todo - {id}, now)
  }

  /** SelectTriedCollision for the pending collision `id`: the entry under test and the new state. */
  function SelectCollision(s: State, id: int): (r: (State, Option<Info>))
    requires Shape(s)
    ensures Shape(r.0)
  {
    if id !in s.info then (s.(collisions := s.collisions - {id}), None)
    else
      var holder := s.triedTable[TriedRow(s, id)][TriedPos(s, id)];
      if holder in s.info then (s, Some(s.info[holder])) else (s, None)
  }
}
