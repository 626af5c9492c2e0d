/**
The on-disk form of the address manager.  Serialize writes the new entries, the tried entries and,
bucket by bucket, the indexes of the entries in the new table; everything else is rebuilt on load.
 */
module AddrManDisk {
  import opened Wrappers
  import opened AddrManState
  import opened AddrManInvariant
  import opened Sets

  datatype DiskEntry = DiskEntry(addr: Address, source: NetAddr, lastSuccess: int, attempts: int)

  /** What one write to the stream puts there. */
  datatype Token = Byte(b: nat) | KeyToken(key: Key) | Number(n: int) | Entry(entry: DiskEntry)

  const VERSION := 1
  const KEY_SIZE := 32
  const BIT_30 := 0x4000_0000

  /** n ^ (1 << 30). */
  function FlipBit30(n: int): int {
    if (n / BIT_30) % 2 == 1 then n - BIT_30 else n + BIT_30
  }

  function ToDisk(i: Info): DiskEntry {
    DiskEntry(i.addr, i.source, i.lastSuccess, i.attempts)
  }

  function FromDisk(e: DiskEntry): Info {
    Info(e.addr, e.source, 0, 0, e.lastSuccess, e.attempts, 0, false, -1)
  }

  // ---------- writing ----------

  /** The members of a set of ids in ascending order. */
  ghost function Ascending(ids: set<int>): seq<int> {
    if ids == {} then [] else [Least(ids)] + Ascending(ids - {Least(ids)})
  }

  ghost function ReferencedIds(s: State): set<int> {
    set id | id in s.info && s.info[id].refCount != 0
  }

  ghost function NewList(s: State): seq<int> {
    Ascending(ReferencedIds(s))
  }

  ghost function TriedList(s: State): seq<int> {
    Ascending(TriedIds(s))
  }

  ghost function EntryTokens(s: State, ids: seq<int>): seq<Token>
    requires forall k :: 0 <= k < |ids| ==> ids[k] in s.info
  {
    if ids == [] then [] else [Entry(ToDisk(s.info[ids[0]]))] + EntryTokens(s, ids[1..])
  }

  ghost function IndexOf(ids: seq<int>, id: int): (i: nat)
    requires id in ids
    ensures i < |ids| && ids[i] == id
  {
    var i :| 0 <= i < |ids| && ids[i] == id;
    i
  }

  /** The indexes written for bucket `b` from slot `p` on. */
  ghost function SlotTokens(s: State, b: nat, p: nat): seq<Token>
    requires Shape(s) && b < NEW_BUCKET_COUNT && p <= BUCKET_SIZE
    requires forall q :: 0 <= q < BUCKET_SIZE && s.newTable[b][q] != FREE ==> s.newTable[b][q] in NewList(s)
    decreases BUCKET_SIZE - p
  {
    if p == BUCKET_SIZE then []
    else if s.newTable[b][p] == FREE then SlotTokens(s, b, p + 1)
    else [Number(IndexOf(NewList(s), s.newTable[b][p]))] + SlotTokens(s, b, p + 1)
  }

  ghost predicate Writable(s: State) {
    && Shape(s)
    && (forall b, q :: 0 <= b < NEW_BUCKET_COUNT && 0 <= q < BUCKET_SIZE && s.newTable[b][q] != FREE ==>
          s.newTable[b][q] in NewList(s))
    && (forall k :: 0 <= k < |NewList(s)| ==> NewList(s)[k] in s.info)
    && (forall k :: 0 <= k < |TriedList(s)| ==> TriedList(s)[k] in s.info)
  }

  ghost function BucketTokens(s: State, b: nat): seq<Token>
    requires Writable(s) && b <= NEW_BUCKET_COUNT
    decreases NEW_BUCKET_COUNT - b
  {
    if b == NEW_BUCKET_COUNT then []
    else [Number(|SlotTokens(s, b, 0)|)] + SlotTokens(s, b, 0) + BucketTokens(s, b + 1)
  }

  ghost function Serialize(s: State): seq<Token>
    requires Writable(s)
  {
    [Byte(VERSION), Byte(KEY_SIZE), KeyToken(s.key), Number(s.nNew), Number(s.nTried),
        Number(FlipBit30(NEW_BUCKET_COUNT))]
    + EntryTokens(s, NewList(s)) + EntryTokens(s, TriedList(s)) + BucketTokens(s, 0)
  }

  // ---------- reading ----------

  function AddEntry(s: State, id: int, i: Info): State {
    s.(info := s.info[id := i.(randomPos := |s.random|)],
       addrIds := s.addrIds[i.addr.service.net := id],
       random := s.random + [id])
  }

  /** A new entry whose place in the file cannot be used goes to the bucket of its source, if free. */
  function PlaceBySource(s: State, id: int): (r: State)
    requires Shape(s) && id in s.info
    ensures Shape(r)
  {
    var b := NewBucket(s.net, s.key, s.info[id].addr.service, s.info[id].source);
    var p := NewPos(s, id, b);
    if s.newTable[b][p] == FREE then PutSlot(s, id, b, p, s.info[id].refCount + 1) else s
  }

  function ReadNew(s: State, n: nat, usable: bool, tokens: seq<Token>): (r: Option<(State, seq<Token>)>)
    requires Shape(s)
    ensures r.Some? ==> Shape(r.value.0)
    decreases |tokens|
  {
    if n >= s.nNew then Some((s, tokens))
    else if tokens == [] || !tokens[0].Entry? then None
    else
      var s1 := AddEntry(s, n, FromDisk(tokens[0].entry));
      ReadNew(if usable then s1 else PlaceBySource(s1, n), n + 1, usable, tokens[1..])
  }

  /** Reads `count` tried entries; an entry whose slot is taken is lost. */
  function ReadTried(s: State, count: int, lost: nat, tokens: seq<Token>): (r: Option<(State, nat, seq<Token>)>)
    requires Shape(s)
    ensures r.Some? ==> Shape(r.value.0)
    decreases |tokens|
  {
    if count <= 0 then Some((s, lost, tokens))
    else if tokens == [] || !tokens[0].Entry? then None
    else
      var i := FromDisk(tokens[0].entry);
      var b := TriedBucket(s.net, s.key, i.addr.service);
      var p := BucketPosition(s.net, s.key, false, b, i.addr.service);
      if s.triedTable[b][p] == FREE then
        var s1 := AddEntry(s, s.idCount, i.(inTried := true));
        ReadTried(s1.(triedTable := SetSlot(s.triedTable, b, p, s.idCount), idCount := s.idCount + 1), count - 1, lost,
            tokens[1..])
      else ReadTried(s, count - 1, lost + 1, tokens[1..])
  }

  /** One index of bucket `b`. */
  function PlaceIndex(s: State, b: int, index: int, usable: bool): (r: State)
    requires Shape(s) && (usable ==> 0 <= b < NEW_BUCKET_COUNT)
    ensures Shape(r)
  {
    if usable && 0 <= index < s.nNew && index in s.info then
      var p := NewPos(s, index, b);
      if s.newTable[b][p] == FREE && s.info[index].refCount < NEW_BUCKETS_PER_ADDRESS
      then PutSlot(s, index, b, p, s.info[index].refCount + 1) else s
    else s
  }

  function ReadSlots(s: State, b: int, size: int, usable: bool, tokens: seq<Token>): (r: Option<(State, seq<Token>)>)
    requires Shape(s) && (usable ==> 0 <= b < NEW_BUCKET_COUNT)
    ensures r.Some? ==> Shape(r.value.0) && |r.value.1| <= |tokens|
    decreases |tokens|
  {
    if size <= 0 then Some((s, tokens))
    else if tokens == [] || !tokens[0].Number? then None
    else ReadSlots(PlaceIndex(s, b, tokens[0].n, usable), b, size - 1, usable, tokens[1..])
  }

  function ReadBuckets(s: State, b: int, buckets: int, usable: bool, tokens: seq<Token>): (r: Option<(State,
                       seq<Token>)>)
    requires Shape(s) && 0 <= b && (usable ==> buckets == NEW_BUCKET_COUNT)
    ensures r.Some? ==> Shape(r.value.0)
    decreases |tokens|
  {
    if b >= buckets then Some((s, tokens))
    else if tokens == [] || !tokens[0].Number? then None
    else
      match ReadSlots(s, b, tokens[0].n, usable, tokens[1..])
      case None => None
      case Some((s1, rest)) => ReadBuckets(s1, b + 1, buckets, usable, rest)
  }

  /** Entries that are neither tried nor referenced are deleted; also says how many there were. */
  ghost function Prune(s: State, todo: set<int>): (r: (State, nat))
    decreases todo
  {
    if todo == {} then (s, 0)
    else
      var id := Least(todo);
      if id in s.info && !s.info[id].inTried && s.info[id].refCount == 0 then
        var (t, n) := Prune(Delete(s, id), todo - {id});
        (t, n + 1)
      else Prune(s, todo - {id})
  }

  datatype Load = Load(state: State, lostTried: nat, lostNew: nat)

  /** None stands for an exception: a bad key size, a count over its limit, a stream that ends too early. */
  ghost function Unserialize(n: Network, randomKey: Key, collisions: set<int>, tokens: seq<Token>): (r: Option<Load>) {
    if !(|tokens| >= 6 && tokens[0].Byte? && tokens[1].Byte? && tokens[2].KeyToken?
         && tokens[3].Number? && tokens[4].Number? && tokens[5].Number?) then None
    else if tokens[1].b != KEY_SIZE then None
    else
      var buckets := if tokens[0].b != 0 then FlipBit30(tokens[5].n) else tokens[5].n;
      if tokens[3].n > NEW_BUCKET_COUNT * BUCKET_SIZE || tokens[4].n > TRIED_BUCKET_COUNT * BUCKET_SIZE then None
      else
        var s := Cleared(n, randomKey, collisions).(key := tokens[2].key, nNew := tokens[3].n, nTried := tokens[4].n);
        UnserializeBody(s, buckets, tokens[0].b == VERSION && buckets == NEW_BUCKET_COUNT, tokens[6..])
  }

  ghost function UnserializeBody(s: State, buckets: int, usable: bool, tokens: seq<Token>): (r: Option<Load>)
    requires Shape(s) && (usable ==> buckets == NEW_BUCKET_COUNT)
  {
    match ReadNew(s, 0, usable, tokens)
    case None => None
    case Some((s1, rest1)) =>
      match ReadTried(s1.(idCount := s1.nNew), s1.nTried, 0, rest1)
      case None => None
      case Some((s2, lost, rest2)) =>
        match ReadBuckets(s2.(nTried := s2.nTried - lost), 0, buckets, usable, rest2)
        case None => None
        case Some((s3, _)) =>
          var (t, pruned) := Prune(s3, s3.info.Keys);
          Some(Load(t, lost, pruned))
  }
}
