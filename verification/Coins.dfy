/**
The stack of coin caches over the coin database, as a value.  Level 0 is the database, a plain map;
level i + 1 is a cache whose base is level i.  `View` is the plain map that a level stands for.
The operations of the caches are functions from stack to stack; the class in CoinsViewCache.dfy
performs them in place.
 */
module Coins {
  import opened Wrappers
  type BlockHash = nat
  const NULL_HASH: BlockHash := 0

  datatype OutPoint = OutPoint(hash: nat, n: nat)

  /** An output script: which one it is, the memory it uses, and whether it can never be spent. */
  datatype Script = Script(id: nat, usage: nat, unspendable: bool)

  datatype Coin = Coin(value: int, script: Script, height: nat, coinbase: bool)

  /** A cleared coin; its value -1 marks it as spent. */
  const NO_COIN := Coin(-1, Script(0, 0, false), 0, false)

  predicate Spent(c: Coin) {
    c.value == -1
  }

  /** A cached coin with its DIRTY and FRESH flags. */
  datatype Entry = Entry(coin: Coin, dirty: bool, isFresh: bool)

  type CoinMap = map<OutPoint, Entry>
  type CoinSet = map<OutPoint, Coin>

  datatype Cache = Cache(coins: CoinMap, best: BlockHash)

  datatype Stack = Stack(db: CoinSet, dbBest: BlockHash, caches: seq<Cache>)

  function Get<K, V>(m: map<K, V>, k: K): Option<V> {
    if k in m then Some(m[k]) else None
  }

  // ---------- what a level stands for ----------

  /** The coin a cache answers with, over a base that stands for `base`. */
  function Seen(base: CoinSet, coins: CoinMap, o: OutPoint): Option<Coin> {
    if o in coins then (if Spent(coins[o].coin) then None else Some(coins[o].coin)) else Get(base, o)
  }

  function Overlay(base: CoinSet, coins: CoinMap): CoinSet {
    map o | o in base.Keys + coins.Keys && Seen(base, coins, o).Some? :: Seen(base, coins, o).value
  }

  function View(s: Stack, i: nat): CoinSet
    requires i <= |s.caches|
  {
    if i == 0 then s.db else Overlay(View(s, i - 1), s.caches[i - 1].coins)
  }

  function Top(s: Stack): CoinSet {
    View(s, |s.caches|)
  }

  function BestBlock(s: Stack, i: nat): BlockHash
    requires i <= |s.caches|
  {
    if i == 0 then s.dbBest
    else if s.caches[i - 1].best != NULL_HASH then s.caches[i - 1].best
    else BestBlock(s, i - 1)
  }

  // ---------- the meaning of the flags ----------

  /** Clean entries repeat what the base says; the base has no unspent coin for FRESH entries. */
  ghost predicate FlagsOk(base: CoinSet, coins: CoinMap) {
    forall o :: o in coins ==>
      && (!coins[o].dirty ==> Seen(base, coins, o) == Get(base, o))
      && (coins[o].isFresh ==> o !in base)
  }

  ghost predicate LevelOk(s: Stack, i: nat)
    requires i < |s.caches|
  {
    FlagsOk(View(s, i), s.caches[i].coins)
  }

  ghost predicate Inv(s: Stack) {
    && (forall o :: o in s.db ==> !Spent(s.db[o]))
    && (forall i :: 0 <= i < |s.caches| ==> LevelOk(s, i))
  }

  // ---------- lookups ----------

  function WithCoins(s: Stack, i: nat, coins: CoinMap): (r: Stack)
    requires 1 <= i <= |s.caches|
  {
    s.(caches := s.caches[i - 1 := s.caches[i - 1].(coins := coins)])
  }

  /** The stack after a lookup of `o` at level `i` filled the caches on the way down. */
  function Fetched(s: Stack, i: nat, o: OutPoint): (r: Stack)
    requires i <= |s.caches|
    ensures |r.caches| == |s.caches|
  {
    if i == 0 || o in s.caches[i - 1].coins then s
    else
      var s1 := Fetched(s, i - 1, o);
      match Answer(s, i - 1, o)
      case None => s1
      case Some(c) => WithCoins(s1, i, s1.caches[i - 1].coins[o := Entry(c, false, Spent(c))])
  }

  /** What GetCoin answers at level `i`. */
  function Answer(s: Stack, i: nat, o: OutPoint): Option<Coin>
    requires i <= |s.caches|
  {
    if i == 0 then Get(s.db, o)
    else if o in s.caches[i - 1].coins then
      (if Spent(s.caches[i - 1].coins[o].coin) then None else Some(s.caches[i - 1].coins[o].coin))
    else
      match Answer(s, i - 1, o)
      case None => None
      case Some(c) => if Spent(c) then None else Some(c)
  }

  // ---------- changes at the top ----------

  /** AddCoin throws when it is told that nothing is overwritten, and an unspent coin is cached. */
  predicate AddThrows(s: Stack, o: OutPoint, c: Coin, overwrite: bool)
    requires s.caches != []
  {
    var coins := s.caches[|s.caches| - 1].coins;
    !c.script.unspendable && !overwrite && o in coins && !Spent(coins[o].coin)
  }

  function AddCoin(s: Stack, o: OutPoint, c: Coin, overwrite: bool): (r: Stack)
    requires s.caches != []
    ensures |r.caches| == |s.caches|
  {
    if c.script.unspendable then s
    else
      WithCoins(s, |s.caches|, Added(s.caches[|s.caches| - 1].coins, o, c, overwrite))
  }

  /** The coins of a cache after AddCoin; a new entry starts as a clean empty one. */
  function Added(coins: CoinMap, o: OutPoint, c: Coin, overwrite: bool): CoinMap {
    var old_ := if o in coins then coins[o] else Entry(NO_COIN, false, false);
    coins[o := Entry(c, true, old_.isFresh || (!overwrite && !old_.dirty))]
  }

  /** The coins of a cache after SpendCoin: a FRESH entry is erased, another one is cleared. */
  function SpentFrom(coins: CoinMap, o: OutPoint): CoinMap {
    if o !in coins then coins
    else if coins[o].isFresh then coins - {o}
    else coins[o := Entry(NO_COIN, true, false)]
  }

  /** SpendCoin: the stack after it, and the entry that was found (None when it returns false). */
  function SpendCoin(s: Stack, o: OutPoint): (r: (Stack, Option<Coin>))
    requires s.caches != []
    ensures |r.0.caches| == |s.caches|
  {
    var n := |s.caches|;
    var s1 := Fetched(s, n, o);
    var coins := s1.caches[n - 1].coins;
    if o !in coins then (s1, None) else (WithCoins(s1, n, SpentFrom(coins, o)), Some(coins[o].coin))
  }

  function Uncache(s: Stack, i: nat, o: OutPoint): (r: Stack)
    requires 1 <= i <= |s.caches|
    ensures |r.caches| == |s.caches|
  {
    var coins := s.caches[i - 1].coins;
    if o in coins && !coins[o].dirty && !coins[o].isFresh then WithCoins(s, i, coins - {o}) else s
  }

  // ---------- Flush ----------

  /** What BatchWrite makes of an entry of the base (if any) and the entry of the child. */
  function MergeEntry(us: Option<Entry>, child: Entry): Option<Entry> {
    if !child.dirty then us
    else
      match us
      case None => if child.isFresh && Spent(child.coin) then None else Some(Entry(child.coin, true, child.isFresh))
      case Some(e) => if e.isFresh && Spent(child.coin) then None else Some(Entry(child.coin, true, e.isFresh))
  }

  function MergedAt(us: CoinMap, child: CoinMap, o: OutPoint): Option<Entry> {
    if o in child then MergeEntry(Get(us, o), child[o]) else Get(us, o)
  }

  function Merged(us: CoinMap, child: CoinMap): CoinMap {
    map o | o in us.Keys + child.Keys && MergedAt(us, child, o).Some? :: MergedAt(us, child, o).value
  }

  /** BatchWrite throws on a FRESH child entry over an unspent entry of the base. */
  predicate BatchThrows(us: CoinMap, child: CoinMap) {
    exists o :: o in child && child[o].dirty && child[o].isFresh && o in us && !Spent(us[o].coin)
  }

  /** BatchWrite of the database: changed coins are written, spent ones erased. */
  function Written(db: CoinSet, child: CoinMap): (r: CoinSet) {
    map o | o in db.Keys + child.Keys && (if o in child && child[o].dirty then !Spent(child[o].coin) else o in db)
      :: if o in child && child[o].dirty then child[o].coin else db[o]
  }

  predicate FlushThrows(s: Stack, i: nat)
    requires 1 <= i <= |s.caches|
  {
    i > 1 && BatchThrows(s.caches[i - 2].coins, s.caches[i - 1].coins)
  }

  function Flush(s: Stack, i: nat): (r: Stack)
    requires 1 <= i <= |s.caches|
    ensures |r.caches| == |s.caches|
  {
    var c := s.caches[i - 1];
    var s1 := if i == 1 then s.(db := Written(s.db, c.coins), dbBest := c.best)
              else s.(caches := s.caches[i - 2 := Cache(Merged(s.caches[i - 2].coins, c.coins), c.best)]);
    WithCoins(s1, i, map[])
  }

  function Pushed(s: Stack): Stack {
    s.(caches := s.caches + [Cache(map[], NULL_HASH)])
  }

  function Dropped(s: Stack): Stack
    requires s.caches != []
  {
    s.(caches := s.caches[..|s.caches| - 1])
  }
}
