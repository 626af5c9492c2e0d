/**
A stack of caches of any depth behaves like a stack of plain maps: every operation does to the views
what it says, every answer is the plain map's answer, and the flags keep their meaning.
 */
module CoinsRefinement {
  import opened Wrappers
  import opened Coins

  // ---------- changing one level ----------

  lemma SameMap<K(!new), V>(a: map<K, V>, b: map<K, V>)
    requires forall k :: Get(a, k) == Get(b, k)
    ensures a == b
  {
    forall k
      ensures k in a <==> k in b
      ensures k in a ==> a[k] == b[k]
    {
      assert Get(a, k) == Get(b, k);
    }
  }

  lemma OverlayAt(base: CoinSet, coins: CoinMap, o: OutPoint)
    ensures Get(Overlay(base, coins), o) == Seen(base, coins, o)
  {
  }

  lemma MergedIs(us: CoinMap, child: CoinMap, o: OutPoint)
    ensures Get(Merged(us, child), o) == MergedAt(us, child, o)
  {
  }

  /** Caches that answer alike over one base stand for the same map. */
  lemma SameOverlay(base: CoinSet, coins: CoinMap, m: CoinSet)
    requires forall o :: Seen(base, coins, o) == Get(m, o)
    ensures Overlay(base, coins) == m
  {
    hide Overlay;
    forall o
      ensures Get(Overlay(base, coins), o) == Get(m, o)
    {
      OverlayAt(base, coins, o);
      assert Seen(base, coins, o) == Get(m, o);
    }
    SameMap(Overlay(base, coins), m);
  }

  /** Replacing a cache does not change the levels below it. */
  lemma {:induction false} BelowUnchanged(s: Stack, t: Stack, i: nat, j: nat)
    requires i <= |s.caches| == |t.caches| && j <= i && t.db == s.db
    requires forall k :: 0 <= k < i ==> t.caches[k].coins == s.caches[k].coins
    ensures View(t, j) == View(s, j)
  {
    if j > 0 {
      BelowUnchanged(s, t, i, j - 1);
    }
  }

  /** Nor the levels above it, if the level itself still stands for the same map. */
  lemma {:induction false} AboveUnchanged(s: Stack, t: Stack, i: nat, j: nat)
    requires i <= j <= |s.caches| == |t.caches| && View(t, i) == View(s, i)
    requires forall k :: i <= k < |s.caches| ==> t.caches[k].coins == s.caches[k].coins
    ensures View(t, j) == View(s, j)
  {
    if j > i {
      AboveUnchanged(s, t, i, j - 1);
    }
  }

  lemma CoinsReplaced(s: Stack, i: nat, coins: CoinMap)
    requires Inv(s) && 1 <= i <= |s.caches|
    requires FlagsOk(View(s, i - 1), coins) && Overlay(View(s, i - 1), coins) == View(s, i)
    ensures Inv(WithCoins(s, i, coins))
    ensures forall j :: 0 <= j <= |s.caches| ==> View(WithCoins(s, i, coins), j) == View(s, j)
  {
    var t := WithCoins(s, i, coins);
    forall j | 0 <= j <= |s.caches|
      ensures View(t, j) == View(s, j)
    {
      if j < i {
        BelowUnchanged(s, t, i - 1, j);
      } else {
        BelowUnchanged(s, t, i - 1, i - 1);
        AboveUnchanged(s, t, i, j);
      }
    }
    forall k | 0 <= k < |t.caches|
      ensures LevelOk(t, k)
    {
      assert LevelOk(s, k);
    }
  }

  lemma TopReplaced(s: Stack, coins: CoinMap)
    requires Inv(s) && s.caches != [] && FlagsOk(View(s, |s.caches| - 1), coins)
    ensures var t := WithCoins(s, |s.caches|, coins);
            && Inv(t)
            && (forall j :: 0 <= j < |s.caches| ==> View(t, j) == View(s, j))
            && Top(t) == Overlay(View(s, |s.caches| - 1), coins)
  {
    hide FlagsOk, Overlay;
    var n := |s.caches|;
    var t := WithCoins(s, n, coins);
    forall j | 0 <= j < n
      ensures View(t, j) == View(s, j)
    {
      BelowUnchanged(s, t, n - 1, j);
    }
    LevelsReplaced(s, coins);
  }

  lemma LevelsReplaced(s: Stack, coins: CoinMap)
    requires Inv(s) && s.caches != [] && FlagsOk(View(s, |s.caches| - 1), coins)
    ensures Inv(WithCoins(s, |s.caches|, coins))
  {
    hide FlagsOk, Overlay, View;
    var n := |s.caches|;
    var t := WithCoins(s, n, coins);
    forall k | 0 <= k < n
      ensures LevelOk(t, k)
    {
      assert LevelOk(s, k);
      BelowUnchanged(s, t, n - 1, k);
    }
  }

  // ---------- lookups ----------

  lemma {:induction false} ViewUnspent(s: Stack, i: nat, o: OutPoint)
    requires Inv(s) && i <= |s.caches| && o in View(s, i)
    ensures !Spent(View(s, i)[o])
  {
    if i > 0 {
      OverlayAt(View(s, i - 1), s.caches[i - 1].coins, o);
      if o !in s.caches[i - 1].coins {
        ViewUnspent(s, i - 1, o);
      }
    }
  }

  /** Lookups answer what the plain map of the level says. */
  lemma {:induction false} AnswerIsView(s: Stack, i: nat, o: OutPoint)
    requires Inv(s) && i <= |s.caches|
    ensures Answer(s, i, o) == Get(View(s, i), o)
  {
    if i > 0 {
      OverlayAt(View(s, i - 1), s.caches[i - 1].coins, o);
      AnswerIsView(s, i - 1, o);
      if o in View(s, i - 1) {
        ViewUnspent(s, i - 1, o);
      }
    }
  }

  /** Lookups leave every view as it was. */
  lemma {:induction false} FetchedKeeps(s: Stack, i: nat, o: OutPoint)
    requires Inv(s) && i <= |s.caches|
    ensures Inv(Fetched(s, i, o))
    ensures forall j :: 0 <= j <= |s.caches| ==> View(Fetched(s, i, o), j) == View(s, j)
    ensures forall k :: i <= k < |s.caches| ==> Fetched(s, i, o).caches[k] == s.caches[k]
    ensures i > 0 ==> (o in Fetched(s, i, o).caches[i - 1].coins <==> o in s.caches[i - 1].coins || o in View(s, i))
    ensures forall k :: 0 <= k < |s.caches| ==> Fetched(s, i, o).caches[k].best == s.caches[k].best
  {
    hide Overlay, LevelOk, FlagsOk;
    if i > 0 {
      OverlayAt(View(s, i - 1), s.caches[i - 1].coins, o);
    }
    if i > 0 && o !in s.caches[i - 1].coins {
      FetchedKeeps(s, i - 1, o);
      AnswerIsView(s, i - 1, o);
      if o in View(s, i - 1) {
        ViewUnspent(s, i - 1, o);
        FetchedHere(Fetched(s, i - 1, o), i, o);
      }
    }
  }

  lemma FetchedHere(s: Stack, i: nat, o: OutPoint)
    requires Inv(s) && 1 <= i <= |s.caches| && o !in s.caches[i - 1].coins
    requires o in View(s, i - 1) && !Spent(View(s, i - 1)[o])
    ensures var t := WithCoins(s, i, s.caches[i - 1].coins[o := Entry(View(s, i - 1)[o], false, false)]);
            && Inv(t)
            && forall j :: 0 <= j <= |s.caches| ==> View(t, j) == View(s, j)
  {
    hide Overlay, FlagsOk;
    var coins := s.caches[i - 1].coins;
    assert LevelOk(s, i - 1);
    FetchedCoins(View(s, i - 1), coins, o);
    CoinsReplaced(s, i, coins[o := Entry(View(s, i - 1)[o], false, false)]);
  }

  lemma FetchedCoins(base: CoinSet, coins: CoinMap, o: OutPoint)
    requires FlagsOk(base, coins) && o in base && !Spent(base[o]) && o !in coins
    ensures var more := coins[o := Entry(base[o], false, false)];
            FlagsOk(base, more) && Overlay(base, more) == Overlay(base, coins)
  {
    var more := coins[o := Entry(base[o], false, false)];
    forall x
      ensures Seen(base, more, x) == Get(Overlay(base, coins), x)
    {
      OverlayAt(base, coins, x);
    }
    SameOverlay(base, more, Overlay(base, coins));
  }

  lemma TopIs(s: Stack)
    requires Inv(s) && s.caches != []
    ensures var base, coins := View(s, |s.caches| - 1), s.caches[|s.caches| - 1].coins;
            FlagsOk(base, coins) && Top(s) == Overlay(base, coins)
  {
    assert LevelOk(s, |s.caches| - 1);
  }

  // ---------- AddCoin, SpendCoin, Uncache ----------

  /** AddCoin does not throw, and puts the coin into the plain map of the top level. */
  lemma AddCoinKeeps(s: Stack, o: OutPoint, c: Coin, overwrite: bool)
    requires Inv(s) && s.caches != [] && !Spent(c) && (overwrite || o !in Top(s))
    ensures !AddThrows(s, o, c, overwrite)
    ensures var t := AddCoin(s, o, c, overwrite);
            && Inv(t)
            && (forall j :: 0 <= j < |s.caches| ==> View(t, j) == View(s, j))
            && Top(t) == if c.script.unspendable then Top(s) else Top(s)[o := c]
  {
    hide Overlay, FlagsOk, View, Added;
    var n := |s.caches|;
    var base, coins := View(s, n - 1), s.caches[n - 1].coins;
    TopIs(s);
    OverlayAt(base, coins, o);
    if !c.script.unspendable {
      AddedFlags(base, coins, o, c, overwrite);
      AddedCoins(base, coins, o, c, overwrite);
      TopReplaced(s, Added(coins, o, c, overwrite));
    }
  }

  lemma AddedFlags(base: CoinSet, coins: CoinMap, o: OutPoint, c: Coin, overwrite: bool)
    requires FlagsOk(base, coins) && !Spent(c) && (overwrite || Seen(base, coins, o) == None)
    ensures FlagsOk(base, Added(coins, o, c, overwrite))
  {
  }

  lemma AddedCoins(base: CoinSet, coins: CoinMap, o: OutPoint, c: Coin, overwrite: bool)
    requires !Spent(c)
    ensures Overlay(base, Added(coins, o, c, overwrite)) == Overlay(base, coins)[o := c]
  {
    var m := Overlay(base, coins)[o := c];
    forall x
      ensures Seen(base, Added(coins, o, c, overwrite), x) == Get(m, x)
    {
      OverlayAt(base, coins, x);
    }
    SameOverlay(base, Added(coins, o, c, overwrite), m);
  }

  /** The coin that SpendCoin moved out, unless it had been spent before. */
  function Unspent(found: Option<Coin>): Option<Coin> {
    if found.Some? && Spent(found.value) then None else found
  }

  /**
  SpendCoin takes the coin out of the plain map of the top level, and out of nothing else. It returns true if the
  coin is there or the cache still holds it as spent; what it moves out is the coin, or a spent one.
   */
  lemma SpendCoinKeeps(s: Stack, o: OutPoint)
    requires Inv(s) && s.caches != []
    ensures var (t, found) := SpendCoin(s, o);
            && Inv(t)
            && (forall j :: 0 <= j < |s.caches| ==> View(t, j) == View(s, j))
            && Top(t) == Top(s) - {o}
            && (found.Some? <==> o in Top(s) || o in s.caches[|s.caches| - 1].coins)
            && Unspent(found) == Get(Top(s), o)
  {
    hide Overlay, FlagsOk, View, Fetched, SpentFrom, LevelOk, Seen, Unspent;
    var n := |s.caches|;
    FetchedKeeps(s, n, o);
    var s1 := Fetched(s, n, o);
    var base, coins := View(s1, n - 1), s1.caches[n - 1].coins;
    TopIs(s1);
    SpendAnswer(base, coins, o);
    SpentCoins(base, coins, o);
    assert WithCoins(s1, n, coins) == s1;
    TopReplaced(s1, SpentFrom(coins, o));
    NothingSpent(coins, o);
  }

  lemma NothingSpent(coins: CoinMap, o: OutPoint)
    ensures o !in coins ==> SpentFrom(coins, o) == coins
  {
  }

  lemma SpendAnswer(base: CoinSet, coins: CoinMap, o: OutPoint)
    ensures var top := Overlay(base, coins);
            && (o in coins ==> Unspent(Some(coins[o].coin)) == Get(top, o))
            && (o !in coins && o !in top ==> o !in base && Unspent(None) == Get(top, o))
  {
    hide Overlay;
    OverlayAt(base, coins, o);
  }

  /** A coin of the database is spent twice: both calls return true, and the second moves out a spent coin. */
  lemma SpendCanAnswerTwice(o: OutPoint, c: Coin)
    requires !Spent(c)
    ensures var s := Stack(map[o := c], 1, [Cache(map[], NULL_HASH)]);
            var (t, first) := SpendCoin(s, o);
            var (_, second) := SpendCoin(t, o);
            Inv(s) && first == Some(c) && o !in Top(t) && second.Some? && Spent(second.value)
  {
    var s := Stack(map[o := c], 1, [Cache(map[], NULL_HASH)]);
    assert View(s, 0) == map[o := c];
    assert LevelOk(s, 0);
    assert Fetched(s, 0, o) == s;
    SpendCoinKeeps(s, o);
    assert Fetched(s, 1, o).caches[0].coins == map[o := Entry(c, false, false)];
    var (t, _) := SpendCoin(s, o);
    assert t.caches[0].coins == map[o := Entry(NO_COIN, true, false)];
    assert Fetched(t, 1, o) == t;
  }

  lemma SpentCoins(base: CoinSet, coins: CoinMap, o: OutPoint)
    requires FlagsOk(base, coins) && (o in coins || o !in base)
    ensures FlagsOk(base, SpentFrom(coins, o))
    ensures Overlay(base, SpentFrom(coins, o)) == Overlay(base, coins) - {o}
  {
    var m := Overlay(base, coins) - {o};
    forall x
      ensures Seen(base, SpentFrom(coins, o), x) == Get(m, x)
    {
      OverlayAt(base, coins, x);
    }
    SameOverlay(base, SpentFrom(coins, o), m);
  }

  lemma UncacheKeeps(s: Stack, i: nat, o: OutPoint)
    requires Inv(s) && 1 <= i <= |s.caches|
    ensures Inv(Uncache(s, i, o))
    ensures forall j :: 0 <= j <= |s.caches| ==> View(Uncache(s, i, o), j) == View(s, j)
  {
    var base, coins := View(s, i - 1), s.caches[i - 1].coins;
    assert LevelOk(s, i - 1);
    if o in coins && !coins[o].dirty && !coins[o].isFresh {
      forall x
        ensures Seen(base, coins - {o}, x) == Get(Overlay(base, coins), x)
      {
        OverlayAt(base, coins, x);
      }
      SameOverlay(base, coins - {o}, Overlay(base, coins));
      CoinsReplaced(s, i, coins - {o});
    }
  }

  // ---------- Flush ----------

  /** Writing a child into its base makes the base stand for what the child stood for. */
  lemma MergeViews(grand: CoinSet, us: CoinMap, child: CoinMap)
    requires FlagsOk(grand, us) && FlagsOk(Overlay(grand, us), child)
    ensures !BatchThrows(us, child)
    ensures FlagsOk(grand, Merged(us, child))
    ensures Overlay(grand, Merged(us, child)) == Overlay(Overlay(grand, us), child)
  {
    hide Overlay, Merged;
    var base := Overlay(grand, us);
    var m := Merged(us, child);
    forall o
      ensures Seen(grand, m, o) == Get(Overlay(base, child), o)
      ensures o in m ==> (!m[o].dirty ==> Seen(grand, m, o) == Get(grand, o)) && (m[o].isFresh ==> o !in grand)
      ensures !(o in child && child[o].dirty && child[o].isFresh && o in us && !Spent(us[o].coin))
    {
      MergedIs(us, child, o);
      OverlayAt(grand, us, o);
      OverlayAt(base, child, o);
    }
    SameOverlay(grand, m, Overlay(base, child));
  }

  lemma WriteViews(db: CoinSet, child: CoinMap)
    requires FlagsOk(db, child)
    ensures Written(db, child) == Overlay(db, child)
  {
    forall o
      ensures Seen(db, child, o) == Get(Written(db, child), o)
    {
    }
    SameOverlay(db, child, Written(db, child));
  }

  lemma WrittenUnspent(db: CoinSet, child: CoinMap)
    requires forall o :: o in db ==> !Spent(db[o])
    ensures forall o :: o in Written(db, child) ==> !Spent(Written(db, child)[o])
  {
  }

  lemma EmptyCache(base: CoinSet)
    ensures FlagsOk(base, map[]) && Overlay(base, map[]) == base
  {
    SameOverlay(base, map[], base);
  }

  /** Flush does not throw; the base now stands for what the flushed cache stood for, and no other level changes. */
  lemma FlushKeeps(s: Stack, i: nat)
    requires Inv(s) && 1 <= i <= |s.caches|
    ensures !FlushThrows(s, i)
    ensures Inv(Flush(s, i))
    ensures forall j :: 0 <= j <= |s.caches| ==>
              View(Flush(s, i), j) == if j == i - 1 then View(s, i) else View(s, j)
  {
    hide Overlay, FlagsOk, Merged, Written;
    var t := Flush(s, i);
    var child := s.caches[i - 1].coins;
    assert LevelOk(s, i - 1);
    FlushBase(s, i);
    EmptyCache(View(s, i));
    assert View(t, i) == View(s, i);
    forall j | 0 <= j <= |s.caches|
      ensures View(t, j) == if j == i - 1 then View(s, i) else View(s, j)
    {
      if j < i - 1 {
        BelowUnchanged(s, t, i - 2, j);
      } else if j >= i {
        AboveUnchanged(s, t, i, j);
      }
    }
    forall k | 0 <= k < |t.caches|
      ensures LevelOk(t, k)
    {
      assert LevelOk(s, k);
      if k == i - 2 {
        MergeViews(View(s, i - 2), s.caches[i - 2].coins, child);
      }
    }
    WrittenUnspent(s.db, child);
  }

  lemma FlushBase(s: Stack, i: nat)
    requires Inv(s) && 1 <= i <= |s.caches|
    ensures !FlushThrows(s, i) && View(Flush(s, i), i - 1) == View(s, i)
  {
    assert LevelOk(s, i - 1);
    if i == 1 {
      WriteViews(s.db, s.caches[0].coins);
    } else {
      FlushIntoCache(s, i);
    }
  }

  lemma FlushIntoCache(s: Stack, i: nat)
    requires Inv(s) && 2 <= i <= |s.caches|
    ensures !FlushThrows(s, i) && View(Flush(s, i), i - 1) == View(s, i)
  {
    assert LevelOk(s, i - 1) && LevelOk(s, i - 2);
    MergeViews(View(s, i - 2), s.caches[i - 2].coins, s.caches[i - 1].coins);
    BelowUnchanged(s, Flush(s, i), i - 2, i - 2);
  }

  // ---------- runs ----------

  datatype Op =
    | Lookup(level: nat, o: OutPoint)
    | Add(o: OutPoint, c: Coin, overwrite: bool)
    | Spend(o: OutPoint)
    | Forget(level: nat, o: OutPoint)
    | FlushLevel(level: nat)
    | Push
    | Drop

  /** What the source asks of its callers: no spent coin is added, and no overwrite is denied wrongly. */
  ghost predicate Allowed(views: seq<CoinSet>, op: Op) {
    match op
    case Lookup(level, _) => level < |views|
    case Add(o, c, overwrite) => |views| > 1 && !Spent(c) && (overwrite || o !in views[|views| - 1])
    case Spend(_) => |views| > 1
    case Forget(level, _) => 1 <= level < |views|
    case FlushLevel(level) => 1 <= level < |views|
    case Push => true
    case Drop => |views| > 1
  }

  /** The operation on the stack of caches, with its answer. */
  ghost function Step(s: Stack, op: Op): (Stack, Option<Coin>)
    requires Allowed(Views(s), op)
  {
    match op
    case Lookup(level, o) => (Fetched(s, level, o), Answer(s, level, o))
    case Add(o, c, overwrite) => (AddCoin(s, o, c, overwrite), None)
    case Spend(o) => (SpendCoin(s, o).0, Unspent(SpendCoin(s, o).1))
    case Forget(level, o) => (Uncache(s, level, o), None)
    case FlushLevel(level) => (Flush(s, level), None)
    case Push => (Pushed(s), None)
    case Drop => (Dropped(s), None)
  }

  ghost predicate Throws(s: Stack, op: Op)
    requires Allowed(Views(s), op)
  {
    match op
    case Add(o, c, overwrite) => AddThrows(s, o, c, overwrite)
    case FlushLevel(level) => FlushThrows(s, level)
    case _ => false
  }

  /** The same operation on a stack of plain maps. */
  ghost function PlainStep(views: seq<CoinSet>, op: Op): (seq<CoinSet>, Option<Coin>)
    requires Allowed(views, op)
  {
    match op
    case Lookup(level, o) => (views, Get(views[level], o))
    case Add(o, c, _) =>
      (if c.script.unspendable then views else views[|views| - 1 := views[|views| - 1][o := c]], None)
    case Spend(o) => (views[|views| - 1 := views[|views| - 1] - {o}], Get(views[|views| - 1], o))
    case Forget(_, _) => (views, None)
    case FlushLevel(level) => (views[level - 1 := views[level]], None)
    case Push => (if views == [] then views else views + [views[|views| - 1]], None)
    case Drop => (views[..|views| - 1], None)
  }

  ghost function Views(s: Stack): (v: seq<CoinSet>)
    ensures |v| == |s.caches| + 1
    ensures forall i :: 0 <= i <= |s.caches| ==> v[i] == View(s, i)
  {
    seq(|s.caches| + 1, i requires 0 <= i <= |s.caches| => View(s, i))
  }

  lemma PushKeeps(s: Stack)
    requires Inv(s)
    ensures Inv(Pushed(s)) && Top(Pushed(s)) == Top(s)
    ensures forall j :: 0 <= j <= |s.caches| ==> View(Pushed(s), j) == View(s, j)
  {
    var t := Pushed(s);
    forall j | 0 <= j <= |s.caches|
      ensures View(t, j) == View(s, j)
    {
      PrefixView(s, t, j);
    }
    EmptyCache(View(s, |s.caches|));
    forall k | 0 <= k < |t.caches|
      ensures LevelOk(t, k)
    {
      if k < |s.caches| {
        assert LevelOk(s, k);
      }
    }
  }

  lemma DropKeeps(s: Stack)
    requires Inv(s) && s.caches != []
    ensures Inv(Dropped(s))
    ensures forall j :: 0 <= j < |s.caches| ==> View(Dropped(s), j) == View(s, j)
  {
    var t := Dropped(s);
    forall j | 0 <= j < |s.caches|
      ensures View(t, j) == View(s, j)
    {
      PrefixView(t, s, j);
    }
    forall k | 0 <= k < |t.caches|
      ensures LevelOk(t, k)
    {
      assert LevelOk(s, k);
    }
  }

  lemma {:induction false} PrefixView(s: Stack, t: Stack, j: nat)
    requires s.caches <= t.caches && s.db == t.db && j <= |s.caches|
    ensures View(t, j) == View(s, j)
  {
    if j > 0 {
      PrefixView(s, t, j - 1);
    }
  }

  /** One operation: it does not throw, its answer is right, and the views change as plain maps do. */
  lemma StepRefines(s: Stack, op: Op)
    requires Inv(s) && Allowed(Views(s), op)
    ensures !Throws(s, op)
    ensures Inv(Step(s, op).0)
    ensures (Views(Step(s, op).0), Step(s, op).1) == PlainStep(Views(s), op)
  {
    hide FlagsOk, Inv, View, AddCoin, SpendCoin, Uncache, Flush, Fetched, Answer;
    match op
    case Lookup(level, o) =>
      AnswerIsView(s, level, o);
      FetchedKeeps(s, level, o);
      ViewsAre(Fetched(s, level, o), Views(s));
    case Add(o, c, overwrite) =>
      AddCoinKeeps(s, o, c, overwrite);
      ViewsAre(AddCoin(s, o, c, overwrite), PlainStep(Views(s), op).0);
    case Spend(o) =>
      SpendCoinKeeps(s, o);
      ViewsAre(SpendCoin(s, o).0, PlainStep(Views(s), op).0);
    case Forget(level, o) =>
      UncacheKeeps(s, level, o);
      ViewsAre(Uncache(s, level, o), Views(s));
    case FlushLevel(level) =>
      FlushKeeps(s, level);
      ViewsAre(Flush(s, level), PlainStep(Views(s), op).0);
    case Push =>
      PushKeeps(s);
      ViewsAre(Pushed(s), PlainStep(Views(s), op).0);
    case Drop =>
      DropKeeps(s);
      ViewsAre(Dropped(s), PlainStep(Views(s), op).0);
  }

  lemma ViewsAre(s: Stack, v: seq<CoinSet>)
    requires |v| == |s.caches| + 1 && forall j :: 0 <= j <= |s.caches| ==> View(s, j) == v[j]
    ensures Views(s) == v
  {
  }

  ghost predicate AllAllowed(views: seq<CoinSet>, ops: seq<Op>)
    decreases |ops|
  {
    ops == [] || (Allowed(views, ops[0]) && AllAllowed(PlainStep(views, ops[0]).0, ops[1..]))
  }

  ghost function PlainRun(views: seq<CoinSet>, ops: seq<Op>): (r: (seq<CoinSet>, seq<Option<Coin>>))
    requires AllAllowed(views, ops)
    decreases |ops|
  {
    if ops == [] then (views, [])
    else
      var (v1, a) := PlainStep(views, ops[0]);
      var (v2, more) := PlainRun(v1, ops[1..]);
      (v2, [a] + more)
  }

  /** `t` and `answers` are what a run of `ops` on the caches gives, with no exception on the way. */
  ghost predicate Runs(s: Stack, ops: seq<Op>, t: Stack, answers: seq<Option<Coin>>)
    decreases |ops|
  {
    if ops == [] then t == s && answers == []
    else
      && answers != [] && Allowed(Views(s), ops[0]) && !Throws(s, ops[0])
      && Step(s, ops[0]).1 == answers[0]
      && Runs(Step(s, ops[0]).0, ops[1..], t, answers[1..])
  }

  /** Every allowed run on the caches goes through and cannot be told from the run on plain maps. */
  lemma {:induction false} RunRefines(s: Stack, ops: seq<Op>) returns (t: Stack)
    requires Inv(s) && AllAllowed(Views(s), ops)
    ensures Inv(t) && Runs(s, ops, t, PlainRun(Views(s), ops).1) && Views(t) == PlainRun(Views(s), ops).0
    decreases |ops|
  {
    hide Inv, Step, PlainStep, Throws, Allowed;
    if ops == [] {
      t := s;
    } else {
      StepRefines(s, ops[0]);
      var s1 := Step(s, ops[0]).0;
      t := RunRefines(s1, ops[1..]);
      var answers := PlainRun(Views(s), ops).1;
      assert answers[1..] == PlainRun(Views(s1), ops[1..]).1;
    }
  }

  // ---------- the best block ----------

  /** The database refuses to be written without a best block. */
  predicate FlushAsserts(s: Stack, i: nat)
    requires 1 <= i <= |s.caches|
  {
    i == 1 && s.caches[0].best == NULL_HASH
  }

  /**
  A flush hands the cache's own best block to the base, null or not.  Unless the database asserts, the cache still
  answers with the same best block afterwards exactly when it had one of its own, or the base cache had none of its
  own that it could lose.
   */
  lemma FlushBestBlock(s: Stack, i: nat)
    requires 1 <= i <= |s.caches| && !FlushAsserts(s, i)
    ensures BestBlock(Flush(s, i), i) == BestBlock(s, i) <==>
              || s.caches[i - 1].best != NULL_HASH
              || s.caches[i - 2].best == NULL_HASH || s.caches[i - 2].best == BestBlock(s, i - 2)
  {
    var t := Flush(s, i);
    if i > 1 {
      BestBelow(s, t, i - 2);
    }
  }

  lemma {:induction false} BestBelow(s: Stack, t: Stack, i: nat)
    requires i <= |s.caches| == |t.caches| && t.dbBest == s.dbBest
    requires forall k :: 0 <= k < i ==> t.caches[k].best == s.caches[k].best
    ensures BestBlock(t, i) == BestBlock(s, i)
  {
    if i > 0 {
      BestBelow(s, t, i - 1);
    }
  }

  /** A cache that never asked for the best block, flushed into a base at block 7 over a database at block 3. */
  lemma FlushCanLoseBestBlock()
    ensures var s := Stack(map[], 3, [Cache(map[], 7), Cache(map[], NULL_HASH)]);
            Inv(s) && BestBlock(s, 2) == 7 && BestBlock(Flush(s, 2), 2) == 3
  {
    var s := Stack(map[], 3, [Cache(map[], 7), Cache(map[], NULL_HASH)]);
    EmptyCache(View(s, 0));
    EmptyCache(View(s, 1));
    assert LevelOk(s, 0) && LevelOk(s, 1);
    assert BestBlock(s, 1) == 7;
    var t := Flush(s, 2);
    assert t.caches[0].best == NULL_HASH && t.caches[1].best == NULL_HASH;
    assert BestBlock(t, 0) == 3;
    assert BestBlock(t, 1) == 3;
  }
}
