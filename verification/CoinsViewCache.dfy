/**
The coin caches in place: each level keeps its map of entries, its best block and a running total of
the memory its coins use.  Every method computes the function of module Coins, and the totals stay exact.
 */
module CoinsViewCache {
  import opened Wrappers
  import C = Coins
  import opened Coins
  import opened CoinsRefinement
  import opened Sets

  // ---------- memory in use ----------

  ghost function Usage(coins: CoinMap): nat {
    UsageOf(coins, coins.Keys)
  }

  ghost function UsageOf(coins: CoinMap, keys: set<OutPoint>): nat
    requires keys <= coins.Keys
  {
    if keys == {} then 0
    else
      var o := OneOf(keys);
      coins[o].coin.script.usage + UsageOf(coins, keys - {o})
  }

  ghost function OneOf(keys: set<OutPoint>): (o: OutPoint)
    requires keys != {}
    ensures o in keys
  {
    var o :| o in keys;
    o
  }

  lemma {:induction false} UsageWithout(coins: CoinMap, keys: set<OutPoint>, o: OutPoint)
    requires keys <= coins.Keys && o in keys
    ensures UsageOf(coins, keys) == coins[o].coin.script.usage + UsageOf(coins, keys - {o})
    decreases keys
  {
    var p := OneOf(keys);
    if p != o {
      UsageWithout(coins, keys - {p}, o);
      UsageWithout(coins, keys - {o}, p);
      assert keys - {p} - {o} == keys - {o} - {p};
    }
  }

  lemma {:induction false} UsageSame(a: CoinMap, b: CoinMap, keys: set<OutPoint>)
    requires keys <= a.Keys && keys <= b.Keys
    requires forall o :: o in keys ==> a[o].coin.script.usage == b[o].coin.script.usage
    ensures UsageOf(a, keys) == UsageOf(b, keys)
    decreases keys
  {
    if keys != {} {
      UsageSame(a, b, keys - {OneOf(keys)});
    }
  }

  lemma UsageErased(coins: CoinMap, o: OutPoint)
    requires o in coins
    ensures Usage(coins - {o}) == Usage(coins) - coins[o].coin.script.usage
  {
    UsageWithout(coins, coins.Keys, o);
    assert (coins - {o}).Keys == coins.Keys - {o};
    UsageSame(coins, coins - {o}, coins.Keys - {o});
  }

  lemma UsageSet(coins: CoinMap, o: OutPoint, e: Entry)
    ensures Usage(coins[o := e]) == (if o in coins then Usage(coins - {o}) else Usage(coins)) + e.coin.script.usage
  {
    var more := coins[o := e];
    UsageErased(more, o);
    assert more - {o} == if o in coins then coins - {o} else coins;
  }

  // ---------- transactions ----------

  datatype TxOut = TxOut(value: int, script: Script)

  datatype Tx = Tx(hash: nat, coinbase: bool, inputs: seq<OutPoint>, outputs: seq<TxOut>)

  function OutputCoin(tx: Tx, i: nat, height: nat): Coin
    requires i < |tx.outputs|
  {
    Coin(tx.outputs[i].value, tx.outputs[i].script, height, tx.coinbase)
  }

  /** A coin set with the first `n` outputs of a transaction, except those that can never be spent. */
  function WithOutputs(m: CoinSet, tx: Tx, height: nat, n: nat): CoinSet
    requires n <= |tx.outputs|
  {
    if n == 0 then m
    else
      var before := WithOutputs(m, tx, height, n - 1);
      if tx.outputs[n - 1].script.unspendable then before
      else before[OutPoint(tx.hash, n - 1) := OutputCoin(tx, n - 1, height)]
  }

  lemma {:induction false} OutputsAbove(m: CoinSet, tx: Tx, height: nat, n: nat, k: nat)
    requires n <= k && n <= |tx.outputs|
    ensures Get(WithOutputs(m, tx, height, n), OutPoint(tx.hash, k)) == Get(m, OutPoint(tx.hash, k))
  {
    if n > 0 {
      OutputsAbove(m, tx, height, n - 1, k);
    }
  }

  /** The sum of the values of the first `n` inputs; an input that is not in the set counts -1. */
  function ValueOf(m: CoinSet, inputs: seq<OutPoint>, n: nat): int
    requires n <= |inputs|
  {
    if n == 0 then 0
    else ValueOf(m, inputs, n - 1) + if inputs[n - 1] in m then m[inputs[n - 1]].value else -1
  }

  function Updated(coins: CoinMap, o: OutPoint, e: Option<Entry>): CoinMap {
    if e.None? then coins - {o} else coins[o := e.value]
  }

  /** AddCoins from output `i` on: the stack it leaves, and whether nothing was thrown. */
  function AddOutputs(s: Stack, tx: Tx, height: nat, check: bool, i: nat): (r: (Stack, bool))
    requires s.caches != [] && i <= |tx.outputs|
    decreases |tx.outputs| - i
  {
    if i == |tx.outputs| then (s, true)
    else
      var o, n := OutPoint(tx.hash, i), |s.caches|;
      var overwrite := if check then Answer(s, n, o).Some? else tx.coinbase;
      var s1 := if check then Fetched(s, n, o) else s;
      if AddThrows(s1, o, OutputCoin(tx, i, height), overwrite) then (s1, false)
      else AddOutputs(C.AddCoin(s1, o, OutputCoin(tx, i, height), overwrite), tx, height, check, i + 1)
  }

  lemma AddOutputsNext(s: Stack, tx: Tx, height: nat, check: bool, i: nat)
    requires s.caches != [] && i < |tx.outputs|
    ensures var o, n := OutPoint(tx.hash, i), |s.caches|;
            var overwrite := if check then Answer(s, n, o).Some? else tx.coinbase;
            var s1 := if check then Fetched(s, n, o) else s;
            AddOutputs(s, tx, height, check, i) ==
            if AddThrows(s1, o, OutputCoin(tx, i, height), overwrite) then (s1, false)
            else AddOutputs(C.AddCoin(s1, o, OutputCoin(tx, i, height), overwrite), tx, height, check, i + 1)
  {
    hide C.AddCoin, Fetched, Answer;
  }

  lemma AddOutputsEnd(s: Stack, tx: Tx, height: nat, check: bool)
    requires s.caches != []
    ensures AddOutputs(s, tx, height, check, |tx.outputs|) == (s, true)
  {
  }

  /** The caller of AddCoins need not have looked, or is right that nothing is overwritten. */
  ghost predicate Vouched(top: CoinSet, tx: Tx, check: bool) {
    check || tx.coinbase || forall i :: 0 <= i < |tx.outputs| ==> OutPoint(tx.hash, i) !in top
  }

  /** Exactly the spendable outputs are added to the top map, and no other map changes. */
  ghost predicate OutputsEntered(s: Stack, t: Stack, tx: Tx, height: nat) {
    && |t.caches| == |s.caches| && Top(t) == WithOutputs(Top(s), tx, height, |tx.outputs|)
    && forall j :: 0 <= j < |s.caches| ==> View(t, j) == View(s, j)
  }

  /** `t` is what the first `i` outputs made of `s`. */
  lemma {:induction false} AddOutputsKeeps(s: Stack, t: Stack, tx: Tx, height: nat, check: bool, i: nat)
    requires Inv(s) && s.caches != [] && Vouched(Top(s), tx, check) && i <= |tx.outputs|
    requires forall k :: 0 <= k < |tx.outputs| ==> tx.outputs[k].value != -1
    requires Inv(t) && |t.caches| == |s.caches| && Top(t) == WithOutputs(Top(s), tx, height, i)
    requires forall j :: 0 <= j < |s.caches| ==> View(t, j) == View(s, j)
    ensures var (u, ok) := AddOutputs(t, tx, height, check, i); ok && Inv(u) && OutputsEntered(s, u, tx, height)
    decreases |tx.outputs| - i
  {
    hide View, Inv, C.AddCoin, Fetched, Answer, AddThrows;
    if i < |tx.outputs| {
      var o, n := OutPoint(tx.hash, i), |t.caches|;
      var overwrite := if check then Answer(t, n, o).Some? else tx.coinbase;
      var t1 := if check then Fetched(t, n, o) else t;
      AnswerIsView(t, n, o);
      FetchedKeeps(t, n, o);
      OutputsAbove(Top(s), tx, height, i, i);
      AddCoinKeeps(t1, o, OutputCoin(tx, i, height), overwrite);
      AddOutputsKeeps(s, C.AddCoin(t1, o, OutputCoin(tx, i, height), overwrite), tx, height, check, i + 1);
    }
  }

  class CoinsStack {
    var db: CoinSet
    var dbBest: BlockHash
    var caches: seq<Cache>
    var usage: seq<int>

    ghost function Value(): Stack
      reads this
    {
      Stack(db, dbBest, caches)
    }

    ghost predicate UsageExact()
      reads this
    {
      |usage| == |caches| && forall i :: 0 <= i < |caches| ==> usage[i] == Usage(caches[i].coins)
    }

    ghost predicate Valid()
      reads this
    {
      Inv(Value()) && UsageExact()
    }

    constructor (db: CoinSet, dbBest: BlockHash)
      requires forall o :: o in db ==> !Spent(db[o])
      ensures Valid() && Value() == Stack(db, dbBest, [])
    {
      this.db, this.dbBest, caches, usage := db, dbBest, [], [];
    }

    /** Puts a new, empty cache on top. */
    method Push()
      requires Valid()
      modifies this
      ensures Valid() && Value() == Pushed(old(Value()))
      ensures forall j :: 0 <= j <= |old(caches)| ==> View(Value(), j) == View(old(Value()), j)
    {
      hide Inv, View;
      PushKeeps(Value());
      NoUsage();
      caches := caches + [Cache(map[], NULL_HASH)];
      usage := usage + [0];
      assert Value() == Pushed(old(Value()));
    }

    /** Discards the cache on top with all that was not flushed. */
    method Drop()
      requires Valid() && caches != []
      modifies this
      ensures Valid() && Value() == Dropped(old(Value()))
      ensures forall j :: 0 <= j < |old(caches)| ==> View(Value(), j) == View(old(Value()), j)
    {
      hide Inv, View;
      DropKeeps(Value());
      caches := caches[..|caches| - 1];
      usage := usage[..|usage| - 1];
      assert Value() == Dropped(old(Value()));
    }

    method SetCoins(i: nat, coins: CoinMap, newUsage: int)
      requires UsageExact() && 1 <= i <= |caches| && newUsage == Usage(coins)
      modifies this
      ensures UsageExact() && Value() == WithCoins(old(Value()), i, coins)
    {
      caches := caches[i - 1 := caches[i - 1].(coins := coins)];
      usage := usage[i - 1 := newUsage];
    }

    method FetchCoin(i: nat, o: OutPoint) returns (found: bool)
      requires UsageExact() && 1 <= i <= |caches|
      modifies this
      ensures UsageExact() && Value() == Fetched(old(Value()), i, o)
      ensures found <==> o in caches[i - 1].coins
      ensures found ==>
                Answer(old(Value()), i, o) == if Spent(caches[i - 1].coins[o].coin) then None
                else Some(caches[i - 1].coins[o].coin)
      ensures !found ==> Answer(old(Value()), i, o) == None
      decreases i, 0
    {
      if o in caches[i - 1].coins {
        return true;
      }
      ghost var s := Value();
      var tmp := GetCoin(i - 1, o);
      FetchedAbove(s, i - 1, o);
      if tmp.None? {
        return false;
      }
      var coins := caches[i - 1].coins;
      var isFresh := Spent(tmp.value);
      var e := Entry(tmp.value, false, isFresh);
      UsageSet(coins, o, e);
      SetCoins(i, coins[o := e], usage[i - 1] + tmp.value.script.usage);
      return true;
    }

    method GetCoin(i: nat, o: OutPoint) returns (coin: Option<Coin>)
      requires UsageExact() && i <= |caches|
      modifies this
      ensures UsageExact() && Value() == Fetched(old(Value()), i, o)
      ensures coin == Answer(old(Value()), i, o)
      decreases i, 1
    {
      if i == 0 {
        return Get(db, o);
      }
      var found := FetchCoin(i, o);
      if found {
        var c := caches[i - 1].coins[o].coin;
        return if Spent(c) then None else Some(c);
      }
      return None;
    }

    method HaveCoin(o: OutPoint) returns (have: bool)
      requires Valid() && caches != []
      modifies this
      ensures Valid() && Value() == Fetched(old(Value()), |old(caches)|, o)
      ensures have <==> o in Top(old(Value()))
    {
      AnswerIsView(Value(), |caches|, o);
      FetchedKeeps(Value(), |caches|, o);
      var n := |caches|;
      var found := FetchCoin(n, o);
      have := found && !Spent(caches[n - 1].coins[o].coin);
    }

    /** The cached coin, or the empty one. */
    method AccessCoin(o: OutPoint) returns (coin: Coin)
      requires Valid() && caches != []
      modifies this
      ensures Valid() && Value() == Fetched(old(Value()), |old(caches)|, o)
      ensures o in Top(old(Value())) ==> coin == Top(old(Value()))[o]
      ensures o !in Top(old(Value())) ==> Spent(coin)
    {
      AnswerIsView(Value(), |caches|, o);
      FetchedKeeps(Value(), |caches|, o);
      var n := |caches|;
      var found := FetchCoin(n, o);
      return if found then caches[n - 1].coins[o].coin else NO_COIN;
    }

    /** `ok` is false where the source throws; the coins are then as they were, but the usage of the entry is lost. */
    method AddCoin(o: OutPoint, coin: Coin, overwrite: bool) returns (ok: bool)
      requires UsageExact() && caches != [] && !Spent(coin)
      modifies this
      ensures ok <==> !AddThrows(old(Value()), o, coin, overwrite)
      ensures ok ==> UsageExact() && Value() == C.AddCoin(old(Value()), o, coin, overwrite)
      ensures !ok ==> Value() == old(Value()) && o in caches[|caches| - 1].coins && |usage| == |caches|
      ensures !ok ==>
                usage == old(usage)[|caches| - 1 :=
                old(usage)[|caches| - 1] - caches[|caches| - 1].coins[o].coin.script.usage]
    {
      if coin.script.unspendable {
        return true;
      }
      var n := |caches|;
      var coins := caches[n - 1].coins;
      var inserted := o !in coins;
      var entry := if inserted then Entry(NO_COIN, false, false) else coins[o];
      var isFresh := false;
      var total := usage[n - 1];
      if !inserted {
        total := total - entry.coin.script.usage;
        UsageErased(coins, o);
      }
      if !overwrite {
        if !Spent(entry.coin) {
          usage := usage[n - 1 := total];
          return false;
        }
        isFresh := !entry.dirty;
      }
      entry := Entry(coin, true, entry.isFresh || isFresh);
      UsageSet(coins, o, entry);
      SetCoins(n, coins[o := entry], total + coin.script.usage);
      return true;
    }

    /** None is returned where the source returns false; otherwise the coin moved out. */
    method SpendCoin(o: OutPoint) returns (moved: Option<Coin>)
      requires UsageExact() && caches != []
      modifies this
      ensures UsageExact() && (Value(), moved) == C.SpendCoin(old(Value()), o)
    {
      var n := |caches|;
      var found := FetchCoin(n, o);
      if !found {
        return None;
      }
      var coins := caches[n - 1].coins;
      var entry := coins[o];
      moved := Some(entry.coin);
      UsageErased(coins, o);
      if entry.isFresh {
        SetCoins(n, coins - {o}, usage[n - 1] - entry.coin.script.usage);
      } else {
        UsageSet(coins, o, Entry(NO_COIN, true, false));
        SetCoins(n, coins[o := Entry(NO_COIN, true, false)], usage[n - 1] - entry.coin.script.usage);
      }
    }

    /**
    Adds the outputs of a transaction.  With `check` the cache looks up what it overwrites; without, the caller
    vouches that only a coinbase may overwrite anything. If the caller is right, nothing is thrown and exactly the
    spendable outputs enter the top map.
     */
    method AddCoins(tx: Tx, height: nat, check: bool) returns (ok: bool)
      requires UsageExact() && caches != [] && forall i :: 0 <= i < |tx.outputs| ==> tx.outputs[i].value != -1
      modifies this
      ensures (Value(), ok) == AddOutputs(old(Value()), tx, height, check, 0) && (ok ==> UsageExact())
      ensures Inv(old(Value())) && Vouched(Top(old(Value())), tx, check) ==>
                ok && Inv(Value()) && OutputsEntered(old(Value()), Value(), tx, height)
    {
      hide View, Inv, Usage, C.AddCoin, Fetched, AddOutputs, OutputsEntered, Vouched;
      ghost var s := Value();
      if Inv(s) && Vouched(Top(s), tx, check) {
        AddOutputsKeeps(s, s, tx, height, check, 0);
      }
      var i := 0;
      while i < |tx.outputs|
        invariant 0 <= i <= |tx.outputs| && caches != [] && UsageExact()
        invariant AddOutputs(Value(), tx, height, check, i) == AddOutputs(s, tx, height, check, 0)
      {
        AddOutputsNext(Value(), tx, height, check, i);
        var o := OutPoint(tx.hash, i);
        var overwrite := tx.coinbase;
        if check {
          var found := GetCoin(|caches|, o);
          overwrite := found.Some?;
        }
        ok := AddCoin(o, OutputCoin(tx, i, height), overwrite);
        if !ok {
          return;
        }
        i := i + 1;
      }
      AddOutputsEnd(Value(), tx, height, check);
      ok := true;
    }

    method HaveInputs(tx: Tx) returns (have: bool)
      requires Valid() && caches != []
      modifies this
      ensures Valid() && |caches| == |old(caches)| && Top(Value()) == Top(old(Value()))
      ensures have <==> tx.coinbase || forall i :: 0 <= i < |tx.inputs| ==> tx.inputs[i] in Top(old(Value()))
    {
      hide View, Inv, Usage, Fetched;
      if !tx.coinbase {
        ghost var s := Value();
        var i := 0;
        while i < |tx.inputs|
          invariant 0 <= i <= |tx.inputs| && |caches| == |s.caches|
          invariant Valid() && Top(Value()) == Top(s)
          invariant forall k :: 0 <= k < i ==> tx.inputs[k] in Top(s)
        {
          FetchedKeeps(Value(), |caches|, tx.inputs[i]);
          var h := HaveCoin(tx.inputs[i]);
          if !h {
            return false;
          }
          i := i + 1;
        }
      }
      return true;
    }

    method GetValueIn(tx: Tx) returns (value: int)
      requires Valid() && caches != []
      modifies this
      ensures Valid() && |caches| == |old(caches)| && Top(Value()) == Top(old(Value()))
      ensures value == if tx.coinbase then 0 else ValueOf(Top(old(Value())), tx.inputs, |tx.inputs|)
    {
      hide View, Inv, Usage, Fetched;
      if tx.coinbase {
        return 0;
      }
      ghost var s := Value();
      value := 0;
      var i := 0;
      while i < |tx.inputs|
        invariant 0 <= i <= |tx.inputs| && |caches| == |s.caches|
        invariant Valid() && Top(Value()) == Top(s)
        invariant value == ValueOf(Top(s), tx.inputs, i)
      {
        FetchedKeeps(Value(), |caches|, tx.inputs[i]);
        var coin := AccessCoin(tx.inputs[i]);
        value := value + coin.value;
        i := i + 1;
      }
    }

    method Uncache(i: nat, o: OutPoint)
      requires UsageExact() && 1 <= i <= |caches|
      modifies this
      ensures UsageExact() && Value() == C.Uncache(old(Value()), i, o)
    {
      var coins := caches[i - 1].coins;
      if o in coins && !coins[o].dirty && !coins[o].isFresh {
        UsageErased(coins, o);
        SetCoins(i, coins - {o}, usage[i - 1] - coins[o].coin.script.usage);
      }
    }

    /** The loop of BatchWrite over the entries of a child, in any order. */
    method BatchWrite(i: nat, child: CoinMap, best: BlockHash) returns (ok: bool)
      requires UsageExact() && 1 <= i <= |caches|
      modifies this
      ensures ok <==> !BatchThrows(old(caches)[i - 1].coins, child)
      ensures ok ==> UsageExact()
                     && Value() ==
                           old(Value()).(caches :=
                           old(caches)[i - 1 := Cache(Merged(old(caches)[i - 1].coins, child), best)])
    {
      hide Merged, Usage;
      ghost var s := Value();
      ghost var us := caches[i - 1].coins;
      var todo := child;
      MergedNothing(us, child);
      while todo != map[]
        invariant UsageExact() && todo.Keys <= child.Keys && (forall o :: o in todo ==> todo[o] == child[o])
        invariant Value() == WithCoins(s, i, Merged(us, child - todo.Keys))
        invariant !BatchThrows(us, child - todo.Keys)
        decreases todo.Keys
      {
        ghost var witness_ := Pick(todo.Keys);
        var o :| o in todo.Keys;
        MergedNext(us, child, todo.Keys, o);
        if todo[o].dirty {
          if o in caches[i - 1].coins && todo[o].isFresh && !Spent(caches[i - 1].coins[o].coin) {
            return false;
          }
          WriteEntry(i, o, todo[o]);
        }
        assert child - todo.Keys - {o} == child - (todo.Keys + {o});
        todo := todo - {o};
      }
      assert child - todo.Keys == child;
      caches := caches[i - 1 := caches[i - 1].(best := best)];
      ok := true;
    }

    /** One dirty entry of the child that does not throw. */
    method WriteEntry(i: nat, o: OutPoint, e: Entry)
      requires UsageExact() && 1 <= i <= |caches| && e.dirty
      modifies this
      ensures UsageExact()
      ensures var us := old(caches)[i - 1].coins;
              Value() == WithCoins(old(Value()), i, Updated(us, o, MergeEntry(Get(us, o), e)))
    {
      var us := caches[i - 1].coins;
      if o !in us {
        assert us - {o} == us;
        if !(e.isFresh && Spent(e.coin)) {
          UsageSet(us, o, Entry(e.coin, true, e.isFresh));
          SetCoins(i, us[o := Entry(e.coin, true, e.isFresh)], usage[i - 1] + e.coin.script.usage);
        }
      } else {
        UsageErased(us, o);
        if us[o].isFresh && Spent(e.coin) {
          SetCoins(i, us - {o}, usage[i - 1] - us[o].coin.script.usage);
        } else {
          UsageSet(us, o, Entry(e.coin, true, us[o].isFresh));
          SetCoins(i, us[o := Entry(e.coin, true, us[o].isFresh)],
              usage[i - 1] - us[o].coin.script.usage + e.coin.script.usage);
        }
      }
    }

    method Flush(i: nat) returns (ok: bool)
      requires UsageExact() && 1 <= i <= |caches|
      modifies this
      ensures ok <==> !FlushThrows(old(Value()), i)
      ensures ok ==> UsageExact() && Value() == C.Flush(old(Value()), i)
    {
      hide Merged, Written, Usage;
      var c := caches[i - 1];
      if i == 1 {
        db, dbBest := Written(db, c.coins), c.best;
        ok := true;
      } else {
        ok := BatchWrite(i - 1, c.coins, c.best);
      }
      if ok {
        NoUsage();
        SetCoins(i, map[], 0);
      }
    }
  }

  lemma NoUsage()
    ensures Usage(map[]) == 0
  {
  }

  lemma MergedNothing(us: CoinMap, child: CoinMap)
    ensures Merged(us, child - child.Keys) == us
  {
    assert child - child.Keys == map[];
    forall o
      ensures Get(Merged(us, map[]), o) == Get(us, o)
    {
      MergedIs(us, map[], o);
    }
    SameMap(Merged(us, map[]), us);
  }

  /** Merging one more entry of the child, of those in `todo`. */
  lemma MergedNext(us: CoinMap, child: CoinMap, todo: set<OutPoint>, o: OutPoint)
    requires todo <= child.Keys && o in todo
    ensures var before, after := Merged(us, child - todo), Merged(us, child - (todo - {o}));
            && Get(before, o) == Get(us, o)
            && after == Updated(before, o, MergeEntry(Get(before, o), child[o]))
            && (!child[o].dirty ==> after == before)
            && (BatchThrows(us, child - (todo - {o})) <==>
                  BatchThrows(us, child - todo)
                      || (child[o].dirty && child[o].isFresh && o in before && !Spent(before[o].coin)))
  {
    var before, after := Merged(us, child - todo), Merged(us, child - (todo - {o}));
    MergedIs(us, child - todo, o);
    var m := Updated(before, o, MergeEntry(Get(before, o), child[o]));
    forall x
      ensures Get(after, x) == Get(m, x)
      ensures !child[o].dirty ==> Get(after, x) == Get(before, x)
    {
      MergedIs(us, child - todo, x);
      MergedIs(us, child - (todo - {o}), x);
    }
    SameMap(after, m);
    if !child[o].dirty {
      SameMap(after, before);
    }
    ThrowsNext(us, child, todo, o);
  }

  lemma ThrowsNext(us: CoinMap, child: CoinMap, todo: set<OutPoint>, o: OutPoint)
    requires todo <= child.Keys && o in todo
    ensures BatchThrows(us, child - (todo - {o})) <==>
              BatchThrows(us, child - todo) || (child[o].dirty && child[o].isFresh && o in us && !Spent(us[o].coin))
  {
    var a, b := child - todo, child - (todo - {o});
    assert forall x :: x in b <==> x in a || x == o;
    assert forall x :: x in b ==> b[x] == child[x];
    assert forall x :: x in a ==> a[x] == child[x];
  }

  /** A lookup at level `i` touches no cache above level `i`. */
  lemma {:induction false} FetchedAbove(s: Stack, i: nat, o: OutPoint)
    requires i <= |s.caches|
    ensures forall k :: i <= k < |s.caches| ==> Fetched(s, i, o).caches[k] == s.caches[k]
  {
    if i > 0 && o !in s.caches[i - 1].coins {
      FetchedAbove(s, i - 1, o);
    }
  }
}
