/**
The rolling Bloom filter: every cell holds the number, 1 to 3, of the generation that touched it last, or 0. Starting
a generation wipes the cells that still hold its number, so that the filter answers for the keys of the last three
generations exactly as a plain Bloom filter over these keys would.
 */
module RollingBloom {
  import opened Words

  type Key = seq<bv8>

  /** A cell: bit `bit` of the two words of a pair. */
  datatype Place = Place(pair: nat, bit: Word)

  /** The murmur hash by number of the hash function and tweak. */
  type KeyHash = (nat, nat, Key) -> bv32

  // ---------- cells ----------

  /** A replacement for the remainder: scales a 32-bit value into a range. */
  function FastMod(x: bv32, n: nat): (r: nat)
    ensures n > 0 ==> r < n
  {
    ScaleBound(x as nat, n);
    (x as nat) * n / 0x1_0000_0000
  }

  lemma ScaleBound(v: nat, n: nat)
    requires v < 0x1_0000_0000
    ensures n > 0 ==> v * n / 0x1_0000_0000 < n
  {
    if n > 0 {
      assert v * n <= 0xFFFF_FFFF * n < 0x1_0000_0000 * n;
    }
  }

  function LowBits(x: bv32): (r: Word)
    ensures r < 64
  {
    (x & 0x3F) as Word
  }

  function PlaceOf(h: bv32, size: nat): Place {
    Place(FastMod(h, size) / 2, LowBits(h))
  }

  function Cell(data: seq<Word>, c: Place): nat
    requires 2 * c.pair + 1 < |data| && c.bit < 64
  {
    (if Bit(data[2 * c.pair], c.bit) then 1 else 0) + (if Bit(data[2 * c.pair + 1], c.bit) then 2 else 0)
  }

  predicate InFilter(size: nat, c: Place) {
    2 * c.pair + 1 < size && c.bit < 64
  }

  // ---------- the history ----------

  /** What the places of a key depend on. */
  datatype Setup = Setup(hash: KeyHash, tweak: nat, hashFuncs: nat, size: nat)

  function NthPlace(s: Setup, key: Key, n: nat): Place {
    PlaceOf(s.hash(n, s.tweak, key), s.size)
  }

  /** One of the first `upTo` hash functions sends the key to the cell. */
  ghost predicate Touches(s: Setup, key: Key, upTo: nat, c: Place) {
    exists n :: 0 <= n < upTo && NthPlace(s, key, n) == c
  }

  ghost predicate TouchedBy(s: Setup, keys: seq<Key>, c: Place) {
    exists i :: 0 <= i < |keys| && Touches(s, keys[i], s.hashFuncs, c)
  }

  /** The last generation of the history that touches the cell, or -1. */
  ghost function LastTouch(s: Setup, history: seq<seq<Key>>, c: Place): (r: int)
    ensures -1 <= r < |history|
  {
    if history == [] then -1
    else if TouchedBy(s, history[|history| - 1], c) then |history| - 1
    else LastTouch(s, history[..|history| - 1], c)
  }

  function Number(generation: nat): nat {
    generation % 3 + 1
  }

  /** What a cell must hold: the number of the generation that touched it last, if that is one of the last three. */
  ghost function Expected(s: Setup, history: seq<seq<Key>>, c: Place): nat {
    var j := LastTouch(s, history, c);
    if j >= 0 && j >= |history| - 3 then Number(j) else 0
  }

  /** A new generation forgets the cells that hold its number. */
  lemma NextGeneration(s: Setup, history: seq<seq<Key>>, c: Place)
    requires history != []
    ensures Expected(s, history + [[]], c) == if Expected(s, history, c) == Number(|history|) then 0
              else Expected(s, history, c)
  {
    var next := history + [[]];
    assert next[|next| - 1] == [] && next[..|next| - 1] == history;
    assert LastTouch(s, next, c) == LastTouch(s, history, c);
  }

  /** A key added to the current generation writes its number into the cells that it touches. */
  lemma NextKey(s: Setup, history: seq<seq<Key>>, key: Key, c: Place)
    requires history != []
    ensures Expected(s, Inserted(history, key), c) ==
            if Touches(s, key, s.hashFuncs, c) then Number(|history| - 1) else Expected(s, history, c)
  {
    var last := |history| - 1;
    var next := Inserted(history, key);
    assert next[..last] == history[..last];
    var keys := history[last];
    if Touches(s, key, s.hashFuncs, c) {
      assert next[last][|keys|] == key;
      assert TouchedBy(s, next[last], c);
    } else {
      assert TouchedBy(s, next[last], c) <==> TouchedBy(s, keys, c) by {
        assert forall i :: 0 <= i < |keys| ==> next[last][i] == keys[i];
      }
    }
  }

  function Inserted(history: seq<seq<Key>>, key: Key): seq<seq<Key>>
    requires history != []
  {
    var last := |history| - 1;
    history[last := history[last] + [key]]
  }

  /** A cell is set if and only if a key of the last three generations touches it. */
  lemma {:induction false} ExpectedSet(s: Setup, history: seq<seq<Key>>, c: Place)
    ensures Expected(s, history, c) != 0 <==>
              exists j :: 0 <= j < |history| && j >= |history| - 3 && TouchedBy(s, history[j], c)
  {
    var k := LastTouch(s, history, c);
    LastTouchIsLast(s, history, c);
    if k >= 0 && k >= |history| - 3 {
      assert TouchedBy(s, history[k], c);
    }
  }

  lemma {:induction false} LastTouchIsLast(s: Setup, history: seq<seq<Key>>, c: Place)
    ensures var k := LastTouch(s, history, c);
            && (k >= 0 ==> TouchedBy(s, history[k], c))
            && (forall j :: k < j < |history| ==> !TouchedBy(s, history[j], c))
  {
    if history != [] && !TouchedBy(s, history[|history| - 1], c) {
      var rest := history[..|history| - 1];
      LastTouchIsLast(s, rest, c);
      assert forall j :: 0 <= j < |rest| ==> history[j] == rest[j];
    }
  }

  // ---------- the keys in order of insertion ----------

  function Flat(history: seq<seq<Key>>): seq<Key> {
    if history == [] then [] else Flat(history[..|history| - 1]) + history[|history| - 1]
  }

  /** The keys of the last three generations. */
  function Recent(history: seq<seq<Key>>): seq<Key> {
    Flat(if |history| <= 3 then history else history[|history| - 3..])
  }

  lemma {:induction false} FlatSplit(history: seq<seq<Key>>, k: nat)
    requires k <= |history|
    ensures Flat(history) == Flat(history[..k]) + Flat(history[k..])
    decreases |history|
  {
    if k == |history| {
      assert history[..k] == history && history[k..] == [];
    } else {
      var rest := history[..|history| - 1];
      FlatSplit(rest, k);
      assert rest[..k] == history[..k];
      assert history[k..][..|history| - k - 1] == rest[k..];
    }
  }

  /** All generations but the last are full. */
  ghost predicate Filled(history: seq<seq<Key>>, full: nat, current: nat) {
    history != [] && |history[|history| - 1]| == current && forall j :: 0 <= j < |history| - 1 ==> |history[j]| == full
  }

  /** The recent keys are the last ones inserted: two full generations and the current one, or all there are. */
  lemma RecentIsSuffix(history: seq<seq<Key>>, full: nat, current: nat)
    requires Filled(history, full, current)
    ensures |Recent(history)| <= |Flat(history)|
    ensures Recent(history) == Flat(history)[|Flat(history)| - |Recent(history)|..]
    ensures |history| >= 3 ==> |Recent(history)| == 2 * full + current
    ensures |history| <= 3 ==> Recent(history) == Flat(history)
  {
    hide Flat;
    if |history| >= 3 {
      var k := |history| - 3;
      FlatSplit(history, k);
      LastThree(history, full, current);
      if |history| == 3 {
        assert history[k..] == history;
      }
    }
  }

  lemma LastThree(history: seq<seq<Key>>, full: nat, current: nat)
    requires Filled(history, full, current) && |history| >= 3
    ensures |Flat(history[|history| - 3..])| == 2 * full + current
  {
    hide Flat;
    var last := history[|history| - 3..];
    assert last == [last[0], last[1], last[2]];
    FlatOfThree(last[0], last[1], last[2]);
  }

  lemma FlatOfThree(a: seq<Key>, b: seq<Key>, c: seq<Key>)
    ensures Flat([a, b, c]) == a + b + c
  {
    assert [a, b, c][..2] == [a, b];
    assert [a, b][..1] == [a];
    assert [a][..0] == [];
    assert Flat([a]) == a;
    assert Flat([a, b]) == a + b;
  }

  // ---------- wiping ----------

  /** The mask that spares the cells which do not hold generation number `g`. */
  function Spared(p1: Word, p2: Word, g: nat): Word {
    Or(XorAll(p1, g % 2 == 1), XorAll(p2, g / 2 == 1))
  }

  lemma SparedBit(p1: Word, p2: Word, g: nat, b: Word)
    requires b < 64
    ensures Bit(Spared(p1, p2, g), b) <==> Bit(p1, b) != (g % 2 == 1) || Bit(p2, b) != (g / 2 == 1)
  {
    hide Bit, Or, XorAll;
    BitOfXorAll(p1, g % 2 == 1, b);
    BitOfXorAll(p2, g / 2 == 1, b);
    BitOfOr(XorAll(p1, g % 2 == 1), XorAll(p2, g / 2 == 1), b);
  }

  /** The pair of words at `p` without the cells that hold number `g`. */
  function WipePair(data: seq<Word>, p: nat, g: nat): seq<Word>
    requires p + 1 < |data|
  {
    var mask := Spared(data[p], data[p + 1], g);
    data[p := And(data[p], mask)][p + 1 := And(data[p + 1], mask)]
  }

  lemma WipedCell(data: seq<Word>, q: nat, g: nat, c: Place)
    requires InFilter(|data|, c) && 2 * q + 1 < |data| && 1 <= g <= 3
    ensures Cell(WipePair(data, 2 * q, g), c) == if c.pair == q && Cell(data, c) == g then 0 else Cell(data, c)
  {
    hide Bit, And, Spared;
    var p1, p2 := data[2 * q], data[2 * q + 1];
    SparedBit(p1, p2, g, c.bit);
    BitOfAnd(p1, Spared(p1, p2, g), c.bit);
    BitOfAnd(p2, Spared(p1, p2, g), c.bit);
  }

  /** The words with number `g` written into the cell. */
  function WriteCell(data: seq<Word>, c: Place, g: nat): seq<Word>
    requires InFilter(|data|, c)
  {
    var first := data[2 * c.pair := WriteBit(data[2 * c.pair], c.bit, g % 2 == 1)];
    first[2 * c.pair + 1 := WriteBit(data[2 * c.pair + 1], c.bit, g / 2 == 1)]
  }

  lemma WrittenCell(data: seq<Word>, c: Place, g: nat, d: Place)
    requires InFilter(|data|, c) && InFilter(|data|, d) && 1 <= g <= 3
    ensures Cell(WriteCell(data, c, g), d) == if c == d then g else Cell(data, d)
  {
    hide Bit, WriteBit;
    BitOfWrite(data[2 * c.pair], c.bit, g % 2 == 1, d.bit);
    BitOfWrite(data[2 * c.pair + 1], c.bit, g / 2 == 1, d.bit);
  }

  // ---------- the answer ----------

  /** What a plain Bloom filter over `keys` would answer. */
  ghost predicate PlainContains(s: Setup, keys: seq<Key>, key: Key) {
    forall n :: 0 <= n < s.hashFuncs ==> TouchedBy(s, keys, NthPlace(s, key, n))
  }

  lemma PlainContainsOwn(s: Setup, keys: seq<Key>, key: Key)
    requires key in keys
    ensures PlainContains(s, keys, key)
  {
    var i :| 0 <= i < |keys| && keys[i] == key;
    forall n | 0 <= n < s.hashFuncs
      ensures TouchedBy(s, keys, NthPlace(s, key, n))
    {
      assert Touches(s, keys[i], s.hashFuncs, NthPlace(s, key, n));
    }
  }

  lemma {:induction false} FlatTouched(s: Setup, history: seq<seq<Key>>, c: Place)
    ensures TouchedBy(s, Flat(history), c) <==> exists j :: 0 <= j < |history| && TouchedBy(s, history[j], c)
  {
    if history != [] {
      var rest, last := history[..|history| - 1], history[|history| - 1];
      FlatTouched(s, rest, c);
      TouchedByEither(s, Flat(rest), last, c);
      assert forall j :: 0 <= j < |rest| ==> history[j] == rest[j];
    }
  }

  lemma TouchedByEither(s: Setup, a: seq<Key>, b: seq<Key>, c: Place)
    ensures TouchedBy(s, a + b, c) <==> TouchedBy(s, a, c) || TouchedBy(s, b, c)
  {
    if TouchedBy(s, a, c) {
      var i :| 0 <= i < |a| && Touches(s, a[i], s.hashFuncs, c);
      assert (a + b)[i] == a[i];
    }
    if TouchedBy(s, b, c) {
      var i :| 0 <= i < |b| && Touches(s, b[i], s.hashFuncs, c);
      assert (a + b)[|a| + i] == b[i];
    }
  }

  /** A cell is set if and only if a recent key touches it. */
  lemma SetByRecent(s: Setup, history: seq<seq<Key>>, c: Place)
    ensures Expected(s, history, c) != 0 <==> TouchedBy(s, Recent(history), c)
  {
    hide TouchedBy, Expected;
    ExpectedSet(s, history, c);
    if |history| <= 3 {
      FlatTouched(s, history, c);
    } else {
      var last := history[|history| - 3..];
      FlatTouched(s, last, c);
      assert forall j :: |history| - 3 <= j < |history| ==> history[j] == last[j - (|history| - 3)];
    }
  }

  /** All cells hold what the history demands. */
  ghost predicate CellsOk(s: Setup, history: seq<seq<Key>>, data: seq<Word>) {
    |data| == s.size && forall c :: InFilter(|data|, c) ==> Cell(data, c) == Expected(s, history, c)
  }

  /** All cells below pair `q` have been wiped of number `g`. */
  ghost predicate WipedTo(before: seq<Word>, data: seq<Word>, q: nat, g: nat) {
    |data| == |before| && forall c :: InFilter(|data|, c) ==>
      Cell(data, c) == if c.pair < q && Cell(before, c) == g then 0 else Cell(before, c)
  }

  lemma WipeStep(before: seq<Word>, data: seq<Word>, q: nat, g: nat)
    requires WipedTo(before, data, q, g) && 2 * q + 1 < |data| && 1 <= g <= 3
    ensures WipedTo(before, WipePair(data, 2 * q, g), q + 1, g)
  {
    hide Cell;
    var next := WipePair(data, 2 * q, g);
    forall c | InFilter(|next|, c)
      ensures Cell(next, c) == if c.pair < q + 1 && Cell(before, c) == g then 0 else Cell(before, c)
    {
      WipedCell(data, q, g, c);
    }
  }

  lemma WipeEnd(s: Setup, history: seq<seq<Key>>, before: seq<Word>, data: seq<Word>)
    requires history != [] && CellsOk(s, history, before) && WipedTo(before, data, |data| / 2, Number(|history|))
    ensures CellsOk(s, history + [[]], data)
  {
    hide Cell, Expected;
    forall c | InFilter(|data|, c)
      ensures Cell(data, c) == Expected(s, history + [[]], c)
    {
      NextGeneration(s, history, c);
    }
  }

  /** The first `n` places of the key have been written with number `g`. */
  ghost predicate WrittenTo(s: Setup, before: seq<Word>, data: seq<Word>, key: Key, n: nat, g: nat) {
    |data| == |before| && forall c :: InFilter(|data|, c) ==>
        Cell(data, c) == if Touches(s, key, n, c) then g else Cell(before, c)
  }

  lemma WriteStep(s: Setup, before: seq<Word>, data: seq<Word>, key: Key, n: nat, g: nat)
    requires WrittenTo(s, before, data, key, n, g) && 1 <= g <= 3 && InFilter(|data|, NthPlace(s, key, n))
    ensures WrittenTo(s, before, WriteCell(data, NthPlace(s, key, n), g), key, n + 1, g)
  {
    hide Cell, NthPlace;
    var p := NthPlace(s, key, n);
    var next := WriteCell(data, p, g);
    forall c | InFilter(|next|, c)
      ensures Cell(next, c) == if Touches(s, key, n + 1, c) then g else Cell(before, c)
    {
      WrittenCell(data, p, g, c);
      TouchStep(s, key, n, c);
    }
  }

  lemma TouchStep(s: Setup, key: Key, n: nat, c: Place)
    ensures Touches(s, key, n + 1, c) <==> Touches(s, key, n, c) || NthPlace(s, key, n) == c
  {
  }

  lemma WriteEnd(s: Setup, history: seq<seq<Key>>, before: seq<Word>, data: seq<Word>, key: Key)
    requires history != [] && CellsOk(s, history, before)
    requires WrittenTo(s, before, data, key, s.hashFuncs, Number(|history| - 1))
    ensures CellsOk(s, Inserted(history, key), data)
  {
    hide Cell, Expected, Touches;
    forall c | InFilter(|data|, c)
      ensures Cell(data, c) == Expected(s, Inserted(history, key), c)
    {
      NextKey(s, history, key, c);
    }
  }

  lemma PlaceInFilter(s: Setup, key: Key, n: nat)
    requires s.size >= 2 && s.size % 2 == 0
    ensures InFilter(s.size, NthPlace(s, key, n))
  {
  }

  lemma {:induction false} EmptyCells(s: Setup, data: seq<Word>)
    requires |data| == s.size && forall i :: 0 <= i < |data| ==> data[i] == 0
    ensures CellsOk(s, [[]], data)
  {
    hide Bit;
    forall c | InFilter(|data|, c)
      ensures Cell(data, c) == Expected(s, [[]], c)
    {
      BitOfConstant(c.bit);
      LastTouchIsLast(s, [[]], c);
    }
  }

  /** The history after one more key: in a new generation if the current one is full. */
  function History(history: seq<seq<Key>>, full: bool, key: Key): seq<seq<Key>>
    requires history != []
  {
    Inserted(if full then history + [[]] else history, key)
  }

  lemma HistoryGrows(history: seq<seq<Key>>, full: bool, key: Key)
    requires history != []
    ensures Flat(History(history, full, key)) == Flat(history) + [key]
  {
    var base := if full then history + [[]] else history;
    assert (history + [[]])[..|history|] == history;
    assert Flat(history + [[]]) == Flat(history);
    var last := |base| - 1;
    var next := Inserted(base, key);
    assert next[..last] == base[..last];
  }

  // ---------- the filter ----------

  class RollingBloomFilter {
    const hash: KeyHash
    const hashFuncs: nat
    const perGeneration: nat
    const data: array<Word>
    var inGeneration: nat
    var generation: nat
    var tweak: nat
    /** The keys inserted since the last reset, by generation. */
    ghost var history: seq<seq<Key>>

    ghost function TheSetup(): Setup
      reads this
    {
      Setup(hash, tweak, hashFuncs, data.Length)
    }

    ghost predicate Valid()
      reads this, data
    {
      && data.Length >= 2 && data.Length % 2 == 0 && perGeneration >= 1 && inGeneration <= perGeneration
      && Filled(history, perGeneration, inGeneration) && generation == Number(|history| - 1)
      && CellsOk(TheSetup(), history, data[..])
    }

    /** A filter for `elements` keys; the number of hash functions and of words come from the false-positive rate. */
    constructor (elements: nat, hashFuncs: nat, words: nat, hash: KeyHash, tweak: nat)
      requires elements >= 1 && words >= 2 && words % 2 == 0
      ensures Valid() && history == [[]] && fresh(data) && 2 * perGeneration >= elements
    {
      perGeneration := (elements + 1) / 2;
      this.hashFuncs := hashFuncs;
      this.hash := hash;
      data := new Word[words](_ => 0);
      new;
      Reset(tweak);
    }

    /** Forgets everything; the new tweak is drawn at random. */
    method Reset(newTweak: nat)
      requires data.Length >= 2 && data.Length % 2 == 0 && perGeneration >= 1
      modifies this, data
      ensures Valid() && history == [[]]
    {
      tweak, inGeneration, generation, history := newTweak, 0, 1, [[]];
      for i := 0 to data.Length
        invariant forall j :: 0 <= j < i ==> data[j] == 0
        modifies data
      {
        data[i] := 0;
      }
      EmptyCells(TheSetup(), data[..]);
    }

    method Wipe()
      requires data.Length >= 2 && data.Length % 2 == 0 && 1 <= generation <= 3
      modifies data
      ensures WipedTo(old(data[..]), data[..], data.Length / 2, generation)
    {
      hide Cell, WipedTo;
      ghost var before := data[..];
      WipeStart(before, generation);
      for q := 0 to data.Length / 2
        invariant WipedTo(before, data[..], q, generation)
      {
        var p := 2 * q;
        WipeStep(before, data[..], q, generation);
        ghost var next := WipePair(data[..], p, generation);
        var mask := Spared(data[p], data[p + 1], generation);
        data[p], data[p + 1] := And(data[p], mask), And(data[p + 1], mask);
        assert data[..] == next;
      }
    }

    /** Writes the current generation into the places of the key. */
    method Write(key: Key)
      requires data.Length >= 2 && data.Length % 2 == 0 && 1 <= generation <= 3
      modifies data
      ensures WrittenTo(TheSetup(), old(data[..]), data[..], key, hashFuncs, generation)
    {
      hide Cell, WrittenTo;
      ghost var before, s := data[..], TheSetup();
      WriteStart(s, before, key, generation);
      for n := 0 to hashFuncs
        invariant WrittenTo(s, before, data[..], key, n, generation)
      {
        PlaceInFilter(s, key, n);
        WriteStep(s, before, data[..], key, n, generation);
        ghost var next := WriteCell(data[..], NthPlace(s, key, n), generation);
        var h := hash(n, tweak, key);
        var bit, pos := LowBits(h), FastMod(h, data.Length);
        var first, second := pos - pos % 2, pos - pos % 2 + 1;
        data[first] := WriteBit(data[first], bit, generation % 2 == 1);
        data[second] := WriteBit(data[second], bit, generation / 2 == 1);
        assert data[..] == next;
      }
    }

    method Insert(key: Key)
      requires Valid()
      modifies this, data
      ensures Valid() && tweak == old(tweak)
      ensures history == History(old(history), old(inGeneration) == perGeneration, key)
      ensures Flat(history) == Flat(old(history)) + [key]
    {
      hide CellsOk, WrittenTo, WipedTo, Flat;
      HistoryGrows(history, inGeneration == perGeneration, key);
      if inGeneration == perGeneration {
        inGeneration := 0;
        generation := generation + 1;
        if generation == 4 {
          generation := 1;
        }
        ghost var before := data[..];
        Wipe();
        WipeEnd(TheSetup(), history, before, data[..]);
        history := history + [[]];
      }
      inGeneration := inGeneration + 1;
      ghost var wiped := data[..];
      Write(key);
      WriteEnd(TheSetup(), history, wiped, data[..], key);
      history := Inserted(history, key);
    }

    /**
    The answer is that of a plain Bloom filter over the keys of the last three generations. So every key among the
    last `2 * perGeneration`, which is at least the number of keys that the filter was made for, is found.
     */
    method Contains(key: Key) returns (found: bool)
      requires Valid()
      ensures found <==> PlainContains(TheSetup(), Recent(history), key)
      ensures forall i :: 0 <= i < |Flat(history)| && i >= |Flat(history)| - 2 * perGeneration ==>
                Flat(history)[i] == key ==> found
    {
      hide CellsOk, Expected, TouchedBy, Recent, Flat, NthPlace;
      ghost var s := TheSetup();
      RecentKeysAreFound(s, history, perGeneration, inGeneration, key);
      for n := 0 to hashFuncs
        invariant forall m :: 0 <= m < n ==> TouchedBy(s, Recent(history), NthPlace(s, key, m))
      {
        var h := hash(n, tweak, key);
        var bit, pos := LowBits(h), FastMod(h, data.Length);
        var first, second := pos - pos % 2, pos - pos % 2 + 1;
        PlaceIs(s, key, n);
        PlaceInFilter(s, key, n);
        SetByRecent(s, history, NthPlace(s, key, n));
        CellIsSet(s, history, data[..], NthPlace(s, key, n));
        if !BottomBit(Or(data[first], data[second]), bit) {
          return false;
        }
      }
      return true;
    }
  }

  lemma WipeStart(before: seq<Word>, g: nat)
    ensures WipedTo(before, before, 0, g)
  {
  }

  lemma WriteStart(s: Setup, before: seq<Word>, key: Key, g: nat)
    ensures WrittenTo(s, before, before, key, 0, g)
  {
  }

  lemma PlaceIs(s: Setup, key: Key, n: nat)
    ensures NthPlace(s, key, n) == Place(FastMod(s.hash(n, s.tweak, key), s.size) / 2, LowBits(s.hash(n, s.tweak, key)))
  {
  }

  /** Looking at both words of a pair tells whether the cell is set. */
  lemma CellIsSet(s: Setup, history: seq<seq<Key>>, data: seq<Word>, c: Place)
    requires CellsOk(s, history, data) && InFilter(|data|, c)
    ensures BottomBit(Or(data[2 * c.pair], data[2 * c.pair + 1]), c.bit) <==> Expected(s, history, c) != 0
  {
    hide Expected, Bit, Or, BottomBit;
    var p1, p2 := data[2 * c.pair], data[2 * c.pair + 1];
    BitByShift(Or(p1, p2), c.bit);
    BitOfOr(p1, p2, c.bit);
    assert Cell(data, c) == Expected(s, history, c);
  }

  lemma RecentKeysAreFound(s: Setup, history: seq<seq<Key>>, full: nat, current: nat, key: Key)
    requires Filled(history, full, current)
    ensures forall i :: 0 <= i < |Flat(history)| && i >= |Flat(history)| - 2 * full && Flat(history)[i] == key ==>
              PlainContains(s, Recent(history), key)
  {
    hide PlainContains, Recent, Flat, Filled;
    RecentIsSuffix(history, full, current);
    LateKeys(s, Flat(history), Recent(history), 2 * full, key);
  }

  lemma LateKeys(s: Setup, all: seq<Key>, recent: seq<Key>, n: nat, key: Key)
    requires |recent| <= |all| && recent == all[|all| - |recent|..] && (|recent| >= n || recent == all)
    ensures forall i :: 0 <= i < |all| && i >= |all| - n && all[i] == key ==> PlainContains(s, recent, key)
  {
    hide PlainContains;
    var gap := |all| - |recent|;
    forall i | 0 <= i < |all| && i >= |all| - n && all[i] == key
      ensures PlainContains(s, recent, key)
    {
      assert recent[i - gap] == key;
      PlainContainsOwn(s, recent, key);
    }
  }
}
