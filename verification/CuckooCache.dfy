/** A cache with eight places for each element: inserting moves elements on until one is dropped or a place is free. */
module CuckooCache {
  import opened ByteBits
  import Radix

  type Element = nat

  const HASHES := 8
  const INVALID := 0xFFFF_FFFF

  // ---------- garbage flags ----------

  /** One flag per slot, packed per 8 in a byte; a set flag marks a slot that may be overwritten. */
  class PackedFlags {
    const mem: array<bv8>

    ghost predicate Valid(size: nat)
      reads this
    {
      8 * mem.Length >= size
    }

    ghost function IsSet(s: nat): bool
      requires s < 8 * mem.Length
      reads this, mem
    {
      BitAt(mem[..], s)
    }

    /** The first `size` flags. */
    ghost function All(size: nat): (r: seq<bool>)
      requires Valid(size)
      reads this, mem
      ensures |r| == size
    {
      seq(size, i requires 0 <= i < size reads this, mem => IsSet(i))
    }

    /** All flags are set. */
    constructor (size: nat)
      ensures Valid(size) && fresh(mem) && All(size) == seq(size, _ => true)
    {
      mem := new bv8[(size + 7) / 8](_ => 0xFF);
      new;
      forall s | 0 <= s < 8 * mem.Length
        ensures IsSet(s)
      {
        EveryBit(s % 8);
      }
    }

    method Set(s: nat, ghost size: nat)
      requires Valid(size) && s < size
      modifies mem
      ensures All(size) == old(All(size))[s := true]
    {
      hide Mask, Bit;
      ghost var before := mem[..];
      mem[s / 8] := mem[s / 8] | Mask(s % 8);
      forall i | 0 <= i < size
        ensures BitAt(mem[..], i) == (i == s || BitAt(before, i))
      {
        SetBit(before[s / 8], s % 8, i % 8);
      }
      assert forall i :: 0 <= i < size ==> old(All(size))[i] == BitAt(before, i);
    }

    method Unset(s: nat, ghost size: nat)
      requires Valid(size) && s < size
      modifies mem
      ensures All(size) == old(All(size))[s := false]
    {
      hide Mask, Bit;
      ghost var before := mem[..];
      mem[s / 8] := mem[s / 8] & !Mask(s % 8);
      forall i | 0 <= i < size
        ensures BitAt(mem[..], i) == (i != s && BitAt(before, i))
      {
        ClearBit(before[s / 8], s % 8, i % 8);
      }
      assert forall i :: 0 <= i < size ==> old(All(size))[i] == BitAt(before, i);
    }

    method Get(s: nat) returns (r: bool)
      requires s < 8 * mem.Length
      ensures r == IsSet(s)
    {
      r := Mask(s % 8) & mem[s / 8] != 0;
    }
  }

  // ---------- cells ----------

  /** The hash of an element by number of the hash function. */
  type ElementHash = (nat, Element) -> nat

  const RANGE := 0x1_0000_0000

  /** The slot for a hash: the upper half of its product with the size. */
  function Slot(h: nat, size: nat): (r: nat)
    ensures size > 0 ==> r < size
  {
    SlotFits(h % RANGE, size);
    h % RANGE * size / RANGE
  }

  lemma SlotFits(h: nat, size: nat)
    requires h < 0x1_0000_0000
    ensures size > 0 ==> h * size / 0x1_0000_0000 < size
  {
    if size > 0 {
      assert h * size <= 0xFFFF_FFFF * size < 0x1_0000_0000 * size;
    }
  }

  /** The eight slots of an element. */
  function Locs(hash: ElementHash, size: nat, e: Element): (r: seq<nat>)
    ensures |r| == HASHES && (size > 0 ==> forall n :: 0 <= n < HASHES ==> r[n] < size)
  {
    assert size > 0 ==> forall n :: 0 <= n < HASHES ==> Slot(hash(n, e), size) < size;
    seq<nat>(HASHES, n requires 0 <= n < HASHES => Slot(hash(n, e), size))
  }

  /** A slot that is in use: its element, and whether that belongs to the current epoch. */
  datatype Entry = Entry(element: Element, recent: bool)

  /** The contents of all slots; a dead slot may be overwritten. */
  datatype Cells = Cells(table: seq<Element>, dead: seq<bool>, recent: seq<bool>)

  ghost predicate Shaped(c: Cells, size: nat) {
    |c.table| == |c.dead| == |c.recent| == size
  }

  /** Every element in use sits in one of its own slots. */
  ghost predicate InPlace(hash: ElementHash, c: Cells, size: nat)
    requires Shaped(c, size)
  {
    forall i :: 0 <= i < size && !c.dead[i] ==> i in Locs(hash, size, c.table[i])
  }

  ghost function Share(c: Cells, i: nat): multiset<Entry>
    requires i < |c.table| == |c.dead| == |c.recent|
  {
    if c.dead[i] then multiset{} else multiset{Entry(c.table[i], c.recent[i])}
  }

  /** What the first `n` slots hold that is in use. */
  ghost function Bag(c: Cells, n: nat): multiset<Entry>
    requires n <= |c.table| == |c.dead| == |c.recent|
  {
    if n == 0 then multiset{} else Bag(c, n - 1) + Share(c, n - 1)
  }

  /** A change of one slot. */
  ghost predicate ChangedAt(c: Cells, d: Cells, i: nat) {
    && |c.table| == |c.dead| == |c.recent| == |d.table| == |d.dead| == |d.recent| && i < |c.table|
    && forall j :: 0 <= j < |c.table| && j != i ==>
          c.table[j] == d.table[j] && c.dead[j] == d.dead[j] && c.recent[j] == d.recent[j]
  }

  lemma {:induction false} BagChange(c: Cells, d: Cells, i: nat, n: nat)
    requires ChangedAt(c, d, i) && n <= |c.table|
    ensures if i < n then Bag(d, n) + Share(c, i) == Bag(c, n) + Share(d, i) else Bag(d, n) == Bag(c, n)
  {
    hide Share;
    if n > 0 {
      BagChange(c, d, i, n - 1);
      var a, b := Bag(c, n - 1), Bag(d, n - 1);
      if i < n - 1 {
        SameShare(c, d, n - 1);
        MoveShare(b, Share(c, i), a, Share(d, i), Share(c, n - 1));
      } else if i == n - 1 {
        SwapShare(a, Share(c, i), Share(d, i));
      } else {
        SameShare(c, d, n - 1);
      }
    }
  }

  lemma SameShare(c: Cells, d: Cells, i: nat)
    requires i < |c.table| == |c.dead| == |c.recent| && i < |d.table| == |d.dead| == |d.recent|
    requires c.table[i] == d.table[i] && c.dead[i] == d.dead[i] && c.recent[i] == d.recent[i]
    ensures Share(c, i) == Share(d, i)
  {
  }

  lemma MoveShare(b: multiset<Entry>, x: multiset<Entry>, a: multiset<Entry>, y: multiset<Entry>, s: multiset<Entry>)
    requires b + x == a + y
    ensures (b + s) + x == (a + s) + y
  {
    assert (b + s) + x == (b + x) + s;
    assert (a + s) + y == (a + y) + s;
  }

  lemma SwapShare(a: multiset<Entry>, x: multiset<Entry>, y: multiset<Entry>)
    ensures (a + y) + x == (a + x) + y
  {
  }

  lemma {:induction false} InBag(c: Cells, n: nat, x: Entry) returns (i: nat)
    requires n <= |c.table| == |c.dead| == |c.recent| && x in Bag(c, n)
    ensures i < n && !c.dead[i] && c.table[i] == x.element && c.recent[i] == x.recent
    decreases n
  {
    if x in Share(c, n - 1) {
      i := n - 1;
    } else {
      i := InBag(c, n - 1, x);
    }
  }

  /** An element that is in use can be found in one of its slots, where it is in use with its epoch. */
  ghost predicate Findable(hash: ElementHash, c: Cells, size: nat, x: Entry)
    requires Shaped(c, size) && size > 0
  {
    exists n :: 0 <= n < HASHES &&
      var i := Locs(hash, size, x.element)[n]; c.table[i] == x.element && !c.dead[i] && c.recent[i] == x.recent
  }

  lemma BagIsFindable(hash: ElementHash, c: Cells, size: nat, x: Entry)
    requires Shaped(c, size) && size > 0 && InPlace(hash, c, size) && x in Bag(c, size)
    ensures Findable(hash, c, size, x)
  {
    var i := InBag(c, size, x);
    var locs := Locs(hash, size, x.element);
    var n :| 0 <= n < HASHES && locs[n] == i;
  }

  /** Inserting keeps the new element and everything in use, except for at most one entry that is dropped. */
  ghost predicate Conserved(before: Cells, after: Cells, size: nat, e: Element, dropped: multiset<Entry>)
    requires Shaped(before, size) && Shaped(after, size)
  {
    |dropped| <= 1 && Bag(after, size) + dropped == Bag(before, size) + multiset{Entry(e, true)}
  }

  lemma AllButOneFindable(hash: ElementHash, before: Cells, after: Cells, size: nat, e: Element,
                          dropped: multiset<Entry>, x: Entry)
    requires size > 0 && Shaped(before, size) && Shaped(after, size) && InPlace(hash, after, size)
    requires Conserved(before, after, size, e, dropped) && (x in Bag(before, size) || x == Entry(e, true))
    requires x !in dropped
    ensures Findable(hash, after, size, x)
  {
    assert x in Bag(after, size) + dropped;
    BagIsFindable(hash, after, size, x);
  }

  // ---------- ageing ----------

  /** How many of the first `n` slots are in use in the current epoch. */
  function Unused(c: Cells, n: nat): nat
    requires n <= |c.table| == |c.dead| == |c.recent|
  {
    if n == 0 then 0 else Unused(c, n - 1) + if c.recent[n - 1] && !c.dead[n - 1] then 1 else 0
  }

  /** The first `n` slots aged: the old epoch may be overwritten, and the current one becomes the old one. */
  ghost predicate AgedTo(c: Cells, d: Cells, n: nat) {
    && |c.table| == |c.dead| == |c.recent| == |d.dead| == |d.recent| && d.table == c.table && n <= |c.table|
    && (forall i :: 0 <= i < n ==> d.dead[i] == (c.dead[i] || !c.recent[i]) && !d.recent[i])
    && (forall i :: n <= i < |c.table| ==> d.dead[i] == c.dead[i] && d.recent[i] == c.recent[i])
  }

  // ---------- the cache ----------

  /** The n-th of the slots is the first that holds the element. */
  ghost predicate IsFirst(table: seq<Element>, locs: seq<nat>, n: nat, e: Element) {
    && n < |locs| && (forall m :: 0 <= m <= n ==> locs[m] < |table|)
    && table[locs[n]] == e && forall m :: 0 <= m < n ==> table[locs[m]] != e
  }

  /** The slot held the element, and may now be overwritten. */
  ghost predicate GivenUp(c: Cells, d: Cells, i: nat, e: Element) {
    i < |c.table| && i < |c.dead| && c.table[i] == e && d == c.(dead := c.dead[i := true])
  }

  /** The first of the slots that holds the element is given up. */
  ghost predicate GivenUpFirst(c: Cells, d: Cells, locs: seq<nat>, e: Element) {
    exists n: nat :: IsFirst(c.table, locs, n, e) && GivenUp(c, d, locs[n], e)
  }

  /** The first of the slots that holds the element has been made recent, and may not be overwritten. */
  ghost predicate RenewedFirst(c: Cells, d: Cells, locs: seq<nat>, e: Element) {
    exists n: nat :: IsFirst(c.table, locs, n, e) && RenewedAt(c, d, locs[n], e)
  }

  ghost predicate RenewedAt(c: Cells, d: Cells, i: nat, e: Element) {
    i < |c.table| == |c.dead| == |c.recent| && d == Used(c, i, e, true)
  }

  ghost predicate Apart(a: object, b: object, c: object) {
    a != b && a != c && b != c
  }

  class Cache {
    const hash: ElementHash
    const size: nat
    const epochSize: nat
    const depthLimit: nat
    const table: array<Element>
    const flags: PackedFlags
    const epochs: array<bool>
    var counter: nat

    ghost function Value(): Cells
      requires flags.Valid(size)
      reads this, table, flags, flags.mem, epochs
    {
      Cells(table[..], flags.All(size), epochs[..])
    }

    ghost predicate Shape()
      reads this, flags
    {
      && size >= 2 && table.Length == epochs.Length == size && flags.Valid(size) && depthLimit >= 1 && epochSize >= 1
      && Apart(table, epochs, flags.mem)
    }

    ghost predicate Valid()
      reads this, table, flags, flags.mem, epochs
    {
      Shape() && InPlace(hash, Value(), size)
    }

    /** All slots may be overwritten; the depth limit is the logarithm of the size. */
    constructor (newSize: nat, depthLimit: nat, hash: ElementHash, initial: Element)
      requires depthLimit >= 1
      ensures Valid() && fresh(table) && fresh(flags) && fresh(flags.mem) && fresh(epochs)
      ensures size == (if newSize < 2 then 2 else newSize) && Bag(Value(), size) == multiset{}
      ensures this.depthLimit == depthLimit && this.hash == hash
      ensures counter == epochSize == Radix.Max(1, 45 * size / 100)
    {
      var n := if newSize < 2 then 2 else newSize;
      var f := new PackedFlags(n);
      this.hash, this.depthLimit, size := hash, depthLimit, n;
      epochSize := if 45 * n / 100 < 1 then 1 else 45 * n / 100;
      table := new Element[n](_ => initial);
      flags := f;
      epochs := new bool[n](_ => false);
      counter := if 45 * n / 100 < 1 then 1 else 45 * n / 100;
      new;
      NothingInUse(Value(), size);
    }

    method EpochCheck()
      requires Valid()
      modifies this, flags.mem, epochs
      ensures Valid()
      ensures if old(counter) != 0 then Value() == old(Value()) && counter == old(counter) - 1
              else var unused := Unused(old(Value()), size);
                   if unused >= epochSize then AgedTo(old(Value()), Value(), size) && counter == epochSize
                   else
                     && Value() == old(Value())
                     && counter == Radix.Max(1, Radix.Max(epochSize / 16, epochSize - unused))
    {
      hide Locs, InPlace, AgedTo, Unused;
      if counter != 0 {
        counter := counter - 1;
        return;
      }
      ghost var c := Value();
      var unused := 0;
      UnusedStart(c);
      for i := 0 to size
        invariant Shape() && Value() == c && unused == Unused(c, i)
      {
        UnusedNext(c, i);
        var dead := flags.Get(i);
        if epochs[i] && !dead {
          unused := unused + 1;
        }
      }
      if unused >= epochSize {
        AgedStart(c);
        for i := 0 to size
          invariant Shape() && AgedTo(c, Value(), i)
        {
          ghost var d := Value();
          AgedNext(c, d, i);
          if epochs[i] {
            epochs[i] := false;
            assert Value() == d.(recent := d.recent[i := false]);
          } else {
            flags.Set(i, size);
            assert Value() == d.(dead := d.dead[i := true]);
          }
        }
        AgedInPlace(hash, c, Value(), size);
        counter := epochSize;
      } else {
        counter := Radix.Max(1, Radix.Max(epochSize / 16, epochSize - unused));
      }
    }

    /** Looks at the eight slots of an element; the first one that holds it may be given up. */
    method Contains(e: Element, erase: bool) returns (found: bool)
      requires Valid()
      modifies flags.mem
      ensures Valid() && (found <==> exists n :: 0 <= n < HASHES && table[Locs(hash, size, e)[n]] == e)
      ensures !found || !erase ==> Value() == old(Value())
      ensures found && erase ==> GivenUpFirst(old(Value()), Value(), Locs(hash, size, e), e)
    {
      hide InPlace, Slot;
      var locs := Locs(hash, size, e);
      for n := 0 to HASHES
        invariant Valid() && Value() == old(Value()) && forall m :: 0 <= m < n ==> table[locs[m]] != e
      {
        if table[locs[n]] == e {
          if erase {
            MoreDead(hash, Value(), size, locs[n]);
            flags.Set(locs[n], size);
            assert IsFirst(old(Value()).table, locs, n, e) && GivenUp(old(Value()), Value(), locs[n], e);
          }
          return true;
        }
      }
      return false;
    }

    /** Puts an element into a slot that becomes used. */
    method Use(i: nat, e: Element, recent: bool)
      requires Valid() && i in Locs(hash, size, e)
      modifies table, flags.mem, epochs
      ensures Valid() && Value() == Used(old(Value()), i, e, recent)
    {
      hide InPlace, Locs;
      LocsFit(hash, size, e, i);
      UsedInPlace(hash, Value(), size, i, e, recent);
      ghost var c := Value();
      table[i] := e;
      flags.Unset(i, size);
      epochs[i] := recent;
      assert Value() == Used(c, i, e, recent);
    }

    /** Swaps the element in a used slot with the one at hand, and their epochs with them. */
    method Displace(i: nat, e: Element, recent: bool) returns (e': Element, recent': bool)
      requires Valid() && i in Locs(hash, size, e) && !Value().dead[i]
      modifies table, epochs
      ensures Valid() && Value() == Used(old(Value()), i, e, recent)
      ensures e' == old(Value()).table[i] && recent' == old(Value()).recent[i]
    {
      hide InPlace, Locs;
      LocsFit(hash, size, e, i);
      UsedInPlace(hash, Value(), size, i, e, recent);
      ghost var c := Value();
      e' := table[i];
      table[i] := e;
      recent' := epochs[i];
      epochs[i] := recent;
      assert Value() == Used(c, i, e, recent);
    }

    /** The first of the slots that may be overwritten, or -1. */
    method FindDead(locs: seq<nat>) returns (i: int)
      requires Shape() && forall n :: 0 <= n < |locs| ==> locs[n] < size
      ensures i == FirstDead(Value(), locs, 0)
    {
      for n := 0 to |locs|
        invariant FirstDead(Value(), locs, n) == FirstDead(Value(), locs, 0)
      {
        var dead := flags.Get(locs[n]);
        if dead {
          return locs[n];
        }
      }
      return -1;
    }

    /**
    Inserts an element after ageing. An element that is there already is kept and made recent. Otherwise it takes a
    slot that may be overwritten, or the place of another element, which is moved on in the same way, up to the
    depth limit. Everything in use is conserved with its epoch, but for at most one dropped entry.
     */
    method Insert(e: Element) returns (ghost aged: Cells, ghost dropped: multiset<Entry>)
      requires Valid()
      modifies this, table, flags.mem, epochs
      ensures Valid() && Shaped(aged, size) && (aged == old(Value()) || AgedTo(old(Value()), aged, size))
      ensures SomeDead(aged, Locs(hash, size, e)) ==> dropped == multiset{}
      ensures RenewedFirst(aged, Value(), Locs(hash, size, e), e) ||
              (e !in Elements(aged, Locs(hash, size, e)) && Conserved(aged, Value(), size, e, dropped))
    {
      hide InPlace, Locs, Bag;
      EpochCheck();
      aged, dropped := Value(), multiset{};
      var locs := Locs(hash, size, e);
      for n := 0 to HASHES
        invariant Valid() && Value() == aged && forall m :: 0 <= m < n ==> aged.table[locs[m]] != e
      {
        if table[locs[n]] == e {
          Use(locs[n], e, true);
          assert IsFirst(aged.table, locs, n, e) && RenewedAt(aged, Value(), locs[n], e);
          return;
        }
      }
      dropped := InsertNew(e);
    }

    /** The displacement loop. */
    method InsertNew(e: Element) returns (ghost dropped: multiset<Entry>)
      requires Valid()
      modifies table, flags.mem, epochs
      ensures Valid() && Conserved(old(Value()), Value(), size, e, dropped)
      ensures SomeDead(old(Value()), Locs(hash, size, e)) ==> dropped == multiset{}
      ensures Placement(Value(), dropped) == Placed(hash, size, old(Value()), Entry(e, true), INVALID, depthLimit)
    {
      hide InPlace, Locs, Bag, NextPlace, Placed, FirstDead, SomeDead, Conserved, Used;
      ghost var start := Value();
      PlacedIsConserved(hash, size, start, e, depthLimit);
      var current, recent, locs, last: nat := e, true, Locs(hash, size, e), INVALID;
      for depth := 0 to depthLimit
        invariant Valid() && locs == Locs(hash, size, current)
        invariant Placed(hash, size, Value(), Entry(current, recent), last, depthLimit - depth)
               == Placed(hash, size, start, Entry(e, true), INVALID, depthLimit)
      {
        var free := FindDead(locs);
        DeadIsFirst(Value(), locs, 0);
        PlacedStep(hash, size, Value(), Entry(current, recent), last, depthLimit - depth);
        if free != -1 {
          Use(free, current, recent);
          dropped := multiset{};
          return;
        }
        last := NextPlace(locs, last);
        var next, nextRecent := Displace(last, current, recent);
        current, recent := next, nextRecent;
        locs := Locs(hash, size, current);
      }
      PlacedEnd(hash, size, Value(), Entry(current, recent), last);
      dropped := multiset{Entry(current, recent)};
    }
  }

  /** The first index of a slot in a list, or its length. */
  function IndexOf(s: seq<nat>, x: int): (r: nat)
    ensures r <= |s|
  {
    if s == [] || s[0] == x then 0 else 1 + IndexOf(s[1..], x)
  }

  /** The place that is displaced next: the one behind the last place, or the second if there was none. */
  function NextPlace(locs: seq<nat>, last: nat): (r: nat)
    requires |locs| == HASHES
    ensures r in locs
  {
    locs[(1 + IndexOf(locs, last)) % HASHES]
  }

  /** The first of the slots, from the n-th on, that may be overwritten, or -1. */
  ghost function FirstDead(c: Cells, locs: seq<nat>, n: nat): int
    requires n <= |locs| && forall m :: 0 <= m < |locs| ==> locs[m] < |c.dead|
    decreases |locs| - n
  {
    if n == |locs| then -1 else if c.dead[locs[n]] then locs[n] else FirstDead(c, locs, n + 1)
  }

  lemma {:induction false} DeadIsFirst(c: Cells, locs: seq<nat>, n: nat)
    requires n <= |locs| && forall m :: 0 <= m < |locs| ==> locs[m] < |c.dead|
    ensures var i := FirstDead(c, locs, n);
            if i == -1 then forall m :: n <= m < |locs| ==> !c.dead[locs[m]] else i in locs && i >= 0 && c.dead[i]
    decreases |locs| - n
  {
    if n < |locs| && !c.dead[locs[n]] {
      DeadIsFirst(c, locs, n + 1);
    }
  }

  datatype Placement = Placement(cells: Cells, dropped: multiset<Entry>)

  /**
  Placing an entry in at most `depth` rounds: it takes the first of its slots that may be overwritten, or else
  changes places with the entry in the next place, which is placed in turn.
   */
  ghost function Placed(hash: ElementHash, size: nat, c: Cells, x: Entry, last: nat, depth: nat): Placement
    requires Shaped(c, size) && size > 0
    decreases depth
  {
    var locs := Locs(hash, size, x.element);
    var free := FirstDead(c, locs, 0);
    DeadIsFirst(c, locs, 0);
    if depth == 0 then Placement(c, multiset{x})
    else if free != -1 then Placement(Used(c, free, x.element, x.recent), multiset{})
    else
      var i := NextPlace(locs, last);
      Placed(hash, size, Used(c, i, x.element, x.recent), Entry(c.table[i], c.recent[i]), i, depth - 1)
  }

  lemma PlacedStep(hash: ElementHash, size: nat, c: Cells, x: Entry, last: nat, depth: nat)
    requires Shaped(c, size) && size > 0 && depth > 0
    ensures var locs := Locs(hash, size, x.element);
            var free, i := FirstDead(c, locs, 0), NextPlace(locs, last);
            && -1 <= free < size
            && Placed(hash, size, c, x, last, depth) ==
               if free != -1 then Placement(Used(c, free, x.element, x.recent), multiset{})
               else Placed(hash, size, Used(c, i, x.element, x.recent), Entry(c.table[i], c.recent[i]), i, depth - 1)
  {
    hide Locs, NextPlace, FirstDead;
    DeadIsFirst(c, Locs(hash, size, x.element), 0);
  }

  /** Everything in use is conserved with its epoch, but for what is dropped; nothing is if one of the slots is free. */
  lemma {:induction false} PlacedConserves(hash: ElementHash, size: nat, c: Cells, x: Entry, last: nat, depth: nat)
    requires Shaped(c, size) && size > 0
    ensures var p := Placed(hash, size, c, x, last, depth);
            && Shaped(p.cells, size) && |p.dropped| <= 1
            && Bag(p.cells, size) + p.dropped == Bag(c, size) + multiset{x}
            && (depth > 0 && SomeDead(c, Locs(hash, size, x.element)) ==> p.dropped == multiset{})
    decreases depth
  {
    hide Locs, NextPlace, FirstDead, Bag;
    var locs := Locs(hash, size, x.element);
    DeadIsFirst(c, locs, 0);
    if depth > 0 {
      PlacedStep(hash, size, c, x, last, depth);
      var free := FirstDead(c, locs, 0);
      var i := if free != -1 then free else NextPlace(locs, last);
      BagOfUse(c, size, i, x.element, x.recent);
      if free == -1 {
        PlacedConserves(hash, size, Used(c, i, x.element, x.recent), Entry(c.table[i], c.recent[i]), i, depth - 1);
      }
    }
  }

  lemma PlacedIsConserved(hash: ElementHash, size: nat, c: Cells, e: Element, depth: nat)
    requires Shaped(c, size) && size > 0 && depth > 0
    ensures var p := Placed(hash, size, c, Entry(e, true), INVALID, depth);
            && Shaped(p.cells, size) && Conserved(c, p.cells, size, e, p.dropped)
            && (SomeDead(c, Locs(hash, size, e)) ==> p.dropped == multiset{})
  {
    hide Locs, Placed, Bag;
    PlacedConserves(hash, size, c, Entry(e, true), INVALID, depth);
  }

  lemma PlacedEnd(hash: ElementHash, size: nat, c: Cells, x: Entry, last: nat)
    requires Shaped(c, size) && size > 0
    ensures Placed(hash, size, c, x, last, 0) == Placement(c, multiset{x})
  {
  }

  /** In the first round it is the second place, not the first. */
  lemma FirstPlace(locs: seq<nat>)
    requires |locs| == HASHES && forall n :: 0 <= n < HASHES ==> locs[n] < INVALID
    ensures NextPlace(locs, INVALID) == locs[1]
  {
    NotFound(locs, INVALID);
  }

  lemma {:induction false} NotFound(s: seq<nat>, x: nat)
    requires forall n :: 0 <= n < |s| ==> s[n] != x
    ensures IndexOf(s, x) == |s|
  {
    if s != [] {
      NotFound(s[1..], x);
    }
  }

  /** The first occurrence of a slot among the eight. */
  ghost predicate StandsFirst(locs: seq<nat>, x: nat, k: nat) {
    k < |locs| && locs[k] == x && forall m :: 0 <= m < k ==> locs[m] != x
  }

  lemma {:induction false} IndexIsFirst(s: seq<nat>, x: nat, k: nat)
    requires StandsFirst(s, x, k)
    ensures IndexOf(s, x) == k
    decreases |s|
  {
    if k > 0 {
      var t := s[1..];
      assert t[k - 1] == x && forall m :: 0 <= m < k - 1 ==> t[m] == s[m + 1];
      IndexIsFirst(t, x, k - 1);
    }
  }

  /** The entry just put in is moved again exactly if the next of the eight slots is the same one. */
  lemma MovesAgain(locs: seq<nat>, last: nat, k: nat)
    requires |locs| == HASHES && StandsFirst(locs, last, k)
    ensures NextPlace(locs, last) == last <==> locs[(k + 1) % HASHES] == last
    ensures (forall i, j :: 0 <= i < j < HASHES ==> locs[i] != locs[j]) ==> NextPlace(locs, last) != last
  {
    IndexIsFirst(locs, last, k);
  }

  /** Then the two rounds undo each other. */
  lemma MovedBack(c: Cells, size: nat, i: nat, x: Entry)
    requires Shaped(c, size) && i < size && !c.dead[i]
    ensures var d := Used(c, i, x.element, x.recent);
            Used(d, i, c.table[i], c.recent[i]) == c && Entry(d.table[i], d.recent[i]) == x
  {
  }

  /** A hash that gives an element one slot eight times. */
  lemma CanMoveAgain(e: Element)
    ensures var locs := Locs((_: nat, _: Element) => 0, 2, e);
            locs[0] == 0 && StandsFirst(locs, 0, 0) && NextPlace(locs, 0) == 0
  {
    var locs := Locs((_: nat, _: Element) => 0, 2, e);
    assert Slot(0, 2) == 0;
    assert forall n :: 0 <= n < HASHES ==> locs[n] == Slot(0, 2);
    MovesAgain(locs, 0, 0);
  }

  /** One of the slots may be overwritten. */
  ghost predicate SomeDead(c: Cells, locs: seq<nat>) {
    exists n :: 0 <= n < |locs| && locs[n] < |c.dead| && c.dead[locs[n]]
  }

  ghost function Elements(c: Cells, locs: seq<nat>): set<Element>
    requires forall n :: 0 <= n < |locs| ==> locs[n] < |c.table|
  {
    set n | 0 <= n < |locs| :: c.table[locs[n]]
  }

  /** The cells with an element put into a slot, which is then in use. */
  ghost function Used(c: Cells, i: nat, e: Element, recent: bool): Cells
    requires i < |c.table| == |c.dead| == |c.recent|
  {
    Cells(c.table[i := e], c.dead[i := false], c.recent[i := recent])
  }

  lemma LocsFit(hash: ElementHash, size: nat, e: Element, i: nat)
    requires size > 0 && i in Locs(hash, size, e)
    ensures i < size
  {
    hide Slot;
  }

  lemma UsedInPlace(hash: ElementHash, c: Cells, size: nat, i: nat, e: Element, recent: bool)
    requires Shaped(c, size) && InPlace(hash, c, size) && i < size && i in Locs(hash, size, e)
    ensures InPlace(hash, Used(c, i, e, recent), size)
  {
    hide Locs;
  }

  lemma BagOfUse(c: Cells, size: nat, i: nat, e: Element, recent: bool)
    requires Shaped(c, size) && i < size
    ensures Bag(Used(c, i, e, recent), size) + Share(c, i) == Bag(c, size) + multiset{Entry(e, recent)}
  {
    hide Bag;
    var d := Used(c, i, e, recent);
    assert ChangedAt(c, d, i);
    BagChange(c, d, i, size);
  }

  lemma {:induction false} NothingInUse(c: Cells, n: nat)
    requires n <= |c.table| == |c.dead| == |c.recent| && forall i :: 0 <= i < n ==> c.dead[i]
    ensures Bag(c, n) == multiset{}
  {
    if n > 0 {
      NothingInUse(c, n - 1);
    }
  }

  lemma MoreDead(hash: ElementHash, c: Cells, size: nat, i: nat)
    requires Shaped(c, size) && InPlace(hash, c, size) && i < size
    ensures InPlace(hash, c.(dead := c.dead[i := true]), size)
  {
    hide Slot;
  }

  lemma UnusedStart(c: Cells)
    requires |c.table| == |c.dead| == |c.recent|
    ensures Unused(c, 0) == 0
  {
  }

  lemma UnusedNext(c: Cells, i: nat)
    requires i < |c.table| == |c.dead| == |c.recent|
    ensures Unused(c, i + 1) == Unused(c, i) + if c.recent[i] && !c.dead[i] then 1 else 0
  {
  }

  lemma AgedStart(c: Cells)
    requires |c.table| == |c.dead| == |c.recent|
    ensures AgedTo(c, c, 0)
  {
  }

  lemma AgedNext(c: Cells, d: Cells, i: nat)
    requires AgedTo(c, d, i) && i < |c.table|
    ensures d.recent[i] ==> AgedTo(c, d.(recent := d.recent[i := false]), i + 1)
    ensures !d.recent[i] ==> AgedTo(c, d.(dead := d.dead[i := true]), i + 1)
  {
  }

  lemma AgedInPlace(hash: ElementHash, c: Cells, d: Cells, size: nat)
    requires Shaped(c, size) && AgedTo(c, d, size) && InPlace(hash, c, size)
    ensures Shaped(d, size) && InPlace(hash, d, size)
  {
    hide Slot;
  }
}
