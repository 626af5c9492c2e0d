/** Golomb-coded sets: compact filters that answer whether one of some elements may be in a set. */
module GcsFilter {
  import opened Wrappers
  import opened Radix
  import opened GolombRice
  import opened Limbs

  type Element = seq<bv8>

  /** The keyed 64-bit hash of an element. */
  type ElementHash = Element -> nat

  datatype Params = Params(hash: ElementHash, p: nat, m: nat)

  // ---------- hashed sets ----------

  function HashToRange(q: Params, f: nat, e: Element): nat {
    q.hash(e) % (BASE * BASE) * f / (BASE * BASE)
  }

  ghost predicate Sorted(s: seq<nat>) {
    forall i, j :: 0 <= i < j < |s| ==> s[i] <= s[j]
  }

  /** The value is the hash of an element of the set. */
  ghost predicate IsHash(q: Params, f: nat, elements: set<Element>, v: nat) {
    exists e :: e in elements && v == HashToRange(q, f, e)
  }

  /** Puts a value into its place in a sorted list. */
  method Insert(s: seq<nat>, v: nat) returns (r: seq<nat>)
    requires Sorted(s)
    ensures Sorted(r) && multiset(r) == multiset(s) + multiset{v}
  {
    hide Sorted;
    var i := |s|;
    while i > 0 && s[i - 1] > v
      invariant 0 <= i <= |s| && forall j :: i <= j < |s| ==> s[j] > v
    {
      i := i - 1;
    }
    r := s[..i] + [v] + s[i..];
    InsertedIsSorted(s, i, v);
    InsertedBag(s, i, v);
  }

  lemma InsertedBag(s: seq<nat>, i: nat, v: nat)
    requires i <= |s|
    ensures multiset(s[..i] + [v] + s[i..]) == multiset(s) + multiset{v}
  {
    assert s == s[..i] + s[i..];
  }

  lemma InsertedIsSorted(s: seq<nat>, i: nat, v: nat)
    requires Sorted(s) && i <= |s| && (forall j :: i <= j < |s| ==> s[j] > v) && (i > 0 ==> s[i - 1] <= v)
    ensures Sorted(s[..i] + [v] + s[i..])
  {
  }

  /** The elements with a given hash. */
  ghost function Hashing(q: Params, f: nat, elements: set<Element>, v: nat): set<Element> {
    set e | e in elements && HashToRange(q, f, e) == v
  }

  /** A list holds every hash as often as there are elements with it. */
  ghost predicate HashesOf(q: Params, f: nat, elements: set<Element>, r: seq<nat>) {
    |r| == |elements| && forall v :: multiset(r)[v] == |Hashing(q, f, elements, v)|
  }

  lemma OneMoreHash(q: Params, f: nat, done: set<Element>, e: Element, before: seq<nat>, r: seq<nat>)
    requires HashesOf(q, f, done, before) && e !in done
    requires multiset(r) == multiset(before) + multiset{HashToRange(q, f, e)}
    ensures HashesOf(q, f, done + {e}, r)
  {
    hide HashToRange;
    assert |multiset(r)| == |r| && |multiset(before)| == |before|;
    forall v
      ensures multiset(r)[v] == |Hashing(q, f, done + {e}, v)|
    {
      var old_, new_ := Hashing(q, f, done, v), Hashing(q, f, done + {e}, v);
      if HashToRange(q, f, e) == v {
        assert new_ == old_ + {e} && e !in old_;
      } else {
        assert new_ == old_;
      }
    }
  }

  /** So it holds exactly the hashes of the elements. */
  lemma HashesAreHashes(q: Params, f: nat, elements: set<Element>, r: seq<nat>)
    requires HashesOf(q, f, elements, r)
    ensures forall v :: v in r <==> IsHash(q, f, elements, v)
  {
    hide HashToRange;
    forall v: nat
      ensures v in r <==> IsHash(q, f, elements, v)
    {
      var s := Hashing(q, f, elements, v);
      assert v in r <==> multiset(r)[v] > 0;
      if s != {} {
        var e :| e in s;
        assert e in elements && v == HashToRange(q, f, e);
      }
      if IsHash(q, f, elements, v) {
        var e :| e in elements && v == HashToRange(q, f, e);
        assert e in s;
      }
    }
  }

  /** The hashes of the elements, sorted, each as often as there are elements with it. */
  method BuildHashedSet(q: Params, f: nat, elements: set<Element>) returns (r: seq<nat>)
    requires f < BASE * BASE
    ensures Sorted(r) && HashesOf(q, f, elements, r) && (f > 0 ==> forall i :: 0 <= i < |r| ==> r[i] < f)
    ensures forall v :: v in r <==> IsHash(q, f, elements, v)
  {
    hide HashesOf;
    r := [];
    var todo := elements;
    NoHashes(q, f);
    assert elements - todo == {};
    while todo != {}
      invariant todo <= elements && Sorted(r) && HashesOf(q, f, elements - todo, r)
      invariant f > 0 ==> forall i :: 0 <= i < |r| ==> r[i] < f
      decreases |todo|
    {
      var e :| e in todo;
      ghost var done := elements - todo;
      todo := todo - {e};
      var v := MapIntoRange(q.hash(e) % (BASE * BASE), f);
      ghost var before := r;
      r := Insert(r, v);
      assert elements - todo == done + {e};
      OneMoreHash(q, f, done, e, before, r);
      StillBelow(before, r, v, f);
    }
    assert elements - todo == elements;
    HashesAreHashes(q, f, elements, r);
  }

  lemma NoHashes(q: Params, f: nat)
    ensures HashesOf(q, f, {}, [])
  {
    assert forall v :: Hashing(q, f, {}, v) == {};
  }

  lemma StillBelow(before: seq<nat>, r: seq<nat>, v: nat, f: nat)
    requires multiset(r) == multiset(before) + multiset{v}
    requires (f > 0 ==> v < f && forall i :: 0 <= i < |before| ==> before[i] < f)
    ensures f > 0 ==> forall i :: 0 <= i < |r| ==> r[i] < f
  {
    forall i | f > 0 && 0 <= i < |r|
      ensures r[i] < f
    {
      assert r[i] in multiset(r);
      assert r[i] in multiset(before) || r[i] == v;
    }
  }

  // ---------- the encoded list ----------

  /** The differences of a sorted list, from `last` on. */
  function EncodeAll(p: nat, values: seq<nat>, last: nat): seq<bool>
    requires Sorted(values) && (values != [] ==> last <= values[0])
  {
    if values == [] then [] else Encode(p, values[0] - last) + EncodeAll(p, values[1..], values[0])
  }

  /** The list that is read, and where reading stopped. */
  datatype Listing = Listing(values: seq<nat>, next: nat)

  function DecodeAll(p: nat, bits: seq<bool>, at: nat, n: nat, last: nat): Option<Listing>
    decreases n
  {
    if n == 0 then Some(Listing([], at)) else
      match Decode(p, bits, at)
      case None => None
      case Some(first) =>
        var v := last + first.number;
        match DecodeAll(p, bits, first.next, n - 1, v)
        case None => None
        case Some(rest) => Some(Listing([v] + rest.values, rest.next))
  }

  lemma {:induction false} DecodeAllInverts(p: nat, bits: seq<bool>, at: nat, values: seq<nat>, last: nat)
    requires Sorted(values) && (values != [] ==> last <= values[0])
    requires Holds(bits, at, EncodeAll(p, values, last))
    ensures DecodeAll(p, bits, at, |values|, last) == Some(Listing(values, at + |EncodeAll(p, values, last)|))
    decreases |values|
  {
    hide Encode, Decode, Holds;
    if values != [] {
      var first := Encode(p, values[0] - last);
      HoldsBoth(bits, at, first, EncodeAll(p, values[1..], values[0]));
      DecodeInvertsEncode(p, bits, at, values[0] - last);
      DecodeAllInverts(p, bits, at + |first|, values[1..], values[0]);
      assert values == [values[0]] + values[1..];
    }
  }

  /** What is read is sorted, and has as many values as were asked for. */
  lemma {:induction false} DecodedIsSorted(p: nat, bits: seq<bool>, at: nat, n: nat, last: nat)
    requires DecodeAll(p, bits, at, n, last).Some?
    ensures var l := DecodeAll(p, bits, at, n, last).value;
            |l.values| == n && Sorted(l.values) && forall i :: 0 <= i < n ==> l.values[i] >= last
    decreases n
  {
    hide Decode;
    if n > 0 {
      var first := Decode(p, bits, at).value;
      DecodedIsSorted(p, bits, first.next, n - 1, last + first.number);
    }
  }

  /**
  No value that is read exceeds what its bits can hold; so within 2^64 nothing wraps as long as the number of bits
  times 2^p stays below that.
   */
  lemma {:induction false} DecodedFits(p: nat, bits: seq<bool>, at: nat, n: nat, last: nat)
    requires at <= |bits| && DecodeAll(p, bits, at, n, last).Some?
    ensures var l := DecodeAll(p, bits, at, n, last).value;
            && at <= l.next <= |bits| && |l.values| == n
            && forall i :: 0 <= i < n ==> l.values[i] <= last + Mul(l.next - at, Pow2(p))
    decreases n
  {
    hide Decode, Pow2, Mul;
    if n > 0 {
      NumberFits(p, bits, at);
      var first := Decode(p, bits, at).value;
      DecodedFits(p, bits, first.next, n - 1, last + first.number);
      var l := DecodeAll(p, bits, at, n, last).value;
      MulSplit(first.next - at, l.next - first.next, Pow2(p));
      assert l.next - at == first.next - at + (l.next - first.next);
    }
  }

  lemma MulSplit(a: nat, b: nat, c: nat)
    ensures Mul(a + b, c) == Mul(a, c) + Mul(b, c) && Mul(b, c) >= 0
  {
    assert (a + b) * c == a * c + b * c;
  }

  lemma NothingWraps(p: nat, bits: seq<bool>, n: nat)
    requires DecodeAll(p, bits, 0, n, 0).Some? && |bits| * Pow2(p) < BASE * BASE
    ensures forall v :: v in DecodeAll(p, bits, 0, n, 0).value.values ==> v < BASE * BASE
  {
    hide DecodeAll, Pow2;
    DecodedFits(p, bits, 0, n, 0);
    var l := DecodeAll(p, bits, 0, n, 0).value;
    MulLe(l.next, |bits|, Pow2(p));
  }

  /** Zeroes up to the next byte. */
  function Padding(k: nat): seq<bool> {
    seq((k + 7) / 8 * 8 - k, _ => false)
  }

  // ---------- the filter ----------

  class Filter {
    const q: Params
    const n: nat
    const f: nat
    /** The encoded filter without its length prefix, in whole bytes. */
    const bits: seq<bool>

    ghost predicate Valid() {
      && q.p < WORD && q.m < BASE && n < BASE && f == n * q.m && f < BASE * BASE
      && DecodeAll(q.p, bits, 0, n, 0).Some?
      && |bits| == (DecodeAll(q.p, bits, 0, n, 0).value.next + 7) / 8 * 8
    }

    ghost function Values(): seq<nat>
      requires Valid()
    {
      DecodeAll(q.p, bits, 0, n, 0).value.values
    }

    constructor Of(q: Params, n: nat, f: nat, bits: seq<bool>)
      ensures this.q == q && this.n == n && this.f == f && this.bits == bits
    {
      this.q, this.n, this.f, this.bits := q, n, f, bits;
    }

    /** Whether one of the sorted queries is in the filter. */
    method MatchInternal(queries: seq<nat>) returns (found: bool)
      requires Valid() && Sorted(queries)
      ensures found <==> exists k :: 0 <= k < |queries| && queries[k] in Values()
    {
      hide Decode, DecodeAll;
      ghost var values := Values();
      DecodedIsSorted(q.p, bits, 0, n, 0);
      var value: nat, at: nat, k: nat := 0, 0, 0;
      for i := 0 to n
        invariant k <= |queries| && |values| == n && Reading(q.p, bits, n, values, i, at, value)
        invariant Passed(queries, values, i, k)
      {
        var read := GolombRiceDecode(q.p, bits, at);
        ReadNext(q.p, bits, n, values, i, at, value);
        value := value + read.value.number;
        at := read.value.next;
        while true
          invariant k <= |queries| && Passed(queries, values, i, k)
          decreases |queries| - k
        {
          if k == |queries| {
            return false;
          } else if queries[k] == value {
            return true;
          } else if queries[k] > value {
            break;
          }
          k := k + 1;
        }
      }
      NothingFound(queries, values, k);
      return false;
    }

    /** Whether the hash of the element is that of an element of the filter. */
    method Match(e: Element) returns (found: bool)
      requires Valid()
      ensures found <==> HashToRange(q, f, e) in Values()
    {
      hide DecodeAll;
      var query := MapIntoRange(q.hash(e) % (BASE * BASE), f);
      found := MatchInternal([query]);
      assert found <==> [query][0] in Values();
    }

    /** Whether one of the elements has the hash of an element of the filter. */
    method MatchAny(elements: set<Element>) returns (found: bool)
      requires Valid()
      ensures found <==> exists e :: e in elements && HashToRange(q, f, e) in Values()
    {
      hide DecodeAll, HashToRange;
      var queries := BuildHashedSet(q, f, elements);
      found := MatchInternal(queries);
      AskedFor(q, f, elements, queries, Values());
    }
  }

  lemma AskedFor(q: Params, f: nat, elements: set<Element>, queries: seq<nat>, values: seq<nat>)
    requires forall v :: v in queries <==> IsHash(q, f, elements, v)
    ensures (exists k :: 0 <= k < |queries| && queries[k] in values) <==>
              (exists e :: e in elements && HashToRange(q, f, e) in values)
  {
    hide HashToRange;
    if k :| 0 <= k < |queries| && queries[k] in values {
      var v := queries[k];
      assert v in queries;
      assert IsHash(q, f, elements, v);
    }
    if e :| e in elements && HashToRange(q, f, e) in values {
      var v := HashToRange(q, f, e);
      assert IsHash(q, f, elements, v);
      assert v in queries;
    }
  }

  /** Builds a filter of a set; a set of 2 to the power of 32 elements or more is refused. */
  method Build(q: Params, elements: set<Element>) returns (r: Option<Filter>)
    requires q.p < WORD && q.m < BASE
    ensures r == None <==> |elements| >= BASE
    ensures r.Some? ==> r.value.Valid() && r.value.q == q && r.value.n == |elements|
    ensures r.Some? ==> forall v :: v in r.value.Values() <==> IsHash(q, r.value.f, elements, v)
  {
    hide Encode, Decode, EncodeAll, DecodeAll, HashToRange;
    var n := |elements|;
    if n >= BASE {
      return None;
    }
    var f := Mul(n, q.m);
    PieceFits(n, q.m);
    MulIs(n, q.m);
    var hashes := BuildHashedSet(q, f, elements);
    var bits := [];
    EncodeNothing(q.p, hashes);
    var last: nat := 0;
    for i := 0 to |hashes|
      invariant last == (if i == 0 then 0 else hashes[i - 1])
      invariant EncodedUpTo(q.p, hashes, i, last, bits)
    {
      var code := GolombRiceEncode(q.p, hashes[i] - last);
      EncodeNext(q.p, hashes, i, last, bits);
      bits := bits + code;
      last := hashes[i];
    }
    EncodeEnd(q.p, hashes, last, bits);
    if n > 0 {
      bits := bits + Padding(|bits|);
    }
    var filter := new Filter.Of(q, n, f, bits);
    r := Some(filter);
  }

  /** The bits are the code of the first `i` values. */
  ghost predicate EncodedUpTo(p: nat, values: seq<nat>, i: nat, last: nat, bits: seq<bool>) {
    && Sorted(values) && i <= |values| && (i < |values| ==> last <= values[i])
    && EncodeAll(p, values, 0) == bits + EncodeAll(p, values[i..], last)
  }

  lemma EncodeNothing(p: nat, values: seq<nat>)
    requires Sorted(values)
    ensures EncodedUpTo(p, values, 0, 0, [])
  {
    hide EncodeAll;
    assert values[0..] == values;
  }

  lemma EncodeNext(p: nat, values: seq<nat>, i: nat, last: nat, bits: seq<bool>)
    requires EncodedUpTo(p, values, i, last, bits) && i < |values|
    ensures last <= values[i] && EncodedUpTo(p, values, i + 1, values[i], bits + Encode(p, values[i] - last))
  {
    hide Encode;
    assert values[i..][0] == values[i] && values[i..][1..] == values[i + 1..];
    var rest := EncodeAll(p, values[i + 1..], values[i]);
    assert EncodeAll(p, values[i..], last) == Encode(p, values[i] - last) + rest;
    assert bits + (Encode(p, values[i] - last) + rest) == bits + Encode(p, values[i] - last) + rest;
  }

  /** What was encoded is read back, with or without padding. */
  lemma EncodeEnd(p: nat, values: seq<nat>, last: nat, bits: seq<bool>)
    requires EncodedUpTo(p, values, |values|, last, bits)
    ensures var all := if |values| > 0 then bits + Padding(|bits|) else bits;
            && DecodeAll(p, all, 0, |values|, 0) == Some(Listing(values, |bits|))
            && |all| == (|bits| + 7) / 8 * 8
  {
    hide Encode, Decode;
    assert values[|values|..] == [];
    assert EncodeAll(p, [], last) == [];
    assert EncodeAll(p, values, 0) == bits;
    var all := if |values| > 0 then bits + Padding(|bits|) else bits;
    assert all[0..0 + |bits|] == bits;
    DecodeAllInverts(p, all, 0, values, 0);
  }

  /** Reads a filter from its encoding; it is refused unless it holds exactly `n` values and no further byte. */
  method Load(q: Params, n: nat, bits: seq<bool>) returns (r: Option<Filter>)
    requires q.p < WORD && q.m < BASE && |bits| % 8 == 0
    ensures r.Some? <==>
              n < BASE && DecodeAll(q.p, bits, 0, n, 0).Some?
              && (DecodeAll(q.p, bits, 0, n, 0).value.next + 7) / 8 * 8 == |bits|
    ensures r.Some? ==> r.value.Valid() && r.value.q == q && r.value.n == n && r.value.bits == bits
  {
    hide Decode, DecodeAll;
    if n >= BASE {
      return None;
    }
    var f := Mul(n, q.m);
    PieceFits(n, q.m);
    MulIs(n, q.m);
    var at := 0;
    ghost var last: nat := 0;
    for i := 0 to n
      invariant SameEnd(DecodeAll(q.p, bits, 0, n, 0), DecodeAll(q.p, bits, at, n - i, last))
    {
      var read := GolombRiceDecode(q.p, bits, at);
      LoadNext(q.p, bits, at, n - i, last);
      if read.None? {
        return None;
      }
      at := read.value.next;
      last := last + read.value.number;
    }
    LoadEnd(q.p, bits, at, last);
    if (at + 7) / 8 * 8 != |bits| {
      return None;
    }
    var filter := new Filter.Of(q, n, f, bits);
    r := Some(filter);
  }

  ghost predicate SameEnd(a: Option<Listing>, b: Option<Listing>) {
    (a.Some? <==> b.Some?) && (a.Some? ==> a.value.next == b.value.next)
  }

  lemma LoadNext(p: nat, bits: seq<bool>, at: nat, n: nat, last: nat)
    requires n > 0
    ensures match Decode(p, bits, at)
            case None => DecodeAll(p, bits, at, n, last) == None
            case Some(r) => SameEnd(DecodeAll(p, bits, at, n, last), DecodeAll(p, bits, r.next, n - 1, last + r.number))
  {
    hide Decode;
  }

  lemma LoadEnd(p: nat, bits: seq<bool>, at: nat, last: nat)
    ensures DecodeAll(p, bits, at, 0, last) == Some(Listing([], at))
  {
  }

  /** A filter that was built is accepted when it is loaded again, and answers in the same way. */
  method BuildAndLoad(q: Params, elements: set<Element>) returns (r: Option<Filter>)
    requires q.p < WORD && q.m < BASE && |elements| < BASE
    ensures r.Some? && r.value.Valid() && r.value.q == q
    ensures forall v :: v in r.value.Values() <==> IsHash(q, r.value.f, elements, v)
  {
    hide Decode, DecodeAll, HashToRange;
    var built := Build(q, elements);
    r := Load(q, built.value.n, built.value.bits);
  }

  /** The first `i` values have been read up to position `at`; the last one was `value`. */
  ghost predicate Reading(p: nat, bits: seq<bool>, n: nat, values: seq<nat>, i: nat, at: nat, value: nat) {
    && i <= n == |values| && DecodeAll(p, bits, at, n - i, value).Some?
    && DecodeAll(p, bits, at, n - i, value).value.values == values[i..]
  }

  lemma ReadNext(p: nat, bits: seq<bool>, n: nat, values: seq<nat>, i: nat, at: nat, value: nat)
    requires Reading(p, bits, n, values, i, at, value) && i < n
    ensures Decode(p, bits, at).Some?
    ensures var r := Decode(p, bits, at).value;
            value + r.number == values[i] && Reading(p, bits, n, values, i + 1, r.next, value + r.number)
  {
    hide Decode;
    var r := Decode(p, bits, at).value;
    var rest := DecodeAll(p, bits, r.next, n - i - 1, value + r.number).value;
    assert values[i..] == [value + r.number] + rest.values;
    assert values[i + 1..] == values[i..][1..];
  }

  /**
  The first `k` queries are below what is to come and met none of the values; none of the first `i` values was asked
  for.
   */
  ghost predicate Passed(queries: seq<nat>, values: seq<nat>, i: nat, k: nat)
    requires k <= |queries| && i <= |values|
  {
    && (forall j :: 0 <= j < k ==> queries[j] !in values)
    && (forall a, j :: 0 <= a < i && k <= j < |queries| ==> values[a] < queries[j])
  }

  lemma NothingFound(queries: seq<nat>, values: seq<nat>, k: nat)
    requires k <= |queries| && Passed(queries, values, |values|, k)
    ensures !exists j :: 0 <= j < |queries| && queries[j] in values
  {
  }
}
