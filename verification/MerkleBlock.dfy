/** The partial Merkle tree object and its byte form. */
module MerkleBlock {
  import opened Radix
  import opened Merkle
  import opened PartialMerkle
  import opened ByteBits

  // ---------- bits and bytes ----------

  /** The flag bits packed per 8 in a byte, least significant bit first. */
  method PackBits(bits: seq<bool>) returns (bytes: seq<bv8>)
    ensures |bytes| == (|bits| + 7) / 8
    ensures forall p :: 0 <= p < 8 * |bytes| ==> BitAt(bytes, p) == Padded(bits)[p]
  {
    hide Mask, Bit;
    bytes := seq((|bits| + 7) / 8, _ => 0);
    forall p | 0 <= p < 8 * |bytes|
      ensures !BitAt(bytes, p)
    {
      NoBit(p % 8);
    }
    for p := 0 to |bits|
      invariant |bytes| == (|bits| + 7) / 8
      invariant forall q :: 0 <= q < 8 * |bytes| ==> BitAt(bytes, q) == (q < p && bits[q])
    {
      ghost var before := bytes;
      if bits[p] {
        bytes := bytes[p / 8 := bytes[p / 8] | Mask(p % 8)];
        forall q | 0 <= q < 8 * |bytes|
          ensures BitAt(bytes, q) == (q == p || BitAt(before, q))
        {
          SetBit(before[p / 8], p % 8, q % 8);
        }
      }
    }
  }

  method UnpackBits(bytes: seq<bv8>) returns (bits: seq<bool>)
    ensures |bits| == 8 * |bytes| && forall p :: 0 <= p < |bits| ==> bits[p] == BitAt(bytes, p)
  {
    bits := seq(8 * |bytes|, _ => false);
    for p := 0 to |bits|
      invariant |bits| == 8 * |bytes| && forall q :: 0 <= q < p ==> bits[q] == BitAt(bytes, q)
    {
      bits := bits[p := bytes[p / 8] & Mask(p % 8) != 0];
    }
  }

  // ---------- the object ----------

  lemma BuildLeaf(h: PairHash, ids: seq<Hash>, match_: seq<bool>, k: nat, pos: nat)
    requires |match_| == |ids| && pos < TreeWidth(|ids|, k)
    ensures k == 0 || MatchesBelow(match_, k, pos) == [] ==>
      Build(h, ids, match_, k, pos) == Partial([MatchesBelow(match_, k, pos) != []], [NodeHash(h, ids, k, pos)])
  {
  }

  /** What is stored for a node, appended to what was stored before, is what is stored for its children in turn. */
  lemma BuildNode(h: PairHash, ids: seq<Hash>, match_: seq<bool>, k: nat, pos: nat, bits: seq<bool>, hashes: seq<Hash>)
    requires |match_| == |ids| && pos < TreeWidth(|ids|, k) && k > 0 && MatchesBelow(match_, k, pos) != []
    ensures 2 * pos < TreeWidth(|ids|, k - 1)
    ensures var b := Build(h, ids, match_, k, pos);
            var left := Build(h, ids, match_, k - 1, 2 * pos);
            var right := if 2 * pos + 1 < TreeWidth(|ids|, k - 1) then Build(h, ids, match_, k - 1, 2 * pos + 1)
                else Partial([], []);
            bits + b.bits == bits + [true] + left.bits + right.bits
                && hashes + b.hashes == hashes + left.hashes + right.hashes
  {
    hide TreeWidth, MatchesBelow, NodeHash;
    Children(|ids|, k, pos);
    var left := Build(h, ids, match_, k - 1, 2 * pos);
    var right := if 2 * pos + 1 < TreeWidth(|ids|, k - 1) then Build(h, ids, match_, k - 1, 2 * pos + 1)
        else Partial([], []);
    Joined(bits, [true], left.bits, right.bits);
    Joined(hashes, [], left.hashes, right.hashes);
    assert [] + left.hashes == left.hashes && hashes + [] == hashes;
  }

  lemma Joined<T>(a: seq<T>, b: seq<T>, c: seq<T>, d: seq<T>)
    ensures a + (b + c + d) == a + b + c + d
  {
  }

  class PartialMerkleTree {
    const h: PairHash
    var transactions: nat
    var bits: seq<bool>
    var hashes: seq<Hash>
    var bad: bool

    constructor Empty(h: PairHash)
      ensures this.h == h && transactions == 0 && bad
    {
      this.h := h;
      transactions, bits, hashes, bad := 0, [], [], true;
    }

    /** Stores what is needed to prove the matched transactions. */
    constructor (h: PairHash, ids: seq<Hash>, match_: seq<bool>)
      requires |match_| == |ids| > 0
      ensures this.h == h && transactions == |ids| && !bad
      ensures Partial(bits, hashes) == BuildTree(h, ids, match_)
    {
      this.h := h;
      transactions, bits, hashes, bad := |ids|, [], [], false;
      new;
      var k := TreeHeight(transactions);
      RootExists(|ids|);
      TraverseAndBuild(k, 0, ids, match_);
    }

    /** The loop over the leaves below a node that looks for a match. */
    method ParentOfMatch(k: nat, pos: nat, match_: seq<bool>) returns (found: bool)
      requires |match_| == transactions && pos < TreeWidth(transactions, k)
      ensures found <==> MatchesBelow(match_, k, pos) != []
    {
      hide TreeWidth;
      LeafRange(transactions, k, pos);
      found := false;
      var p := pos * Pow2(k);
      while p < (pos + 1) * Pow2(k) && p < transactions
        invariant FirstLeaf(k, pos) <= p <= EndLeaf(transactions, k, pos)
        invariant found <==> Matches(match_, FirstLeaf(k, pos), p) != []
        decreases transactions - p
      {
        MatchesSplit(match_, FirstLeaf(k, pos), p, p + 1);
        found := found || match_[p];
        p := p + 1;
      }
    }

    method TraverseAndBuild(k: nat, pos: nat, ids: seq<Hash>, match_: seq<bool>)
      requires |match_| == |ids| == transactions && pos < TreeWidth(transactions, k)
      modifies this`bits, this`hashes
      ensures var b := Build(h, ids, match_, k, pos); bits == old(bits) + b.bits && hashes == old(hashes) + b.hashes
      decreases k
    {
      hide TreeWidth, MatchesBelow, NodeHash, Build;
      BuildLeaf(h, ids, match_, k, pos);
      var found := ParentOfMatch(k, pos, match_);
      bits := bits + [found];
      if k == 0 || !found {
        hashes := hashes + [NodeHash(h, ids, k, pos)];
      } else {
        Children(transactions, k, pos);
        TraverseAndBuild(k - 1, 2 * pos, ids, match_);
        if 2 * pos + 1 < TreeWidth(transactions, k - 1) {
          TraverseAndBuild(k - 1, 2 * pos + 1, ids, match_);
        }
        BuildNode(h, ids, match_, k, pos, old(bits), old(hashes));
      }
    }

    method TraverseAndExtract(k: nat, pos: nat, bitsUsed: nat, hashesUsed: nat, matches: seq<Hash>, indexes: seq<nat>)
      returns (hash: Hash, bitsUsed': nat, hashesUsed': nat, matches': seq<Hash>, indexes': seq<nat>)
      modifies this`bad
      ensures Visit(hash, Walk(bitsUsed', hashesUsed', matches', indexes', bad)) ==
              Extract(h, transactions, Partial(bits, hashes), k, pos,
                  Walk(bitsUsed, hashesUsed, matches, indexes, old(bad)))
      decreases k
    {
      hide TreeWidth;
      hash, bitsUsed', hashesUsed', matches', indexes' := NULL_HASH, bitsUsed, hashesUsed, matches, indexes;
      if bitsUsed >= |bits| {
        bad := true;
        return;
      }
      var parent := bits[bitsUsed];
      bitsUsed' := bitsUsed + 1;
      if k == 0 || !parent {
        if hashesUsed >= |hashes| {
          bad := true;
          return;
        }
        hash := hashes[hashesUsed];
        hashesUsed' := hashesUsed + 1;
        if k == 0 && parent {
          matches', indexes' := matches + [hash], indexes + [pos];
        }
      } else {
        var left, right;
        left, bitsUsed', hashesUsed', matches', indexes' :=
            TraverseAndExtract(k - 1, 2 * pos, bitsUsed', hashesUsed', matches', indexes');
        if 2 * pos + 1 < TreeWidth(transactions, k - 1) {
          right, bitsUsed', hashesUsed', matches', indexes' :=
              TraverseAndExtract(k - 1, 2 * pos + 1, bitsUsed', hashesUsed', matches', indexes');
          if right == left {
            bad := true;
          }
        } else {
          right := left;
        }
        hash := h(left, right);
      }
    }

    /** Reads the matches; a null root means that the data is not acceptable. */
    method ExtractMatches(indexes: seq<nat>) returns (root: Hash, matches: seq<Hash>, indexes': seq<nat>)
      modifies this`bad
      ensures Extraction(root, matches, indexes') ==
                PartialMerkle.ExtractMatches(h, transactions, Partial(bits, hashes), old(bad), indexes)
    {
      hide TreeWidth, Extract;
      root, matches, indexes' := NULL_HASH, [], indexes;
      if transactions == 0 {
        return;
      }
      if transactions > MAX_BLOCK_WEIGHT / MIN_TRANSACTION_WEIGHT {
        return;
      }
      if |hashes| > transactions {
        return;
      }
      if |bits| < |hashes| {
        return;
      }
      var k := TreeHeight(transactions);
      var hash, bitsUsed, hashesUsed;
      hash, bitsUsed, hashesUsed, matches, indexes' := TraverseAndExtract(k, 0, 0, 0, matches, indexes');
      if bad {
        return;
      }
      if (bitsUsed + 7) / 8 != (|bits| + 7) / 8 {
        return;
      }
      if hashesUsed != |hashes| {
        return;
      }
      root := hash;
    }

    method Serialize() returns (n: nat, stored: seq<Hash>, bytes: seq<bv8>)
      ensures n == transactions && stored == hashes && |bytes| == (|bits| + 7) / 8
      ensures forall p :: 0 <= p < 8 * |bytes| ==> BitAt(bytes, p) == Padded(bits)[p]
    {
      n, stored := transactions, hashes;
      bytes := PackBits(bits);
    }

    method Unserialize(n: nat, stored: seq<Hash>, bytes: seq<bv8>)
      modifies this
      ensures transactions == n && hashes == stored && !bad
      ensures |bits| == 8 * |bytes| && forall p :: 0 <= p < |bits| ==> bits[p] == BitAt(bytes, p)
    {
      transactions, hashes := n, stored;
      bits := UnpackBits(bytes);
      bad := false;
    }
  }

  /**
  From the transactions of a block and a selection of them through the byte form to the reader: the root is the one
  that the block commits to, and the matches are the selected transactions in order, with their positions.
   */
  method SendAndReceive(h: PairHash, ids: seq<Hash>, match_: seq<bool>)
    returns (root: Hash, matches: seq<Hash>, indexes: seq<nat>)
    requires CollisionFree(h) && Distinct(ids) && |match_| == |ids|
    requires 0 < |ids| <= MAX_BLOCK_WEIGHT / MIN_TRANSACTION_WEIGHT
    ensures root == Root(h, ids)
    ensures indexes == Matches(match_, 0, |ids|) && |matches| == |indexes|
    ensures forall i :: 0 <= i < |indexes| ==> indexes[i] < |ids| && matches[i] == ids[indexes[i]]
  {
    hide CollisionFree, Distinct, Matches, BuildTree, BitAt, PartialMerkle.ExtractMatches, Root;
    var sender := new PartialMerkleTree(h, ids, match_);
    var n, stored, bytes := sender.Serialize();
    var receiver := new PartialMerkleTree.Empty(h);
    receiver.Unserialize(n, stored, bytes);
    assert receiver.bits == Padded(sender.bits);
    RoundTrip(h, ids, match_);
    root, matches, indexes := receiver.ExtractMatches([]);
  }
}
