/**
 The root commits to the whole list of transactions, its length included: leaves and inner nodes are
 hashed under different separators, so trees of different heights do not share a root.
 */
module Commitment {
  import opened Arith
  import opened ByteStrings
  import opened Mmr
  import opened InclusionProofs

  /** Two inputs of the hash function, possibly under two separators. */
  datatype HashPair = HashPair(x: HashInput, y: HashInput)

  function HashOf(sha: Hash, i: HashInput): Digest {
    Sha(sha, i.domain, i.data)
  }

  predicate Collides(sha: Hash, c: HashPair) {
    c.x != c.y && HashOf(sha, c.x) == HashOf(sha, c.y)
  }

  /** The leaves of a list of transaction hashes. */
  function TaggedLeaves(sha: Hash, data: seq<Bytes>): (leaves: seq<Bytes>)
    ensures |leaves| == |data| && AllDigests(leaves)
    ensures forall i :: 0 <= i < |data| ==> leaves[i] == Sha(sha, MmrLeaf, data[i])
  {
    seq(|data|, i requires 0 <= i < |data| => Sha(sha, MmrLeaf, data[i]))
  }

  /** What a node of the tree is the hash of. */
  function Preimage(sha: Hash, data: seq<Bytes>, q: nat, b: nat): HashInput
    requires q < Shr(|data|, b)
  {
    if b == 0 then HashInput(MmrLeaf, data[q])
    else
      var leaves := TaggedLeaves(sha, data);
      HashInput(MmrNode, NodeInput(Tree(sha, leaves, 2 * q, b - 1), Tree(sha, leaves, 2 * q + 1, b - 1)))
  }

  lemma NodeIsHash(sha: Hash, data: seq<Bytes>, q: nat, b: nat)
    requires q < Shr(|data|, b)
    ensures Tree(sha, TaggedLeaves(sha, data), q, b) == HashOf(sha, Preimage(sha, data, q, b))
  {
  }

  // ----- nodes of different heights -----

  /** Down the left edges of two trees, the first two inputs that differ. */
  function NodeCollision(sha: Hash, xs: seq<Bytes>, p: nat, a: nat, ys: seq<Bytes>, q: nat, b: nat): HashPair
    requires p < Shr(|xs|, a) && q < Shr(|ys|, b)
    decreases a
  {
    var pair := HashPair(Preimage(sha, xs, p, a), Preimage(sha, ys, q, b));
    if pair.x != pair.y || a == 0 || b == 0 then pair
    else NodeCollision(sha, xs, 2 * p, a - 1, ys, 2 * q, b - 1)
  }

  /** Equal parents have equal left children. */
  lemma LeftChildren(sha: Hash, xs: seq<Bytes>, p: nat, a: nat, ys: seq<Bytes>, q: nat, b: nat)
    requires a > 0 && b > 0 && p < Shr(|xs|, a) && q < Shr(|ys|, b)
    requires Preimage(sha, xs, p, a) == Preimage(sha, ys, q, b)
    ensures Tree(sha, TaggedLeaves(sha, xs), 2 * p, a - 1) == Tree(sha, TaggedLeaves(sha, ys), 2 * q, b - 1)
  {
    var x, y := TaggedLeaves(sha, xs), TaggedLeaves(sha, ys);
    TreeIsDigest(sha, x, 2 * p, a - 1);
    TreeIsDigest(sha, y, 2 * q, b - 1);
    var u, v := Preimage(sha, xs, p, a).data, Preimage(sha, ys, q, b).data;
    assert u[..32] == Tree(sha, x, 2 * p, a - 1) && v[..32] == Tree(sha, y, 2 * q, b - 1);
  }

  /** Two equal nodes are at one height, or NodeCollision is a collision. */
  lemma {:induction false} SameNodeSameHeight(sha: Hash, xs: seq<Bytes>, p: nat, a: nat, ys: seq<Bytes>, q: nat, b: nat)
    requires p < Shr(|xs|, a) && q < Shr(|ys|, b) && a != b
    requires Tree(sha, TaggedLeaves(sha, xs), p, a) == Tree(sha, TaggedLeaves(sha, ys), q, b)
    ensures Collides(sha, NodeCollision(sha, xs, p, a, ys, q, b))
    decreases a
  {
    hide Tree, NodeInput;
    NodeIsHash(sha, xs, p, a);
    NodeIsHash(sha, ys, q, b);
    if Preimage(sha, xs, p, a) == Preimage(sha, ys, q, b) {
      LeftChildren(sha, xs, p, a, ys, q, b);
      SameNodeSameHeight(sha, xs, 2 * p, a - 1, ys, 2 * q, b - 1);
    }
  }

  // ----- lists of different lengths -----

  /** The level of the lowest peak from level k up. */
  function LowestPeak(n: nat, k: nat): (b: nat)
    requires Shr(n, k) > 0
    ensures k <= b && Shr(n, b) % 2 == 1
    decreases Shr(n, k)
  {
    if Shr(n, k) % 2 == 1 then k else LowestPeak(n, k + 1)
  }

  lemma {:induction false} LowestPeakIsFirst(sha: Hash, leaves: seq<Bytes>, k: nat)
    requires Shr(|leaves|, k) > 0
    ensures var b := LowestPeak(|leaves|, k);
      |PeaksFrom(sha, leaves, k)| > 0 && PeaksFrom(sha, leaves, k)[0] == Tree(sha, leaves, Shr(|leaves|, b) - 1, b)
    decreases Shr(|leaves|, k)
  {
    hide Tree;
    if Shr(|leaves|, k) % 2 == 0 {
      LowestPeakIsFirst(sha, leaves, k + 1);
    }
  }

  /** At the lowest level where the two counts differ in parity, the lowest peaks from there differ in height. */
  function LengthCollision(sha: Hash, xs: seq<Bytes>, ys: seq<Bytes>, k: nat): HashPair
    decreases Shr(|xs|, k)
  {
    var m, n := Shr(|xs|, k), Shr(|ys|, k);
    if m == 0 || n == 0 then HashPair(HashInput(MmrLeaf, []), HashInput(MmrLeaf, []))
    else if m % 2 == n % 2 then LengthCollision(sha, xs, ys, k + 1)
    else
      var a, b := LowestPeak(|xs|, k), LowestPeak(|ys|, k);
      NodeCollision(sha, xs, Shr(|xs|, a) - 1, a, ys, Shr(|ys|, b) - 1, b)
  }

  lemma {:induction false} SamePeaksSameLength(sha: Hash, xs: seq<Bytes>, ys: seq<Bytes>, k: nat)
    requires PeaksFrom(sha, TaggedLeaves(sha, xs), k) == PeaksFrom(sha, TaggedLeaves(sha, ys), k)
    requires Shr(|xs|, k) != Shr(|ys|, k)
    ensures Collides(sha, LengthCollision(sha, xs, ys, k))
    decreases Shr(|xs|, k)
  {
    hide Tree, Collides, NodeCollision, Sha;
    var x, y, m, n := TaggedLeaves(sha, xs), TaggedLeaves(sha, ys), Shr(|xs|, k), Shr(|ys|, k);
    if m > 0 {
      LowestPeakIsFirst(sha, x, k);
    }
    if n > 0 {
      LowestPeakIsFirst(sha, y, k);
    }
    if m % 2 == n % 2 {
      PeaksAbove(sha, x, k);
      PeaksAbove(sha, y, k);
      SamePeaksSameLength(sha, xs, ys, k + 1);
    } else {
      var a, b := LowestPeak(|xs|, k), LowestPeak(|ys|, k);
      SameNodeSameHeight(sha, xs, Shr(|xs|, a) - 1, a, ys, Shr(|ys|, b) - 1, b);
    }
  }

  lemma PeaksAbove(sha: Hash, leaves: seq<Bytes>, k: nat)
    requires Shr(|leaves|, k) > 0
    ensures var peaks := PeaksFrom(sha, leaves, k);
      PeaksFrom(sha, leaves, k + 1) ==
        if Shr(|leaves|, k) % 2 == 1 && |peaks| > 0 then peaks[1..] else peaks
  {
    hide Tree;
  }

  // ----- one root, one list -----

  function AsHashPair(c: InputPair): HashPair {
    HashPair(HashInput(c.domain, c.x), HashInput(c.domain, c.y))
  }

  /** Two inputs with one hash, from two lists with one root: the bagged peaks, two nodes of different
      heights, a step of a proof, or two leaves. */
  function ListCollision(sha: Hash, xs: seq<Bytes>, ys: seq<Bytes>): HashPair
    requires |xs| < TWO_63 && |ys| < TWO_63 && xs != ys
  {
    var x, y := TaggedLeaves(sha, xs), TaggedLeaves(sha, ys);
    var u, v := Join(Peaks(sha, x)), Join(Peaks(sha, y));
    if u != v then HashPair(HashInput(MmrPeakBag, u), HashInput(MmrPeakBag, v))
    else if |xs| != |ys| then LengthCollision(sha, xs, ys, 0)
    else if x != y then AsHashPair(RootCollision(sha, x, y))
    else
      var i := FirstDifference(xs, ys);
      HashPair(HashInput(MmrLeaf, xs[i]), HashInput(MmrLeaf, ys[i]))
  }

  lemma NonEmptyHasPeaks(sha: Hash, leaves: seq<Bytes>)
    requires |leaves| > 0
    ensures |Peaks(sha, leaves)| > 0
  {
    LowestPeakIsFirst(sha, leaves, 0);
  }

  /** Two non-empty lists of transaction hashes with one root are equal, or ListCollision is a collision. */
  lemma OneRootOneList(sha: Hash, xs: seq<Bytes>, ys: seq<Bytes>)
    requires 0 < |xs| < TWO_63 && 0 < |ys| < TWO_63
    requires Root(sha, TaggedLeaves(sha, xs)) == Root(sha, TaggedLeaves(sha, ys))
    ensures xs == ys || Collides(sha, ListCollision(sha, xs, ys))
  {
    hide PeaksFrom, LengthCollision, RootCollision;
    var x, y := TaggedLeaves(sha, xs), TaggedLeaves(sha, ys);
    NonEmptyHasPeaks(sha, x);
    NonEmptyHasPeaks(sha, y);
    if xs != ys && Join(Peaks(sha, x)) == Join(Peaks(sha, y)) {
      PeaksAreDigests(sha, x, 0);
      PeaksAreDigests(sha, y, 0);
      JoinInjective(Peaks(sha, x), Peaks(sha, y));
      if |xs| != |ys| {
        SamePeaksSameLength(sha, xs, ys, 0);
      } else if x != y {
        RootCommitsToLeaves(sha, x, y);
      } else {
        var i := FirstDifference(xs, ys);
        assert x[i] == y[i];
      }
    }
  }
}
