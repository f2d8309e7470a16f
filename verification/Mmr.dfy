/**
 The peak-bagging Merkle Mountain Range. The incremental form (AddLeaf, driven by the bits
 of the leaf count) and the direct form (MountainSummits, driven by leaf offsets) are both
 proved against one definition that mentions no offsets: Peaks keeps the unpaired last node of
 each level of the tree, from the leaves up.
 */
module Mmr {
  import opened Arith
  import opened ByteStrings

  // ----- hashing -----

  function NodeInput(left: Bytes, right: Bytes): Bytes {
    left + right
  }

  function Node(sha: Hash, left: Bytes, right: Bytes): Digest {
    Sha(sha, MmrNode, NodeInput(left, right))
  }

  function EmptyMmrRoot(): Digest {
    Zeros(32)
  }

  function Bag(sha: Hash, peaks: seq<Bytes>): Digest {
    if |peaks| == 0 then EmptyMmrRoot() else Sha(sha, MmrPeakBag, Join(peaks))
  }

  // ----- the reference definition -----

  /** The q-th node of the level b steps above the leaves. */
  function Tree(sha: Hash, leaves: seq<Bytes>, q: nat, b: nat): Bytes
    requires q < Shr(|leaves|, b)
    decreases b
  {
    if b == 0 then leaves[q]
    else Node(sha, Tree(sha, leaves, 2 * q, b - 1), Tree(sha, leaves, 2 * q + 1, b - 1))
  }

  /** The summits of all mountains of height b or more, lowest first: the level has m nodes,
      and when m is odd its last node has no partner. */
  function PeaksFrom(sha: Hash, leaves: seq<Bytes>, b: nat): seq<Bytes>
    decreases Shr(|leaves|, b)
  {
    var m := Shr(|leaves|, b);
    if m == 0 then []
    else if m % 2 == 1 then [Tree(sha, leaves, m - 1, b)] + PeaksFrom(sha, leaves, b + 1)
    else PeaksFrom(sha, leaves, b + 1)
  }

  function Peaks(sha: Hash, leaves: seq<Bytes>): seq<Bytes> {
    PeaksFrom(sha, leaves, 0)
  }

  function Root(sha: Hash, leaves: seq<Bytes>): Digest {
    Bag(sha, Peaks(sha, leaves))
  }

  lemma EmptyHasNoPeaks(sha: Hash)
    ensures Peaks(sha, []) == []
  {
    assert Shr(0, 0) == 0;
  }

  function PopCount(n: nat): nat {
    if n == 0 then 0 else n % 2 + PopCount(n / 2)
  }

  /** One peak per set bit of the leaf count. */
  lemma {:induction false} OnePeakPerSetBit(sha: Hash, leaves: seq<Bytes>, b: nat)
    ensures |PeaksFrom(sha, leaves, b)| == PopCount(Shr(|leaves|, b))
    decreases Shr(|leaves|, b)
  {
    if Shr(|leaves|, b) > 0 {
      OnePeakPerSetBit(sha, leaves, b + 1);
    }
  }

  lemma TreeIsDigest(sha: Hash, leaves: seq<Bytes>, q: nat, b: nat)
    requires AllDigests(leaves) && q < Shr(|leaves|, b)
    ensures |Tree(sha, leaves, q, b)| == 32
  {
  }

  lemma {:induction false} PeaksAreDigests(sha: Hash, leaves: seq<Bytes>, b: nat)
    requires AllDigests(leaves)
    ensures AllDigests(PeaksFrom(sha, leaves, b))
    decreases Shr(|leaves|, b)
  {
    var m := Shr(|leaves|, b);
    if m > 0 {
      PeaksAreDigests(sha, leaves, b + 1);
      if m % 2 == 1 {
        TreeIsDigest(sha, leaves, m - 1, b);
      }
    }
  }

  // ----- the incremental form -----

  /** Binary increment with hashing: merge while the count is odd, then keep the rest. */
  function Carry(sha: Hash, peaks: seq<Bytes>, node: Bytes, count: nat): seq<Bytes>
    decreases |peaks|
  {
    if |peaks| > 0 && count % 2 == 1
    then Carry(sha, peaks[1..], Node(sha, peaks[0], node), count / 2)
    else [node] + peaks
  }

  method AddLeaf(sha: Hash, peaks: seq<Bytes>, leafHash: Bytes, leafCount: UInt64)
    returns (res: seq<Bytes>)
    ensures res == Carry(sha, peaks, leafHash, leafCount)
  {
    var node := leafHash;
    var i := 0;
    while i < |peaks| && Bit(leafCount, i)
      invariant i <= |peaks|
      invariant Carry(sha, peaks[i..], node, Shr(leafCount, i)) == Carry(sha, peaks, leafHash, leafCount)
    {
      assert peaks[i..][1..] == peaks[i + 1..];
      node := Node(sha, peaks[i], node);
      i := i + 1;
    }
    res := [node] + peaks[i..];
  }

  /** Nodes over the old leaves do not change when leaves are appended. */
  lemma {:induction false} TreePrefix(sha: Hash, leaves: seq<Bytes>, more: seq<Bytes>, q: nat, b: nat)
    requires q < Shr(|leaves|, b)
    ensures q < Shr(|leaves + more|, b)
    ensures Tree(sha, leaves + more, q, b) == Tree(sha, leaves, q, b)
    decreases b
  {
    ShrMonotone(|leaves|, |leaves + more|, b);
    if b > 0 {
      TreePrefix(sha, leaves, more, 2 * q, b - 1);
      TreePrefix(sha, leaves, more, 2 * q + 1, b - 1);
    }
  }

  lemma {:induction false} PeaksPrefix(sha: Hash, leaves: seq<Bytes>, more: seq<Bytes>, b: nat)
    requires Shr(|leaves + more|, b) == Shr(|leaves|, b)
    ensures PeaksFrom(sha, leaves + more, b) == PeaksFrom(sha, leaves, b)
    decreases Shr(|leaves|, b)
  {
    var m := Shr(|leaves|, b);
    if m > 0 {
      PeaksPrefix(sha, leaves, more, b + 1);
      TreePrefix(sha, leaves, more, m - 1, b);
    }
  }

  /** With an even number of nodes at the level, the new node is a peak of its own. */
  lemma CarryStops(sha: Hash, leaves: seq<Bytes>, leaf: Bytes, b: nat)
    requires Shr(|leaves| + 1, b) == Shr(|leaves|, b) + 1 && Shr(|leaves|, b) % 2 == 0
    ensures PeaksFrom(sha, leaves + [leaf], b)
      == [Tree(sha, leaves + [leaf], Shr(|leaves|, b), b)] + PeaksFrom(sha, leaves, b)
  {
    PeaksPrefix(sha, leaves, [leaf], b + 1);
  }

  /** With an odd number, it merges with the last one into the new node of the level above. */
  lemma CarryMerges(sha: Hash, leaves: seq<Bytes>, leaf: Bytes, b: nat)
    requires Shr(|leaves| + 1, b) == Shr(|leaves|, b) + 1 && Shr(|leaves|, b) % 2 == 1
    ensures var m := Shr(|leaves|, b);
      && Shr(|leaves|, b + 1) == m / 2 && Shr(|leaves| + 1, b + 1) == m / 2 + 1
      && PeaksFrom(sha, leaves, b) == [Tree(sha, leaves, m - 1, b)] + PeaksFrom(sha, leaves, b + 1)
      && PeaksFrom(sha, leaves + [leaf], b) == PeaksFrom(sha, leaves + [leaf], b + 1)
      && Node(sha, Tree(sha, leaves, m - 1, b), Tree(sha, leaves + [leaf], m, b)) == Tree(sha, leaves + [leaf], m / 2, b + 1)
  {
    TreePrefix(sha, leaves, [leaf], Shr(|leaves|, b) - 1, b);
  }

  /** From the level where the carry has arrived, adding a leaf gives the peaks of the longer list. */
  lemma {:induction false} CarryFrom(sha: Hash, leaves: seq<Bytes>, leaf: Bytes, b: nat)
    requires Shr(|leaves| + 1, b) == Shr(|leaves|, b) + 1
    ensures var m := Shr(|leaves|, b);
      Carry(sha, PeaksFrom(sha, leaves, b), Tree(sha, leaves + [leaf], m, b), m)
      == PeaksFrom(sha, leaves + [leaf], b)
    decreases Shr(|leaves|, b)
  {
    hide PeaksFrom, Tree, Node;
    var m := Shr(|leaves|, b);
    if m % 2 == 0 {
      CarryStops(sha, leaves, leaf, b);
    } else {
      CarryMerges(sha, leaves, leaf, b);
      CarryFrom(sha, leaves, leaf, b + 1);
      assert PeaksFrom(sha, leaves, b)[1..] == PeaksFrom(sha, leaves, b + 1);
    }
  }

  /** Adding a leaf to the peaks of a list gives the peaks of the longer list. */
  lemma CarryAppends(sha: Hash, leaves: seq<Bytes>, leaf: Bytes)
    ensures Carry(sha, Peaks(sha, leaves), leaf, |leaves|) == Peaks(sha, leaves + [leaf])
  {
    CarryFrom(sha, leaves, leaf, 0);
  }

  method MmrRootFromPeaks(sha: Hash, peaks: seq<Bytes>) returns (root: Bytes)
    ensures root == Bag(sha, peaks)
  {
    if |peaks| == 0 {
      return EmptyMmrRoot();
    }
    var written: Bytes := [];
    for i := 0 to |peaks|
      invariant written + Join(peaks[i..]) == Join(peaks)
    {
      assert peaks[i..][1..] == peaks[i + 1..];
      written := written + peaks[i];
    }
    assert written == Join(peaks);
    root := Sha(sha, MmrPeakBag, written);
  }

  /** Folding AddLeaf over any leaf list gives the reference root. */
  method MmrRootFromLeaves(sha: Hash, leaves: seq<Bytes>) returns (root: Bytes)
    requires |leaves| < TWO_63
    ensures root == Root(sha, leaves)
  {
    var peaks: seq<Bytes> := [];
    for i := 0 to |leaves|
      invariant peaks == Peaks(sha, leaves[..i])
    {
      CarryAppends(sha, leaves[..i], leaves[i]);
      assert leaves[..i] + [leaves[i]] == leaves[..i + 1];
      peaks := AddLeaf(sha, peaks, leaves[i], i);
    }
    assert leaves[..|leaves|] == leaves;
    root := MmrRootFromPeaks(sha, peaks);
  }

  // ----- the direct form -----

  /** The first leaf of the mountain of bit b: n with its low b + 1 bits cleared. */
  function StartOf(n: nat, b: nat): (s: nat)
    ensures s == Shl(Shr(n, b + 1), b + 1)
  {
    SplitBits(n, b + 1);
    n - Low(n, b + 1)
  }

  method MountainStart(n: nat, b: nat) returns (s: nat)
    requires n < TWO_63 && b < 64
    ensures s == StartOf(n, b)
  {
    s := 0;
    var c := b + 1;
    while c < 64
      invariant s + Low(n, b + 1) == Low(n, c)
    {
      if Bit(n, c) {
        s := s + Pow2(c);
      }
      c := c + 1;
    }
    NoHighBits(n, c);
  }

  function MerkleRoot(sha: Hash, leaves: seq<Bytes>, lo: nat, size: nat): Bytes
    requires size > 0 && lo + size <= |leaves|
    decreases size
  {
    if size == 1 then leaves[lo]
    else
      var half := size / 2;
      Node(sha, MerkleRoot(sha, leaves, lo, half), MerkleRoot(sha, leaves, lo + half, half))
  }

  /** The subtree over the q-th aligned block of 2^b leaves is the q-th node of level b. */
  lemma {:induction false} MerkleRootIsTree(sha: Hash, leaves: seq<Bytes>, q: nat, b: nat)
    requires q < Shr(|leaves|, b)
    ensures Shl(q, b) + Pow2(b) <= |leaves|
    ensures MerkleRoot(sha, leaves, Shl(q, b), Pow2(b)) == Tree(sha, leaves, q, b)
    decreases b
  {
    BlockFits(|leaves|, q, b);
    if b > 0 {
      MerkleRootIsTree(sha, leaves, 2 * q, b - 1);
      MerkleRootIsTree(sha, leaves, 2 * q + 1, b - 1);
      HalfBlocks(q, b);
    }
  }

  /** Where bit b is set, its mountain is the unpaired last node of level b. */
  lemma SummitIsTree(sha: Hash, leaves: seq<Bytes>, b: nat)
    requires Bit(|leaves|, b)
    ensures StartOf(|leaves|, b) + Pow2(b) <= |leaves|
    ensures MerkleRoot(sha, leaves, StartOf(|leaves|, b), Pow2(b)) == Tree(sha, leaves, Shr(|leaves|, b) - 1, b)
  {
    var q := Shr(|leaves|, b) - 1;
    assert StartOf(|leaves|, b) == Shl(q, b) by { LastBlock(|leaves|, b); }
    MerkleRootIsTree(sha, leaves, q, b);
  }

  lemma LastBlock(n: nat, b: nat)
    requires Bit(n, b)
    ensures StartOf(n, b) == Shl(Shr(n, b) - 1, b)
    ensures StartOf(n, b) + Pow2(b) == n - Low(n, b)
  {
    SplitBits(n, b);
    ShlAdd(Shr(n, b) - 1, 1, b);
  }

  method MountainSummits(sha: Hash, leaves: seq<Bytes>, n: nat) returns (peaks: seq<Bytes>)
    requires n == |leaves| && n < TWO_63
    ensures peaks == Peaks(sha, leaves)
  {
    peaks := [];
    var b := 0;
    while b < 64
      invariant peaks + PeaksFrom(sha, leaves, b) == Peaks(sha, leaves)
    {
      if Bit(n, b) {
        var start := MountainStart(n, b);
        SummitIsTree(sha, leaves, b);
        peaks := peaks + [MerkleRoot(sha, leaves, start, Pow2(b))];
      }
      b := b + 1;
    }
    NoHighBits(n, b);
  }

  // ----- the accumulator, hashed pairwise -----

  /** Neighbours hashed pairwise, the left one first; an unpaired last one is left out. */
  function Pairs(sha: Hash, xs: seq<Bytes>): seq<Bytes> {
    seq(|xs| / 2, i requires 0 <= i < |xs| / 2 => Sha(sha, MmrNode, xs[2 * i] + xs[2 * i + 1]))
  }

  function Level(sha: Hash, leaves: seq<Bytes>, b: nat): seq<Bytes> {
    if b == 0 then leaves else Pairs(sha, Level(sha, leaves, b - 1))
  }

  /** Each level of the tree is the level below, hashed pairwise. */
  lemma {:induction false} LevelIsTree(sha: Hash, leaves: seq<Bytes>, b: nat)
    ensures |Level(sha, leaves, b)| == Shr(|leaves|, b)
    ensures forall q :: 0 <= q < Shr(|leaves|, b) ==> Level(sha, leaves, b)[q] == Tree(sha, leaves, q, b)
  {
    if b > 0 {
      hide Sha;
      LevelIsTree(sha, leaves, b - 1);
    }
  }

  lemma JoinTwo(a: Bytes, b: Bytes)
    ensures Join([a, b]) == a + b
  {
    assert [a, b][1..] == [b] && [b][1..] == [];
    assert Join([b]) == b + Join([]);
  }

  /** The root of three leaves, spelled out: the lower peak comes first. */
  lemma RootOfThree(sha: Hash, x: Bytes, y: Bytes, z: Bytes)
    ensures Root(sha, [x, y, z]) == Sha(sha, MmrPeakBag, z + Sha(sha, MmrNode, x + y))
    ensures Root(sha, []) == Zeros(32)
  {
    hide Sha;
    var l := [x, y, z];
    assert Shr(3, 0) == 3 && Shr(3, 1) == 1 && Shr(3, 2) == 0;
    assert Tree(sha, l, 2, 0) == z && Tree(sha, l, 0, 1) == Node(sha, x, y);
    assert PeaksFrom(sha, l, 2) == [];
    assert PeaksFrom(sha, l, 1) == [Node(sha, x, y)];
    assert Peaks(sha, l) == [z] + [Node(sha, x, y)];
    var top: Bytes := Node(sha, x, y);
    JoinTwo(z, top);
    assert Peaks(sha, l) == [z, top];
    EmptyHasNoPeaks(sha);
  }
}
