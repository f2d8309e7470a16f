/**
 Inclusion proofs of the Merkle Mountain Range: the prover, the verifier, and what acceptance
 means. Soundness is a reduction: a wrong leaf that verifies is turned, by the function
 FindCollision, into two different inputs that hash to the same digest.
 */
module InclusionProofs {
  import opened Arith
  import opened ByteStrings
  import opened Mmr

  datatype InclusionProof = InclusionProof(
    leafIndex: UInt64, leafHash: Bytes, peaks: seq<Bytes>, proof: seq<Bytes>)

  // ----- positions in a level -----

  /** In a level of m nodes, node q has no partner. */
  predicate IsSummit(m: nat, q: nat) {
    m % 2 == 1 && q == m - 1
  }

  /** q ^ 1 */
  function Sibling(q: nat): nat {
    if q % 2 == 0 then q + 1 else q - 1
  }

  /** How many levels above node q its mountain ends. */
  function SummitLevel(m: nat, q: nat): nat
    requires q < m
    decreases m
  {
    if IsSummit(m, q) then 0 else 1 + SummitLevel(m / 2, q / 2)
  }

  /** How many mountains are lower than the one node q belongs to. */
  function PeakIndex(m: nat, q: nat): nat
    requires q < m
    decreases m
  {
    if IsSummit(m, q) then 0 else m % 2 + PeakIndex(m / 2, q / 2)
  }

  // ----- the honest proof and the climb -----

  /** The sibling subtrees from node q of level b up to its summit. */
  function Path(sha: Hash, leaves: seq<Bytes>, q: nat, b: nat): seq<Bytes>
    requires q < Shr(|leaves|, b)
    decreases Shr(|leaves|, b)
  {
    if IsSummit(Shr(|leaves|, b), q) then []
    else [Tree(sha, leaves, Sibling(q), b)] + Path(sha, leaves, q / 2, b + 1)
  }

  function HonestProof(sha: Hash, leaves: seq<Bytes>, pos: nat): InclusionProof
    requires pos < |leaves| < TWO_63
  {
    InclusionProof(pos, leaves[pos], Peaks(sha, leaves), Path(sha, leaves, pos, 0))
  }

  /** The input of the parent of node, when its sibling is sib. */
  function ParentInput(q: nat, node: Bytes, sib: Bytes): Bytes {
    if q % 2 == 0 then NodeInput(node, sib) else NodeInput(sib, node)
  }

  /** The summit reached from node by exactly the given siblings. */
  function Climb(sha: Hash, m: nat, q: nat, node: Bytes, proof: seq<Bytes>): Option<Bytes>
    requires q < m
    decreases m
  {
    if IsSummit(m, q) then if |proof| == 0 then Some(node) else None
    else if |proof| == 0 then None
    else Climb(sha, m / 2, q / 2, Sha(sha, MmrNode, ParentInput(q, node, proof[0])), proof[1..])
  }

  /** What the verifier accepts, without offsets. */
  predicate Accepts(sha: Hash, p: InclusionProof, root: Bytes, total: UInt64) {
    && |p.leafHash| == 32
    && |p.peaks| > 0
    && total < TWO_63
    && p.leafIndex < total
    && var summit := Climb(sha, total, p.leafIndex, p.leafHash, p.proof);
       var idx := PeakIndex(total, p.leafIndex);
       summit.Some? && idx < |p.peaks| && Bag(sha, p.peaks[idx := summit.value]) == root
  }

  // ----- mountains, by offset and by level -----

  predicate InMountain(n: nat, pos: int, b: nat) {
    Bit(n, b) && StartOf(n, b) <= pos < StartOf(n, b) + Pow2(b)
  }

  lemma StartOfHalf(n: nat, b: nat)
    ensures StartOf(n, b + 1) == 2 * StartOf(n / 2, b)
    ensures StartOf(n, 0) == n - n % 2
    ensures Bit(n, b + 1) <==> Bit(n / 2, b)
  {
    LowHalf(n, b + 1);
    LowHalf(n, b);
    LowHalf(n, 0);
  }

  /** The mountain that contains pos by offset is the one whose summit pos climbs to. */
  lemma {:induction false} MountainEndsAtSummit(n: nat, pos: nat, b: nat)
    requires InMountain(n, pos, b)
    ensures pos < n && SummitLevel(n, pos) == b
    decreases b
  {
    LastBlock(n, b);
    if b == 0 {
      StartOfHalf(n, 0);
    } else {
      StartOfHalf(n, b - 1);
      LowHalf(n, b - 1);
      MountainEndsAtSummit(n / 2, pos / 2, b - 1);
    }
  }

  lemma {:induction false} EveryLeafHasAMountain(n: nat, pos: nat)
    requires pos < n
    ensures InMountain(n, pos, SummitLevel(n, pos))
    decreases n
  {
    if IsSummit(n, pos) {
      StartOfHalf(n, 0);
    } else {
      EveryLeafHasAMountain(n / 2, pos / 2);
      StartOfHalf(n, SummitLevel(n / 2, pos / 2));
    }
  }

  /** After j levels the climb stands at pos >> j, and is at the summit exactly when j = b. */
  lemma {:induction false} ClimbPosition(n: nat, pos: nat, j: nat)
    requires pos < n && j <= SummitLevel(n, pos)
    ensures Shr(pos, j) < Shr(n, j)
    ensures SummitLevel(Shr(n, j), Shr(pos, j)) == SummitLevel(n, pos) - j
    decreases j
  {
    if j > 0 {
      ClimbPosition(n, pos, j - 1);
    }
  }

  /** The mountain starts at an even node of every level below its summit. */
  lemma MountainBase(n: nat, pos: nat, b: nat, j: nat) returns (base: nat)
    requires InMountain(n, pos, b) && j < b
    ensures base % 2 == 0 && Shl(base, j) == StartOf(n, b)
    ensures Shr(pos, j) == base + Shr(pos - StartOf(n, b), j)
  {
    var t := Shr(n, b + 1);
    base := Shl(t, b + 1 - j);
    assert base == 2 * Shl(t, b - j);
    ShrOfSum(t, b + 1, pos - StartOf(n, b), j);
    ShlShl(t, b + 1 - j, j);
  }

  /** Offsets inside the mountain have the parity of absolute positions. */
  lemma LocalParity(n: nat, pos: nat, b: nat, j: nat)
    requires InMountain(n, pos, b) && j < b
    ensures Shr(pos - StartOf(n, b), j) % 2 == Shr(pos, j) % 2
  {
    hide Shr, Shl, InMountain, StartOf;
    var base := MountainBase(n, pos, b, j);
  }

  /** And their siblings. */
  lemma LocalPosition(n: nat, pos: nat, b: nat, j: nat)
    requires InMountain(n, pos, b) && j < b
    ensures StartOf(n, b) + Shl(Sibling(Shr(pos - StartOf(n, b), j)), j) == Shl(Sibling(Shr(pos, j)), j)
  {
    hide Shr, Shl, StartOf;
    var base := MountainBase(n, pos, b, j);
    ShlAdd(base, Sibling(Shr(pos - StartOf(n, b), j)), j);
  }

  // ----- the prover -----

  /** Below the summit, the path starts with the sibling, whose parent input gives the next node. */
  lemma PathStep(sha: Hash, leaves: seq<Bytes>, q: nat, j: nat)
    requires q < Shr(|leaves|, j) && !IsSummit(Shr(|leaves|, j), q)
    ensures q / 2 < Shr(|leaves|, j + 1) && Sibling(q) < Shr(|leaves|, j)
    ensures Path(sha, leaves, q, j) == [Tree(sha, leaves, Sibling(q), j)] + Path(sha, leaves, q / 2, j + 1)
    ensures Tree(sha, leaves, q / 2, j + 1)
         == Sha(sha, MmrNode, ParentInput(q, Tree(sha, leaves, q, j), Tree(sha, leaves, Sibling(q), j)))
  {
  }

  /** The sibling the prover reads by offset is the sibling node of the level. */
  lemma SiblingByOffset(sha: Hash, leaves: seq<Bytes>, pos: nat, b: nat, j: nat)
    requires InMountain(|leaves|, pos, b) && j < b
    ensures Shr(pos, j) < Shr(|leaves|, j) && !IsSummit(Shr(|leaves|, j), Shr(pos, j))
    ensures Sibling(Shr(pos, j)) < Shr(|leaves|, j)
    ensures var sub := Shr(pos - StartOf(|leaves|, b), j);
      && sub % 2 == Shr(pos, j) % 2
      && StartOf(|leaves|, b) + Shl(Sibling(sub), j) + Pow2(j) <= |leaves|
      && MerkleRoot(sha, leaves, StartOf(|leaves|, b) + Shl(Sibling(sub), j), Pow2(j))
         == Tree(sha, leaves, Sibling(Shr(pos, j)), j)
  {
    hide Shr, Shl, Pow2, InMountain, StartOf, MerkleRoot, Tree, SummitLevel, IsSummit;
    NotAtSummit(|leaves|, pos, b, j);
    MerkleRootIsTree(sha, leaves, Sibling(Shr(pos, j)), j);
    LocalParity(|leaves|, pos, b, j);
    LocalPosition(|leaves|, pos, b, j);
  }

  lemma NotAtSummit(n: nat, pos: nat, b: nat, j: nat)
    requires InMountain(n, pos, b) && j < b
    ensures Shr(pos, j) < Shr(n, j) && !IsSummit(Shr(n, j), Shr(pos, j)) && Sibling(Shr(pos, j)) < Shr(n, j)
  {
    hide Shr, InMountain;
    MountainEndsAtSummit(n, pos, b);
    ClimbPosition(n, pos, j);
  }

  lemma PathEnds(sha: Hash, leaves: seq<Bytes>, pos: nat, b: nat)
    requires InMountain(|leaves|, pos, b)
    ensures Shr(pos, b) < Shr(|leaves|, b) && Path(sha, leaves, Shr(pos, b), b) == []
  {
    MountainEndsAtSummit(|leaves|, pos, b);
    ClimbPosition(|leaves|, pos, b);
  }

  /** The sibling subtree of the climbing node at level j, read by its offset in the mountain. */
  method ReadSibling(sha: Hash, leaves: seq<Bytes>, pos: nat, start: nat, b: nat, j: nat) returns (sib: Bytes)
    requires InMountain(|leaves|, pos, b) && start == StartOf(|leaves|, b) && j < b
    ensures Shr(pos, j) < Shr(|leaves|, j) && !IsSummit(Shr(|leaves|, j), Shr(pos, j))
    ensures Sibling(Shr(pos, j)) < Shr(|leaves|, j) && Shr(pos - start, j) % 2 == Shr(pos, j) % 2
    ensures sib == Tree(sha, leaves, Sibling(Shr(pos, j)), j)
  {
    SiblingByOffset(sha, leaves, pos, b, j);
    var sibIdx := Sibling(Shr(pos - start, j));
    var sibStart := start + Shl(sibIdx, j);
    sib := MerkleRoot(sha, leaves, sibStart, Pow2(j));
  }

  /** The prover's inner loop: climb from the leaf to the summit, collecting the siblings. At level j
      the climbing node is the tree node over its aligned block. */
  method CollectSiblings(sha: Hash, leaves: seq<Bytes>, pos: nat, start: nat, b: nat)
    returns (proof: seq<Bytes>, node: Bytes)
    requires InMountain(|leaves|, pos, b) && start == StartOf(|leaves|, b)
    ensures pos < |leaves| && proof == Path(sha, leaves, pos, 0)
    ensures Shr(pos, b) < Shr(|leaves|, b) && node == Tree(sha, leaves, Shr(pos, b), b)
  {
    MountainEndsAtSummit(|leaves|, pos, b);
    assert start <= pos;
    hide MerkleRoot, Climb, PeakIndex, SummitLevel, InMountain;
    proof, node := [], leaves[pos];
    ghost var q := pos;
    for j := 0 to b
      invariant q == Shr(pos, j) && q < Shr(|leaves|, j)
      invariant node == Tree(sha, leaves, q, j)
      invariant proof + Path(sha, leaves, q, j) == Path(sha, leaves, pos, 0)
    {
      hide Tree, Path, IsSummit, StartOf, Sibling;
      var sib := ReadSibling(sha, leaves, pos, start, b, j);
      PathStep(sha, leaves, q, j);
      node := if Shr(pos - start, j) % 2 == 0 then Node(sha, node, sib) else Node(sha, sib, node);
      assert proof + [sib] + Path(sha, leaves, q / 2, j + 1) == proof + Path(sha, leaves, q, j);
      proof := proof + [sib];
      q := q / 2;
    }
    PathEnds(sha, leaves, pos, b);
  }

  method GenerateInclusionProof(sha: Hash, leaves: seq<Bytes>, pos: int) returns (res: Option<InclusionProof>)
    requires |leaves| < TWO_63
    ensures res == if 0 <= pos < |leaves| then Some(HonestProof(sha, leaves, pos)) else None
  {
    var n := |leaves|;
    if pos < 0 || pos >= n {
      return None;
    }
    ghost var level := SummitLevel(n, pos);
    EveryLeafHasAMountain(n, pos);
    NoBitAbove(n, level);
    var b: int := 63;
    while b >= 0
      invariant level <= b
    {
      if Bit(n, b) {
        var start := MountainStart(n, b);
        if start <= pos < start + Pow2(b) {
          var proof, _ := CollectSiblings(sha, leaves, pos, start, b);
          var peaks := MountainSummits(sha, leaves, n);
          return Some(InclusionProof(pos, leaves[pos], peaks, proof));
        }
      }
      b := b - 1;
    }
    assert false;
  }

  lemma NoBitAbove(n: nat, b: nat)
    requires n < TWO_63 && Bit(n, b)
    ensures b < 63
  {
    if b >= 63 {
      NoHighBits(n, b);
    }
  }

  // ----- the verifier -----

  lemma ClimbStep(sha: Hash, n: nat, pos: nat, j: nat, node: Bytes, rest: seq<Bytes>)
    requires pos < n && j < SummitLevel(n, pos)
    ensures Shr(pos, j) < Shr(n, j) && Shr(pos, j + 1) < Shr(n, j + 1)
    ensures Climb(sha, Shr(n, j), Shr(pos, j), node, rest)
         == if |rest| == 0 then None
            else Climb(sha, Shr(n, j + 1), Shr(pos, j + 1),
                       Sha(sha, MmrNode, ParentInput(Shr(pos, j), node, rest[0])), rest[1..])
    ensures PeakIndex(Shr(n, j), Shr(pos, j))
         == Shr(n, j) % 2 + PeakIndex(Shr(n, j + 1), Shr(pos, j + 1))
  {
    ClimbPosition(n, pos, j);
    ClimbPosition(n, pos, j + 1);
  }

  lemma ClimbEnd(sha: Hash, n: nat, pos: nat, node: Bytes, rest: seq<Bytes>)
    requires pos < n
    ensures var b := SummitLevel(n, pos);
      && Shr(pos, b) < Shr(n, b)
      && Climb(sha, Shr(n, b), Shr(pos, b), node, rest) == (if |rest| == 0 then Some(node) else None)
      && PeakIndex(Shr(n, b), Shr(pos, b)) == 0
  {
    ClimbPosition(n, pos, SummitLevel(n, pos));
  }

  /** The verifier's inner loop: hash up from the leaf to the summit of the mountain of bit b. */
  method ClimbMountain(sha: Hash, n: nat, pos: nat, start: nat, b: nat, leafHash: Bytes, proof: seq<Bytes>)
    returns (res: Option<Bytes>)
    requires InMountain(n, pos, b) && start == StartOf(n, b)
    ensures pos < n && res == Climb(sha, n, pos, leafHash, proof)
  {
    MountainEndsAtSummit(n, pos, b);
    var local := pos - start;
    var node := leafHash;
    var k := 0;
    ghost var m, q, rest := n, pos, proof;
    for j := 0 to b
      invariant k == j <= |proof| && rest == proof[k..]
      invariant m == Shr(n, j) && q == Shr(pos, j) && q < m
      invariant Climb(sha, m, q, node, rest) == Climb(sha, n, pos, leafHash, proof)
    {
      ClimbStep(sha, n, pos, j, node, rest);
      LocalParity(n, pos, b, j);
      if k >= |proof| {
        return None;
      }
      var sibHash := proof[k];
      k := k + 1;
      var sub := Shr(local, j);
      node := if sub % 2 == 0 then Node(sha, node, sibHash) else Node(sha, sibHash, node);
      m, q, rest := Shr(n, j + 1), Shr(pos, j + 1), rest[1..];
    }
    ClimbEnd(sha, n, pos, node, rest);
    if k != |proof| {
      return None;
    }
    res := Some(node);
  }

  /** The position of the mountain of bit b among the peaks: the set bits below b. */
  method CountLowerPeaks(sha: Hash, n: nat, pos: nat, b: nat) returns (idx: nat)
    requires pos < n && b == SummitLevel(n, pos)
    ensures idx == PeakIndex(n, pos)
  {
    idx := 0;
    ClimbPosition(n, pos, 0);
    for c := 0 to b
      invariant Shr(pos, c) < Shr(n, c)
      invariant idx + PeakIndex(Shr(n, c), Shr(pos, c)) == PeakIndex(n, pos)
    {
      ClimbStep(sha, n, pos, c, [], []);
      if Bit(n, c) {
        idx := idx + 1;
      }
    }
    ClimbEnd(sha, n, pos, [], []);
  }

  method VerifyInclusionProof(sha: Hash, p: InclusionProof, claimedRoot: Bytes, totalLeaves: UInt64)
    returns (ok: bool)
    ensures ok <==> Accepts(sha, p, claimedRoot, totalLeaves)
  {
    if |p.leafHash| != 32 || |p.peaks| == 0 {
      return false;
    }
    var n := ToInt64(totalLeaves);
    if n <= 0 || ToInt64(p.leafIndex) >= n {
      return false;
    }
    var pos := ToInt64(p.leafIndex);
    ghost var level := 0;
    if pos >= 0 {
      level := SummitLevel(n, pos);
      EveryLeafHasAMountain(n, pos);
      NoBitAbove(n, level);
    }
    var b: int := 63;
    while b >= 0
      invariant pos >= 0 ==> level <= b
    {
      if Bit(n, b) {
        var start := MountainStart(n, b);
        if start <= pos < start + Pow2(b) {
          MountainEndsAtSummit(n, pos, b);
          var summit := ClimbMountain(sha, n, pos, start, b, p.leafHash, p.proof);
          if summit == None {
            return false;
          }
          var idx := CountLowerPeaks(sha, n, pos, b);
          if idx >= |p.peaks| {
            return false;
          }
          var allPeaks := p.peaks[idx := summit.value];
          var root := MmrRootFromPeaks(sha, allPeaks);
          return root == claimedRoot;
        }
      }
      b := b - 1;
    }
    ok := false;
  }

  // ----- completeness -----

  /** The peak of a node is the peak of its parent, counted from the level above. */
  lemma PeakAbove(sha: Hash, leaves: seq<Bytes>, q: nat, b: nat)
    requires q < Shr(|leaves|, b) && !IsSummit(Shr(|leaves|, b), q)
    ensures q / 2 < Shr(|leaves|, b + 1)
    ensures var i, upper := PeakIndex(Shr(|leaves|, b), q), PeakIndex(Shr(|leaves|, b + 1), q / 2);
      var peaks, above := PeaksFrom(sha, leaves, b), PeaksFrom(sha, leaves, b + 1);
      upper < |above| ==> i < |peaks| && peaks[i] == above[upper]
  {
    var m := Shr(|leaves|, b);
    assert Shr(|leaves|, b + 1) == m / 2;
    assert PeakIndex(m, q) == m % 2 + PeakIndex(m / 2, q / 2);
    var above := PeaksFrom(sha, leaves, b + 1);
    if m % 2 == 1 {
      assert PeaksFrom(sha, leaves, b) == [Tree(sha, leaves, m - 1, b)] + above;
    } else {
      assert PeaksFrom(sha, leaves, b) == above;
    }
  }

  lemma HonestStep(sha: Hash, leaves: seq<Bytes>, q: nat, b: nat)
    requires q < Shr(|leaves|, b) && !IsSummit(Shr(|leaves|, b), q)
    ensures q / 2 < Shr(|leaves|, b + 1)
    ensures Climb(sha, Shr(|leaves|, b), q, Tree(sha, leaves, q, b), Path(sha, leaves, q, b))
         == Climb(sha, Shr(|leaves|, b + 1), q / 2, Tree(sha, leaves, q / 2, b + 1), Path(sha, leaves, q / 2, b + 1))
  {
    PathStep(sha, leaves, q, b);
    assert Path(sha, leaves, q, b)[1..] == Path(sha, leaves, q / 2, b + 1);
  }

  /** Climbing the honest path from any node reaches that node's own peak. */
  lemma {:induction false} ClimbHonest(sha: Hash, leaves: seq<Bytes>, q: nat, b: nat)
    requires q < Shr(|leaves|, b)
    ensures var m, peaks := Shr(|leaves|, b), PeaksFrom(sha, leaves, b);
      && PeakIndex(m, q) < |peaks|
      && Climb(sha, m, q, Tree(sha, leaves, q, b), Path(sha, leaves, q, b)) == Some(peaks[PeakIndex(m, q)])
    decreases Shr(|leaves|, b)
  {
    if !IsSummit(Shr(|leaves|, b), q) {
      PeakAbove(sha, leaves, q, b);
      HonestStep(sha, leaves, q, b);
      ClimbHonest(sha, leaves, q / 2, b + 1);
    }
  }

  /** Every generated proof verifies against the root of the same leaves. */
  lemma HonestProofAccepted(sha: Hash, leaves: seq<Bytes>, pos: nat)
    requires pos < |leaves| < TWO_63 && |leaves[pos]| == 32
    ensures Accepts(sha, HonestProof(sha, leaves, pos), Root(sha, leaves), |leaves|)
  {
    ClimbHonest(sha, leaves, pos, 0);
    var peaks, idx := Peaks(sha, leaves), PeakIndex(|leaves|, pos);
    assert peaks[idx := peaks[idx]] == peaks;
  }

  // ----- soundness -----

  /** Two inputs of the hash function under one domain separator. */
  datatype InputPair = InputPair(domain: Domain, x: Bytes, y: Bytes)

  predicate IsCollision(sha: Hash, c: InputPair) {
    c.x != c.y && Sha(sha, c.domain, c.x) == Sha(sha, c.domain, c.y)
  }

  /** The two inputs of the parent hash: the climbed one and the tree's. */
  function StepPair(sha: Hash, leaves: seq<Bytes>, q: nat, b: nat, node: Bytes, sib: Bytes): InputPair
    requires q < Shr(|leaves|, b) && Sibling(q) < Shr(|leaves|, b)
  {
    InputPair(MmrNode, ParentInput(q, node, sib), ParentInput(q, Tree(sha, leaves, q, b), Tree(sha, leaves, Sibling(q), b)))
  }

  /** The first step of the climb whose input differs from the tree's although the hashes agree. */
  function ClimbCollision(sha: Hash, leaves: seq<Bytes>, q: nat, b: nat, node: Bytes, proof: seq<Bytes>): InputPair
    requires q < Shr(|leaves|, b)
    decreases Shr(|leaves|, b)
  {
    if IsSummit(Shr(|leaves|, b), q) || |proof| == 0 then InputPair(MmrNode, [], [])
    else
      var pair := StepPair(sha, leaves, q, b, node, proof[0]);
      if IsCollision(sha, pair) then pair
      else ClimbCollision(sha, leaves, q / 2, b + 1, Sha(sha, MmrNode, pair.x), proof[1..])
  }

  /** A step to the right parent comes from the right children, or the two inputs collide. */
  lemma RightChildren(sha: Hash, leaves: seq<Bytes>, q: nat, b: nat, node: Bytes, sib: Bytes)
    requires AllDigests(leaves) && q < Shr(|leaves|, b) && !IsSummit(Shr(|leaves|, b), q) && |node| == 32
    requires Sha(sha, MmrNode, ParentInput(q, node, sib)) == Tree(sha, leaves, q / 2, b + 1)
    ensures Sibling(q) < Shr(|leaves|, b)
    ensures var own, other := Tree(sha, leaves, q, b), Tree(sha, leaves, Sibling(q), b);
      || (node == own && sib == other)
      || IsCollision(sha, StepPair(sha, leaves, q, b, node, sib))
  {
    PathStep(sha, leaves, q, b);
    var own, other := Tree(sha, leaves, q, b), Tree(sha, leaves, Sibling(q), b);
    if ParentInput(q, node, sib) == ParentInput(q, own, other) {
      TreeIsDigest(sha, leaves, q, b);
      TreeIsDigest(sha, leaves, Sibling(q), b);
      SameHalves(q, node, sib, own, other);
    }
  }

  lemma ClimbFromHere(sha: Hash, m: nat, q: nat, node: Bytes, proof: seq<Bytes>)
    requires q < m && !IsSummit(m, q) && Climb(sha, m, q, node, proof).Some?
    ensures |proof| > 0 && q / 2 < m / 2
    ensures Climb(sha, m, q, node, proof)
      == Climb(sha, m / 2, q / 2, Sha(sha, MmrNode, ParentInput(q, node, proof[0])), proof[1..])
  {
  }

  /** node and proof are the tree's own, or a step of the climb is a collision. */
  predicate RightOrCollides(sha: Hash, leaves: seq<Bytes>, q: nat, b: nat, node: Bytes, proof: seq<Bytes>)
    requires q < Shr(|leaves|, b)
  {
    || (node == Tree(sha, leaves, q, b) && proof == Path(sha, leaves, q, b))
    || IsCollision(sha, ClimbCollision(sha, leaves, q, b, node, proof))
  }

  lemma CollisionStep(sha: Hash, leaves: seq<Bytes>, q: nat, b: nat, node: Bytes, proof: seq<Bytes>)
    requires q < Shr(|leaves|, b) && !IsSummit(Shr(|leaves|, b), q) && |proof| > 0
    ensures q / 2 < Shr(|leaves|, b + 1) && Sibling(q) < Shr(|leaves|, b)
    ensures var pair := StepPair(sha, leaves, q, b, node, proof[0]);
      ClimbCollision(sha, leaves, q, b, node, proof) ==
        if IsCollision(sha, pair) then pair
        else ClimbCollision(sha, leaves, q / 2, b + 1, Sha(sha, MmrNode, ParentInput(q, node, proof[0])), proof[1..])
  {
  }

  lemma SoundStep(sha: Hash, leaves: seq<Bytes>, q: nat, b: nat, node: Bytes, proof: seq<Bytes>)
    requires AllDigests(leaves) && q < Shr(|leaves|, b) && |node| == 32
    requires !IsSummit(Shr(|leaves|, b), q) && |proof| > 0 && q / 2 < Shr(|leaves|, b + 1)
    requires RightOrCollides(sha, leaves, q / 2, b + 1, Sha(sha, MmrNode, ParentInput(q, node, proof[0])), proof[1..])
    ensures RightOrCollides(sha, leaves, q, b, node, proof)
  {
    hide Tree, Path, ClimbCollision, Sha, Shr, ParentInput;
    CollisionStep(sha, leaves, q, b, node, proof);
    if !IsCollision(sha, StepPair(sha, leaves, q, b, node, proof[0]))
       && Sha(sha, MmrNode, ParentInput(q, node, proof[0])) == Tree(sha, leaves, q / 2, b + 1) {
      RightChildren(sha, leaves, q, b, node, proof[0]);
      PathStep(sha, leaves, q, b);
      assert proof == [proof[0]] + proof[1..];
    }
  }

  /** The only way up to a peak is from the right node along the right path, or through a collision. */
  lemma {:induction false} ClimbSound(
    sha: Hash, leaves: seq<Bytes>, q: nat, b: nat, node: Bytes, proof: seq<Bytes>)
    requires AllDigests(leaves) && q < Shr(|leaves|, b) && |node| == 32
    requires PeakIndex(Shr(|leaves|, b), q) < |PeaksFrom(sha, leaves, b)|
    requires Climb(sha, Shr(|leaves|, b), q, node, proof)
          == Some(PeaksFrom(sha, leaves, b)[PeakIndex(Shr(|leaves|, b), q)])
    ensures RightOrCollides(sha, leaves, q, b, node, proof)
    decreases Shr(|leaves|, b)
  {
    if !IsSummit(Shr(|leaves|, b), q) {
      ClimbHonest(sha, leaves, q / 2, b + 1);
      PeakAbove(sha, leaves, q, b);
      ClimbFromHere(sha, Shr(|leaves|, b), q, node, proof);
      ClimbSound(sha, leaves, q / 2, b + 1, Sha(sha, MmrNode, ParentInput(q, node, proof[0])), proof[1..]);
      SoundStep(sha, leaves, q, b, node, proof);
    }
  }

  lemma SameHalves(q: nat, node: Bytes, sib: Bytes, node': Bytes, sib': Bytes)
    requires |node| == |node'| == |sib'| == 32
    requires ParentInput(q, node, sib) == ParentInput(q, node', sib')
    ensures node == node' && sib == sib'
  {
    var x, x' := ParentInput(q, node, sib), ParentInput(q, node', sib');
    assert |sib| == 32;
    if q % 2 == 0 {
      assert node == x[..32] == x'[..32] == node';
      assert sib == x[32..] == x'[32..] == sib';
    } else {
      assert sib == x[..32] == x'[..32] == sib';
      assert node == x[32..] == x'[32..] == node';
    }
  }

  /** The peaks the verifier bags for a proof whose climb reaches a summit. */
  function BaggedPeaks(sha: Hash, p: InclusionProof, total: nat): seq<Bytes>
    requires p.leafIndex < total
  {
    var summit := Climb(sha, total, p.leafIndex, p.leafHash, p.proof);
    var idx := PeakIndex(total, p.leafIndex);
    if summit.Some? && idx < |p.peaks| then p.peaks[idx := summit.value] else p.peaks
  }

  function FindCollision(sha: Hash, leaves: seq<Bytes>, p: InclusionProof): InputPair
    requires p.leafIndex < |leaves|
  {
    var bags := InputPair(MmrPeakBag,
      Join(BaggedPeaks(sha, p, |leaves|)), Join(Peaks(sha, leaves)));
    if IsCollision(sha, bags) then bags
    else ClimbCollision(sha, leaves, p.leafIndex, 0, p.leafHash, p.proof)
  }

  /** The peaks listed before the proven leaf's own peak fill exactly their 32-byte slots. */
  predicate Aligned(p: InclusionProof, total: nat)
    requires p.leafIndex < total
  {
    var idx := PeakIndex(total, p.leafIndex);
    idx < |p.peaks| && |Join(p.peaks[..idx])| == 32 * idx
  }

  lemma AlignedWhenDigests(p: InclusionProof, total: nat)
    requires p.leafIndex < total && PeakIndex(total, p.leafIndex) < |p.peaks| && AllDigests(p.peaks)
    ensures Aligned(p, total)
  {
    JoinLength(p.peaks[..PeakIndex(total, p.leafIndex)]);
  }

  /** In equal concatenations, entries at the same offset and of the same length are equal. */
  lemma JoinedEntry(a: seq<Bytes>, b: seq<Bytes>, i: nat)
    requires i < |a| && i < |b| && Join(a) == Join(b)
    requires |a[i]| == |b[i]| && |Join(a[..i])| == |Join(b[..i])|
    ensures a[i] == b[i]
  {
    JoinSplit(a, i);
    JoinSplit(b, i);
    var k := |Join(a[..i])|;
    assert a[i] == Join(a)[k..][..|a[i]|];
    assert b[i] == Join(b)[k..][..|b[i]|];
  }

  lemma {:induction false} ClimbIsDigest(sha: Hash, m: nat, q: nat, node: Bytes, proof: seq<Bytes>)
    requires q < m && |node| == 32
    ensures var r := Climb(sha, m, q, node, proof); r.Some? ==> |r.value| == 32
    decreases m
  {
    if !IsSummit(m, q) && |proof| > 0 {
      ClimbIsDigest(sha, m / 2, q / 2, Sha(sha, MmrNode, ParentInput(q, node, proof[0])), proof[1..]);
    }
  }

  /** An accepted, aligned proof names the leaf at its index and that leaf's sibling path, or
      FindCollision finds a collision. */
  lemma AcceptedProofSound(sha: Hash, leaves: seq<Bytes>, p: InclusionProof)
    requires AllDigests(leaves) && |leaves| < TWO_63
    requires Accepts(sha, p, Root(sha, leaves), |leaves|) && Aligned(p, |leaves|)
    ensures (p.leafHash == leaves[p.leafIndex] && p.proof == Path(sha, leaves, p.leafIndex, 0))
         || IsCollision(sha, FindCollision(sha, leaves, p))
  {
    var n, pos := |leaves|, p.leafIndex;
    var peaks, idx := Peaks(sha, leaves), PeakIndex(n, pos);
    var bagged := BaggedPeaks(sha, p, n);
    ClimbHonest(sha, leaves, pos, 0);
    if Join(bagged) == Join(peaks) {
      PeaksAreDigests(sha, leaves, 0);
      ClimbIsDigest(sha, n, pos, p.leafHash, p.proof);
      JoinLength(peaks[..idx]);
      assert bagged[..idx] == p.peaks[..idx];
      JoinedEntry(bagged, peaks, idx);
      ClimbSound(sha, leaves, pos, 0, p.leafHash, p.proof);
    }
  }

  /** The proof is the honest one, except possibly for the peak the verifier overwrites. */
  predicate IsHonest(sha: Hash, leaves: seq<Bytes>, p: InclusionProof)
    requires |leaves| < TWO_63
  {
    && p.leafIndex < |leaves|
    && |p.peaks| == |Peaks(sha, leaves)|
    && PeakIndex(|leaves|, p.leafIndex) < |p.peaks|
    && p.(peaks := p.peaks[PeakIndex(|leaves|, p.leafIndex) := []])
       == var h := HonestProof(sha, leaves, p.leafIndex);
          h.(peaks := h.peaks[PeakIndex(|leaves|, p.leafIndex) := []])
  }

  /** Among proofs whose peaks are all 32 bytes, the verifier accepts exactly the honest ones,
      unless FindCollision finds a collision. */
  lemma AcceptsExactlyHonest(sha: Hash, leaves: seq<Bytes>, p: InclusionProof)
    requires AllDigests(leaves) && 0 < |leaves| < TWO_63
    requires AllDigests(p.peaks)
    ensures IsHonest(sha, leaves, p) ==> Accepts(sha, p, Root(sha, leaves), |leaves|)
    ensures Accepts(sha, p, Root(sha, leaves), |leaves|)
        ==> IsHonest(sha, leaves, p) || IsCollision(sha, FindCollision(sha, leaves, p))
  {
    var n, pos := |leaves|, p.leafIndex;
    var peaks := Peaks(sha, leaves);
    PeaksAreDigests(sha, leaves, 0);
    if IsHonest(sha, leaves, p) {
      var idx := PeakIndex(n, pos);
      ClimbHonest(sha, leaves, pos, 0);
      assert p.peaks[idx := peaks[idx]] == p.peaks[idx := []][idx := peaks[idx]]
          == peaks[idx := []][idx := peaks[idx]] == peaks;
    }
    if Accepts(sha, p, Root(sha, leaves), n) && !IsCollision(sha, FindCollision(sha, leaves, p)) {
      var idx := PeakIndex(n, pos);
      AlignedWhenDigests(p, n);
      AcceptedProofSound(sha, leaves, p);
      ClimbHonest(sha, leaves, pos, 0);
      ClimbIsDigest(sha, n, pos, p.leafHash, p.proof);
      var bagged := BaggedPeaks(sha, p, n);
      JoinInjective(bagged, peaks);
      assert p.peaks[idx := []] == bagged[idx := []];
    }
  }

  lemma SevenLeaves(sha: Hash, l: seq<Bytes>)
    requires |l| == 7
    ensures Peaks(sha, l) ==
      [l[6], Node(sha, l[4], l[5]), Node(sha, Node(sha, l[0], l[1]), Node(sha, l[2], l[3]))]
  {
    assert Shr(7, 0) == 7 && Shr(7, 1) == 3 && Shr(7, 2) == 1 && Shr(7, 3) == 0;
    assert PeaksFrom(sha, l, 3) == [];
    assert Tree(sha, l, 0, 1) == Node(sha, l[0], l[1]) && Tree(sha, l, 1, 1) == Node(sha, l[2], l[3]);
    assert Tree(sha, l, 2, 1) == Node(sha, l[4], l[5]);
    assert PeaksFrom(sha, l, 2) == [Tree(sha, l, 0, 2)];
    assert PeaksFrom(sha, l, 1) == [Tree(sha, l, 2, 1)] + PeaksFrom(sha, l, 2);
  }

  /** The verifier does not check the length of the peaks, and without that check acceptance proves
      nothing: for any hash function and any seven leaves, with two peaks' bytes in one slot the
      verifier climbs into the wrong mountain and takes an inner node for leaf 4. */
  lemma MisalignedPeaksAccepted(sha: Hash, l: seq<Bytes>)
    requires |l| == 7 && AllDigests(l) && Node(sha, l[0], l[1]) != l[4]
    ensures
      var p := InclusionProof(4, Node(sha, l[0], l[1]), [l[6] + Node(sha, l[4], l[5]), []], [Node(sha, l[2], l[3])]);
      && Accepts(sha, p, Root(sha, l), 7)
      && p.leafHash != l[p.leafIndex]
      && !Aligned(p, 7)
  {
    hide Sha, Node;
    var low, left, right := Node(sha, l[4], l[5]), Node(sha, l[0], l[1]), Node(sha, l[2], l[3]);
    var top := Node(sha, left, right);
    SevenLeaves(sha, l);
    assert PeakIndex(1, 0) == 0 && PeakIndex(3, 2) == 0 && PeakIndex(7, 4) == 1;
    ClimbToPair(sha, left, right);
    JoinThree(l[6], low, top);
    var p := InclusionProof(4, left, [l[6] + low, []], [right]);
    assert p.peaks[1 := top] == [l[6] + low, top];
    assert p.peaks[..1] == [l[6] + low];
    assert Join([l[6] + low]) == l[6] + low + Join([]);
  }

  lemma ClimbToPair(sha: Hash, left: Bytes, right: Bytes)
    ensures Climb(sha, 7, 4, left, [right]) == Some(Node(sha, left, right))
  {
    assert Climb(sha, 3, 2, Node(sha, left, right), [right][1..]) == Some(Node(sha, left, right));
  }

  lemma JoinThree(x: Bytes, y: Bytes, z: Bytes)
    ensures Join([x, y, z]) == Join([x + y, z])
  {
    assert [x, y, z][1..] == [y, z] && [y, z][1..] == [z] && [x + y, z][1..] == [z];
    assert x + (y + Join([z])) == (x + y) + Join([z]);
  }

  // ----- the root commits to the leaves -----

  function FirstDifference(a: seq<Bytes>, b: seq<Bytes>): (i: nat)
    requires |a| == |b| && a != b
    ensures i < |a| && a[i] != b[i] && a[..i] == b[..i]
  {
    if a[0] != b[0] then 0
    else
      assert a == [a[0]] + a[1..] && b == [b[0]] + b[1..];
      1 + FirstDifference(a[1..], b[1..])
  }

  /** A collision from two equally long leaf lists with one root: prove the first differing leaf
      of the one list against the other. */
  function RootCollision(sha: Hash, a: seq<Bytes>, b: seq<Bytes>): InputPair
    requires |a| == |b| < TWO_63 && a != b
  {
    FindCollision(sha, a, HonestProof(sha, b, FirstDifference(a, b)))
  }

  /** Equally long leaf lists with the same root are equal, or RootCollision is a collision. */
  lemma RootCommitsToLeaves(sha: Hash, a: seq<Bytes>, b: seq<Bytes>)
    requires AllDigests(a) && AllDigests(b) && |a| == |b| < TWO_63
    requires Root(sha, a) == Root(sha, b)
    ensures a == b || IsCollision(sha, RootCollision(sha, a, b))
  {
    if a != b {
      var i := FirstDifference(a, b);
      var p := HonestProof(sha, b, i);
      HonestProofAccepted(sha, b, i);
      PeaksAreDigests(sha, b, 0);
      AlignedWhenDigests(p, |a|);
      AcceptedProofSound(sha, a, p);
    }
  }

  /** Over leaves hashed like nodes the root would not fix the number of leaves, for any hash function;
      the separator of leaves is what makes OneRootOneList hold. */
  lemma RootDoesNotFixLength(sha: Hash, x: Digest, y: Digest)
    ensures Root(sha, [x, y]) == Root(sha, [Node(sha, x, y)])
  {
    var two: seq<Bytes> := [x, y];
    var one: seq<Bytes> := [Node(sha, x, y)];
    assert Shr(2, 0) == 2 && Shr(2, 1) == 1 && Shr(2, 2) == 0;
    assert Shr(1, 0) == 1 && Shr(1, 1) == 0;
    assert PeaksFrom(sha, two, 2) == [] && PeaksFrom(sha, one, 1) == [];
    assert PeaksFrom(sha, two, 1) == [Node(sha, x, y)];
    assert PeaksFrom(sha, one, 0) == [Node(sha, x, y)];
  }
}
