/**
 A fresh client catching up from a server: the header phase makes the server's chain the client's
 active chain, and the finalization phase ends with the server's accumulator.
 */
module CatchUp {
  import opened ByteStrings
  import opened Mmr
  import opened Chainwork
  import opened Wire
  import opened HeaderTree
  import opened HeaderTreeProofs
  import opened Finalization
  import opened FinalizationLoop
  import opened Ledger
  import opened LedgerInvariants
  import opened Peer

  // ----- the header phase -----

  function HeadersOf(m: Mem): (headers: seq<Header>)
    ensures |headers| == |m.blocks|
    ensures forall i :: 0 <= i < |headers| ==> headers[i] == m.blocks[i].header
  {
    seq(|m.blocks|, i requires 0 <= i < |m.blocks| => m.blocks[i].header)
  }

  /** A chain from a valid genesis block, with no two of its headers hashed alike. */
  ghost predicate Followable(e: Env, m: Mem, txs: seq<Tx>) {
    Chained(e, m, txs) && GenesisOk(e, m) && CollisionFree(e, HeadersOf(m))
  }

  lemma BlockFacts(e: Env, m: Mem, txs: seq<Tx>, i: nat)
    requires Chained(e, m, txs) && GenesisOk(e, m) && i < |m.blocks|
    ensures var b := m.blocks[i];
      && b.header.height == i && b.hash == BlockHash(e, b.header) && SatisfiesTarget(e, b.header)
      && (i == 0 ==> IsZero(b.header.prevHash) && b.hash == m.genesisHash)
      && (i > 0 ==> b.header.prevHash == m.blocks[i - 1].hash)
      && b.header.mmrRoot == Root(e.sha, m.leafHashes[..i + 1])
      && IsLeafOf(e, m.leafHashes[i], txs[i])
  {
    hide BlockHash, SatisfiesTarget, Root, WorkOf, Peaks;
    if i > 0 {
      assert LinkedBlock(e, m, i);
    }
  }

  lemma ServedInOrder(e: Env, m: Mem, txs: seq<Tx>)
    requires Chained(e, m, txs) && GenesisOk(e, m)
    ensures InParentFirstOrder(e, m.genesisHash, HeadersOf(m))
  {
    hide BlockHash, SatisfiesTarget, Root, Chained, GenesisOk, IsZero;
    var headers := HeadersOf(m);
    forall i | 0 <= i < |headers|
      ensures SelfValid(e, m.genesisHash, headers[i])
      ensures headers[i].height != 0 ==> HasHash(e, headers[..i], headers[i].prevHash)
    {
      BlockFacts(e, m, txs, i);
      if i > 0 {
        BlockFacts(e, m, txs, i - 1);
        assert headers[..i][i - 1] == headers[i - 1];
      }
    }
  }

  /** The client's tree after applying the served headers in order. */
  ghost function Followed(e: Env, m: Mem): View {
    Deliver(e, m.genesisHash, HeadersOf(m))
  }

  ghost predicate HasBlock(v: View, m: Mem, i: nat)
    requires i < |m.blocks|
  {
    var b := m.blocks[i];
    b.hash in v.headers && b.hash in v.known && v.known[b.hash] == b.header
  }

  /** The tree holds the chain's blocks and nothing else. */
  ghost predicate HoldsChain(v: View, m: Mem) {
    && (forall i :: 0 <= i < |m.blocks| ==> HasBlock(v, m, i))
    && (forall k :: k in v.known ==> exists i :: 0 <= i < |m.blocks| && m.blocks[i].hash == k)
  }

  lemma FollowedHolds(e: Env, m: Mem, txs: seq<Tx>)
    requires Followable(e, m, txs)
    ensures Consistent(Followed(e, m)) && HeadersOnly(Followed(e, m)) && HoldsChain(Followed(e, m), m)
  {
    hide Chained, GenesisOk, InParentFirstOrder, Consistent, BlockHash, WellLinked;
    ServedInOrder(e, m, txs);
    DeliveryAccepted(e, m.genesisHash, HeadersOf(m));
    var v, headers := Followed(e, m), HeadersOf(m);
    forall i | 0 <= i < |m.blocks|
      ensures HasBlock(v, m, i)
    {
      BlockFacts(e, m, txs, i);
      assert BlockHash(e, headers[i]) in v.known;
    }
    forall k | k in v.known
      ensures exists i :: 0 <= i < |m.blocks| && m.blocks[i].hash == k
    {
      var i :| 0 <= i < |headers| && headers[i] == v.known[k];
      BlockFacts(e, m, txs, i);
    }
  }

  /** Each header carries the work of the chain up to it. */
  lemma {:induction false} FollowedWork(e: Env, v: View, m: Mem, txs: seq<Tx>, i: nat)
    requires Chained(e, m, txs) && GenesisOk(e, m) && Consistent(v) && HoldsChain(v, m) && i < |m.blocks|
    ensures HasBlock(v, m, i)
    ensures v.headers[m.blocks[i].hash].chainwork == WorkOf(m.blocks[..i + 1])
    ensures v.headers[m.blocks[i].hash].height == i
  {
    hide Chained, GenesisOk, BlockHash, SatisfiesTarget, Selected, BlockWork;
    BlockFacts(e, m, txs, i);
    assert HasBlock(v, m, i);
    assert WorkAdds(v, m.blocks[i].hash);
    assert m.blocks[..i + 1][..i] == m.blocks[..i];
    if i > 0 {
      FollowedWork(e, v, m, txs, i - 1);
    }
  }

  /** Every block is worth something: its target is below 2^256 - 1. */
  ghost predicate AllWorthwhile(m: Mem) {
    forall i :: 0 <= i < |m.blocks| ==> BlockWork(m.blocks[i].header.powTarget) > 0
  }

  lemma {:induction false} WorkGrows(m: Mem, i: nat, j: nat)
    requires AllWorthwhile(m) && i < j <= |m.blocks|
    ensures WorkOf(m.blocks[..i]) < WorkOf(m.blocks[..j])
    decreases j
  {
    hide BlockWork;
    assert m.blocks[..j][..j - 1] == m.blocks[..j - 1];
    if i < j - 1 {
      WorkGrows(m, i, j - 1);
    }
  }

  function TipHash(m: Mem): Bytes
    requires |m.blocks| > 0
  {
    m.blocks[|m.blocks| - 1].hash
  }

  /** The server's tip is the client's best header. */
  lemma TipIsBest(e: Env, v: View, m: Mem, txs: seq<Tx>)
    requires Chained(e, m, txs) && GenesisOk(e, m) && AllWorthwhile(m)
    requires Consistent(v) && HoldsChain(v, m)
    ensures IsBest(v.headers, TipHash(m))
  {
    hide LinkedBlock, IsLeafOf, GenesisOk, Consistent, AllWorthwhile, WorkOf, Greater;
    var n := |m.blocks|;
    FollowedWork(e, v, m, txs, n - 1);
    forall k | k in v.headers && k != TipHash(m)
      ensures Better(v.headers[TipHash(m)], v.headers[k])
    {
      assert k in v.known by { KnownWhenStored(v, k); }
      var i :| 0 <= i < n && m.blocks[i].hash == k;
      FollowedWork(e, v, m, txs, i);
      WorkGrows(m, i + 1, n);
    }
  }

  lemma KnownWhenStored(v: View, k: Bytes)
    requires Consistent(v) && k in v.headers
    ensures k in v.known
  {
  }

  /** Every block of the chain is active. */
  lemma {:induction false} ChainIsActive(e: Env, v: View, m: Mem, txs: seq<Tx>, i: nat)
    requires Chained(e, m, txs) && GenesisOk(e, m)
    requires Consistent(v) && HoldsChain(v, m) && IsBest(v.headers, TipHash(m)) && i < |m.blocks|
    ensures IsActive(v, m.blocks[i].hash)
    decreases |m.blocks| - i
  {
    hide Chained, GenesisOk, Selected, AllWorkAdds, Root, BlockHash, SatisfiesTarget;
    LinkedIsRanked(v);
    if i == |m.blocks| - 1 {
      BestIsUnique(v.headers, TipHash(m), Best(v.headers));
      ActiveAreBestBranch(v, TipHash(m));
    } else {
      ChainIsActive(e, v, m, txs, i + 1);
      BlockFacts(e, m, txs, i + 1);
      FollowedWork(e, v, m, txs, i + 1);
      ParentOfActiveIsActive(v, m.blocks[i + 1].hash);
    }
  }

  /** The header phase: every served header is stored and active, with the server's work at the tip. */
  lemma HeaderPhase(e: Env, m: Mem, txs: seq<Tx>)
    requires Followable(e, m, txs) && AllWorthwhile(m)
    ensures var v := Followed(e, m);
      && Consistent(v) && HeadersOnly(v) && HoldsChain(v, m)
      && IsBest(v.headers, TipHash(m)) && v.headers[TipHash(m)].chainwork == m.chainwork
      && forall i :: 0 <= i < |m.blocks| ==> IsActive(v, m.blocks[i].hash)
  {
    hide HeadersOnly, HoldsChain, AllWorthwhile, GenesisOk, LinkedBlock, IsLeafOf, IsActive, Consistent, Deliver,
      CollisionFree;
    var v := Followed(e, m);
    FollowedHolds(e, m, txs);
    TipIsBest(e, v, m, txs);
    FollowedWork(e, v, m, txs, |m.blocks| - 1);
    assert m.blocks[..|m.blocks|] == m.blocks;
    forall i | 0 <= i < |m.blocks|
      ensures IsActive(v, m.blocks[i].hash)
    {
      ChainIsActive(e, v, m, txs, i);
    }
  }

  // ----- the finalization phase -----

  /** The leaf of each block, by hash. */
  ghost predicate LeavesOfChain(m: Mem, leafOf: Leaves)
    requires Shaped(m)
  {
    forall i :: 0 <= i < |m.blocks| ==> leafOf(m.blocks[i].hash) == m.leafHashes[i]
  }

  lemma LinkOf(e: Env, v: View, m: Mem, txs: seq<Tx>, i: nat)
    requires Chained(e, m, txs) && GenesisOk(e, m) && HoldsChain(v, m) && i < |m.blocks|
    ensures HasBlock(v, m, i) && v.known[m.blocks[i].hash].height == i
    ensures i > 0 ==> v.known[m.blocks[i].hash].prevHash == m.blocks[i - 1].hash && HasBlock(v, m, i - 1)
  {
    hide LinkedBlock, IsLeafOf, GenesisOk, WorkOf, Peaks;
    BlockFacts(e, m, txs, i);
  }

  lemma {:induction false} BranchIsChain(e: Env, v: View, m: Mem, txs: seq<Tx>, leafOf: Leaves, i: nat)
    requires Chained(e, m, txs) && GenesisOk(e, m) && LeavesOfChain(m, leafOf)
    requires WellLinked(v) && HoldsChain(v, m) && i < |m.blocks|
    ensures HasBlock(v, m, i) && BranchLeaves(v, leafOf, m.blocks[i].hash) == m.leafHashes[..i + 1]
  {
    hide LinkedBlock, IsLeafOf, GenesisOk, WorkOf, Peaks, HoldsChain, WellLinked;
    LinkOf(e, v, m, txs, i);
    if i > 0 {
      BranchIsChain(e, v, m, txs, leafOf, i - 1);
      assert m.leafHashes[..i + 1] == m.leafHashes[..i] + [m.leafHashes[i]];
    }
  }

  lemma HeightsAreConsecutive(e: Env, v: View, m: Mem, txs: seq<Tx>)
    requires Chained(e, m, txs) && GenesisOk(e, m) && WellLinked(v) && HoldsChain(v, m)
    ensures ConsecutiveKnown(v)
  {
    hide Chained, GenesisOk, WellLinked, BlockHash, SatisfiesTarget, Root;
    forall k | k in v.known && v.known[k].height != 0 && v.known[k].prevHash in v.known
      ensures v.known[k].height == v.known[v.known[k].prevHash].height + 1
    {
      var i :| 0 <= i < |m.blocks| && m.blocks[i].hash == k;
      assert HasBlock(v, m, i);
      BlockFacts(e, m, txs, i);
      BlockFacts(e, m, txs, i - 1);
      assert HasBlock(v, m, i - 1);
    }
  }

  lemma HashesDiffer(e: Env, v: View, m: Mem, txs: seq<Tx>, i: nat, j: nat)
    requires Chained(e, m, txs) && GenesisOk(e, m) && Consistent(v) && HoldsChain(v, m)
    requires i < |m.blocks| && j < |m.blocks| && m.blocks[i].hash == m.blocks[j].hash
    ensures i == j
  {
    hide Chained, GenesisOk, Consistent, WorkOf;
    FollowedWork(e, v, m, txs, i);
    FollowedWork(e, v, m, txs, j);
  }

  /** The server answers for the chain's blocks and nothing else. */
  ghost predicate ServesChain(served: Served, m: Mem, txs: seq<Tx>)
    requires |txs| == |m.blocks|
  {
    && (forall i :: 0 <= i < |m.blocks| ==> ServesBlock(served, m, txs, i))
    && (forall k :: k in served ==> exists i :: 0 <= i < |m.blocks| && m.blocks[i].hash == k)
  }

  ghost predicate ServesBlock(served: Served, m: Mem, txs: seq<Tx>, i: nat)
    requires i < |txs| == |m.blocks|
  {
    var b := m.blocks[i];
    b.hash in served && served[b.hash] == Block(b.header, b.hash, txs[i])
  }

  /** The first n transactions are ones a client of the stream takes. */
  predicate AllAcceptable(e: Env, streamId: Bytes, txs: seq<Tx>, n: nat)
    requires n <= |txs|
  {
    forall i :: 0 <= i < n ==> Acceptable(e, streamId, txs[i])
  }

  /** Block i of the chain is finalized with the summits of the leaves up to it. */
  ghost predicate Finalized(e: Env, u: View, m: Mem, i: nat)
    requires Shaped(m) && i < |m.blocks|
  {
    && m.blocks[i].hash in u.headers && u.headers[m.blocks[i].hash].finalized
    && u.headers[m.blocks[i].hash].peaks == Peaks(e.sha, m.leafHashes[..i + 1])
  }

  lemma ReadyForLoop(c: ClientConfig, v: View, m: Mem, txs: seq<Tx>, served: Served, leafOf: Leaves)
    requires Chained(c.e, m, txs) && GenesisOk(c.e, m) && LeavesOfChain(m, leafOf) && ServesChain(served, m, txs)
    requires Consistent(v) && HeadersOnly(v) && HoldsChain(v, m)
    ensures LoopReady(c, v, leafOf) && ServesRequested(v, served) && LeavesMatch(c.e, served, leafOf)
  {
    hide LinkedBlock, GenesisOk, AllWorkAdds, Selected, ParentFirst, WorkOf, Peaks, ConsecutiveKnown;
    HeightsAreConsecutive(c.e, v, m, txs);
    forall k | k in served
      ensures k in v.headers ==> served[k].hash == k && k in v.known && served[k].header == v.known[k]
      ensures LeafMatches(c.e, served, leafOf, k)
    {
      var i :| 0 <= i < |m.blocks| && m.blocks[i].hash == k;
      assert HasBlock(v, m, i) && ServesBlock(served, m, txs, i);
      assert IsLeafOf(c.e, m.leafHashes[i], txs[i]);
    }
  }

  /** A block of the chain is good exactly when its transaction is acceptable. */
  lemma GoodExactly(c: ClientConfig, v: View, m: Mem, txs: seq<Tx>, served: Served, leafOf: Leaves, i: nat)
    requires Chained(c.e, m, txs) && GenesisOk(c.e, m) && LeavesOfChain(m, leafOf) && ServesChain(served, m, txs)
    requires WellLinked(v) && HeadersOnly(v) && HoldsChain(v, m) && i < |m.blocks|
    ensures HasBlock(v, m, i) && ServesBlock(served, m, txs, i)
    ensures Good(c, v, served, leafOf, m.blocks[i].hash) <==> Acceptable(c.e, c.streamId, txs[i])
  {
    hide LinkedBlock, IsLeafOf, GenesisOk, LeavesOfChain, WellLinked, Acceptable, Root, BranchLeaves, WorkOf, Peaks;
    BlockFacts(c.e, m, txs, i);
    assert ServesBlock(served, m, txs, i);
    BranchIsChain(c.e, v, m, txs, leafOf, i);
  }

  /** Where the loop over a held chain stops, if it does. */
  ghost predicate ChainVerdict(c: ClientConfig, txs: seq<Tx>, r: LoopOutcome) {
    match r
    case Finished => AllAcceptable(c.e, c.streamId, txs, |txs|)
    case FetchFailed(_) => false
    case BlockFailed(h, outcome) =>
      h < |txs| && AllAcceptable(c.e, c.streamId, txs, h) && !Acceptable(c.e, c.streamId, txs[h])
      && outcome == BodyError(c.e, txs[h])
  }

  /** What the loop says of the headers it says of the chain's transactions. */
  lemma VerdictOnChain(c: ClientConfig, v: View, m: Mem, txs: seq<Tx>, served: Served, leafOf: Leaves, r: LoopOutcome)
    requires Chained(c.e, m, txs) && GenesisOk(c.e, m) && LeavesOfChain(m, leafOf) && ServesChain(served, m, txs)
    requires Consistent(v) && HeadersOnly(v) && HoldsChain(v, m)
    requires forall i :: 0 <= i < |m.blocks| ==> IsActive(v, m.blocks[i].hash)
    requires VerdictIs(c, v, served, leafOf, |txs|, r)
    ensures ChainVerdict(c, txs, r)
  {
    hide LinkedBlock, IsLeafOf, GenesisOk, LeavesOfChain, AllWorkAdds, Selected, ParentFirst, Good, Acceptable,
      BodyError, WorkOf, Peaks, HeadersOnly, HoldsChain, ServesChain, AllGoodBelow, AllAcceptable, ServesBlock;
    match r
    case Finished => GoodIsAcceptable(c, v, m, txs, served, leafOf, |txs|);
    case FetchFailed(h) =>
      var k :| LowestBad(c, v, served, leafOf, h, k) && k !in served;
      var i := IndexOf(c.e, v, m, txs, k);
      GoodExactly(c, v, m, txs, served, leafOf, i);
      assert ServesBlock(served, m, txs, i);
      ServedIsIn(served, m, txs, i);
    case BlockFailed(h, outcome) =>
      var k :| LowestBad(c, v, served, leafOf, h, k) && k in served && outcome == BodyError(c.e, served[k].tx);
      var i := IndexOf(c.e, v, m, txs, k);
      GoodExactly(c, v, m, txs, served, leafOf, i);
      ServedIsIn(served, m, txs, i);
      GoodIsAcceptable(c, v, m, txs, served, leafOf, h);
  }

  lemma ServedIsIn(served: Served, m: Mem, txs: seq<Tx>, i: nat)
    requires i < |txs| == |m.blocks| && ServesBlock(served, m, txs, i)
    ensures m.blocks[i].hash in served && served[m.blocks[i].hash].tx == txs[i]
  {
  }

  /** A stored header is the chain's block at its height. */
  lemma IndexOf(e: Env, v: View, m: Mem, txs: seq<Tx>, k: Bytes) returns (i: nat)
    requires Chained(e, m, txs) && GenesisOk(e, m) && Consistent(v) && HoldsChain(v, m) && k in v.headers
    ensures i < |m.blocks| && m.blocks[i].hash == k && v.headers[k].height == i
  {
    hide LinkedBlock, IsLeafOf, GenesisOk, Consistent, WorkOf, Peaks;
    KnownWhenStored(v, k);
    i :| 0 <= i < |m.blocks| && m.blocks[i].hash == k;
    FollowedWork(e, v, m, txs, i);
  }

  lemma GoodIsAcceptable(c: ClientConfig, v: View, m: Mem, txs: seq<Tx>, served: Served, leafOf: Leaves, n: nat)
    requires Chained(c.e, m, txs) && GenesisOk(c.e, m) && LeavesOfChain(m, leafOf) && ServesChain(served, m, txs)
    requires Consistent(v) && HeadersOnly(v) && HoldsChain(v, m) && n <= |txs|
    requires forall i :: 0 <= i < |m.blocks| ==> IsActive(v, m.blocks[i].hash)
    requires AllGoodBelow(c, v, served, leafOf, n)
    ensures AllAcceptable(c.e, c.streamId, txs, n)
  {
    hide LinkedBlock, IsLeafOf, GenesisOk, LeavesOfChain, AllWorkAdds, Selected, ParentFirst, Good, Acceptable,
      WorkOf, Peaks, HeadersOnly, HoldsChain, ServesChain;
    forall i | 0 <= i < n
      ensures Acceptable(c.e, c.streamId, txs[i])
    {
      FollowedWork(c.e, v, m, txs, i);
      GoodExactly(c, v, m, txs, served, leafOf, i);
    }
  }

  /** After the loop each block carries the summits of the leaves up to it. */
  lemma LoopFinalizes(c: ClientConfig, w: View, u: View, m: Mem, txs: seq<Tx>, leafOf: Leaves, i: nat)
    requires Chained(c.e, m, txs) && GenesisOk(c.e, m) && LeavesOfChain(m, leafOf) && i < |m.blocks|
    requires Consistent(w) && HoldsChain(w, m) && IsActive(w, m.blocks[i].hash)
    requires LoopStage(c, w, u, leafOf, |m.blocks|)
    ensures Finalized(c.e, u, m, i)
  {
    hide LinkedBlock, IsLeafOf, GenesisOk, LeavesOfChain, AllWorkAdds, Selected, Peaks, WorkOf, ConsecutiveKnown,
      ParentFirst, BranchLeaves;
    FollowedWork(c.e, w, m, txs, i);
    SameTreeSameActive(w, u, i, m.blocks[i].hash);
    SameTreeHolds(w, u, m);
    BranchIsChain(c.e, u, m, txs, leafOf, i);
    assert FinalizedOk(c.e.sha, u, leafOf, m.blocks[i].hash);
  }

  lemma SameTreeHolds(w: View, u: View, m: Mem)
    requires SameTree(w, u) && HoldsChain(w, m)
    ensures HoldsChain(u, m)
  {
    forall j | 0 <= j < |m.blocks|
      ensures HasBlock(u, m, j)
    {
      assert HasBlock(w, m, j);
    }
  }

  /** The finalization phase over a tree that holds the chain: the loop finishes exactly when every
      transaction is acceptable, otherwise it stops at the first that is not, with that body's error; and
      when it finishes every block carries the summits of the leaves up to it. */
  lemma BodyPhase(c: ClientConfig, w: View, m: Mem, txs: seq<Tx>, served: Served, leafOf: Leaves)
    requires Chained(c.e, m, txs) && GenesisOk(c.e, m) && LeavesOfChain(m, leafOf) && ServesChain(served, m, txs)
    requires Consistent(w) && HeadersOnly(w) && HoldsChain(w, m)
    requires forall i :: 0 <= i < |m.blocks| ==> IsActive(w, m.blocks[i].hash)
    ensures var (u, r) := FinalizeLoop(c, w, served, |m.blocks|);
      && ChainVerdict(c, txs, r)
      && (r == Finished ==>
            SameTree(w, u) && Consistent(u) && forall i :: 0 <= i < |m.blocks| ==> Finalized(c.e, u, m, i))
  {
    hide LinkedBlock, IsLeafOf, GenesisOk, LeavesOfChain, AllWorkAdds, Selected, ParentFirst, HeadersOnly, HoldsChain,
      ServesChain, LoopReady, ServesRequested, LeavesMatch, VerdictIs, ChainVerdict, FinalizeLoop, IsActive, SameTree,
      Finalized, Peaks, WorkOf;
    ReadyForLoop(c, w, m, txs, served, leafOf);
    LoopExactly(c, w, served, leafOf, |m.blocks|);
    var (u, r) := FinalizeLoop(c, w, served, |m.blocks|);
    VerdictOnChain(c, w, m, txs, served, leafOf, r);
    if r == Finished {
      ReadyIsConsistent(c, u, leafOf);
      forall i | 0 <= i < |m.blocks|
        ensures Finalized(c.e, u, m, i)
      {
        LoopFinalizes(c, w, u, m, txs, leafOf, i);
      }
    }
  }

  lemma ReadyIsConsistent(c: ClientConfig, v: View, leafOf: Leaves)
    requires LoopReady(c, v, leafOf)
    ensures Consistent(v)
  {
  }
}
