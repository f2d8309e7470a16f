/** The two ends together: a fresh client catching up from a running server. */
module ClientFollowsServer {
  import opened ByteStrings
  import opened Mmr
  import opened Wire
  import opened HeaderTree
  import opened HeaderTreeProofs
  import opened Finalization
  import opened FinalizationLoop
  import opened ChainManagement
  import opened Ledger
  import opened LedgerInvariants
  import opened LedgerHistory
  import opened LedgerRuns
  import opened Peer
  import opened Convergence
  import opened CatchUp

  // ----- a catch-up -----

  /** The leaf of each block of the chain, by hash. */
  ghost function LeafTable(m: Mem): Leaves {
    k => if exists i :: 0 <= i < |m.blocks| && i < |m.leafHashes| && m.blocks[i].hash == k
         then var i :| 0 <= i < |m.blocks| && i < |m.leafHashes| && m.blocks[i].hash == k; m.leafHashes[i]
         else []
  }

  lemma LeafTableFits(e: Env, m: Mem, txs: seq<Tx>, v: View)
    requires Chained(e, m, txs) && GenesisOk(e, m) && Consistent(v) && HoldsChain(v, m)
    ensures LeavesOfChain(m, LeafTable(m))
  {
    hide LinkedBlock, IsLeafOf, GenesisOk, Consistent, HoldsChain, WorkOf, Peaks;
    forall i | 0 <= i < |m.blocks|
      ensures LeafTable(m)(m.blocks[i].hash) == m.leafHashes[i]
    {
      var j :| 0 <= j < |m.blocks| && j < |m.leafHashes| && m.blocks[j].hash == m.blocks[i].hash
               && LeafTable(m)(m.blocks[i].hash) == m.leafHashes[j];
      HashesDiffer(e, v, m, txs, i, j);
    }
  }

  ghost predicate SameStream(txs: seq<Tx>, streamId: Bytes) {
    forall i :: 0 <= i < |txs| ==> txs[i].body.streamId == streamId
  }

  /** What a client that applied and finalized the served chain knows. */
  ghost predicate CaughtUp(e: Env, v: View, u: View, m: Mem)
    requires Shaped(m)
  {
    && SameTree(v, u) && Consistent(u)
    && (forall i :: 0 <= i < |m.blocks| ==> Finalized(e, u, m, i))
    && TipHash(m) in u.headers && u.headers[TipHash(m)].peaks == m.peaks
  }

  /** The table of the chain's leaves serves for the loop over the followed tree. */
  lemma FollowedIsReady(c: ClientConfig, m: Mem, txs: seq<Tx>, served: Served)
    requires Followable(c.e, m, txs) && AllWorthwhile(m) && ServesChain(served, m, txs)
    ensures var v := Followed(c.e, m);
      && LeavesOfChain(m, LeafTable(m)) && LoopReady(c, v, LeafTable(m))
      && ServesRequested(v, served) && LeavesMatch(c.e, served, LeafTable(m))
  {
    hide LinkedBlock, IsLeafOf, GenesisOk, CollisionFree, AllWorthwhile, Consistent, HeadersOnly, HoldsChain,
      IsActive, IsBest, ServesChain, LoopReady, ServesRequested, LeavesMatch, Deliver, Peaks, WorkOf;
    HeaderPhase(c.e, m, txs);
    LeafTableFits(c.e, m, txs, Followed(c.e, m));
    ReadyForLoop(c, Followed(c.e, m), m, txs, served, LeafTable(m));
  }

  lemma BodiesOf(c: ClientConfig, m: Mem, txs: seq<Tx>, served: Served)
    requires Followable(c.e, m, txs) && AllWorthwhile(m) && ServesChain(served, m, txs)
    ensures var v := Followed(c.e, m);
      var (u, r) := FinalizeLoop(c, v, served, |m.blocks|);
      ChainVerdict(c, txs, r) && (r == Finished ==> CaughtUp(c.e, v, u, m))
  {
    hide LinkedBlock, IsLeafOf, GenesisOk, CollisionFree, AllWorthwhile, Consistent, HeadersOnly, HoldsChain,
      IsActive, IsBest, ServesChain, ChainVerdict, FinalizeLoop, Peaks, LeavesOfChain, WorkOf, SameTree, Deliver;
    HeaderPhase(c.e, m, txs);
    var v := Followed(c.e, m);
    LeafTableFits(c.e, m, txs, v);
    BodyPhase(c, v, m, txs, served, LeafTable(m));
    var (u, r) := FinalizeLoop(c, v, served, |m.blocks|);
    if r == Finished {
      assert m.leafHashes[..|m.blocks|] == m.leafHashes;
      assert Finalized(c.e, u, m, |m.blocks| - 1);
    }
  }

  predicate IsSigned(e: Env, tx: Tx) {
    HasId(e, tx) && SignatureVerifies(e, tx)
  }

  /** Every transaction after genesis carries its own id and a signature that verifies. */
  ghost predicate AllSigned(e: Env, txs: seq<Tx>) {
    forall i :: 1 <= i < |txs| ==> IsSigned(e, txs[i])
  }

  lemma ReachableIsSigned(l: Launch, s: Server)
    requires Startable(l) && LedgerRuns.Reachable(l, s)
    ensures AllSigned(l.e, s.txs)
  {
    hide Startable, LedgerRuns.Reachable, HasId, SignatureVerifies;
    forall i | 1 <= i < |s.txs|
      ensures IsSigned(l.e, s.txs[i])
    {
      BlocksWereChecked(l, s, i);
    }
  }

  /** What is served: a running server's chain from a valid genesis block, without hash clashes among its
      headers, every block worth something, and the chain's blocks on request. */
  ghost predicate Serves(l: Launch, s: Server, served: Served) {
    && Startable(l) && LedgerRuns.Reachable(l, s) && GenesisOk(l.e, SeedServer(l).mem)
    && CollisionFree(l.e, HeadersOf(s.mem)) && AllWorthwhile(s.mem)
    && |s.txs| == |s.mem.blocks| && ServesChain(served, s.mem, s.txs)
  }

  lemma ServesFollowable(l: Launch, s: Server, served: Served)
    requires Serves(l, s, served)
    ensures Followable(l.e, s.mem, s.txs) && AllWorthwhile(s.mem) && AllSigned(l.e, s.txs)
    ensures |s.txs| == |s.mem.blocks| == |s.mem.leafHashes| > 0 && ServesChain(served, s.mem, s.txs)
  {
    hide LinkedBlock, IsLeafOf, GenesisOk, CollisionFree, AllWorthwhile, Mirrored, Recorded, Vouched, ServesChain,
      AllSigned;
    ReachableInvariant(l, s);
    ReachableGenesis(l, s);
    ReachableIsSigned(l, s);
  }

  /**
   A fresh client that applies the headers of a running server from genesis on has the server's chain
   as its active chain, with the server's work. The loop that finalizes it finishes exactly when the
   genesis transaction is genuine and every transaction names the client's stream, which the server does
   not check; otherwise it stops at the first that does not; and when it finishes the client holds the
   server's accumulator at every height.
   */
  lemma ClientCatchesUp(l: Launch, s: Server, streamId: Bytes, served: Served)
    requires Serves(l, s, served)
    ensures |s.txs| == |s.mem.blocks| == |s.mem.leafHashes| > 0
    ensures var v := Followed(l.e, s.mem);
      && HoldsChain(v, s.mem) && IsBest(v.headers, TipHash(s.mem))
      && v.headers[TipHash(s.mem)].chainwork == s.mem.chainwork
      && forall i :: 0 <= i < |s.mem.blocks| ==> IsActive(v, s.mem.blocks[i].hash)
    ensures var c := ClientConfig(l.e, s.mem.genesisHash, streamId);
      var (u, r) := FinalizeLoop(c, Followed(l.e, s.mem), served, |s.mem.blocks|);
      && (r == Finished <==> IsSigned(l.e, s.txs[0]) && SameStream(s.txs, streamId))
      && (r == Finished ==> CaughtUp(l.e, Followed(l.e, s.mem), u, s.mem))
      && ChainVerdict(c, s.txs, r)
  {
    hide Chained, GenesisOk, CollisionFree, AllWorthwhile, HoldsChain, IsActive, IsBest, FinalizeLoop, CaughtUp,
      Consistent, HeadersOnly, Serves, AllSigned, ServesChain, AllAcceptable, Acceptable;
    var c := ClientConfig(l.e, s.mem.genesisHash, streamId);
    ServesFollowable(l, s, served);
    HeaderPhase(l.e, s.mem, s.txs);
    BodiesOf(c, s.mem, s.txs, served);
    SignedAndSame(l.e, s.txs, streamId);
    VerdictFinishes(c, s.txs, FinalizeLoop(c, Followed(l.e, s.mem), served, |s.mem.blocks|).1);
  }

  lemma VerdictFinishes(c: ClientConfig, txs: seq<Tx>, r: LoopOutcome)
    requires ChainVerdict(c, txs, r)
    ensures r == Finished <==> AllAcceptable(c.e, c.streamId, txs, |txs|)
  {
    hide Acceptable;
  }

  lemma SignedAndSame(e: Env, txs: seq<Tx>, streamId: Bytes)
    requires AllSigned(e, txs) && |txs| > 0
    ensures AllAcceptable(e, streamId, txs, |txs|) <==> IsSigned(e, txs[0]) && SameStream(txs, streamId)
  {
    hide HasId, SignatureVerifies;
    if AllAcceptable(e, streamId, txs, |txs|) {
      assert Acceptable(e, streamId, txs[0]);
      assert forall i :: 0 <= i < |txs| ==> Acceptable(e, streamId, txs[i]);
    }
  }

  // ----- the manager's own run -----

  function HashesOf(m: Mem): (hashes: seq<Bytes>)
    ensures |hashes| == |m.blocks|
    ensures forall i :: 0 <= i < |hashes| ==> hashes[i] == m.blocks[i].hash
  {
    seq(|m.blocks|, i requires 0 <= i < |m.blocks| => m.blocks[i].hash)
  }

  /** Applying the next header is accepted and follows the chain one block further. */
  lemma FollowStep(e: Env, m: Mem, txs: seq<Tx>, i: nat)
    requires Followable(e, m, txs) && i < |m.blocks|
    ensures var headers := HeadersOf(m);
      var v := Deliver(e, m.genesisHash, headers[..i]);
      && NoClash(e, v, headers[i])
      && ApplyHeader(e, m.genesisHash, v, headers[i], m.blocks[i].hash)
         == (Deliver(e, m.genesisHash, headers[..i + 1]), Done)
  {
    hide Chained, GenesisOk, SelfValid, Consistent, HeadersOnly, BlockHash, CheckHeader, NoClash, Knows;
    var headers := HeadersOf(m);
    var upTo, before := headers[..i + 1], headers[..i];
    ServedInOrder(e, m, txs);
    PrefixIsServed(e, m, i);
    assert upTo[..i] == before && upTo[i] == headers[i];
    PrefixInOrder(e, m.genesisHash, upTo);
    DeliveryAccepted(e, m.genesisHash, before);
    var v := Deliver(e, m.genesisHash, before);
    LastIsNew(e, v, upTo);
    LastIsAccepted(e, m.genesisHash, v, before, headers[i]);
    BlockFacts(e, m, txs, i);
    ApplyIs(e, m.genesisHash, v, headers[i], m.blocks[i].hash);
  }

  lemma PrefixIsServed(e: Env, m: Mem, i: nat)
    requires InParentFirstOrder(e, m.genesisHash, HeadersOf(m)) && CollisionFree(e, HeadersOf(m)) && i < |m.blocks|
    ensures InParentFirstOrder(e, m.genesisHash, HeadersOf(m)[..i + 1]) && CollisionFree(e, HeadersOf(m)[..i + 1])
  {
    hide SelfValid, BlockHash;
    var headers := HeadersOf(m);
    forall j | 0 <= j < i + 1
      ensures SelfValid(e, m.genesisHash, headers[..i + 1][j])
      ensures headers[j].height != 0 ==> HasHash(e, headers[..i + 1][..j], headers[j].prevHash)
    {
      assert headers[..i + 1][j] == headers[j] && headers[..i + 1][..j] == headers[..j];
    }
  }

  lemma EmptyFollows(e: Env, genesis: Bytes)
    ensures Deliver(e, genesis, []) == EMPTY && AllAuthentic(e, genesis, EMPTY)
  {
  }

  /** The highest active header is the server's tip. */
  lemma TipHeight(e: Env, m: Mem, txs: seq<Tx>, v: View, k: Bytes)
    requires Chained(e, m, txs) && GenesisOk(e, m) && Consistent(v) && HoldsChain(v, m)
    requires IsActive(v, TipHash(m)) && IsActive(v, k)
    requires v.headers[TipHash(m)].height <= v.headers[k].height
    ensures v.headers[k].height == |m.blocks| - 1
  {
    hide LinkedBlock, IsLeafOf, GenesisOk, Consistent, HoldsChain, WorkOf, Peaks;
    FollowedWork(e, v, m, txs, |m.blocks| - 1);
    var i := IndexOf(e, v, m, txs, k);
  }

  /** best is what ActiveTip answers on v. */
  ghost predicate IsActiveTip(v: View, best: Option<VerifiedHeader>) {
    match best
    case None => forall k :: !IsActive(v, k)
    case Some(h) =>
      && IsActive(v, h.hash) && v.headers[h.hash] == h
      && forall k :: IsActive(v, k) ==> v.headers[k].height <= h.height
  }

  lemma FollowedTip(e: Env, m: Mem, txs: seq<Tx>, best: Option<VerifiedHeader>)
    requires Followable(e, m, txs) && AllWorthwhile(m) && IsActiveTip(Followed(e, m), best)
    ensures best.Some? && best.value.height + 1 == |m.blocks|
  {
    hide LinkedBlock, IsLeafOf, GenesisOk, CollisionFree, AllWorthwhile, Consistent, HeadersOnly, HoldsChain, IsBest,
      IsActive, Peaks, WorkOf, Followed;
    HeaderPhase(e, m, txs);
    assert IsActive(Followed(e, m), TipHash(m));
    TipHeight(e, m, txs, Followed(e, m), best.value.hash);
  }

  /** The header phase: every served header is applied in order, and each is accepted. */
  method TakeHeaders(mgr: ChainManager, headers: seq<Header>, hashes: seq<Bytes>, ghost m: Mem, ghost txs: seq<Tx>)
    requires mgr.Valid() && mgr.View() == EMPTY && mgr.store.genesis == m.genesisHash
    requires Followable(mgr.e, m, txs) && headers == HeadersOf(m) && hashes == HashesOf(m)
    modifies mgr, mgr.store
    ensures mgr.Valid() && mgr.View() == Followed(mgr.e, m)
    ensures AllAuthentic(mgr.e, m.genesisHash, mgr.View())
  {
    hide Followable, Deliver, NoClash, WellLinked, HeaderTree.ApplyHeader, Authentic;
    assert headers[..0] == [];
    EmptyFollows(mgr.e, m.genesisHash);
    for i := 0 to |headers|
      invariant mgr.Valid() && mgr.View() == Deliver(mgr.e, m.genesisHash, headers[..i])
      invariant AllAuthentic(mgr.e, m.genesisHash, mgr.View())
    {
      FollowStep(mgr.e, m, txs, i);
      ApplyKeepsAuthentic(mgr.e, m.genesisHash, mgr.View(), headers[i], hashes[i]);
      var outcome := mgr.ApplyHeader(headers[i], hashes[i]);
      assert outcome == Done;
    }
    assert headers[..|headers|] == headers;
  }

  /**
   A fresh manager catches up: it applies the served headers, each accepted, takes the active tip and
   finalizes the active chain from the served blocks. What ClientCatchesUp says of the loop holds of the
   manager's own tree and result.
   */
  method FollowServer(
    mgr: ChainManager, headers: seq<Header>, hashes: seq<Bytes>, served: Served, ghost l: Launch, ghost s: Server)
    returns (r: LoopOutcome)
    requires mgr.Valid() && mgr.View() == EMPTY && mgr.e == l.e && mgr.store.genesis == s.mem.genesisHash
    requires Serves(l, s, served) && headers == HeadersOf(s.mem) && hashes == HashesOf(s.mem)
    modifies mgr, mgr.store
    ensures mgr.Valid() && |s.mem.blocks| == |s.mem.leafHashes| > 0
    ensures r == Finished <==> IsSigned(l.e, s.txs[0]) && SameStream(s.txs, mgr.streamId)
    ensures r == Finished ==> CaughtUp(l.e, Followed(l.e, s.mem), mgr.View(), s.mem)
    ensures ChainVerdict(ClientConfig(l.e, s.mem.genesisHash, mgr.streamId), s.txs, r)
  {
    hide Serves, Followable, AllWorthwhile, ServesChain, AllSigned, Deliver, NoClash, CaughtUp, IsSigned, SameStream,
      ChainVerdict, FinalizeLoop, HoldsChain, WellLinked, VerdictIs, HeaderTree.ApplyHeader, LoopReady,
      ServesRequested, LeavesMatch, IsBest, Authentic, Finalized, HeadersOnly, Consistent;
    ServesFollowable(l, s, served);
    TakeHeaders(mgr, headers, hashes, s.mem, s.txs);
    FollowedIsReady(mgr.Configuration(), s.mem, s.txs, served);
    var tip := mgr.store.ActiveTip();
    FollowedTip(l.e, s.mem, s.txs, tip);
    r := mgr.FinalizeActiveChain(tip.value, served, LeafTable(s.mem));
    ClientCatchesUp(l, s, mgr.streamId, served);
  }
}
