/**
 The chain manager: applies headers, finalizes blocks and reselects the active chain, step by step
 on the store. Each method is proved to carry out its function of HeaderTree on the store's view.
 */
module ChainManagement {
  import opened ByteStrings
  import opened Mmr
  import opened Chainwork
  import opened Wire
  import opened HeaderTree
  import opened HeaderTreeProofs
  import opened Finalization
  import opened FinalizationLoop
  import opened ChainStore

  /** k is active, and every other header has less work, or as much and a smaller hash. */
  ghost predicate Leads(hs: Headers, k: Bytes)
    requires k in hs
  {
    && hs[k].status == Active
    && forall j :: j in hs && j != k ==>
         hs[j].chainwork < hs[k].chainwork || (hs[j].chainwork == hs[k].chainwork && Value(j) < Value(k))
  }

  lemma MarkedLeads(before: Headers, hs: Headers, active: set<Bytes>, k: Bytes)
    requires hs == Mark(before, active) && k in before && k in active && Keyed(before) && k == Best(before)
    ensures AllDigestKeys(hs) ==> Leads(hs, k)
  {
    if AllDigestKeys(hs) {
      assert forall j :: j in before ==> j in hs;
      BestIsHeaviest(before, k);
    }
  }

  predicate NotAbove(h: VerifiedHeader, best: VerifiedHeader) {
    h.hash == best.hash || Better(best, h)
  }

  class ChainManager {
    const e: Env
    const store: MemChainStore
    const genesisTarget: Bytes
    const streamId: Bytes
    ghost var known: map<Bytes, Header>
    ghost var rank: map<Bytes, nat>

    ghost function View(): View
      reads this, store
    {
      HeaderTree.View.View(store.byHash, known, rank)
    }

    ghost predicate Valid()
      reads this, store
    {
      store.Valid() && WellLinked(View())
    }

    constructor (e: Env, store: MemChainStore, genesisTarget: Bytes, streamId: Bytes)
      requires store.Valid() && store.byHash == map[]
      ensures Valid() && View() == EMPTY
      ensures this.e == e && this.store == store && this.genesisTarget == genesisTarget && this.streamId == streamId
    {
      this.e, this.store, this.genesisTarget, this.streamId := e, store, genesisTarget, streamId;
      known, rank := map[], map[];
    }

    /** Record the genesis header, which the caller has verified to be genesisHeader. */
    method SeedGenesis(hash: Bytes, prevHash: Bytes, mmrRoot: Bytes, peaks: seq<Bytes>, ghost genesisHeader: Header)
      requires Valid() && View() == EMPTY
      requires BlockHash(e, genesisHeader) == hash && genesisHeader.height == 0
      requires genesisHeader.prevHash == prevHash && genesisHeader.mmrRoot == mmrRoot
      modifies this, store
      ensures Valid() && View() == SeedView(genesisHeader, hash, genesisTarget, peaks)
      ensures store.byHash.Keys == {hash}
      ensures var r := store.byHash[hash];
        && r.height == 0 && r.hash == hash && r.prevHash == prevHash && r.mmrRoot == mmrRoot
        && r.chainwork == BlockWork(genesisTarget) && r.status == Active && r.peaks == peaks && r.finalized
    {
      store.Put(VerifiedHeader(0, hash, prevHash, mmrRoot, BlockWork(genesisTarget), Active, peaks, true));
      known, rank := map[hash := genesisHeader], map[hash := 0];
    }

    method ApplyHeader(header: Header, blockHash: Bytes) returns (outcome: Outcome)
      requires Valid() && NoClash(e, View(), header)
      modifies this, store
      ensures Valid()
      ensures (View(), outcome) == HeaderTree.ApplyHeader(e, store.genesis, old(View()), header, blockHash)
    {
      var recomputed := BlockHash(e, header);
      if recomputed != blockHash {
        return Failed(MalformedHeader);
      }
      if !SatisfiesTarget(e, header) {
        return Failed(InsufficientWork);
      }
      if header.height == 0 {
        if !IsZero(header.prevHash) {
          return Failed(MalformedHeader);
        }
        if blockHash != store.genesis {
          return Failed(ChainMismatch);
        }
      } else {
        var parent := store.GetByHash(header.prevHash);
        if parent == None {
          return Failed(MissingParent);
        }
        if header.prevHash != parent.value.hash {
          return Failed(MalformedHeader);
        }
      }
      InsertLinked(View(), header, blockHash);
      ghost var inserted := Insert(View(), header, blockHash);
      store.Put(NewRecord(store.byHash, header, blockHash));
      known, rank := inserted.known, inserted.rank;
      RecomputeActive();
      outcome := Done;
    }

    /** Verify a block body against its header and extend the parent's peaks. */
    method FinalizeBlock(header: Header, blockHash: Bytes, tx: Tx) returns (outcome: Outcome)
      requires Valid() && NoClash(e, View(), header)
      modifies this, store
      ensures Valid()
      ensures (View(), outcome)
        == HeaderTree.FinalizeBlock(e, store.genesis, streamId, old(View()), header, blockHash, tx)
    {
      hide CheckHeader, FinalizeStored, WellLinked, Indexes;
      var found := store.GetByHash(blockHash);
      if found == None {
        outcome := ApplyHeader(header, blockHash);
        if outcome != Done {
          return;
        }
        found := store.GetByHash(blockHash);
      }
      outcome := FinalizeFound(found.value, header, tx);
    }

    /** The checks of a block body, up to the first that fails. */
    method CheckTransaction(header: Header, tx: Tx) returns (r: BodyCheck)
      requires Valid()
      ensures r == CheckBody(e, streamId, store.byHash, header, tx)
    {
      var recomputedId := TransactionId(e, tx.body);
      if recomputedId == None {
        return Errors(InvalidTransaction);
      }
      if recomputedId.value != tx.id {
        return Rejects;
      }
      if !SignatureVerifies(e, tx) {
        return Rejects;
      }
      if tx.body.streamId != streamId {
        return Rejects;
      }
      var parentPeaks: seq<Bytes> := [];
      if header.height != 0 {
        var parent := store.GetByHash(header.prevHash);
        if parent == None {
          return Errors(MissingParent);
        }
        parentPeaks := parent.value.peaks;
      }
      var txHash := TransactionHash(e, tx);
      if txHash == None {
        return Errors(InvalidTransaction);
      }
      var newPeaks := AddLeaf(e.sha, parentPeaks, LeafHash(e, txHash.value), header.height);
      var root := MmrRootFromPeaks(e.sha, newPeaks);
      if root != header.mmrRoot {
        return Rejects;
      }
      r := Fits(newPeaks);
    }

    /** The part of FinalizeBlock after the header is in the store. */
    method FinalizeFound(stored: VerifiedHeader, header: Header, tx: Tx) returns (outcome: Outcome)
      requires Valid() && stored.hash in store.byHash && store.byHash[stored.hash] == stored
      modifies this, store
      ensures Valid()
      ensures (View(), outcome) == FinalizeStored(e, streamId, old(View()), header, stored.hash, tx)
    {
      if stored.finalized {
        return Done;
      }
      hide CheckBody, Indexes, ParentFirst, Recompute, Ancestors, Ranked;
      var check := CheckTransaction(header, tx);
      match check {
        case Errors(why) =>
          outcome := Failed(why);
        case Rejects =>
          RemoveHeader(stored);
          outcome := Failed(MalformedHeader);
        case Fits(newPeaks) =>
          SameRecords(View(), StoreBody(View(), stored.hash, newPeaks));
          store.Put(stored.(peaks := newPeaks, finalized := true));
          outcome := Done;
      }
    }

    /** The headers displaced by the active chain. */
    method OrphanedHeaders() returns (out: seq<VerifiedHeader>)
      requires Valid()
      ensures forall h :: h in out <==> h.hash in store.byHash && store.byHash[h.hash] == h && h.status == Orphaned
    {
      var all := store.All();
      out := [];
      for i := 0 to |all|
        invariant forall h :: h in out <==> h in all[..i] && h.status == Orphaned
      {
        assert all[..i + 1] == all[..i] + [all[i]];
        if all[i].status == Orphaned {
          out := out + [all[i]];
        }
      }
      assert all[..|all|] == all;
    }

    ghost function Configuration(): ClientConfig {
      ClientConfig(e, store.genesis, streamId)
    }

    ghost predicate ReadyToFinalize(leafOf: Leaves)
      reads this, store
    {
      Valid() && LoopReady(Configuration(), View(), leafOf) && AllAuthentic(e, store.genesis, View())
    }

    /** Fetch and finalize the active header at height h, if there is one. The server answers from the
        table served, a request for a stored header with that header's block. */
    method FinalizeAt(h: nat, served: Served, ghost leafOf: Leaves) returns (r: LoopOutcome)
      requires ReadyToFinalize(leafOf) && ActiveFinalizedBelow(View(), h)
      requires ServesRequested(View(), served) && LeavesMatch(e, served, leafOf)
      modifies this, store
      ensures Valid()
      ensures (View(), r) == LoopTurn(Configuration(), old(View()), served, h)
      ensures r == Finished ==>
        ReadyToFinalize(leafOf) && ActiveFinalizedBelow(View(), h + 1) && SameTree(old(View()), View())
    {
      hide CheckBody, FinalizeStored, LoopReady, Recompute, Indexes, BlockHash, SatisfiesTarget, SameTree,
        LeavesMatch, ActiveFinalizedBelow;
      ghost var v := View();
      var vh := store.GetByHeight(h);
      if vh == None || vh.value.status != Active {
        assert ActiveAt(v, h) == None;
        TurnKeeps(Configuration(), v, served, leafOf, h);
        return Finished;
      }
      var hash := vh.value.hash;
      ActiveAtIs(Configuration(), v, leafOf, h, hash);
      if hash !in served {
        return FetchFailed(h);
      }
      var blk := served[hash];
      assert blk.hash == hash && Authentic(e, store.genesis, hash, v.known[hash]);
      ghost var expected := FinalizeStored(e, streamId, v, blk.header, hash, blk.tx);
      assert HeaderTree.FinalizeBlock(e, store.genesis, streamId, v, blk.header, hash, blk.tx) == expected;
      var outcome := FinalizeBlock(blk.header, hash, blk.tx);
      if outcome != Done {
        return BlockFailed(h, outcome);
      }
      assert View() == expected.0;
      TurnKeeps(Configuration(), v, served, leafOf, h);
      SameTreeSameKnown(v, View());
      r := Finished;
    }

    /**
     Finalize the active chain from genesis up. The result and the tree are those of FinalizeLoop: it
     finishes exactly when every active header up to the tip has a served body that fits or is finalized
     already, and otherwise stops at the lowest that has not. On success every active header up to the
     tip carries the summits of its branch, and no header changed its mark or work.
     */
    method FinalizeActiveChain(tip: VerifiedHeader, served: Served, ghost leafOf: Leaves) returns (r: LoopOutcome)
      requires ReadyToFinalize(leafOf)
      requires ServesRequested(View(), served) && LeavesMatch(e, served, leafOf)
      modifies this, store
      ensures Valid()
      ensures (View(), r) == FinalizeLoop(Configuration(), old(View()), served, tip.height + 1)
      ensures VerdictIs(Configuration(), old(View()), served, leafOf, tip.height + 1, r)
      ensures r == Finished ==>
        ReadyToFinalize(leafOf) && SameTree(old(View()), View()) && ActiveFinalizedBelow(View(), tip.height + 1)
    {
      hide LoopReady, AllAuthentic, Indexes, WellLinked, LeavesMatch, LoopTurn, VerdictIs;
      ghost var before := View();
      LoopExactly(Configuration(), before, served, leafOf, tip.height + 1);
      for h := 0 to tip.height + 1
        invariant ReadyToFinalize(leafOf) && SameTree(before, View()) && ActiveFinalizedBelow(View(), h)
        invariant ServesRequested(View(), served)
        invariant (View(), Finished) == FinalizeLoop(Configuration(), before, served, h)
      {
        ghost var v := View();
        r := FinalizeAt(h, served, leafOf);
        if r != Finished {
          LoopStops(Configuration(), before, served, h + 1, tip.height + 1);
          return;
        }
        SameTreeTransitive(before, v, View());
        StageServes(Configuration(), v, View(), served);
      }
      r := Finished;
    }

    method RemoveHeader(h: VerifiedHeader)
      requires Valid() && h.hash in store.byHash && store.byHash[h.hash] == h
      modifies this, store
      ensures Valid() && View() == HeaderTree.RemoveHeader(old(View()), h.hash)
    {
      SameRecords(View(), View().(headers := View().headers - {h.hash}));
      store.Remove(h);
      RecomputeActive();
    }

    /** Select the best header, walk back from it, and mark that path active and the rest orphaned. */
    method RecomputeActive()
      requires Valid()
      modifies store
      ensures Valid() && View() == Reselect(old(View()))
      ensures AllDigestKeys(store.byHash) && store.byHash != map[] ==>
        exists k :: k in store.byHash && Leads(store.byHash, k)
    {
      ghost var before := View();
      LinkedIsRanked(before);
      var headers := store.All();
      if |headers| == 0 {
        assert store.byHash == map[];
        return;
      }
      var best := BestOf(headers);
      var activeSet := WalkBack(best);
      ghost var after := Reselect(before);
      assert after.headers == Mark(before.headers, activeSet);
      MarkAll(headers, activeSet);
      assert View() == after;
      assert AllDigestKeys(store.byHash) ==> Leads(store.byHash, best.hash) by {
        MarkedLeads(before.headers, store.byHash, activeSet, best.hash);
      }
    }

    /** The maximum of a listing, whatever its order. */
    method BestOf(headers: seq<VerifiedHeader>) returns (best: VerifiedHeader)
      requires Valid() && Lists(headers, store.byHash) && |headers| > 0
      ensures best.hash in store.byHash && store.byHash[best.hash] == best
      ensures Keyed(store.byHash) && store.byHash != map[] && best.hash == Best(store.byHash)
      ensures AllDigestKeys(store.byHash) ==>
        forall h :: h in headers && h.hash != best.hash ==>
          h.chainwork < best.chainwork || (h.chainwork == best.chainwork && Value(h.hash) < Value(best.hash))
    {
      hide WellLinked, Indexes, Keyed, AllDigestKeys, IsBest;
      best := headers[0];
      for i := 1 to |headers|
        invariant best in headers
        invariant forall j :: 0 <= j < i ==> NotAbove(headers[j], best)
      {
        BetterIsStrictTotalOrder(headers[i], best, best);
        if SelectBest(headers[i].chainwork, headers[i].hash, best.chainwork, best.hash) {
          forall j | 0 <= j < i
            ensures NotAbove(headers[j], headers[i])
          {
            BetterIsStrictTotalOrder(headers[i], best, headers[j]);
          }
          best := headers[i];
        }
      }
      NothingAbove(headers, store.byHash, best);
    }

    /** The walk from the best header to genesis; it ends because a parent is recorded before its child. */
    method WalkBack(best: VerifiedHeader) returns (activeSet: set<Bytes>)
      requires Valid() && best.hash in store.byHash && store.byHash[best.hash] == best
      ensures Ranked(store.byHash, rank) && activeSet == Ancestors(store.byHash, rank, best.hash)
    {
      LinkedIsRanked(View());
      activeSet := {};
      var cur := best;
      while true
        invariant cur.hash in store.byHash && store.byHash[cur.hash] == cur
        invariant activeSet + Ancestors(store.byHash, rank, cur.hash) == Ancestors(store.byHash, rank, best.hash)
        decreases rank[cur.hash]
      {
        activeSet := activeSet + {cur.hash};
        if cur.height == 0 {
          break;
        }
        var parent := store.GetByHash(cur.prevHash);
        if parent == None {
          break;
        }
        cur := parent.value;
      }
    }

    method MarkAll(headers: seq<VerifiedHeader>, activeSet: set<Bytes>)
      requires store.Valid() && Lists(headers, store.byHash)
      modifies store
      ensures store.Valid() && store.byHash == Mark(old(store.byHash), activeSet)
    {
      hide MarkedUpTo, Lists, Indexes;
      ghost var before := store.byHash;
      ghost var marked := Mark(before, activeSet);
      NoneMarked(headers, before, marked);
      for i := 0 to |headers|
        invariant store.Valid() && store.byHash.Keys == before.Keys
        invariant MarkedUpTo(headers, i, store.byHash, marked)
      {
        var h := headers[i];
        MarkNext(headers, i, before, store.byHash, marked);
        assert marked[h.hash] == h.(status := if h.hash in activeSet then Active else Orphaned);
        store.Put(h.(status := if h.hash in activeSet then Active else Orphaned));
      }
      AllMarked(headers, before, store.byHash, marked);
    }
  }

  lemma SameTreeSameKnown(v: View, w: View)
    requires SameTree(v, w)
    ensures w.known == v.known
  {
  }

  /** Once the loop has failed it stays failed. */
  lemma {:induction false} LoopStops(c: ClientConfig, v: View, served: Served, i: nat, n: nat)
    requires WellLinked(v) && i <= n && FinalizeLoop(c, v, served, i).1 != Finished
    ensures FinalizeLoop(c, v, served, n) == FinalizeLoop(c, v, served, i)
    decreases n
  {
    hide LoopTurn;
    if i < n {
      LoopStops(c, v, served, i, n - 1);
    }
  }

  /** The first i listed headers carry their new marks and the others are as listed. */
  ghost predicate MarkedUpTo(headers: seq<VerifiedHeader>, i: nat, hs: Headers, marked: Headers)
    requires i <= |headers|
  {
    && (forall j :: 0 <= j < i ==> IsMarked(headers[j].hash, hs, marked))
    && (forall j :: i <= j < |headers| ==> headers[j].hash in hs && hs[headers[j].hash] == headers[j])
  }

  ghost predicate IsMarked(k: Bytes, hs: Headers, marked: Headers) {
    k in hs && k in marked && hs[k] == marked[k]
  }

  /** The listed header no other is above is the best of the store. */
  lemma NothingAbove(headers: seq<VerifiedHeader>, hs: Headers, best: VerifiedHeader)
    requires Keyed(hs) && Lists(headers, hs) && best in headers
    requires forall j :: 0 <= j < |headers| ==> NotAbove(headers[j], best)
    ensures best.hash in hs && hs[best.hash] == best && best.hash == Best(hs)
    ensures AllDigestKeys(hs) ==> forall h :: h in headers && h.hash != best.hash ==>
      h.chainwork < best.chainwork || (h.chainwork == best.chainwork && Value(h.hash) < Value(best.hash))
  {
    assert IsBest(hs, best.hash);
    BestIsUnique(hs, best.hash, Best(hs));
    if AllDigestKeys(hs) {
      BestIsHeaviest(hs, best.hash);
    }
  }

  lemma NoneMarked(headers: seq<VerifiedHeader>, before: Headers, marked: Headers)
    requires Lists(headers, before)
    ensures MarkedUpTo(headers, 0, before, marked)
  {
  }

  lemma MarkNext(headers: seq<VerifiedHeader>, i: nat, before: Headers, hs: Headers, marked: Headers)
    requires i < |headers| && Lists(headers, before) && before.Keys == marked.Keys
    requires MarkedUpTo(headers, i, hs, marked)
    ensures headers[i].hash in before && before[headers[i].hash] == headers[i]
    ensures headers[i].hash in hs && hs[headers[i].hash] == headers[i]
    ensures MarkedUpTo(headers, i + 1, hs[headers[i].hash := marked[headers[i].hash]], marked)
  {
    var h := headers[i];
    var next := hs[h.hash := marked[h.hash]];
    forall j | 0 <= j < i + 1
      ensures IsMarked(headers[j].hash, next, marked)
    {
      assert j < i ==> IsMarked(headers[j].hash, hs, marked);
    }
  }

  lemma AllMarked(headers: seq<VerifiedHeader>, before: Headers, hs: Headers, marked: Headers)
    requires Lists(headers, before) && hs.Keys == before.Keys == marked.Keys
    requires MarkedUpTo(headers, |headers|, hs, marked)
    ensures hs == marked
  {
    forall k | k in hs
      ensures hs[k] == marked[k]
    {
      var i :| 0 <= i < |headers| && headers[i].hash == k;
      assert IsMarked(headers[i].hash, hs, marked);
    }
  }
}
