/**
 The ascending loop that finalizes the active chain, as a function on views, and its exact outcome:
 it finishes when every active header has a served body that fits, and otherwise stops at the lowest
 one that has not, with that one's error.
 */
module FinalizationLoop {
  import opened ByteStrings
  import opened Mmr
  import opened Wire
  import opened HeaderTree
  import opened HeaderTreeProofs
  import opened Finalization
  import opened FinalizeFailures

  datatype LoopOutcome = Finished | FetchFailed(height: nat) | BlockFailed(height: nat, outcome: Outcome)

  /** The blocks the server answers with, by hash. */
  type Served = map<Bytes, Block>

  // ----- the loop -----

  ghost predicate IsActiveAt(v: View, h: nat, k: Bytes) {
    IsActive(v, k) && v.headers[k].height == h
  }

  ghost function ActiveAt(v: View, h: nat): (r: Option<Bytes>)
    ensures r.Some? ==> IsActiveAt(v, h, r.value)
    ensures r == None ==> forall k :: !IsActiveAt(v, h, k)
  {
    if exists k :: IsActiveAt(v, h, k) then
      var k :| IsActiveAt(v, h, k);
      Some(k)
    else None
  }

  /** Fetch the active header's block at height h and finalize it. */
  ghost function LoopTurn(c: ClientConfig, v: View, served: Served, h: nat): (r: (View, LoopOutcome))
    requires WellLinked(v)
    ensures WellLinked(r.0)
  {
    match ActiveAt(v, h)
    case None => (v, Finished)
    case Some(k) =>
      if k !in served then (v, FetchFailed(h))
      else
        var (w, outcome) := FinalizeStored(c.e, c.streamId, v, served[k].header, k, served[k].tx);
        (w, if outcome == Done then Finished else BlockFailed(h, outcome))
  }

  ghost function FinalizeLoop(c: ClientConfig, v: View, served: Served, n: nat): (r: (View, LoopOutcome))
    requires WellLinked(v)
    ensures WellLinked(r.0)
  {
    if n == 0 then (v, Finished)
    else
      var (u, r) := FinalizeLoop(c, v, served, n - 1);
      if r != Finished then (u, r) else LoopTurn(c, u, served, n - 1)
  }

  // ----- what the loop needs, and keeps -----

  /** The tree before the loop: consistent, with consecutive heights, and finalized peaks as they should be. */
  ghost predicate LoopReady(c: ClientConfig, v: View, leafOf: Leaves) {
    Consistent(v) && AllFinalizedOk(c.e.sha, v, leafOf) && ConsecutiveKnown(v)
  }

  /** An answer for a stored header is that header's block. */
  ghost predicate ServesRequested(v: View, served: Served) {
    forall k :: k in served && k in v.headers ==> served[k].hash == k && k in v.known && served[k].header == v.known[k]
  }

  ghost predicate LeavesMatch(e: Env, served: Served, leafOf: Leaves) {
    forall k :: k in served ==> LeafMatches(e, served, leafOf, k)
  }

  ghost predicate LeafMatches(e: Env, served: Served, leafOf: Leaves, k: Bytes)
    requires k in served
  {
    TransactionHash(e, served[k].tx).Some? ==> leafOf(k) == LeafHash(e, TransactionHash(e, served[k].tx).value)
  }

  lemma ActiveAtIs(c: ClientConfig, v: View, leafOf: Leaves, h: nat, k: Bytes)
    requires LoopReady(c, v, leafOf) && IsActiveAt(v, h, k)
    ensures ActiveAt(v, h) == Some(k)
  {
    hide AllFinalizedOk, AllWorkAdds, Selected, ParentFirst;
    ConsecutiveFromKnown(v);
    LinkedIsRanked(v);
    OneActivePerHeight(v, k, ActiveAt(v, h).value);
  }

  lemma SameTreeTransitive(u: View, v: View, w: View)
    requires SameTree(u, v) && SameTree(v, w)
    ensures SameTree(u, w)
  {
  }

  lemma SameTreeSameActive(v: View, w: View, h: nat, k: Bytes)
    requires SameTree(v, w)
    ensures IsActiveAt(v, h, k) <==> IsActiveAt(w, h, k)
  {
    assert k in v.headers ==> WithoutBody(w.headers[k]) == WithoutBody(v.headers[k]);
  }

  // ----- one turn -----

  /** The header's served body fits, or the header is finalized already. */
  ghost predicate Good(c: ClientConfig, v: View, served: Served, leafOf: Leaves, k: Bytes)
    requires WellLinked(v) && k in v.headers
  {
    && k in served
    && (v.headers[k].finalized ||
         (Acceptable(c.e, c.streamId, served[k].tx) && Root(c.e.sha, BranchLeaves(v, leafOf, k)) == v.known[k].mmrRoot))
  }

  /** The error of a served body that does not fit. */
  function BodyError(e: Env, tx: Tx): Outcome {
    Failed(if ValidBody(e, tx.body) then MalformedHeader else InvalidTransaction)
  }

  lemma TurnReady(c: ClientConfig, v: View, served: Served, leafOf: Leaves, h: nat, k: Bytes)
    requires LoopReady(c, v, leafOf) && ServesRequested(v, served) && LeavesMatch(c.e, served, leafOf)
    requires ActiveFinalizedBelow(v, h) && IsActiveAt(v, h, k) && k in served
    ensures Ready(c.e, v, leafOf, served[k].header, k, served[k].tx)
    ensures ParentStored(v.headers, served[k].header) && v.known[k] == served[k].header
  {
    hide AllFinalizedOk, Selected, ParentFirst;
    assert WorkAdds(v, k);
    assert LeafMatches(c.e, served, leafOf, k);
    if v.headers[k].height != 0 {
      ParentOfActiveIsActive(v, k);
      ConsecutiveFromKnown(v);
    }
  }

  lemma TurnOutcome(c: ClientConfig, v: View, served: Served, leafOf: Leaves, h: nat, k: Bytes)
    requires LoopReady(c, v, leafOf) && ServesRequested(v, served) && LeavesMatch(c.e, served, leafOf)
    requires ActiveFinalizedBelow(v, h) && IsActiveAt(v, h, k) && k in served
    ensures FinalizeStored(c.e, c.streamId, v, served[k].header, k, served[k].tx).1 ==
      if Good(c, v, served, leafOf, k) then Done else BodyError(c.e, served[k].tx)
  {
    hide LoopReady, ServesRequested, LeavesMatch, ActiveFinalizedBelow, CheckBody, Root, BranchLeaves, RemoveHeader,
      ValidBody;
    assert WellLinked(v) by { ReadyIsLinked(c, v, leafOf); }
    TurnReady(c, v, served, leafOf, h, k);
    CheckBodyExactly(c.e, c.streamId, v.headers, served[k].header, served[k].tx);
    BodyFits(c, v, served, leafOf, k);
    RejectedIsValid(c.e, c.streamId, v.headers, served[k].header, served[k].tx);
  }

  lemma ReadyIsLinked(c: ClientConfig, v: View, leafOf: Leaves)
    requires LoopReady(c, v, leafOf)
    ensures WellLinked(v)
  {
  }

  lemma BodyFits(c: ClientConfig, v: View, served: Served, leafOf: Leaves, k: Bytes)
    requires LoopReady(c, v, leafOf) && k in served && k in v.known && v.known[k] == served[k].header
    requires Ready(c.e, v, leafOf, served[k].header, k, served[k].tx)
    ensures CheckBody(c.e, c.streamId, v.headers, served[k].header, served[k].tx).Fits? <==>
      && Acceptable(c.e, c.streamId, served[k].tx)
      && Root(c.e.sha, BranchLeaves(v, leafOf, k)) == v.known[k].mmrRoot
  {
    hide WellLinked, AllFinalizedOk, ConsecutiveKnown, CheckBody, Root, BranchLeaves, Ready, HasId, SignatureVerifies;
    BodyFitsExactly(c.e, c.streamId, v, leafOf, served[k].header, k, served[k].tx);
    if Acceptable(c.e, c.streamId, served[k].tx) {
      AcceptableEncodes(c.e, c.streamId, served[k].tx);
    }
  }

  /** After a successful turn everything still holds, one height further. */
  lemma TurnKeeps(c: ClientConfig, v: View, served: Served, leafOf: Leaves, h: nat)
    requires LoopReady(c, v, leafOf) && ServesRequested(v, served) && LeavesMatch(c.e, served, leafOf)
    requires ActiveFinalizedBelow(v, h) && LoopTurn(c, v, served, h).1 == Finished
    ensures var w := LoopTurn(c, v, served, h).0;
      && LoopReady(c, w, leafOf) && SameTree(v, w) && ActiveFinalizedBelow(w, h + 1)
      && forall k :: k in v.headers && v.headers[k].height != h ==> w.headers[k] == v.headers[k]
  {
    hide LoopReady, ServesRequested, LeavesMatch, FinalizeStored, SameTree, WellLinked;
    match ActiveAt(v, h)
    case None => NothingActive(v, h);
    case Some(k) => FinalizedKeeps(c, v, served, leafOf, h, k);
  }

  lemma NothingActive(v: View, h: nat)
    requires ActiveFinalizedBelow(v, h) && forall k :: !IsActiveAt(v, h, k)
    ensures SameTree(v, v) && ActiveFinalizedBelow(v, h + 1)
  {
    forall k | IsActive(v, k) && v.headers[k].height < h + 1
      ensures v.headers[k].finalized
    {
      assert !IsActiveAt(v, h, k);
    }
  }

  lemma FinalizedKeeps(c: ClientConfig, v: View, served: Served, leafOf: Leaves, h: nat, k: Bytes)
    requires LoopReady(c, v, leafOf) && ServesRequested(v, served) && LeavesMatch(c.e, served, leafOf)
    requires ActiveFinalizedBelow(v, h) && IsActiveAt(v, h, k) && k in served
    requires FinalizeStored(c.e, c.streamId, v, served[k].header, k, served[k].tx).1 == Done
    ensures var w := FinalizeStored(c.e, c.streamId, v, served[k].header, k, served[k].tx).0;
      && LoopReady(c, w, leafOf) && SameTree(v, w) && ActiveFinalizedBelow(w, h + 1)
      && forall j :: j in v.headers && v.headers[j].height != h ==> w.headers[j] == v.headers[j]
  {
    hide FinalizeStored, AllWorkAdds, Selected, ParentFirst, FinalizedOk, BranchLeaves, SameTree, ServesRequested,
      ActiveFinalizedBelow;
    TurnReady(c, v, served, leafOf, h, k);
    assert LeafMatches(c.e, served, leafOf, k);
    assert k in v.known by { KnownHeader(v, k); }
    FinalizeTurn(c, v, leafOf, served[k].header, k, served[k].tx);
    TurnCovers(c, v, FinalizeStored(c.e, c.streamId, v, served[k].header, k, served[k].tx).0, leafOf, h, k);
  }

  lemma KnownHeader(v: View, k: Bytes)
    requires WellLinked(v) && k in v.headers
    ensures k in v.known
  {
  }

  lemma TurnCovers(c: ClientConfig, v: View, w: View, leafOf: Leaves, h: nat, k: Bytes)
    requires LoopReady(c, v, leafOf) && SameTree(v, w) && ActiveFinalizedBelow(v, h) && IsActiveAt(v, h, k)
    requires k in w.headers && w.headers[k].finalized
    requires forall j :: j in v.headers && j != k ==> w.headers[j] == v.headers[j]
    ensures ActiveFinalizedBelow(w, h + 1)
  {
    hide LoopReady;
    forall j | IsActive(w, j) && w.headers[j].height < h + 1
      ensures w.headers[j].finalized
    {
      SameTreeSameActive(v, w, w.headers[j].height, j);
      if w.headers[j].height == h {
        ActiveAtIs(c, v, leafOf, h, j);
        ActiveAtIs(c, v, leafOf, h, k);
      }
    }
  }

  // ----- the whole loop -----

  /** Every active header below height h is good. */
  ghost predicate AllGoodBelow(c: ClientConfig, v: View, served: Served, leafOf: Leaves, h: nat)
    requires WellLinked(v)
  {
    forall k :: IsActive(v, k) && v.headers[k].height < h ==> Good(c, v, served, leafOf, k)
  }

  /** The active header at height h is the lowest that is not good. */
  ghost predicate LowestBad(c: ClientConfig, v: View, served: Served, leafOf: Leaves, h: nat, k: Bytes)
    requires WellLinked(v)
  {
    AllGoodBelow(c, v, served, leafOf, h) && IsActiveAt(v, h, k) && !Good(c, v, served, leafOf, k)
  }

  /** A header not reached yet is as good as it was. */
  lemma GoodIsStable(c: ClientConfig, v: View, u: View, served: Served, leafOf: Leaves, k: Bytes)
    requires WellLinked(v) && WellLinked(u) && SameTree(v, u) && k in v.headers && u.headers[k] == v.headers[k]
    ensures Good(c, u, served, leafOf, k) <==> Good(c, v, served, leafOf, k)
  {
    hide ParentFirst, Acceptable, Root, WithoutBody;
    BranchIsStable(v, u, leafOf, k);
  }

  /** What the loop has done after n heights. */
  ghost predicate LoopStage(c: ClientConfig, v: View, u: View, leafOf: Leaves, n: nat) {
    && LoopReady(c, u, leafOf) && SameTree(v, u) && ActiveFinalizedBelow(u, n)
    && forall k :: k in v.headers && v.headers[k].height >= n ==> u.headers[k] == v.headers[k]
  }

  ghost predicate VerdictIs(c: ClientConfig, v: View, served: Served, leafOf: Leaves, n: nat, r: LoopOutcome)
    requires WellLinked(v)
  {
    match r
    case Finished => AllGoodBelow(c, v, served, leafOf, n)
    case FetchFailed(h) => h < n && exists k :: LowestBad(c, v, served, leafOf, h, k) && k !in served
    case BlockFailed(h, outcome) =>
      h < n && exists k :: LowestBad(c, v, served, leafOf, h, k) && k in served && outcome == BodyError(c.e, served[k].tx)
  }

  lemma StageServes(c: ClientConfig, v: View, u: View, served: Served)
    requires SameTree(v, u) && ServesRequested(v, served)
    ensures ServesRequested(u, served)
  {
  }

  lemma OneTurn(c: ClientConfig, v: View, u: View, served: Served, leafOf: Leaves, n: nat)
    requires WellLinked(v) && LoopStage(c, v, u, leafOf, n)
    requires ServesRequested(v, served) && LeavesMatch(c.e, served, leafOf) && AllGoodBelow(c, v, served, leafOf, n)
    ensures VerdictIs(c, v, served, leafOf, n + 1, LoopTurn(c, u, served, n).1)
  {
    hide LoopReady, ServesRequested, LeavesMatch, ActiveFinalizedBelow, SameTree, FinalizeStored, Good, WellLinked;
    assert WellLinked(u) by { ReadyIsLinked(c, u, leafOf); }
    StageServes(c, v, u, served);
    match ActiveAt(u, n)
    case None =>
      forall k | IsActive(v, k) && v.headers[k].height < n + 1
        ensures Good(c, v, served, leafOf, k)
      {
        SameTreeSameActive(v, u, n, k);
        assert !IsActiveAt(u, n, k);
      }
    case Some(k) =>
      SameTreeSameActive(v, u, n, k);
      GoodIsStable(c, v, u, served, leafOf, k);
      if k in served {
        TurnOutcome(c, u, served, leafOf, n, k);
      } else {
        UnservedIsBad(c, v, served, leafOf, k);
      }
      if Good(c, v, served, leafOf, k) {
        GoodAtHeight(c, v, u, served, leafOf, n, k);
      } else {
        assert LowestBad(c, v, served, leafOf, n, k);
      }
  }

  lemma UnservedIsBad(c: ClientConfig, v: View, served: Served, leafOf: Leaves, k: Bytes)
    requires WellLinked(v) && k in v.headers && k !in served
    ensures !Good(c, v, served, leafOf, k)
  {
  }

  lemma GoodAtHeight(c: ClientConfig, v: View, u: View, served: Served, leafOf: Leaves, n: nat, k: Bytes)
    requires WellLinked(v) && LoopReady(c, u, leafOf) && SameTree(v, u)
    requires AllGoodBelow(c, v, served, leafOf, n) && IsActiveAt(v, n, k) && Good(c, v, served, leafOf, k)
    ensures AllGoodBelow(c, v, served, leafOf, n + 1)
  {
    hide LoopReady, SameTree, Good, WellLinked;
    forall j | IsActive(v, j) && v.headers[j].height < n + 1
      ensures Good(c, v, served, leafOf, j)
    {
      if v.headers[j].height == n {
        SameTreeSameActive(v, u, n, j);
        SameTreeSameActive(v, u, n, k);
        ActiveAtIs(c, u, leafOf, n, j);
        ActiveAtIs(c, u, leafOf, n, k);
      }
    }
  }

  lemma FirstStage(c: ClientConfig, v: View, leafOf: Leaves)
    requires LoopReady(c, v, leafOf)
    ensures LoopStage(c, v, v, leafOf, 0)
  {
  }

  lemma NextStage(c: ClientConfig, v: View, u: View, served: Served, leafOf: Leaves, n: nat)
    requires WellLinked(v) && LoopStage(c, v, u, leafOf, n)
    requires ServesRequested(v, served) && LeavesMatch(c.e, served, leafOf)
    ensures WellLinked(u)
    ensures LoopTurn(c, u, served, n).1 == Finished ==> LoopStage(c, v, LoopTurn(c, u, served, n).0, leafOf, n + 1)
  {
    hide LoopReady, ServesRequested, LeavesMatch, ActiveFinalizedBelow, LoopTurn, WellLinked;
    ReadyIsLinked(c, u, leafOf);
    StageServes(c, v, u, served);
    if LoopTurn(c, u, served, n).1 == Finished {
      TurnKeeps(c, u, served, leafOf, n);
      SameTreeTransitive(v, u, LoopTurn(c, u, served, n).0);
      forall k | k in v.headers
        ensures u.headers[k].height == v.headers[k].height
      {
        assert WithoutBody(u.headers[k]) == WithoutBody(v.headers[k]);
      }
    }
  }

  /** The loop over the first n heights finishes exactly when every active header there is good; otherwise
      it stops at the lowest that is not, because its block is missing or with its body's error. When it
      finishes, every active header there is finalized and the tree is the same. */
  lemma {:induction false} LoopExactly(c: ClientConfig, v: View, served: Served, leafOf: Leaves, n: nat)
    requires LoopReady(c, v, leafOf) && ServesRequested(v, served) && LeavesMatch(c.e, served, leafOf)
    ensures WellLinked(v)
    ensures var (u, r) := FinalizeLoop(c, v, served, n);
      && VerdictIs(c, v, served, leafOf, n, r)
      && (r == Finished ==> LoopStage(c, v, u, leafOf, n))
  {
    hide LoopReady, ServesRequested, LeavesMatch, LoopStage, LoopTurn, Good, WellLinked, BodyError;
    ReadyIsLinked(c, v, leafOf);
    if n == 0 {
      FirstStage(c, v, leafOf);
    } else {
      LoopExactly(c, v, served, leafOf, n - 1);
      var (u, r) := FinalizeLoop(c, v, served, n - 1);
      if r == Finished {
        OneTurn(c, v, u, served, leafOf, n - 1);
        NextStage(c, v, u, served, leafOf, n - 1);
      }
    }
  }
}
