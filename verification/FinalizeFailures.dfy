/**
 How finalizing a block fails. The documentation promises one error and that nothing verified
 advances; here is exactly when each half of that holds.
 */
module FinalizeFailures {
  import opened ByteStrings
  import opened Mmr
  import opened Chainwork
  import opened Wire
  import opened HeaderTree
  import opened HeaderTreeProofs

  // ----- the body -----

  predicate ParentStored(hs: Headers, header: Header) {
    header.height == 0 || header.prevHash in hs
  }

  /** The transaction completes the parent's peaks to the header's mmr_root. */
  predicate RootFits(e: Env, hs: Headers, header: Header, tx: Tx)
    requires ParentStored(hs, header) && TransactionHash(e, tx).Some?
  {
    var parentPeaks := if header.height == 0 then [] else hs[header.prevHash].peaks;
    Bag(e.sha, Carry(e.sha, parentPeaks, LeafHash(e, TransactionHash(e, tx).value), header.height)) == header.mmrRoot
  }

  /** The body is malformed, or it is good but there is no parent to extend. */
  predicate BodyErrs(e: Env, streamId: Bytes, hs: Headers, header: Header, tx: Tx) {
    !ValidBody(e, tx.body) || (Acceptable(e, streamId, tx) && !ParentStored(hs, header))
  }

  /** The body is well formed but not the stream's own, or does not fit the header's root. */
  predicate BodyRejected(e: Env, streamId: Bytes, hs: Headers, header: Header, tx: Tx) {
    && ValidBody(e, tx.body)
    && (Acceptable(e, streamId, tx) ==>
          ParentStored(hs, header) && (TransactionHash(e, tx).Some? ==> !RootFits(e, hs, header, tx)))
  }

  lemma CheckBodyExactly(e: Env, streamId: Bytes, hs: Headers, header: Header, tx: Tx)
    ensures CheckBody(e, streamId, hs, header, tx).Errors? <==> BodyErrs(e, streamId, hs, header, tx)
    ensures CheckBody(e, streamId, hs, header, tx).Rejects? <==> BodyRejected(e, streamId, hs, header, tx)
    ensures CheckBody(e, streamId, hs, header, tx).Errors? ==>
      CheckBody(e, streamId, hs, header, tx).why == if ValidBody(e, tx.body) then MissingParent else InvalidTransaction
  {
    hide ValidBody, Carry, Bag, LeafHash;
    if Acceptable(e, streamId, tx) {
      AcceptableEncodes(e, streamId, tx);
    }
  }

  // ----- the header, when it is not stored yet -----

  predicate HeaderMalformed(e: Env, header: Header, hash: Bytes) {
    BlockHash(e, header) != hash || (SatisfiesTarget(e, header) && header.height == 0 && !IsZero(header.prevHash))
  }

  predicate HeaderAccepted(e: Env, genesis: Bytes, hs: Headers, header: Header, hash: Bytes) {
    && BlockHash(e, header) == hash && SatisfiesTarget(e, header)
    && (if header.height == 0 then IsZero(header.prevHash) && hash == genesis else header.prevHash in hs)
  }

  lemma CheckHeaderExactly(e: Env, genesis: Bytes, hs: Headers, header: Header, hash: Bytes)
    ensures CheckHeader(e, genesis, hs, header, hash) == Done <==> HeaderAccepted(e, genesis, hs, header, hash)
    ensures CheckHeader(e, genesis, hs, header, hash) == Failed(MalformedHeader) <==> HeaderMalformed(e, header, hash)
  {
  }

  /** Why a header with a 32-byte target is refused: its hash, its work, its parent, or its place at the root. */
  lemma HeaderFailuresExactly(e: Env, genesis: Bytes, hs: Headers, header: Header, hash: Bytes)
    requires |header.powTarget| == 32
    ensures var r := CheckHeader(e, genesis, hs, header, hash);
      var hashed, worked := BlockHash(e, header) == hash, !Greater(hash, header.powTarget);
      var rooted := forall i :: 0 <= i < |header.prevHash| ==> header.prevHash[i] == 0;
      && (r == Failed(InsufficientWork) <==> hashed && !worked)
      && (r == Failed(MissingParent) <==> hashed && worked && header.height != 0 && header.prevHash !in hs)
      && (r == Failed(ChainMismatch) <==> hashed && worked && header.height == 0 && rooted && hash != genesis)
      && (r == Failed(MalformedHeader) <==> !hashed || (worked && header.height == 0 && !rooted))
      && (r == Done <==>
            hashed && worked && if header.height == 0 then rooted && hash == genesis else header.prevHash in hs)
  {
    hide BlockHash, SatisfiesTarget;
    MeetsTargetExactly(e, header);
  }

  /** The record an accepted header leaves: unfinalized, with its work on top of its parent's, and its
      parent's peaks. */
  lemma AppliedRecordExactly(e: Env, genesis: Bytes, v: View, header: Header, hash: Bytes)
    requires WellLinked(v) && NoClash(e, v, header)
    requires CheckHeader(e, genesis, v.headers, header, hash) == Done
    ensures header.height != 0 ==> header.prevHash in v.headers
    ensures var w := ApplyHeader(e, genesis, v, header, hash).0;
      && hash in w.headers
      && var r := w.headers[hash];
         && r.height == header.height && r.hash == hash && r.prevHash == header.prevHash && r.mmrRoot == header.mmrRoot
         && !r.finalized
         && (header.height == 0 ==> r.chainwork == BlockWork(header.powTarget) && r.peaks == [])
         && (header.height != 0 ==>
               var parent := v.headers[header.prevHash];
               r.chainwork == parent.chainwork + BlockWork(header.powTarget) && r.peaks == parent.peaks)
  {
    hide CheckHeader, WellLinked, Reselect, ApplyHeader, BlockWork, NoClash;
    ApplyIs(e, genesis, v, header, hash);
    ReselectKeepsRecords(Insert(v, header, hash), hash);
  }

  /** Selecting the active chain changes marks only. */
  lemma ReselectKeepsRecords(v: View, k: Bytes)
    requires WellLinked(v)
    ensures Reselect(v).headers.Keys == v.headers.Keys
    ensures k in v.headers ==> Reselect(v).headers[k] == v.headers[k].(status := Reselect(v).headers[k].status)
  {
    hide ParentFirst, Ancestors;
    LinkedIsRanked(v);
  }

  /** Applying a header leaves the records of the others alone but for their marks. */
  lemma AppliedKeepsRecords(e: Env, genesis: Bytes, v: View, header: Header, hash: Bytes, k: Bytes)
    requires WellLinked(v) && NoClash(e, v, header) && hash !in v.headers && k in v.headers
    requires CheckHeader(e, genesis, v.headers, header, hash) == Done
    ensures var w := ApplyHeader(e, genesis, v, header, hash).0;
      k in w.headers && w.headers[k] == v.headers[k].(status := w.headers[k].status)
  {
    hide CheckHeader, WellLinked, Reselect, ApplyHeader, BlockWork;
    ApplyIs(e, genesis, v, header, hash);
    ReselectKeepsRecords(Insert(v, header, hash), k);
  }

  lemma InsertStores(v: View, header: Header, hash: Bytes)
    requires header.height != 0 ==> header.prevHash in v.headers
    ensures var w := Insert(v, header, hash);
      w.headers.Keys == v.headers.Keys + {hash} && !w.headers[hash].finalized
  {
  }

  lemma AppliedStores(e: Env, genesis: Bytes, v: View, header: Header, hash: Bytes)
    requires WellLinked(v) && NoClash(e, v, header)
    requires CheckHeader(e, genesis, v.headers, header, hash) == Done
    ensures var w := ApplyHeader(e, genesis, v, header, hash).0;
      w.headers.Keys == v.headers.Keys + {hash} && !w.headers[hash].finalized
  {
    hide CheckHeader, WellLinked, Reselect, ApplyHeader, BlockWork, NoClash, Insert;
    ApplyIs(e, genesis, v, header, hash);
    InsertStores(v, header, hash);
    ReselectKeepsRecords(Insert(v, header, hash), hash);
  }

  /** The verdict on the body is the same before and after its header is applied. */
  lemma SameVerdict(e: Env, genesis: Bytes, streamId: Bytes, v: View, header: Header, hash: Bytes, tx: Tx)
    requires WellLinked(v) && NoClash(e, v, header) && hash !in v.headers
    requires CheckHeader(e, genesis, v.headers, header, hash) == Done
    ensures var w := ApplyHeader(e, genesis, v, header, hash).0;
      CheckBody(e, streamId, w.headers, header, tx) == CheckBody(e, streamId, v.headers, header, tx)
  {
    hide WellLinked, Reselect, ApplyHeader, ValidBody, Carry, Bag;
    if header.height != 0 {
      AppliedKeepsRecords(e, genesis, v, header, hash, header.prevHash);
    }
  }

  // ----- the outcome -----

  /** Which error a failing call returns: the documented one exactly when the header is malformed or the
      body is rejected, another one in all other cases. */
  lemma FinalizeOutcomeExactly(e: Env, genesis: Bytes, streamId: Bytes, v: View, header: Header, hash: Bytes, tx: Tx)
    requires WellLinked(v) && NoClash(e, v, header)
    ensures var outcome := FinalizeBlock(e, genesis, streamId, v, header, hash, tx).1;
      if hash in v.headers then
        && (outcome == Failed(MalformedHeader) <==>
              !v.headers[hash].finalized && BodyRejected(e, streamId, v.headers, header, tx))
        && (outcome.Failed? && outcome.why != MalformedHeader <==>
              !v.headers[hash].finalized && BodyErrs(e, streamId, v.headers, header, tx))
      else
        var accepted := HeaderAccepted(e, genesis, v.headers, header, hash);
        && (outcome == Failed(MalformedHeader) <==>
              HeaderMalformed(e, header, hash) || (accepted && BodyRejected(e, streamId, v.headers, header, tx)))
        && (outcome.Failed? && outcome.why != MalformedHeader <==>
              (!HeaderMalformed(e, header, hash) && !accepted) || (accepted && !ValidBody(e, tx.body)))
  {
    hide WellLinked, CheckHeader, CheckBody, ApplyHeader, RemoveHeader, HeaderMalformed, HeaderAccepted, BodyRejected;
    CheckHeaderExactly(e, genesis, v.headers, header, hash);
    CheckBodyExactly(e, streamId, v.headers, header, tx);
    if hash !in v.headers {
      ApplyOutcome(e, genesis, v, header, hash);
      if CheckHeader(e, genesis, v.headers, header, hash) == Done {
        AppliedStores(e, genesis, v, header, hash);
        SameVerdict(e, genesis, streamId, v, header, hash, tx);
        AcceptedHasParent(e, genesis, v.headers, header, hash);
      } else {
        AcceptedIsNotMalformed(e, genesis, v.headers, header, hash);
      }
    }
  }

  lemma ApplyOutcome(e: Env, genesis: Bytes, v: View, header: Header, hash: Bytes)
    requires WellLinked(v) && NoClash(e, v, header)
    ensures var outcome := CheckHeader(e, genesis, v.headers, header, hash);
      && ApplyHeader(e, genesis, v, header, hash).1 == outcome
      && (outcome != Done ==> ApplyHeader(e, genesis, v, header, hash).0 == v)
  {
  }

  lemma AcceptedHasParent(e: Env, genesis: Bytes, hs: Headers, header: Header, hash: Bytes)
    requires HeaderAccepted(e, genesis, hs, header, hash)
    ensures ParentStored(hs, header) && !HeaderMalformed(e, header, hash)
  {
  }

  lemma AcceptedIsNotMalformed(e: Env, genesis: Bytes, hs: Headers, header: Header, hash: Bytes)
    ensures !(HeaderAccepted(e, genesis, hs, header, hash) && HeaderMalformed(e, header, hash))
  {
  }

  // ----- what a failing call leaves behind -----

  /** Removing a header that was only just applied brings back the store from before. */
  lemma ApplyThenRemove(e: Env, genesis: Bytes, v: View, header: Header, hash: Bytes)
    requires Consistent(v) && NoClash(e, v, header) && hash !in v.headers
    requires CheckHeader(e, genesis, v.headers, header, hash) == Done
    ensures RemoveHeader(ApplyHeader(e, genesis, v, header, hash).0, hash).headers == v.headers
  {
    hide CheckHeader, AllWorkAdds, ApplyHeader, ParentFirst;
    var w := ApplyHeader(e, genesis, v, header, hash).0;
    AppliedStores(e, genesis, v, header, hash);
    var u := w.(headers := w.headers - {hash});
    SameRecords(w, u);
    assert RemoveHeader(w, hash) == Reselect(u);
    forall k | k in v.headers
      ensures k in u.headers && u.headers[k] == v.headers[k].(status := u.headers[k].status)
    {
      AppliedKeepsRecords(e, genesis, v, header, hash, k);
    }
    SelectsTheSame(v, u);
  }

  /** A store that differs from a selected one in marks only becomes it by selecting again. */
  lemma SelectsTheSame(v: View, u: View)
    requires WellLinked(v) && Selected(v) && WellLinked(u) && u.headers.Keys == v.headers.Keys
    requires forall k :: k in v.headers ==> u.headers[k] == v.headers[k].(status := u.headers[k].status)
    ensures Reselect(u).headers == v.headers
  {
    hide ParentFirst;
    LinkedIsRanked(v);
    LinkedIsRanked(u);
    if v.headers != map[] {
      RecomputeOfShape(v.headers, v.rank, u.headers, u.rank);
      var path := Ancestors(v.headers, v.rank, Best(v.headers));
      assert v.headers == Mark(v.headers, path);
      assert Mark(u.headers, path) == Mark(v.headers, path);
    } else {
      assert u.headers == map[];
    }
  }

  /** A failing call leaves the stored headers as they were exactly when it neither dropped a stored
      header with a rejected body nor kept a new header whose body is malformed. */
  lemma FailureKeepsHeadersExactly(e: Env, genesis: Bytes, streamId: Bytes, v: View, header: Header, hash: Bytes, tx: Tx)
    requires Consistent(v) && NoClash(e, v, header)
    requires FinalizeBlock(e, genesis, streamId, v, header, hash, tx).1 != Done
    ensures FinalizeBlock(e, genesis, streamId, v, header, hash, tx).0.headers == v.headers <==>
      if hash in v.headers then !BodyRejected(e, streamId, v.headers, header, tx)
      else !(HeaderAccepted(e, genesis, v.headers, header, hash) && !ValidBody(e, tx.body))
  {
    hide WellLinked, AllWorkAdds, Selected, CheckHeader, CheckBody, ApplyHeader, RemoveHeader, HeaderMalformed,
      HeaderAccepted, BodyRejected, ValidBody;
    CheckHeaderExactly(e, genesis, v.headers, header, hash);
    CheckBodyExactly(e, streamId, v.headers, header, tx);
    if hash in v.headers {
      RemovedIsGone(v, hash);
    } else {
      ApplyOutcome(e, genesis, v, header, hash);
      if CheckHeader(e, genesis, v.headers, header, hash) == Done {
        AppliedStores(e, genesis, v, header, hash);
        SameVerdict(e, genesis, streamId, v, header, hash, tx);
        ApplyThenRemove(e, genesis, v, header, hash);
        AcceptedHasParent(e, genesis, v.headers, header, hash);
        RejectedIsValid(e, streamId, v.headers, header, tx);
      }
    }
  }

  lemma RemovedIsGone(v: View, k: Bytes)
    requires WellLinked(v)
    ensures k !in RemoveHeader(v, k).headers
  {
  }

  lemma RejectedIsValid(e: Env, streamId: Bytes, hs: Headers, header: Header, tx: Tx)
    ensures BodyRejected(e, streamId, hs, header, tx) ==> ValidBody(e, tx.body)
  {
  }

  // ----- a body under another header -----

  /** The peaks tx makes of the parent's. */
  function PeaksWith(e: Env, hs: Headers, header: Header, tx: Tx): seq<Bytes>
    requires ParentStored(hs, header) && TransactionHash(e, tx).Some?
  {
    var parentPeaks := if header.height == 0 then [] else hs[header.prevHash].peaks;
    Carry(e.sha, parentPeaks, LeafHash(e, TransactionHash(e, tx).value), header.height)
  }

  /** The answer's header is not compared with the stored one. Any transaction the stream takes finalizes
      any stored header, when it comes under that header with its root exchanged for its own. */
  lemma ForeignBodyFinalizes(e: Env, genesis: Bytes, streamId: Bytes, v: View, k: Bytes, tx: Tx)
    requires WellLinked(v) && k in v.headers && !v.headers[k].finalized && ParentStored(v.headers, v.known[k])
    requires Acceptable(e, streamId, tx)
    ensures TransactionHash(e, tx).Some?
    ensures var peaks := PeaksWith(e, v.headers, v.known[k], tx);
      var header := v.known[k].(mmrRoot := Bag(e.sha, peaks));
      && NoClash(e, v, header) ==>
        var (w, outcome) := FinalizeBlock(e, genesis, streamId, v, header, k, tx);
        outcome == Done && w.headers == v.headers[k := v.headers[k].(peaks := peaks, finalized := true)]
  {
    hide Carry, Bag;
    AcceptableEncodes(e, streamId, tx);
  }

  /** What a finalized header's peaks bag to is the root of the answer's header: the promised continuity
      holds exactly when that is the stored header's root. */
  lemma FinalizedRootExactly(e: Env, genesis: Bytes, streamId: Bytes, v: View, header: Header, k: Bytes, tx: Tx)
    requires WellLinked(v) && NoClash(e, v, header) && k in v.headers && !v.headers[k].finalized
    requires FinalizeBlock(e, genesis, streamId, v, header, k, tx).1 == Done
    ensures var w := FinalizeBlock(e, genesis, streamId, v, header, k, tx).0;
      && k in w.headers && w.headers[k].finalized && w.headers[k].mmrRoot == v.headers[k].mmrRoot
      && (Bag(e.sha, w.headers[k].peaks) == w.headers[k].mmrRoot <==> header.mmrRoot == v.headers[k].mmrRoot)
  {
    hide Carry;
  }

  /** A check the caller could make: an answer whose header hashes to the stored hash is the stored header,
      and then continuity holds. */
  lemma HashedAnswerKeepsRoot(e: Env, genesis: Bytes, streamId: Bytes, v: View, header: Header, k: Bytes, tx: Tx)
    requires WellLinked(v) && NoClash(e, v, header) && k in v.headers && !v.headers[k].finalized
    requires FinalizeBlock(e, genesis, streamId, v, header, k, tx).1 == Done && BlockHash(e, header) == k
    ensures header == v.known[k]
    ensures var w := FinalizeBlock(e, genesis, streamId, v, header, k, tx).0;
      k in w.headers && Bag(e.sha, w.headers[k].peaks) == w.headers[k].mmrRoot
  {
    hide Carry, Bag, FinalizeBlock, BlockHash;
    FinalizedRootExactly(e, genesis, streamId, v, header, k, tx);
  }
}
