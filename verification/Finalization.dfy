/**
 Finalized peaks: each finalized header carries the mountain summits of the leaves along its own
 branch, whichever branch is active, so a reorganisation exposes the new branch's accumulator.
 */
module Finalization {
  import opened Arith
  import opened ByteStrings
  import opened Mmr
  import opened InclusionProofs
  import opened Wire
  import opened HeaderTree
  import opened HeaderTreeProofs

  /** The leaf of each block's transaction, by block hash. */
  type Leaves = Bytes -> Bytes

  /** The leaves from genesis to k along k's own branch. */
  ghost function BranchLeaves(v: View, leafOf: Leaves, k: Bytes): seq<Bytes>
    requires WellLinked(v) && k in v.known
    decreases v.rank[k]
  {
    assert ParentFirst(v, k);
    (if v.known[k].height == 0 then [] else BranchLeaves(v, leafOf, v.known[k].prevHash)) + [leafOf(k)]
  }

  ghost predicate ConsecutiveKnown(v: View)
    requires WellLinked(v)
  {
    forall k :: k in v.known && v.known[k].height != 0 && v.known[k].prevHash in v.known
      ==> v.known[k].height == v.known[v.known[k].prevHash].height + 1
  }

  lemma {:induction false} BranchLength(v: View, leafOf: Leaves, k: Bytes)
    requires WellLinked(v) && ConsecutiveKnown(v) && k in v.known
    ensures |BranchLeaves(v, leafOf, k)| == v.known[k].height + 1
    decreases v.rank[k]
  {
    assert ParentFirst(v, k);
    if v.known[k].height != 0 {
      BranchLength(v, leafOf, v.known[k].prevHash);
    }
  }

  /** Recording more headers does not change the branch of an old one. */
  lemma {:induction false} BranchIsStable(v: View, w: View, leafOf: Leaves, k: Bytes)
    requires WellLinked(v) && WellLinked(w) && k in v.known
    requires forall j :: j in v.known ==> j in w.known && w.known[j] == v.known[j]
    ensures BranchLeaves(v, leafOf, k) == BranchLeaves(w, leafOf, k)
    decreases v.rank[k]
  {
    assert ParentFirst(v, k) && ParentFirst(w, k);
    if v.known[k].height != 0 {
      BranchIsStable(v, w, leafOf, v.known[k].prevHash);
    }
  }

  ghost predicate FinalizedOk(sha: Hash, v: View, leafOf: Leaves, k: Bytes)
    requires WellLinked(v) && k in v.headers
  {
    v.headers[k].finalized ==>
      && v.headers[k].peaks == Peaks(sha, BranchLeaves(v, leafOf, k))
      && Bag(sha, v.headers[k].peaks) == v.headers[k].mmrRoot
  }

  ghost predicate AllFinalizedOk(sha: Hash, v: View, leafOf: Leaves) {
    WellLinked(v) && forall k :: k in v.headers ==> FinalizedOk(sha, v, leafOf, k)
  }

  /** Recording headers, dropping headers, clearing the finalized mark and marking headers active or
      orphaned leave finalized peaks alone. */
  lemma SameBodiesKeepFinalized(sha: Hash, v: View, w: View, leafOf: Leaves)
    requires AllFinalizedOk(sha, v, leafOf) && WellLinked(w)
    requires forall j :: j in v.known ==> j in w.known && w.known[j] == v.known[j]
    requires forall k :: k in w.headers && w.headers[k].finalized ==>
      k in v.headers && v.headers[k].finalized && w.headers[k].peaks == v.headers[k].peaks
      && w.headers[k].mmrRoot == v.headers[k].mmrRoot
    ensures AllFinalizedOk(sha, w, leafOf)
  {
    forall k | k in w.headers
      ensures FinalizedOk(sha, w, leafOf, k)
    {
      if w.headers[k].finalized {
        assert FinalizedOk(sha, v, leafOf, k);
        BranchIsStable(v, w, leafOf, k);
      }
    }
  }

  lemma RecordKeepsFinalized(sha: Hash, v: View, leafOf: Leaves, k: Bytes, record: VerifiedHeader)
    requires AllFinalizedOk(sha, v, leafOf) && k in v.known
    requires Matches(record, k, v.known[k]) && !record.finalized
    ensures AllFinalizedOk(sha, v.(headers := v.headers[k := record]), leafOf)
  {
    var w := v.(headers := v.headers[k := record]);
    SameRecords(v, w);
    SameBodiesKeepFinalized(sha, v, w, leafOf);
  }

  lemma InsertKeepsFinalized(sha: Hash, v: View, leafOf: Leaves, header: Header, hash: Bytes)
    requires AllFinalizedOk(sha, v, leafOf)
    requires hash in v.known ==> v.known[hash] == header
    requires header.height != 0 ==> header.prevHash in v.headers
    ensures AllFinalizedOk(sha, Insert(v, header, hash), leafOf)
  {
    RememberLinked(v, header, hash);
    var r := Remember(v, header, hash);
    SameBodiesKeepFinalized(sha, v, r, leafOf);
    RecordKeepsFinalized(sha, r, leafOf, hash, NewRecord(v.headers, header, hash));
  }

  lemma ReselectKeepsFinalized(sha: Hash, v: View, leafOf: Leaves)
    requires AllFinalizedOk(sha, v, leafOf)
    ensures AllFinalizedOk(sha, Reselect(v), leafOf)
  {
    SameBodiesKeepFinalized(sha, v, Reselect(v), leafOf);
  }

  lemma ApplyKeepsFinalized(e: Env, genesis: Bytes, v: View, leafOf: Leaves, header: Header, hash: Bytes)
    requires AllFinalizedOk(e.sha, v, leafOf) && NoClash(e, v, header)
    ensures AllFinalizedOk(e.sha, ApplyHeader(e, genesis, v, header, hash).0, leafOf)
  {
    if CheckHeader(e, genesis, v.headers, header, hash) == Done {
      ApplyIs(e, genesis, v, header, hash);
      InsertKeepsFinalized(e.sha, v, leafOf, header, hash);
      ReselectKeepsFinalized(e.sha, Insert(v, header, hash), leafOf);
    }
  }

  /** Ancestor-first finalisation: the parent is finalized, and the body is the block's own. */
  ghost predicate Ready(e: Env, v: View, leafOf: Leaves, header: Header, hash: Bytes, tx: Tx) {
    && hash in v.headers && hash in v.known && v.known[hash] == header
    && (header.height != 0 ==> header.prevHash in v.headers && v.headers[header.prevHash].finalized)
    && var txHash := TransactionHash(e, tx);
       txHash.Some? ==> leafOf(hash) == LeafHash(e, txHash.value)
  }

  /** The parent's peaks are the summits of the branch below, which has header.height leaves. */
  lemma ParentPeaks(sha: Hash, v: View, leafOf: Leaves, k: Bytes)
    requires AllFinalizedOk(sha, v, leafOf) && ConsecutiveKnown(v) && k in v.known
    requires v.known[k].height != 0 ==> v.known[k].prevHash in v.headers && v.headers[v.known[k].prevHash].finalized
    ensures |BranchLeaves(v, leafOf, k)| == v.known[k].height + 1
    ensures var below := BranchLeaves(v, leafOf, k)[..v.known[k].height];
      && BranchLeaves(v, leafOf, k) == below + [leafOf(k)]
      && Peaks(sha, below) == (if v.known[k].height == 0 then [] else v.headers[v.known[k].prevHash].peaks)
  {
    BranchLength(v, leafOf, k);
    if v.known[k].height != 0 {
      var parent := v.known[k].prevHash;
      assert FinalizedOk(sha, v, leafOf, parent);
      BranchLength(v, leafOf, parent);
      assert BranchLeaves(v, leafOf, k)[..v.known[k].height] == BranchLeaves(v, leafOf, parent);
    }
  }

  /** The new peaks of a body that fits are the summits of the branch with the new leaf. */
  lemma NewPeaksAreSummits(e: Env, streamId: Bytes, v: View, leafOf: Leaves, header: Header, hash: Bytes, tx: Tx)
    requires AllFinalizedOk(e.sha, v, leafOf) && ConsecutiveKnown(v) && Ready(e, v, leafOf, header, hash, tx)
    requires CheckBody(e, streamId, v.headers, header, tx).Fits?
    ensures CheckBody(e, streamId, v.headers, header, tx).newPeaks == Peaks(e.sha, BranchLeaves(v, leafOf, hash))
    ensures Bag(e.sha, CheckBody(e, streamId, v.headers, header, tx).newPeaks) == header.mmrRoot
  {
    ParentPeaks(e.sha, v, leafOf, hash);
    CarryAppends(e.sha, BranchLeaves(v, leafOf, hash)[..header.height], leafOf(hash));
  }

  /** A body fits its header exactly when it carries its own id, its author's signature and the
      stream's id, encodes, and completes the leaves of its branch to the header's mmr_root. */
  lemma BodyFitsExactly(e: Env, streamId: Bytes, v: View, leafOf: Leaves, header: Header, hash: Bytes, tx: Tx)
    requires AllFinalizedOk(e.sha, v, leafOf) && ConsecutiveKnown(v) && Ready(e, v, leafOf, header, hash, tx)
    ensures CheckBody(e, streamId, v.headers, header, tx).Fits? <==>
      && HasId(e, tx)
      && SignatureVerifies(e, tx)
      && tx.body.streamId == streamId
      && TransactionHash(e, tx).Some?
      && Root(e.sha, BranchLeaves(v, leafOf, hash)) == header.mmrRoot
  {
    hide FinalizedOk, Carry, Peaks, BranchLeaves, Bag, SignatureVerifies, ValidBody;
    ParentPeaks(e.sha, v, leafOf, hash);
    CarryAppends(e.sha, BranchLeaves(v, leafOf, hash)[..header.height], leafOf(hash));
  }

  lemma RemoveKeepsFinalized(sha: Hash, v: View, leafOf: Leaves, k: Bytes)
    requires AllFinalizedOk(sha, v, leafOf)
    ensures AllFinalizedOk(sha, RemoveHeader(v, k), leafOf)
  {
    var w := v.(headers := v.headers - {k});
    SameRecords(v, w);
    SameBodiesKeepFinalized(sha, v, w, leafOf);
    ReselectKeepsFinalized(sha, w, leafOf);
  }

  lemma StoreKeepsFinalized(sha: Hash, v: View, leafOf: Leaves, k: Bytes, newPeaks: seq<Bytes>)
    requires AllFinalizedOk(sha, v, leafOf) && k in v.headers
    requires newPeaks == Peaks(sha, BranchLeaves(v, leafOf, k)) && Bag(sha, newPeaks) == v.headers[k].mmrRoot
    ensures AllFinalizedOk(sha, StoreBody(v, k, newPeaks), leafOf)
  {
    var w := StoreBody(v, k, newPeaks);
    SameRecords(v, w);
    forall j | j in w.headers
      ensures FinalizedOk(sha, w, leafOf, j)
    {
      assert FinalizedOk(sha, v, leafOf, j);
      BranchIsStable(v, w, leafOf, j);
    }
  }

  lemma FinalizeStoredKeepsFinalized(
    e: Env, streamId: Bytes, v: View, leafOf: Leaves, header: Header, hash: Bytes, tx: Tx)
    requires AllFinalizedOk(e.sha, v, leafOf) && ConsecutiveKnown(v) && Ready(e, v, leafOf, header, hash, tx)
    ensures AllFinalizedOk(e.sha, FinalizeStored(e, streamId, v, header, hash, tx).0, leafOf)
  {
    if !v.headers[hash].finalized {
      match CheckBody(e, streamId, v.headers, header, tx)
      case Errors(_) =>
      case Rejects => RemoveKeepsFinalized(e.sha, v, leafOf, hash);
      case Fits(newPeaks) =>
        NewPeaksAreSummits(e, streamId, v, leafOf, header, hash, tx);
        StoreKeepsFinalized(e.sha, v, leafOf, hash, newPeaks);
    }
  }

  /** A step that finalizes only after the parent, with the block's own body, at the next height. */
  ghost predicate AncestorFirst(c: ClientConfig, v: View, leafOf: Leaves, s: Step)
    requires WellLinked(v) && NoClash(c.e, v, s.header)
  {
    && ConsecutiveKnown(Perform(c, v, s))
    && ConsecutiveKnown(v)
    && (s.FinalizeStep? && s.hash in v.headers ==> Ready(c.e, v, leafOf, s.header, s.hash, s.tx))
    && (s.FinalizeStep? && s.hash !in v.headers ==>
          var w := ApplyHeader(c.e, c.genesis, v, s.header, s.hash);
          w.1 == Done ==> ConsecutiveKnown(w.0) && Ready(c.e, w.0, leafOf, s.header, s.hash, s.tx))
  }

  ghost predicate AncestorFirstRun(c: ClientConfig, v: View, leafOf: Leaves, steps: seq<Step>)
    requires WellLinked(v) && AdmissibleRun(c, v, steps)
    decreases |steps|
  {
    |steps| > 0 ==>
      AncestorFirst(c, v, leafOf, steps[0]) && AncestorFirstRun(c, Perform(c, v, steps[0]), leafOf, steps[1..])
  }

  lemma PerformKeepsFinalized(c: ClientConfig, v: View, leafOf: Leaves, s: Step)
    requires AllFinalizedOk(c.e.sha, v, leafOf) && NoClash(c.e, v, s.header) && AncestorFirst(c, v, leafOf, s)
    ensures AllFinalizedOk(c.e.sha, Perform(c, v, s), leafOf)
  {
    match s
    case ApplyStep(header, hash) => ApplyKeepsFinalized(c.e, c.genesis, v, leafOf, header, hash);
    case FinalizeStep(header, hash, tx) =>
      if hash in v.headers {
        FinalizeStoredKeepsFinalized(c.e, c.streamId, v, leafOf, header, hash, tx);
      } else {
        ApplyKeepsFinalized(c.e, c.genesis, v, leafOf, header, hash);
        var (w, outcome) := ApplyHeader(c.e, c.genesis, v, header, hash);
        if outcome == Done {
          FinalizeStoredKeepsFinalized(c.e, c.streamId, w, leafOf, header, hash, tx);
        }
      }
  }

  /** Over all ancestor-first runs, forks and reorganisations included, every finalized header's
      peaks are the summits of its own branch and bag to its mmr_root. */
  lemma {:induction false} RunKeepsFinalized(c: ClientConfig, v: View, leafOf: Leaves, steps: seq<Step>)
    requires AllFinalizedOk(c.e.sha, v, leafOf)
    requires AdmissibleRun(c, v, steps) && AncestorFirstRun(c, v, leafOf, steps)
    ensures AllFinalizedOk(c.e.sha, Run(c, v, steps), leafOf)
    decreases |steps|
  {
    if |steps| > 0 {
      PerformKeepsFinalized(c, v, leafOf, steps[0]);
      RunKeepsFinalized(c, Perform(c, v, steps[0]), leafOf, steps[1..]);
    }
  }

  /** One block hash has one leaf: two leaves that complete the same branch to the same mmr_root are
      equal, or the root gives a collision. */
  lemma OneLeafPerBlock(sha: Hash, branch: seq<Bytes>, x: Bytes, y: Bytes)
    requires AllDigests(branch) && |x| == |y| == 32 && |branch| < TWO_63 - 1
    requires Bag(sha, Carry(sha, Peaks(sha, branch), x, |branch|))
      == Bag(sha, Carry(sha, Peaks(sha, branch), y, |branch|))
    ensures x == y || (branch + [x] != branch + [y] && IsCollision(sha, RootCollision(sha, branch + [x], branch + [y])))
  {
    CarryAppends(sha, branch, x);
    CarryAppends(sha, branch, y);
    var a, b := branch + [x], branch + [y];
    if x != y {
      assert a[|branch|] != b[|branch|];
    }
    RootCommitsToLeaves(sha, a, b);
    assert a == b ==> a[|branch|] == b[|branch|];
  }

  // ----- finalizing the whole active chain -----

  function WithoutBody(h: VerifiedHeader): VerifiedHeader {
    h.(peaks := [], finalized := false)
  }

  /** The same headers with the same work and marks; only peaks and finalized may differ. */
  ghost predicate SameTree(v: View, w: View) {
    && w.known == v.known && w.rank == v.rank && w.headers.Keys == v.headers.Keys
    && forall k :: k in v.headers ==> WithoutBody(w.headers[k]) == WithoutBody(v.headers[k])
  }

  ghost predicate ActiveFinalizedBelow(v: View, h: nat) {
    forall k :: IsActive(v, k) && v.headers[k].height < h ==> v.headers[k].finalized
  }

  /** Successful finalization of a stored header stores new peaks or finds it finalized. */
  lemma FinalizedWhenDone(e: Env, streamId: Bytes, v: View, header: Header, hash: Bytes, tx: Tx)
    requires WellLinked(v) && hash in v.headers
    requires FinalizeStored(e, streamId, v, header, hash, tx).1 == Done
    ensures var w := FinalizeStored(e, streamId, v, header, hash, tx).0;
      && SameTree(v, w)
      && hash in w.headers && w.headers[hash].finalized
      && forall k :: k in v.headers && k != hash ==> w.headers[k] == v.headers[k]
    ensures FinalizeStored(e, streamId, v, header, hash, tx).0 == v
         || exists newPeaks :: FinalizeStored(e, streamId, v, header, hash, tx).0 == StoreBody(v, hash, newPeaks)
  {
    if !v.headers[hash].finalized {
      var check := CheckBody(e, streamId, v.headers, header, tx);
      assert FinalizeStored(e, streamId, v, header, hash, tx).0 == StoreBody(v, hash, check.newPeaks);
    }
  }

  /** One turn of the ascending loop: finalizing the active header at height h, after all below it. */
  lemma FinalizeTurn(c: ClientConfig, v: View, leafOf: Leaves, header: Header, hash: Bytes, tx: Tx)
    requires Consistent(v) && AllFinalizedOk(c.e.sha, v, leafOf) && ConsecutiveKnown(v)
    requires IsActive(v, hash) && hash in v.known && v.known[hash] == header
    requires ActiveFinalizedBelow(v, v.headers[hash].height)
    requires TransactionHash(c.e, tx).Some? ==> leafOf(hash) == LeafHash(c.e, TransactionHash(c.e, tx).value)
    requires FinalizeStored(c.e, c.streamId, v, header, hash, tx).1 == Done
    ensures var w := FinalizeStored(c.e, c.streamId, v, header, hash, tx).0;
      && SameTree(v, w) && Consistent(w) && AllFinalizedOk(c.e.sha, w, leafOf) && ConsecutiveKnown(w)
      && hash in w.headers && w.headers[hash].finalized
      && forall k :: k in v.headers && k != hash ==> w.headers[k] == v.headers[k]
  {
    if header.height != 0 {
      ParentOfActiveIsActive(v, hash);
      assert v.headers[header.prevHash].height < v.headers[hash].height by {
        assert ParentFirst(v, hash);
      }
    }
    assert Ready(c.e, v, leafOf, header, hash, tx);
    FinalizeStoredKeepsFinalized(c.e, c.streamId, v, leafOf, header, hash, tx);
    FinalizedWhenDone(c.e, c.streamId, v, header, hash, tx);
    var w := FinalizeStored(c.e, c.streamId, v, header, hash, tx).0;
    if w != v {
      var newPeaks :| w == StoreBody(v, hash, newPeaks);
      StoreKeepsConsistent(v, hash, newPeaks);
    }
  }

  lemma ConsecutiveFromKnown(v: View)
    requires WellLinked(v) && ConsecutiveKnown(v)
    ensures Consecutive(v)
  {
  }
}
