/**
 What every run of the chain manager keeps: each header's work is its parent's plus its own, and
 the active headers are exactly the ancestors of the one best header. Two parent-first orders of
 the same headers therefore end in the same state.
 */
module HeaderTreeProofs {
  import opened ByteStrings
  import opened Chainwork
  import opened Wire
  import opened HeaderTree

  // ----- the invariant -----

  /** The parent is stored, and the header's work is the parent's plus its own. */
  ghost predicate WorkAdds(v: View, k: Bytes)
    requires k in v.headers && k in v.known
  {
    var h := v.headers[k];
    && (h.height != 0 ==> h.prevHash in v.headers)
    && h.chainwork == (if h.height == 0 then 0 else v.headers[h.prevHash].chainwork) + BlockWork(v.known[k].powTarget)
  }

  ghost predicate AllWorkAdds(v: View)
    requires v.headers.Keys <= v.known.Keys
  {
    forall k :: k in v.headers ==> WorkAdds(v, k)
  }

  /** The active headers are the ancestors of the best header. */
  ghost predicate Selected(v: View)
    requires WellLinked(v)
  {
    v == Reselect(v)
  }

  ghost predicate Consistent(v: View) {
    WellLinked(v) && AllWorkAdds(v) && Selected(v)
  }

  // ----- selection depends on links and work only -----

  predicate SameShape(a: Headers, b: Headers) {
    && a.Keys == b.Keys
    && forall k :: k in a ==>
      a[k].height == b[k].height && a[k].hash == b[k].hash && a[k].prevHash == b[k].prevHash
      && a[k].chainwork == b[k].chainwork
  }

  lemma {:induction false} AncestorsOfShape(
    a: Headers, ra: map<Bytes, nat>, b: Headers, rb: map<Bytes, nat>, k: Bytes)
    requires Ranked(a, ra) && Ranked(b, rb) && k in a
    requires a.Keys == b.Keys
    requires forall j :: j in a ==> a[j].height == b[j].height && a[j].prevHash == b[j].prevHash
    ensures Ancestors(a, ra, k) == Ancestors(b, rb, k)
    decreases ra[k]
  {
    if HasParent(a, k) {
      AncestorsOfShape(a, ra, b, rb, a[k].prevHash);
    }
  }

  lemma BestOfShape(a: Headers, b: Headers)
    requires Keyed(a) && Keyed(b) && SameShape(a, b) && a != map[]
    ensures b != map[] && Best(a) == Best(b)
  {
    var k := Best(a);
    assert k in b;
    assert IsBest(b, k);
    BestIsUnique(b, k, Best(b));
  }

  lemma RecomputeOfShape(a: Headers, ra: map<Bytes, nat>, b: Headers, rb: map<Bytes, nat>)
    requires Keyed(a) && Keyed(b) && Ranked(a, ra) && Ranked(b, rb) && SameShape(a, b) && a != map[]
    ensures b != map[] && Recompute(b, rb) == Mark(b, Ancestors(a, ra, Best(a)))
  {
    BestOfShape(a, b);
    AncestorsOfShape(a, ra, b, rb, Best(a));
  }

  /** Selecting again changes nothing. */
  lemma ReselectIsSelected(v: View)
    requires WellLinked(v)
    ensures Selected(Reselect(v))
  {
    LinkedIsRanked(v);
    var w := Reselect(v);
    LinkedIsRanked(w);
    if v.headers != map[] {
      var a := Ancestors(v.headers, v.rank, Best(v.headers));
      RecomputeOfShape(v.headers, v.rank, w.headers, w.rank);
      assert Mark(Mark(v.headers, a), a) == Mark(v.headers, a);
    }
  }

  lemma ReselectConsistent(v: View)
    requires WellLinked(v) && AllWorkAdds(v)
    ensures Consistent(Reselect(v))
  {
    ReselectIsSelected(v);
    var w := Reselect(v);
    forall k | k in w.headers
      ensures WorkAdds(w, k)
    {
      assert WorkAdds(v, k);
    }
  }

  // ----- each operation keeps it -----

  /** Recording a header again gives it the work it already had. */
  lemma SameWorkAgain(v: View, header: Header, hash: Bytes)
    requires Consistent(v) && hash in v.headers && v.known[hash] == header
    requires header.height != 0 ==> header.prevHash in v.headers
    ensures NewRecord(v.headers, header, hash).chainwork == v.headers[hash].chainwork
  {
    assert WorkAdds(v, hash);
  }

  lemma InsertWorkAt(v: View, header: Header, hash: Bytes, k: Bytes)
    requires Consistent(v)
    requires hash in v.known ==> v.known[hash] == header
    requires header.height != 0 ==> header.prevHash in v.headers && header.prevHash != hash
    requires k in v.headers || k == hash
    ensures WorkAdds(Insert(v, header, hash), k)
  {
    if hash in v.headers {
      SameWorkAgain(v, header, hash);
    }
    if k != hash {
      assert WorkAdds(v, k);
    }
  }

  lemma InsertWork(v: View, header: Header, hash: Bytes)
    requires Consistent(v)
    requires hash in v.known ==> v.known[hash] == header
    requires header.height != 0 ==> header.prevHash in v.headers && header.prevHash != hash
    ensures WellLinked(Insert(v, header, hash)) && AllWorkAdds(Insert(v, header, hash))
  {
    InsertLinked(v, header, hash);
    forall k | k in Insert(v, header, hash).headers
      ensures WorkAdds(Insert(v, header, hash), k)
    {
      InsertWorkAt(v, header, hash, k);
    }
  }

  /** A recorded header is not its own parent. */
  lemma NotOwnParent(v: View, header: Header, hash: Bytes)
    requires WellLinked(v)
    requires hash in v.known ==> v.known[hash] == header
    requires header.height != 0 && header.prevHash in v.headers
    ensures header.prevHash != hash
  {
    assert hash in v.known ==> ParentFirst(v, hash);
  }

  /** An accepted header is inserted, and then the active chain is selected again. */
  lemma ApplyIs(e: Env, genesis: Bytes, v: View, header: Header, hash: Bytes)
    requires WellLinked(v) && NoClash(e, v, header)
    requires CheckHeader(e, genesis, v.headers, header, hash) == Done
    ensures hash in v.known ==> v.known[hash] == header
    ensures header.height != 0 ==> header.prevHash in v.headers
    ensures WellLinked(Insert(v, header, hash))
    ensures ApplyHeader(e, genesis, v, header, hash) == (Reselect(Insert(v, header, hash)), Done)
  {
    InsertLinked(v, header, hash);
  }

  lemma ApplyKeepsConsistent(e: Env, genesis: Bytes, v: View, header: Header, hash: Bytes)
    requires Consistent(v) && NoClash(e, v, header)
    ensures Consistent(ApplyHeader(e, genesis, v, header, hash).0)
  {
    if CheckHeader(e, genesis, v.headers, header, hash) == Done {
      ApplyIs(e, genesis, v, header, hash);
      if header.height != 0 {
        NotOwnParent(v, header, hash);
      }
      InsertWork(v, header, hash);
      ReselectConsistent(Insert(v, header, hash));
    }
  }

  predicate Childless(hs: Headers, k: Bytes) {
    forall j :: j in hs ==> !(hs[j].height != 0 && hs[j].prevHash == k)
  }

  lemma RemoveKeepsConsistent(v: View, k: Bytes)
    requires Consistent(v) && Childless(v.headers, k)
    ensures Consistent(RemoveHeader(v, k))
  {
    var w := v.(headers := v.headers - {k});
    SameRecords(v, w);
    forall j | j in w.headers
      ensures WorkAdds(w, j)
    {
      assert WorkAdds(v, j);
    }
    ReselectConsistent(w);
  }

  function StoreBody(v: View, k: Bytes, newPeaks: seq<Bytes>): View
    requires k in v.headers
  {
    v.(headers := v.headers[k := v.headers[k].(peaks := newPeaks, finalized := true)])
  }

  lemma StoreKeepsWork(v: View, k: Bytes, newPeaks: seq<Bytes>)
    requires WellLinked(v) && AllWorkAdds(v) && k in v.headers
    ensures WellLinked(StoreBody(v, k, newPeaks)) && AllWorkAdds(StoreBody(v, k, newPeaks))
  {
    var w := StoreBody(v, k, newPeaks);
    SameRecords(v, w);
    forall j | j in w.headers
      ensures WorkAdds(w, j)
    {
      assert WorkAdds(v, j);
    }
  }

  lemma StoreKeepsSelected(v: View, k: Bytes, newPeaks: seq<Bytes>)
    requires WellLinked(v) && Selected(v) && k in v.headers
    requires WellLinked(StoreBody(v, k, newPeaks))
    ensures Selected(StoreBody(v, k, newPeaks))
  {
    var w := StoreBody(v, k, newPeaks);
    LinkedIsRanked(v);
    LinkedIsRanked(w);
    RecomputeOfShape(v.headers, v.rank, w.headers, w.rank);
    var a := Ancestors(v.headers, v.rank, Best(v.headers));
    assert v.headers == Mark(v.headers, a);
    assert Mark(w.headers, a) == w.headers;
  }

  /** Storing new peaks and the finalized mark leaves links, work and the active chain alone. */
  lemma StoreKeepsConsistent(v: View, k: Bytes, newPeaks: seq<Bytes>)
    requires Consistent(v) && k in v.headers
    ensures Consistent(StoreBody(v, k, newPeaks))
  {
    StoreKeepsWork(v, k, newPeaks);
    StoreKeepsSelected(v, k, newPeaks);
  }

  /** removeHeader is only safe for a header without children. */
  ghost predicate RemovalIsSafe(e: Env, streamId: Bytes, v: View, header: Header, hash: Bytes, tx: Tx) {
    hash in v.headers && !v.headers[hash].finalized && CheckBody(e, streamId, v.headers, header, tx).Rejects?
    ==> Childless(v.headers, hash)
  }

  lemma FinalizeStoredKeepsConsistent(e: Env, streamId: Bytes, v: View, header: Header, hash: Bytes, tx: Tx)
    requires Consistent(v) && hash in v.headers && RemovalIsSafe(e, streamId, v, header, hash, tx)
    ensures Consistent(FinalizeStored(e, streamId, v, header, hash, tx).0)
  {
    if !v.headers[hash].finalized {
      match CheckBody(e, streamId, v.headers, header, tx)
      case Errors(_) =>
      case Rejects => RemoveKeepsConsistent(v, hash);
      case Fits(newPeaks) => StoreKeepsConsistent(v, hash, newPeaks);
    }
  }

  /** A header that was not stored has no children after it is applied. */
  lemma AppliedIsChildless(e: Env, genesis: Bytes, v: View, header: Header, hash: Bytes)
    requires Consistent(v) && NoClash(e, v, header) && hash !in v.headers
    requires CheckHeader(e, genesis, v.headers, header, hash) == Done
    ensures Childless(ApplyHeader(e, genesis, v, header, hash).0.headers, hash)
  {
    ApplyIs(e, genesis, v, header, hash);
    InsertedIsChildless(v, header, hash);
    ReselectChildless(Insert(v, header, hash), hash);
  }

  lemma InsertedIsChildless(v: View, header: Header, hash: Bytes)
    requires Consistent(v) && hash !in v.headers
    requires hash in v.known ==> v.known[hash] == header
    requires header.height != 0 ==> header.prevHash in v.headers
    ensures Childless(Insert(v, header, hash).headers, hash)
  {
    var w := Insert(v, header, hash);
    forall j | j in w.headers && w.headers[j].height != 0
      ensures w.headers[j].prevHash != hash
    {
      if j in v.headers {
        assert WorkAdds(v, j);
      } else {
        NotOwnParent(v, header, hash);
      }
    }
  }

  lemma ReselectChildless(v: View, k: Bytes)
    requires WellLinked(v) && Childless(v.headers, k)
    ensures Childless(Reselect(v).headers, k)
  {
  }

  lemma FinalizeKeepsConsistent(
    e: Env, genesis: Bytes, streamId: Bytes, v: View, header: Header, hash: Bytes, tx: Tx)
    requires Consistent(v) && NoClash(e, v, header)
    requires RemovalIsSafe(e, streamId, v, header, hash, tx)
    ensures Consistent(FinalizeBlock(e, genesis, streamId, v, header, hash, tx).0)
  {
    if hash in v.headers {
      FinalizeStoredKeepsConsistent(e, streamId, v, header, hash, tx);
    } else {
      ApplyKeepsConsistent(e, genesis, v, header, hash);
      if CheckHeader(e, genesis, v.headers, header, hash) == Done {
        AppliedIsChildless(e, genesis, v, header, hash);
        var w := ApplyHeader(e, genesis, v, header, hash).0;
        FinalizeStoredKeepsConsistent(e, streamId, w, header, hash, tx);
      }
    }
  }

  // ----- runs -----

  datatype Step = ApplyStep(header: Header, hash: Bytes) | FinalizeStep(header: Header, hash: Bytes, tx: Tx)

  /** The chain a manager works on: its libraries, its genesis hash and its stream. */
  datatype ClientConfig = ClientConfig(e: Env, genesis: Bytes, streamId: Bytes)

  ghost predicate Admissible(c: ClientConfig, v: View, s: Step) {
    && NoClash(c.e, v, s.header)
    && (s.FinalizeStep? ==> RemovalIsSafe(c.e, c.streamId, v, s.header, s.hash, s.tx))
  }

  ghost function Perform(c: ClientConfig, v: View, s: Step): (w: View)
    requires WellLinked(v) && NoClash(c.e, v, s.header)
    ensures WellLinked(w)
  {
    match s
    case ApplyStep(header, hash) => ApplyHeader(c.e, c.genesis, v, header, hash).0
    case FinalizeStep(header, hash, tx) => FinalizeBlock(c.e, c.genesis, c.streamId, v, header, hash, tx).0
  }

  /** Each step is admissible in the state it starts from. */
  ghost predicate AdmissibleRun(c: ClientConfig, v: View, steps: seq<Step>)
    requires WellLinked(v)
    decreases |steps|
  {
    |steps| > 0 ==> Admissible(c, v, steps[0]) && AdmissibleRun(c, Perform(c, v, steps[0]), steps[1..])
  }

  ghost function Run(c: ClientConfig, v: View, steps: seq<Step>): (w: View)
    requires WellLinked(v) && AdmissibleRun(c, v, steps)
    ensures WellLinked(w)
    decreases |steps|
  {
    if |steps| == 0 then v else Run(c, Perform(c, v, steps[0]), steps[1..])
  }

  lemma EmptyIsConsistent()
    ensures Consistent(EMPTY)
  {
  }

  /** Over all runs: work adds up along parents and the active headers are the best branch. */
  lemma {:induction false} RunKeepsConsistent(c: ClientConfig, v: View, steps: seq<Step>)
    requires Consistent(v) && AdmissibleRun(c, v, steps)
    ensures Consistent(Run(c, v, steps))
    decreases |steps|
  {
    if |steps| > 0 {
      match steps[0] {
        case ApplyStep(header, hash) => ApplyKeepsConsistent(c.e, c.genesis, v, header, hash);
        case FinalizeStep(header, hash, tx) => FinalizeKeepsConsistent(c.e, c.genesis, c.streamId, v, header, hash, tx);
      }
      RunKeepsConsistent(c, Perform(c, v, steps[0]), steps[1..]);
    }
  }

  lemma InsertKeepsAuthentic(e: Env, genesis: Bytes, v: View, header: Header, hash: Bytes)
    requires AllAuthentic(e, genesis, v)
    requires CheckHeader(e, genesis, v.headers, header, hash) == Done
    ensures AllAuthentic(e, genesis, Insert(v, header, hash))
  {
    assert Authentic(e, genesis, hash, header);
  }

  lemma ApplyKeepsAuthentic(e: Env, genesis: Bytes, v: View, header: Header, hash: Bytes)
    requires WellLinked(v) && NoClash(e, v, header) && AllAuthentic(e, genesis, v)
    ensures AllAuthentic(e, genesis, ApplyHeader(e, genesis, v, header, hash).0)
  {
    if CheckHeader(e, genesis, v.headers, header, hash) == Done {
      ApplyIs(e, genesis, v, header, hash);
      InsertKeepsAuthentic(e, genesis, v, header, hash);
    }
  }

  lemma FinalizeStoredKeepsKnown(e: Env, streamId: Bytes, v: View, header: Header, hash: Bytes, tx: Tx)
    requires WellLinked(v) && hash in v.headers
    ensures FinalizeStored(e, streamId, v, header, hash, tx).0.known == v.known
  {
  }

  /** Over all runs: nothing is recorded but headers that hash to their key and meet their target. */
  lemma {:induction false} RunKeepsAuthentic(c: ClientConfig, v: View, steps: seq<Step>)
    requires WellLinked(v) && AdmissibleRun(c, v, steps)
    requires AllAuthentic(c.e, c.genesis, v)
    ensures AllAuthentic(c.e, c.genesis, Run(c, v, steps))
    decreases |steps|
  {
    if |steps| > 0 {
      PerformKeepsAuthentic(c, v, steps[0]);
      RunKeepsAuthentic(c, Perform(c, v, steps[0]), steps[1..]);
    }
  }

  /** So every recorded header with a 32-byte target has a hash that does not exceed it. */
  lemma KnownMeetsTarget(e: Env, genesis: Bytes, v: View, k: Bytes)
    requires AllAuthentic(e, genesis, v) && k in v.known && |v.known[k].powTarget| == 32
    ensures !Greater(k, v.known[k].powTarget) && k == Sha(e.sha, BlockDomain, Encode(e.encodeHeader, v.known[k]))
  {
    hide SatisfiesTarget, Sha, Encode;
    assert Authentic(e, genesis, k, v.known[k]);
    MeetsTargetExactly(e, v.known[k]);
  }

  lemma FinalizeKnowsWhatApplyKnows(e: Env, genesis: Bytes, streamId: Bytes, v: View, header: Header, hash: Bytes, tx: Tx)
    requires WellLinked(v) && NoClash(e, v, header)
    ensures FinalizeBlock(e, genesis, streamId, v, header, hash, tx).0.known
         == if hash in v.headers then v.known else ApplyHeader(e, genesis, v, header, hash).0.known
  {
    if hash in v.headers {
      FinalizeStoredKeepsKnown(e, streamId, v, header, hash, tx);
    } else if CheckHeader(e, genesis, v.headers, header, hash) == Done {
      FinalizeStoredKeepsKnown(e, streamId, ApplyHeader(e, genesis, v, header, hash).0, header, hash, tx);
    }
  }

  lemma PerformKeepsAuthentic(c: ClientConfig, v: View, s: Step)
    requires WellLinked(v) && NoClash(c.e, v, s.header) && AllAuthentic(c.e, c.genesis, v)
    ensures AllAuthentic(c.e, c.genesis, Perform(c, v, s))
  {
    ApplyKeepsAuthentic(c.e, c.genesis, v, s.header, s.hash);
    if s.FinalizeStep? {
      FinalizeKnowsWhatApplyKnows(c.e, c.genesis, c.streamId, v, s.header, s.hash, s.tx);
    }
  }

  // ----- genesis -----

  /** SeedGenesis on an empty store. */
  function SeedView(genesis: Header, hash: Bytes, seedTarget: Bytes, peaks: seq<Bytes>): View {
    View(map[hash := VerifiedHeader(0, hash, genesis.prevHash, genesis.mmrRoot, BlockWork(seedTarget), Active, peaks, true)],
         map[hash := genesis], map[hash := 0])
  }

  /** The seeded store is consistent exactly when the configured target earns the work that the
      genesis header's own target earns. */
  lemma SeedConsistentIff(genesis: Header, hash: Bytes, seedTarget: Bytes, peaks: seq<Bytes>)
    requires genesis.height == 0
    ensures Consistent(SeedView(genesis, hash, seedTarget, peaks))
       <==> BlockWork(seedTarget) == BlockWork(genesis.powTarget)
  {
    var v := SeedView(genesis, hash, seedTarget, peaks);
    LinkedIsRanked(v);
    assert hash in v.headers;
    var best := Best(v.headers);
    assert best in v.headers && best == hash;
    assert Ancestors(v.headers, v.rank, best) == {hash};
    assert Mark(v.headers, {hash}) == v.headers;
    assert Selected(v);
    assert WorkAdds(v, hash) <==> BlockWork(seedTarget) == BlockWork(genesis.powTarget);
  }

  // ----- the active chain, by height: one header at each height up to the best header's -----

  ghost predicate Consecutive(v: View)
    requires WellLinked(v)
  {
    forall k :: k in v.headers && HasParent(v.headers, k) ==>
      v.headers[k].height == v.headers[v.headers[k].prevHash].height + 1
  }

  lemma {:induction false} ProperAncestorIsLower(v: View, k: Bytes, a: Bytes)
    requires WellLinked(v) && Consecutive(v) && k in v.headers && Ranked(v.headers, v.rank)
    requires a in Ancestors(v.headers, v.rank, k) && a != k
    ensures v.headers[a].height < v.headers[k].height
    decreases v.rank[k]
  {
    var parent := v.headers[k].prevHash;
    if a != parent {
      ProperAncestorIsLower(v, parent, a);
    }
  }

  /** On a branch with consecutive heights there is an ancestor at each height, and only one. */
  lemma {:induction false} AncestorAtHeight(v: View, k: Bytes, h: nat) returns (a: Bytes)
    requires Consistent(v) && Consecutive(v) && k in v.headers && Ranked(v.headers, v.rank)
    requires h <= v.headers[k].height
    ensures a in Ancestors(v.headers, v.rank, k) && v.headers[a].height == h
    decreases v.rank[k]
  {
    assert WorkAdds(v, k);
    if h == v.headers[k].height {
      a := k;
    } else {
      a := AncestorAtHeight(v, v.headers[k].prevHash, h);
    }
  }

  lemma {:induction false} AncestorAtHeightIsUnique(v: View, k: Bytes, a: Bytes, b: Bytes)
    requires WellLinked(v) && Consecutive(v) && k in v.headers && Ranked(v.headers, v.rank)
    requires a in Ancestors(v.headers, v.rank, k) && b in Ancestors(v.headers, v.rank, k)
    requires v.headers[a].height == v.headers[b].height
    ensures a == b
    decreases v.rank[k]
  {
    if a != k {
      ProperAncestorIsLower(v, k, a);
    }
    if b != k {
      ProperAncestorIsLower(v, k, b);
    }
    if a != k && b != k {
      AncestorAtHeightIsUnique(v, v.headers[k].prevHash, a, b);
    }
  }

  ghost predicate IsActive(v: View, k: Bytes) {
    k in v.headers && v.headers[k].status == Active
  }

  ghost predicate HasActiveAt(v: View, h: nat) {
    exists k :: IsActive(v, k) && v.headers[k].height == h
  }

  /** The active headers are exactly the ancestors of the best header. */
  lemma ActiveAreBestBranch(v: View, k: Bytes)
    requires Consistent(v) && v.headers != map[] && Keyed(v.headers) && Ranked(v.headers, v.rank)
    ensures IsActive(v, k) <==> k in Ancestors(v.headers, v.rank, Best(v.headers))
  {
    var path := Ancestors(v.headers, v.rank, Best(v.headers));
    assert v.headers == Mark(v.headers, path);
  }

  /** The best header is active, and every other active header is lower. */
  lemma ActiveBelowTip(v: View, k: Bytes)
    requires Consistent(v) && Consecutive(v) && v.headers != map[] && Keyed(v.headers)
    ensures IsActive(v, Best(v.headers))
    ensures IsActive(v, k) && k != Best(v.headers) ==> v.headers[k].height < v.headers[Best(v.headers)].height
  {
    LinkedIsRanked(v);
    var best := Best(v.headers);
    ActiveAreBestBranch(v, best);
    ActiveAreBestBranch(v, k);
    if IsActive(v, k) && k != best {
      ProperAncestorIsLower(v, best, k);
    }
  }

  lemma ActiveAtEachHeight(v: View, h: nat)
    requires Consistent(v) && Consecutive(v) && v.headers != map[] && Keyed(v.headers)
    requires h <= v.headers[Best(v.headers)].height
    ensures HasActiveAt(v, h)
  {
    LinkedIsRanked(v);
    var a := AncestorAtHeight(v, Best(v.headers), h);
    ActiveAreBestBranch(v, a);
  }

  lemma OneActivePerHeight(v: View, j: Bytes, k: Bytes)
    requires Consistent(v) && Consecutive(v) && v.headers != map[] && Keyed(v.headers)
    requires IsActive(v, j) && IsActive(v, k) && v.headers[j].height == v.headers[k].height
    ensures j == k
  {
    LinkedIsRanked(v);
    ActiveAreBestBranch(v, j);
    ActiveAreBestBranch(v, k);
    AncestorAtHeightIsUnique(v, Best(v.headers), j, k);
  }

  /** ActiveTip, the highest active header, is the best header. */
  lemma HighestActiveIsBest(v: View, tip: Bytes)
    requires Consistent(v) && Consecutive(v) && v.headers != map[] && Keyed(v.headers)
    requires IsActive(v, tip)
    requires forall k :: IsActive(v, k) ==> v.headers[k].height <= v.headers[tip].height
    ensures tip == Best(v.headers)
  {
    ActiveBelowTip(v, tip);
  }

  /** So in a consistent store the active tip has more work than every other header, or as much and the
      greater hash. */
  lemma TipIsHeaviest(v: View, tip: Bytes, k: Bytes)
    requires Consistent(v) && Consecutive(v) && AllDigestKeys(v.headers) && IsActive(v, tip) && k in v.headers && k != tip
    requires forall j :: IsActive(v, j) ==> v.headers[j].height <= v.headers[tip].height
    ensures v.headers[k].chainwork < v.headers[tip].chainwork
      || (v.headers[k].chainwork == v.headers[tip].chainwork && Value(k) < Value(tip))
  {
    hide AllWorkAdds, Selected;
    LinkedIsRanked(v);
    HighestActiveIsBest(v, tip);
    BestIsHeaviest(v.headers, tip);
  }

  lemma {:induction false} PathIsClosed(hs: Headers, rank: map<Bytes, nat>, k: Bytes, a: Bytes)
    requires Ranked(hs, rank) && k in hs && a in Ancestors(hs, rank, k) && HasParent(hs, a)
    ensures hs[a].prevHash in Ancestors(hs, rank, k)
    decreases rank[k]
  {
    if a != k {
      PathIsClosed(hs, rank, hs[k].prevHash, a);
    }
  }

  lemma ParentOfActiveIsActive(v: View, k: Bytes)
    requires Consistent(v) && IsActive(v, k) && v.headers[k].height != 0
    ensures IsActive(v, v.headers[k].prevHash)
  {
    assert WorkAdds(v, k);
    LinkedIsRanked(v);
    assert k in v.headers;
    ActiveAreBestBranch(v, k);
    ActiveAreBestBranch(v, v.headers[k].prevHash);
    PathIsClosed(v.headers, v.rank, Best(v.headers), k);
  }

  // ----- confluence -----

  /** Two states that know the same headers, have stored them all and finalized none are the same
      but for the order of first arrival. */
  ghost predicate HeadersOnly(v: View) {
    v.headers.Keys == v.known.Keys && forall k :: k in v.headers ==> v.headers[k].peaks == [] && !v.headers[k].finalized
  }

  lemma {:induction false} WorkIsDetermined(v: View, w: View, k: Bytes)
    requires Consistent(v) && Consistent(w) && v.known == w.known
    requires v.headers.Keys == v.known.Keys == w.headers.Keys && k in v.headers && k in v.rank
    ensures v.headers[k].chainwork == w.headers[k].chainwork
    decreases v.rank[k]
  {
    assert WorkAdds(v, k) && WorkAdds(w, k);
    assert ParentFirst(v, k);
    if v.known[k].height != 0 {
      WorkIsDetermined(v, w, v.known[k].prevHash);
    }
  }

  /** The headers, works and statuses are a function of the set of known headers. */
  lemma StateIsDetermined(v: View, w: View)
    requires Consistent(v) && Consistent(w) && v.known == w.known
    requires HeadersOnly(v) && HeadersOnly(w)
    ensures v.headers == w.headers
  {
    LinkedIsRanked(v);
    LinkedIsRanked(w);
    if v.headers != map[] {
      forall k | k in v.headers
        ensures v.headers[k].chainwork == w.headers[k].chainwork
      {
        WorkIsDetermined(v, w, k);
      }
      RecomputeOfShape(v.headers, v.rank, w.headers, w.rank);
      var path := Ancestors(v.headers, v.rank, Best(v.headers));
      assert v.headers == Mark(v.headers, path) && w.headers == Mark(w.headers, path);
      forall k | k in v.headers
        ensures v.headers[k] == w.headers[k]
      {
        assert v.headers[k].status == w.headers[k].status;
      }
    }
  }

  // ----- parent-first orders -----

  /** A header that passes every check that does not look at the store. */
  predicate SelfValid(e: Env, genesis: Bytes, h: Header) {
    && SatisfiesTarget(e, h)
    && (h.height == 0 ==> IsZero(h.prevHash) && BlockHash(e, h) == genesis)
  }

  ghost predicate HasHash(e: Env, headers: seq<Header>, hash: Bytes) {
    exists i :: 0 <= i < |headers| && BlockHash(e, headers[i]) == hash
  }

  /** Each header comes after its parent. */
  ghost predicate InParentFirstOrder(e: Env, genesis: Bytes, headers: seq<Header>) {
    forall i :: 0 <= i < |headers| ==>
      && SelfValid(e, genesis, headers[i])
      && (headers[i].height != 0 ==> HasHash(e, headers[..i], headers[i].prevHash))
  }

  ghost predicate CollisionFree(e: Env, headers: seq<Header>) {
    forall i, j :: 0 <= i < |headers| && 0 <= j < |headers| && BlockHash(e, headers[i]) == BlockHash(e, headers[j])
      ==> headers[i] == headers[j]
  }

  /** The known headers are exactly those delivered. */
  ghost predicate Knows(e: Env, known: map<Bytes, Header>, headers: seq<Header>) {
    && (forall i :: 0 <= i < |headers| ==> BlockHash(e, headers[i]) in known)
    && (forall k :: k in known ==> BlockHash(e, known[k]) == k && known[k] in headers)
  }

  /** Apply headers to the empty store one after another, each with its own hash. The guard only
      makes the definition total: DeliveryAccepted shows it never fails in a parent-first order. */
  ghost function Deliver(e: Env, genesis: Bytes, headers: seq<Header>): (w: View)
    ensures WellLinked(w)
  {
    if |headers| == 0 then EMPTY
    else
      var last := headers[|headers| - 1];
      var v := Deliver(e, genesis, headers[..|headers| - 1]);
      if NoClash(e, v, last) then ApplyHeader(e, genesis, v, last, BlockHash(e, last)).0 else v
  }

  lemma InsertKnows(e: Env, v: View, earlier: seq<Header>, last: Header)
    requires Knows(e, v.known, earlier) && NoClash(e, v, last)
    requires last.height != 0 ==> last.prevHash in v.headers
    ensures Knows(e, v.known[BlockHash(e, last) := last], earlier + [last])
  {
    var known, all := v.known[BlockHash(e, last) := last], earlier + [last];
    forall i | 0 <= i < |all|
      ensures BlockHash(e, all[i]) in known
    {
      if i < |earlier| {
        assert all[i] == earlier[i];
      }
    }
    assert forall h :: h in all <==> h in earlier || h == last;
  }

  lemma PrefixInOrder(e: Env, genesis: Bytes, headers: seq<Header>)
    requires |headers| > 0 && InParentFirstOrder(e, genesis, headers) && CollisionFree(e, headers)
    ensures var earlier, last := headers[..|headers| - 1], headers[|headers| - 1];
      && InParentFirstOrder(e, genesis, earlier) && CollisionFree(e, earlier)
      && SelfValid(e, genesis, last)
      && (last.height != 0 ==> HasHash(e, earlier, last.prevHash))
  {
    var earlier := headers[..|headers| - 1];
    forall i | 0 <= i < |earlier|
      ensures SelfValid(e, genesis, earlier[i])
      ensures earlier[i].height != 0 ==> HasHash(e, earlier[..i], earlier[i].prevHash)
    {
      assert earlier[i] == headers[i] && earlier[..i] == headers[..i];
    }
  }

  lemma LastIsNew(e: Env, v: View, headers: seq<Header>)
    requires |headers| > 0 && CollisionFree(e, headers) && Knows(e, v.known, headers[..|headers| - 1])
    ensures NoClash(e, v, headers[|headers| - 1])
  {
    var earlier, last := headers[..|headers| - 1], headers[|headers| - 1];
    var hash := BlockHash(e, last);
    if hash in v.known {
      var i :| 0 <= i < |earlier| && earlier[i] == v.known[hash];
      assert headers[i] == earlier[i];
    }
  }

  lemma InsertHeadersOnly(v: View, header: Header, hash: Bytes)
    requires HeadersOnly(v)
    requires header.height != 0 ==> header.prevHash in v.headers
    ensures HeadersOnly(Insert(v, header, hash))
  {
  }

  lemma ReselectHeadersOnly(v: View)
    requires WellLinked(v) && HeadersOnly(v)
    ensures HeadersOnly(Reselect(v))
  {
  }

  lemma LastIsAccepted(e: Env, genesis: Bytes, v: View, earlier: seq<Header>, last: Header)
    requires HeadersOnly(v) && Knows(e, v.known, earlier)
    requires SelfValid(e, genesis, last)
    requires last.height != 0 ==> HasHash(e, earlier, last.prevHash)
    ensures CheckHeader(e, genesis, v.headers, last, BlockHash(e, last)) == Done
  {
  }

  lemma DeliverLast(e: Env, genesis: Bytes, v: View, earlier: seq<Header>, last: Header)
    requires Consistent(v) && HeadersOnly(v) && Knows(e, v.known, earlier) && NoClash(e, v, last)
    requires CheckHeader(e, genesis, v.headers, last, BlockHash(e, last)) == Done
    ensures var w := ApplyHeader(e, genesis, v, last, BlockHash(e, last)).0;
      Consistent(w) && HeadersOnly(w) && Knows(e, w.known, earlier + [last])
  {
    var hash := BlockHash(e, last);
    ApplyKeepsConsistent(e, genesis, v, last, hash);
    ApplyIs(e, genesis, v, last, hash);
    InsertHeadersOnly(v, last, hash);
    ReselectHeadersOnly(Insert(v, last, hash));
    InsertKnows(e, v, earlier, last);
  }

  lemma NothingDelivered(e: Env, genesis: Bytes)
    ensures var w := Deliver(e, genesis, []); Consistent(w) && HeadersOnly(w) && Knows(e, w.known, [])
  {
    EmptyIsConsistent();
  }

  /** A parent-first order is accepted header by header, and leaves exactly its headers known. */
  lemma {:induction false} DeliveryAccepted(e: Env, genesis: Bytes, headers: seq<Header>)
    requires InParentFirstOrder(e, genesis, headers) && CollisionFree(e, headers)
    ensures var w := Deliver(e, genesis, headers);
      Consistent(w) && HeadersOnly(w) && Knows(e, w.known, headers)
    decreases |headers|
  {
    hide HeadersOnly, Consistent, CollisionFree, InParentFirstOrder, Knows;
    if |headers| == 0 {
      NothingDelivered(e, genesis);
    } else {
      var earlier, last := headers[..|headers| - 1], headers[|headers| - 1];
      assert headers == earlier + [last];
      PrefixInOrder(e, genesis, headers);
      DeliveryAccepted(e, genesis, earlier);
      var v := Deliver(e, genesis, earlier);
      LastIsNew(e, v, headers);
      LastIsAccepted(e, genesis, v, earlier, last);
      DeliverLast(e, genesis, v, earlier, last);
    }
  }

  lemma KnowsDetermined(e: Env, v: View, w: View, a: seq<Header>, b: seq<Header>)
    requires Knows(e, v.known, a) && Knows(e, w.known, b) && CollisionFree(e, a)
    requires forall h :: h in a <==> h in b
    ensures v.known == w.known
  {
    forall k
      ensures k in v.known <==> k in w.known
      ensures k in v.known && k in w.known ==> v.known[k] == w.known[k]
    {
      if k in v.known {
        var j :| 0 <= j < |b| && b[j] == v.known[k];
      }
      if k in w.known {
        var i :| 0 <= i < |a| && a[i] == w.known[k];
      }
      if k in v.known && k in w.known {
        var i :| 0 <= i < |a| && a[i] == v.known[k];
        var j :| 0 <= j < |a| && a[j] == w.known[k];
      }
    }
  }

  /**
   Confluence: any two parent-first orders of one set of headers, with repetitions allowed, leave
   the same headers with the same work and the same active and orphaned marks.
   */
  lemma HeaderConfluence(e: Env, genesis: Bytes, a: seq<Header>, b: seq<Header>)
    requires InParentFirstOrder(e, genesis, a) && InParentFirstOrder(e, genesis, b)
    requires CollisionFree(e, a) && CollisionFree(e, b)
    requires forall h :: h in a <==> h in b
    ensures Deliver(e, genesis, a).headers == Deliver(e, genesis, b).headers
  {
    DeliveryAccepted(e, genesis, a);
    DeliveryAccepted(e, genesis, b);
    var v, w := Deliver(e, genesis, a), Deliver(e, genesis, b);
    KnowsDetermined(e, v, w, a, b);
    StateIsDetermined(v, w);
  }
}
