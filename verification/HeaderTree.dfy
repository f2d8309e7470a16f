/**
 The client's header tree: verified headers keyed by hash, their cumulative work, and the active
 chain, which is the ancestor path of the best header. Every operation of the chain manager is
 given here as a function on a View; the class in ChainManagement.dfy carries them out on its store.
 */
module HeaderTree {
  import opened ByteStrings
  import opened Mmr
  import opened Chainwork
  import opened Wire

  datatype Status = Active | Orphaned

  datatype VerifiedHeader = VerifiedHeader(
    height: nat, hash: Bytes, prevHash: Bytes, mmrRoot: Bytes, chainwork: nat,
    status: Status, peaks: seq<Bytes>, finalized: bool)

  type Headers = map<Bytes, VerifiedHeader>

  /**
   The stored headers, with two records that outlive removal: every header ever recorded, by
   hash, and the order in which hashes were first recorded.
   */
  datatype View = View(headers: Headers, known: map<Bytes, Header>, rank: map<Bytes, nat>)

  const EMPTY: View := View(map[], map[], map[])

  // ----- structure -----

  predicate Matches(v: VerifiedHeader, k: Bytes, h: Header) {
    v.hash == k && v.height == h.height && v.prevHash == h.prevHash && v.mmrRoot == h.mmrRoot
  }

  /** The parent of a recorded header was recorded first. */
  ghost predicate ParentFirst(v: View, k: Bytes)
    requires k in v.known
  {
    var h := v.known[k];
    && k in v.rank && v.rank[k] < |v.rank|
    && (h.height != 0 ==> h.prevHash in v.known && h.prevHash in v.rank && v.rank[h.prevHash] < v.rank[k])
  }

  ghost predicate WellLinked(v: View) {
    && v.headers.Keys <= v.known.Keys == v.rank.Keys
    && (forall k :: k in v.known ==> ParentFirst(v, k))
    && (forall k :: k in v.headers ==> Matches(v.headers[k], k, v.known[k]))
  }

  /** A verified header hashes to its key and meets its target; at height 0 it is the genesis. */
  predicate Authentic(e: Env, genesis: Bytes, k: Bytes, h: Header) {
    && BlockHash(e, h) == k
    && SatisfiesTarget(e, h)
    && (h.height == 0 ==> k == genesis && IsZero(h.prevHash))
  }

  ghost predicate AllAuthentic(e: Env, genesis: Bytes, v: View) {
    forall k :: k in v.known ==> Authentic(e, genesis, k, v.known[k])
  }

  predicate Keyed(hs: Headers) {
    forall k :: k in hs ==> hs[k].hash == k
  }

  ghost predicate Ranked(hs: Headers, rank: map<Bytes, nat>) {
    && hs.Keys <= rank.Keys
    && forall k :: k in hs && hs[k].height != 0 && hs[k].prevHash in hs ==> rank[hs[k].prevHash] < rank[k]
  }

  predicate HasParent(hs: Headers, k: Bytes)
    requires k in hs
  {
    hs[k].height != 0 && hs[k].prevHash in hs
  }

  /** The path from k back to genesis, or to the first missing parent. */
  ghost function Ancestors(hs: Headers, rank: map<Bytes, nat>, k: Bytes): (path: set<Bytes>)
    requires Ranked(hs, rank) && k in hs
    ensures k in path && path <= hs.Keys
    decreases rank[k]
  {
    {k} + if HasParent(hs, k) then Ancestors(hs, rank, hs[k].prevHash) else {}
  }

  // ----- fork choice -----

  predicate Better(a: VerifiedHeader, b: VerifiedHeader) {
    SelectBest(a.chainwork, a.hash, b.chainwork, b.hash)
  }

  predicate IsBest(hs: Headers, k: Bytes) {
    k in hs && forall j :: j in hs && j != k ==> Better(hs[k], hs[j])
  }

  lemma BetterIsStrictTotalOrder(a: VerifiedHeader, b: VerifiedHeader, c: VerifiedHeader)
    ensures !(Better(a, b) && Better(b, a))
    ensures a.hash != b.hash ==> Better(a, b) || Better(b, a)
    ensures Better(a, b) && Better(b, c) ==> Better(a, c)
  {
    SelectBestIsStrictTotalOrder(a.chainwork, a.hash, b.chainwork, b.hash, c.chainwork, c.hash);
  }

  /** Every non-empty store has a best header. */
  lemma {:induction false} BestExists(hs: Headers)
    requires Keyed(hs) && hs != map[]
    ensures exists k :: IsBest(hs, k)
    decreases |hs|
  {
    var x :| x in hs;
    var rest := hs - {x};
    if rest == map[] {
      assert forall j :: j in hs && j != x ==> j in rest;
      assert IsBest(hs, x);
      return;
    }
    BestExists(rest);
    var y :| IsBest(rest, y);
    BetterIsStrictTotalOrder(hs[x], hs[y], hs[y]);
    var k := if Better(hs[x], hs[y]) then x else y;
    forall j | j in hs && j != k
      ensures Better(hs[k], hs[j])
    {
      if j != x && j != y {
        assert j in rest;
        BetterIsStrictTotalOrder(hs[x], hs[y], hs[j]);
      }
    }
    assert IsBest(hs, k);
  }

  lemma BestIsUnique(hs: Headers, k: Bytes, j: Bytes)
    requires IsBest(hs, k) && IsBest(hs, j)
    ensures k == j
  {
    if k != j {
      BetterIsStrictTotalOrder(hs[k], hs[j], hs[j]);
    }
  }

  ghost function Best(hs: Headers): (k: Bytes)
    requires Keyed(hs) && hs != map[]
    ensures IsBest(hs, k)
  {
    BestExists(hs);
    var k :| IsBest(hs, k);
    k
  }

  ghost predicate AllDigestKeys(hs: Headers) {
    forall k :: k in hs ==> |k| == 32
  }

  /** The best header is the one every other falls short of: in work, or at equal work in the value of its
      hash, read as a big-endian number. */
  lemma BestIsHeaviest(hs: Headers, k: Bytes)
    requires Keyed(hs) && AllDigestKeys(hs) && k in hs
    ensures k == Best(hs) <==> forall j :: j in hs && j != k ==>
      hs[j].chainwork < hs[k].chainwork || (hs[j].chainwork == hs[k].chainwork && Value(j) < Value(k))
  {
    forall j | j in hs
      ensures Greater(k, j) <==> Value(k) > Value(j)
    {
      GreaterIsBigEndian(k, j);
    }
    if IsBest(hs, k) {
      BestIsUnique(hs, k, Best(hs));
    }
  }

  function Mark(hs: Headers, active: set<Bytes>): Headers {
    map k | k in hs :: hs[k].(status := if k in active then Active else Orphaned)
  }

  /** Mark the ancestors of the best header active and everything else orphaned. */
  ghost function Recompute(hs: Headers, rank: map<Bytes, nat>): Headers
    requires Keyed(hs) && Ranked(hs, rank)
  {
    if hs == map[] then hs else Mark(hs, Ancestors(hs, rank, Best(hs)))
  }

  // ----- the operations -----

  datatype Failure = MalformedHeader | MissingParent | InsufficientWork | ChainMismatch | InvalidTransaction

  datatype Outcome = Done | Failed(why: Failure)

  /** The checks of ApplyHeader, in order. */
  function CheckHeader(e: Env, genesis: Bytes, hs: Headers, header: Header, hash: Bytes): Outcome {
    if BlockHash(e, header) != hash then Failed(MalformedHeader)
    else if !SatisfiesTarget(e, header) then Failed(InsufficientWork)
    else if header.height == 0 then
      if !IsZero(header.prevHash) then Failed(MalformedHeader)
      else if hash != genesis then Failed(ChainMismatch)
      else Done
    else if header.prevHash !in hs then Failed(MissingParent)
    else Done
  }

  /** No header recorded earlier has the hash of this one without being this one. */
  predicate NoClash(e: Env, v: View, header: Header) {
    BlockHash(e, header) in v.known ==> v.known[BlockHash(e, header)] == header
  }

  /** The record ApplyHeader stores: work added to the parent's, the parent's peaks carried over. */
  function NewRecord(hs: Headers, header: Header, hash: Bytes): VerifiedHeader
    requires header.height != 0 ==> header.prevHash in hs
  {
    VerifiedHeader(header.height, hash, header.prevHash, header.mmrRoot,
      (if header.height == 0 then 0 else hs[header.prevHash].chainwork) + BlockWork(header.powTarget),
      Active,
      if header.height == 0 then [] else hs[header.prevHash].peaks,
      false)
  }

  function Remember(v: View, header: Header, hash: Bytes): View {
    v.(known := v.known[hash := header],
       rank := if hash in v.rank then v.rank else v.rank[hash := |v.rank|])
  }

  function Insert(v: View, header: Header, hash: Bytes): View
    requires header.height != 0 ==> header.prevHash in v.headers
  {
    Remember(v, header, hash).(headers := v.headers[hash := NewRecord(v.headers, header, hash)])
  }

  ghost function Reselect(v: View): (r: View)
    requires WellLinked(v)
    ensures WellLinked(r)
  {
    LinkedIsRanked(v);
    var r := v.(headers := Recompute(v.headers, v.rank));
    SameRecords(v, r);
    r
  }

  ghost function ApplyHeader(e: Env, genesis: Bytes, v: View, header: Header, hash: Bytes): (r: (View, Outcome))
    requires WellLinked(v) && NoClash(e, v, header)
    ensures WellLinked(r.0)
  {
    var outcome := CheckHeader(e, genesis, v.headers, header, hash);
    if outcome == Done then
      InsertLinked(v, header, hash);
      (Reselect(Insert(v, header, hash)), Done)
    else (v, outcome)
  }

  ghost function RemoveHeader(v: View, k: Bytes): (r: View)
    requires WellLinked(v)
    ensures WellLinked(r)
  {
    var w := v.(headers := v.headers - {k});
    SameRecords(v, w);
    Reselect(w)
  }

  /** Why the block body does not fit the header, if it does not: the checks after the lookup. */
  datatype BodyCheck = Fits(newPeaks: seq<Bytes>) | Rejects | Errors(why: Failure)

  function CheckBody(e: Env, streamId: Bytes, hs: Headers, header: Header, tx: Tx): BodyCheck {
    var id := TransactionId(e, tx.body);
    if id == None then Errors(InvalidTransaction)
    else if id.value != tx.id then Rejects
    else if !SignatureVerifies(e, tx) then Rejects
    else if tx.body.streamId != streamId then Rejects
    else if header.height != 0 && header.prevHash !in hs then Errors(MissingParent)
    else
      var parentPeaks := if header.height != 0 then hs[header.prevHash].peaks else [];
      var txHash := TransactionHash(e, tx);
      if txHash == None then Errors(InvalidTransaction)
      else
        var newPeaks := Carry(e.sha, parentPeaks, LeafHash(e, txHash.value), header.height);
        if Bag(e.sha, newPeaks) != header.mmrRoot then Rejects else Fits(newPeaks)
  }

  ghost function FinalizeStored(e: Env, streamId: Bytes, v: View, header: Header, hash: Bytes, tx: Tx)
    : (r: (View, Outcome))
    requires WellLinked(v) && hash in v.headers
    ensures WellLinked(r.0)
  {
    var stored := v.headers[hash];
    if stored.finalized then (v, Done)
    else
      match CheckBody(e, streamId, v.headers, header, tx)
      case Errors(why) => (v, Failed(why))
      case Rejects => (RemoveHeader(v, hash), Failed(MalformedHeader))
      case Fits(newPeaks) =>
        var w := v.(headers := v.headers[hash := stored.(peaks := newPeaks, finalized := true)]);
        SameRecords(v, w);
        (w, Done)
  }

  ghost function FinalizeBlock(e: Env, genesis: Bytes, streamId: Bytes, v: View, header: Header, hash: Bytes, tx: Tx)
    : (r: (View, Outcome))
    requires WellLinked(v) && NoClash(e, v, header)
    ensures WellLinked(r.0)
  {
    if hash in v.headers then FinalizeStored(e, streamId, v, header, hash, tx)
    else
      var (w, outcome) := ApplyHeader(e, genesis, v, header, hash);
      if outcome != Done then (w, outcome)
      else FinalizeStored(e, streamId, w, header, hash, tx)
  }

  // ----- the structure is kept -----

  lemma LinkedIsRanked(v: View)
    requires WellLinked(v)
    ensures Keyed(v.headers) && Ranked(v.headers, v.rank)
  {
    forall k | k in v.headers && HasParent(v.headers, k)
      ensures v.rank[v.headers[k].prevHash] < v.rank[k]
    {
      assert ParentFirst(v, k);
    }
  }

  /** Changing only work, status, peaks or the finalized mark, or dropping headers, keeps the structure. */
  lemma SameRecords(v: View, w: View)
    requires WellLinked(v)
    requires w.known == v.known && w.rank == v.rank && w.headers.Keys <= v.known.Keys
    requires forall k :: k in w.headers ==> Matches(w.headers[k], k, v.known[k])
    ensures WellLinked(w)
  {
    forall k | k in w.known
      ensures ParentFirst(w, k)
    {
      assert ParentFirst(v, k);
    }
  }

  lemma RememberLinked(v: View, header: Header, hash: Bytes)
    requires WellLinked(v)
    requires hash in v.known ==> v.known[hash] == header
    requires header.height != 0 ==> header.prevHash in v.headers
    ensures WellLinked(Remember(v, header, hash))
  {
    var w := Remember(v, header, hash);
    forall k | k in w.known
      ensures ParentFirst(w, k)
    {
      if k in v.known {
        assert ParentFirst(v, k);
      } else {
        assert header.height != 0 ==> ParentFirst(v, header.prevHash);
      }
    }
  }

  lemma InsertLinked(v: View, header: Header, hash: Bytes)
    requires WellLinked(v)
    requires hash in v.known ==> v.known[hash] == header
    requires header.height != 0 ==> header.prevHash in v.headers
    ensures WellLinked(Insert(v, header, hash))
  {
    RememberLinked(v, header, hash);
    SameRecords(Remember(v, header, hash), Insert(v, header, hash));
  }
}
