/**
 Transactions, block headers and blocks, with the parts that live in libraries (canonical CBOR,
 Ed25519) as tables of their values.
 */
module Wire {
  import opened Arith
  import opened ByteStrings
  import opened Chainwork

  /** The table of a library function into byte strings. */
  type Encoder<!A(==)> = imap<A, Bytes>

  function Encode<A(!new)>(m: Encoder<A>, a: A): Bytes {
    if a in m then m[a] else []
  }

  /** The table of a strict decoder: None where it returns an error. */
  type Decoder<+A> = imap<Bytes, Option<A>>

  function Decode<A(!new)>(m: Decoder<A>, b: Bytes): Option<A> {
    if b in m then m[b] else None
  }

  /** The table of a library check: the inputs that pass. */
  type Check<!A(==)> = iset<A>

  // ----- the signed part of a transaction -----

  datatype OpType = Create | MemberAdd | KeyGrant | KeyRotationBundle | Genesis | Unknown(name: string)

  datatype Body = Body(
    protocolVersion: UInt64, streamId: Bytes, noteId: Bytes, opType: OpType, payload: Bytes,
    clientCreatedAt: UInt64, author: Bytes)

  datatype Tx = Tx(body: Body, id: Bytes, signature: Bytes, powEpoch: UInt64, powNonce: UInt64)

  // the operation payloads, reduced to the fields the program reads

  datatype CreateOp = CreateOp(keyEpoch: UInt64)
  datatype MemberAddOp = MemberAddOp(deviceId: Bytes, deviceLabel: string, signing: Bytes, encryption: Bytes)
  datatype KeyGrantOp = KeyGrantOp(deviceId: Bytes, encryption: Bytes, envelope: Bytes)
  datatype Grant = Grant(deviceId: Bytes, encryption: Bytes)
  datatype RotationOp = RotationOp(revoked: Bytes, newKeyEpoch: UInt64, grants: seq<Grant>)
  datatype GenesisOp = GenesisOp(ownerEncryption: Bytes, initialTarget: Bytes, initialKeyEpoch: UInt64)

  datatype Header = Header(
    protocolVersion: UInt64, height: UInt64, prevHash: Bytes, transactionCount: UInt64,
    mmrRoot: Bytes, timestamp: UInt64, nonce: UInt64, powTarget: Bytes)

  datatype Block = Block(header: Header, hash: Bytes, tx: Tx)

  datatype Signed = Signed(body: Body, signature: Bytes, key: Bytes)

  /** The libraries the program calls. */
  datatype Env = Env(
    sha: Hash,
    encodeHeader: Encoder<Header>, decodeHeader: Decoder<Header>,
    encodeBody: Encoder<Body>, decodeBody: Decoder<Body>,
    encodeTx: Encoder<Tx>, decodeTx: Decoder<Tx>,
    encodeBlock: Encoder<Block>,
    isCanonicalItem: Check<Bytes>,
    signatureOk: Check<Signed>,
    powOk: Check<(Tx, Bytes)>,
    decodeCreate: Decoder<CreateOp>, decodeMemberAdd: Decoder<MemberAddOp>,
    decodeKeyGrant: Decoder<KeyGrantOp>, decodeRotation: Decoder<RotationOp>,
    decodeGenesis: Decoder<GenesisOp>)
  {
    /** The strict decoders undo the canonical encoder on every header and on what they take as a body
        or a transaction. */
    ghost predicate Codecs() {
      && (forall h: Header :: Decode(decodeHeader, Encode(encodeHeader, h)) == Some(h))
      && (forall b: Body :: ValidBody(this, b) ==> Decode(decodeBody, Encode(encodeBody, b)) == Some(b))
      && (forall t: Tx :: TransactionHash(this, t).Some? ==> Decode(decodeTx, Encode(encodeTx, t)) == Some(t))
    }
  }

  predicate ValidBody(e: Env, b: Body) {
    && b.protocolVersion == 1
    && |b.streamId| == 32 && |b.noteId| == 32
    && b.opType != Unknown("")
    && |b.author| == 32
    && |b.payload| > 0
    && b.payload in e.isCanonicalItem
  }

  function TransactionId(e: Env, b: Body): Option<Bytes> {
    if ValidBody(e, b) then Some(Sha(e.sha, TxIdDomain, Encode(e.encodeBody, b))) else None
  }

  /** The transaction carries the id of its own body. */
  predicate HasId(e: Env, t: Tx) {
    TransactionId(e, t.body) == Some(t.id)
  }

  function TransactionHash(e: Env, t: Tx): Option<Bytes> {
    if |t.id| == 32 && |t.signature| == 64 && ValidBody(e, t.body)
    then Some(Sha(e.sha, TxDomain, Encode(e.encodeTx, t)))
    else None
  }

  predicate SignatureVerifies(e: Env, t: Tx) {
    && |t.body.author| == 32 && |t.signature| == 64
    && Signed(t.body, t.signature, t.body.author) in e.signatureOk
  }

  /** A transaction a client of this stream takes. */
  predicate Acceptable(e: Env, streamId: Bytes, t: Tx) {
    HasId(e, t) && SignatureVerifies(e, t) && t.body.streamId == streamId
  }

  lemma AcceptableEncodes(e: Env, streamId: Bytes, t: Tx)
    requires Acceptable(e, streamId, t)
    ensures TransactionHash(e, t).Some?
  {
  }

  function LeafHash(e: Env, txHash: Bytes): Digest {
    Sha(e.sha, MmrLeaf, txHash)
  }

  function BlockHash(e: Env, h: Header): Digest {
    Sha(e.sha, BlockDomain, Encode(e.encodeHeader, h))
  }

  // ----- proof of work -----

  /** The header's own hash meets its declared target; an empty target asks for no work. */
  predicate SatisfiesTarget(e: Env, h: Header) {
    |h.powTarget| == 0 || Value(BlockHash(e, h)) <= Value(h.powTarget)
  }

  /** With a 32-byte target a header passes exactly when its hash is not above the target, in the byte order
      that fork choice compares hashes by. */
  lemma MeetsTargetExactly(e: Env, h: Header)
    requires |h.powTarget| == 32
    ensures SatisfiesTarget(e, h) <==> !Greater(BlockHash(e, h), h.powTarget)
  {
    hide BlockHash;
    GreaterIsBigEndian(BlockHash(e, h), h.powTarget);
  }

  /** With another length, zeros go in front of the shorter of the two; an empty target asks for nothing. */
  lemma MeetsPaddedTarget(e: Env, h: Header)
    ensures h.powTarget == [] ==> SatisfiesTarget(e, h)
    ensures 0 < |h.powTarget| < 32 ==>
      (SatisfiesTarget(e, h) <==> !Greater(BlockHash(e, h), Zeros(32 - |h.powTarget|) + h.powTarget))
    ensures |h.powTarget| > 32 ==>
      (SatisfiesTarget(e, h) <==> !Greater(Zeros(|h.powTarget| - 32) + BlockHash(e, h), h.powTarget))
  {
    hide BlockHash;
    var hash, target := BlockHash(e, h), h.powTarget;
    if 0 < |target| < 32 {
      ValueOfLeadingZeros(32 - |target|, target);
      GreaterIsBigEndian(hash, Zeros(32 - |target|) + target);
    } else if |target| > 32 {
      ValueOfLeadingZeros(|target| - 32, hash);
      GreaterIsBigEndian(Zeros(|target| - 32) + hash, target);
    }
  }

  const MAX_POW_TRIALS: int := 0x10_0000

  /** nonce is the first one at or after start that meets the target. */
  ghost predicate IsFirstNonce(e: Env, h: Header, start: UInt64, nonce: UInt64) {
    && start <= nonce
    && SatisfiesTarget(e, h.(nonce := nonce))
    && forall k: UInt64 :: start <= k < nonce ==> !SatisfiesTarget(e, h.(nonce := k))
  }

  /** The nonce mining ends with, if any meets the target. */
  ghost function FirstNonce(e: Env, h: Header, start: UInt64): Option<UInt64> {
    if exists n: UInt64 :: IsFirstNonce(e, h, start, n)
    then var n: UInt64 :| IsFirstNonce(e, h, start, n); Some(n)
    else None
  }

  /** How many nonces the search hashes. */
  ghost function Attempts(e: Env, h: Header, start: UInt64): nat {
    match FirstNonce(e, h, start) case Some(n) => n - start + 1 case None => TWO_64 - start
  }

  /** The documented outcome of at most trials attempts: the first satisfying nonce among them, or none. */
  ghost predicate IsDocumentedOutcome(e: Env, h: Header, start: UInt64, trials: UInt64, r: Option<UInt64>) {
    match r
    case Some(n) => IsFirstNonce(e, h, start, n) && n < start + trials
    case None => forall k: UInt64 :: start <= k < start + trials ==> !SatisfiesTarget(e, h.(nonce := k))
  }

  /** The outcome is the documented one exactly when the first satisfying nonce is within the trials or
      there is none; the number of attempts is within them exactly when it is found there or the nonces
      run out there. */
  lemma TrialBoundExactly(e: Env, h: Header, start: UInt64, trials: UInt64)
    ensures IsDocumentedOutcome(e, h, start, trials, FirstNonce(e, h, start)) <==>
      (FirstNonce(e, h, start).Some? ==> FirstNonce(e, h, start).value < start + trials)
    ensures Attempts(e, h, start) <= trials <==>
      if FirstNonce(e, h, start).Some? then FirstNonce(e, h, start).value < start + trials else TWO_64 <= start + trials
  {
    hide SatisfiesTarget;
    var r := FirstNonce(e, h, start);
    if r == None {
      forall k: UInt64 | start <= k < start + trials
        ensures !SatisfiesTarget(e, h.(nonce := k))
      {
        if SatisfiesTarget(e, h.(nonce := k)) {
          SomeFirstNonce(e, h, start, k);
        }
      }
    }
  }

  lemma {:induction false} SomeFirstNonce(e: Env, h: Header, start: UInt64, n: UInt64)
    requires start <= n && SatisfiesTarget(e, h.(nonce := n))
    ensures FirstNonce(e, h, start).Some?
    decreases n
  {
    if k: UInt64 :| start <= k < n && SatisfiesTarget(e, h.(nonce := k)) {
      SomeFirstNonce(e, h, start, k);
    } else {
      assert IsFirstNonce(e, h, start, n);
    }
  }

  lemma FoundNonce(e: Env, h: Header, start: UInt64, nonce: UInt64)
    requires IsFirstNonce(e, h, start, nonce)
    ensures FirstNonce(e, h, start) == Some(nonce)
  {
    hide SatisfiesTarget;
  }

  lemma NoNonce(e: Env, h: Header, start: UInt64)
    requires forall k: UInt64 :: start <= k ==> !SatisfiesTarget(e, h.(nonce := k))
    ensures FirstNonce(e, h, start) == None
  {
    hide SatisfiesTarget;
  }

  lemma TargetOrder(e: Env, h: Header)
    ensures |h.powTarget| == 32 ==>
      forall k: UInt64 :: SatisfiesTarget(e, h.(nonce := k)) <==> !Greater(BlockHash(e, h.(nonce := k)), h.powTarget)
  {
    hide SatisfiesTarget, BlockHash;
    if |h.powTarget| == 32 {
      forall k: UInt64
        ensures SatisfiesTarget(e, h.(nonce := k)) <==> !Greater(BlockHash(e, h.(nonce := k)), h.powTarget)
      {
        MeetsTargetExactly(e, h.(nonce := k));
      }
    }
  }

  /**
   Search upward from a random start. The trial limit never stops the search: the loop leaves only
   on success or when the nonce wraps to zero, so for every maxTrials the outcome is the first
   satisfying nonce in [start, 2^64), or failure when there is none.
   */
  method MineBlock(e: Env, header: Header, target: Bytes, maxTrials: UInt64, start: UInt64)
    returns (nonce: UInt64, hash: Bytes, ok: bool, ghost attempts: nat)
    ensures var h := header.(powTarget := target);
      if ok then IsFirstNonce(e, h, start, nonce) && hash == BlockHash(e, h.(nonce := nonce))
      else forall k: UInt64 :: start <= k ==> !SatisfiesTarget(e, h.(nonce := k))
    ensures |target| == 32 ==>
      var h := header.(powTarget := target);
      if ok then
        !Greater(hash, target) && forall k: UInt64 :: start <= k < nonce ==> Greater(BlockHash(e, h.(nonce := k)), target)
      else forall k: UInt64 :: start <= k ==> Greater(BlockHash(e, h.(nonce := k)), target)
    ensures FirstNonce(e, header.(powTarget := target), start) == if ok then Some(nonce) else None
    ensures attempts == Attempts(e, header.(powTarget := target), start)
  {
    hide SatisfiesTarget, BlockHash, FirstNonce;
    ghost var draft := header.(powTarget := target);
    var trials := if maxTrials == 0 then MAX_POW_TRIALS else maxTrials;
    var hdr := header.(powTarget := target);
    nonce, attempts := start, 0;
    var limit := (nonce + trials) % TWO_64;
    while true
      invariant start <= nonce && attempts == nonce - start
      invariant hdr.(nonce := 0) == draft.(nonce := 0)
      invariant forall k: UInt64 :: start <= k < nonce ==> !SatisfiesTarget(e, draft.(nonce := k))
      decreases TWO_64 - nonce
    {
      hdr := hdr.(nonce := nonce);
      var h := BlockHash(e, hdr);
      attempts := attempts + 1;
      assert hdr == draft.(nonce := nonce);
      if SatisfiesTarget(e, hdr) {
        FoundNonce(e, draft, start, nonce);
        TargetOrder(e, draft);
        return nonce, h, true, attempts;
      }
      var next := (nonce + 1) % TWO_64;
      if next == limit && limit == 0 {
        NoNonce(e, draft, start);
        TargetOrder(e, draft);
        return 0, [], false, attempts;
      }
      if next == 0 {
        NoNonce(e, draft, start);
        TargetOrder(e, draft);
        return 0, [], false, attempts;
      }
      nonce := next;
    }
  }

  predicate IsZero(b: Bytes) {
    AllZero(b)
  }

  predicate IsZero32(b: Bytes) {
    |b| == 32 && AllZero(b)
  }
}
