/**
 What one posted request is answered with, in terms of the request and the stream alone; and what a
 freshly seeded stream decides, in terms of its configuration alone.
 */
module RequestOutcomes {
  import opened Arith
  import opened ByteStrings
  import opened Chainwork
  import opened Wire
  import opened Ledger
  import opened LedgerInvariants

  // ----- one request -----

  /** Version 1, a 32-byte id for stream, note and author, a named operation, and a payload that is one
      canonical item of at most a mebibyte. */
  ghost predicate WellFormed(e: Env, b: Body) {
    && b.protocolVersion == 1 && |b.streamId| == |b.noteId| == |b.author| == 32
    && b.opType != Unknown("") && |b.payload| > 0 && b.payload in e.isCanonicalItem
  }

  /** A request proves itself exactly when its body is well formed, its id is the hash of its body, its
      author's signature of 64 bytes is good, and its work is good against a 32-byte target. */
  lemma SelfProvingExactly(e: Env, target: Bytes, tx: Tx)
    ensures SelfProving(e, target, tx) <==>
      && WellFormed(e, tx.body) && |tx.body.payload| <= 1_048_576
      && tx.id == Sha(e.sha, TxIdDomain, Encode(e.encodeBody, tx.body))
      && |tx.signature| == 64 && Signed(tx.body, tx.signature, tx.body.author) in e.signatureOk
      && |target| == 32 && (tx, target) in e.powOk
    ensures SelfProving(e, target, tx) ==>
      TransactionHash(e, tx) == Some(Sha(e.sha, TxDomain, Encode(e.encodeTx, tx)))
  {
    hide Sha, Encode;
  }

  predicate IsOwnersOperation(op: OpType) {
    op == MemberAdd || op == KeyGrant || op == KeyRotationBundle
  }

  /** The request's id is on the chain already. */
  predicate IsRepeated(m: Mem, tx: Tx) {
    tx.id in m.txIds
  }

  /** The request creates a note that exists already. */
  predicate NoteIsTaken(m: Mem, tx: Tx) {
    tx.body.opType == Create && tx.body.noteId in m.noteIds
  }

  /** The accept goes through: the request is the author's to make now, and nothing technical fails. */
  ghost predicate GoesThrough(e: Env, m: Mem, tx: Tx, inputs: Inputs)
    requires 0 < |m.blocks| < TWO_63
  {
    && Legal(e, m.owner, m.ownerEnc, m.authority, tx) && Minable(e, m, tx, inputs) && inputs.ioOk
    && FreshDevice(m, ApplyOp(e, m.owner, m.ownerEnc, m.authority, tx))
  }

  /** The replies to a request that is not genuine: nothing changes, and which check failed decides. */
  lemma RefusedReplies(e: Env, m: Mem, disk: Disk, tx: Tx, inputs: Inputs)
    requires 0 < |m.blocks| < TWO_63 && !Genuine(e, m, tx)
    ensures var (m', disk', reply) := HandlePost(e, m, disk, tx, inputs);
      var signed := HasId(e, tx) && SignatureVerifies(e, tx);
      var big := |tx.body.payload| > 1_048_576;
      && m' == m && disk' == disk
      && (reply == Error(413, PayloadTooLarge) <==> signed && big)
      && (reply == Error(403, UnauthorizedKey) <==> signed && !big && tx.body.author !in m.authority.authorized)
      && (reply == Error(422, InvalidTransactionCode) <==>
            !signed || (!big && tx.body.author in m.authority.authorized && !PowMeets(e, tx, m.target)))
  {
    hide TransactionId, SignatureVerifies, TryAccept;
  }

  /** The replies to a genuine one that is not timely: nothing changes. */
  lemma UntimelyReplies(e: Env, m: Mem, disk: Disk, tx: Tx, inputs: Inputs)
    requires 0 < |m.blocks| < TWO_63 && m.count < TWO_63 && Genuine(e, m, tx) && !Timely(m, tx)
    ensures var (m', disk', reply) := HandlePost(e, m, disk, tx, inputs);
      && m' == m && disk' == disk
      && (reply == Receipt(|m.txIds|) <==> IsRepeated(m, tx))
      && (reply == Error(409, DuplicateNoteId) <==> !IsRepeated(m, tx) && NoteIsTaken(m, tx))
      && (reply == Error(409, StalePowEpoch) <==>
            !IsRepeated(m, tx) && !NoteIsTaken(m, tx) && tx.powEpoch != m.count / 1000)
  {
    hide TransactionId, SignatureVerifies, ApplyOp, AppendBlock;
  }

  /** The replies to a genuine and timely one. */
  lemma TimelyReplies(e: Env, m: Mem, disk: Disk, txs: seq<Tx>, tx: Tx, inputs: Inputs)
    requires Sound(e, m, disk, txs) && |m.blocks| < TWO_63 && m.count < TWO_63 && Genuine(e, m, tx) && Timely(m, tx)
    ensures var reply := HandlePost(e, m, disk, tx, inputs).2;
      var foreign := IsOwnersOperation(tx.body.opType) && tx.body.author != m.owner;
      var legal := Legal(e, m.owner, m.ownerEnc, m.authority, tx);
      && (reply == Receipt(|m.txIds| + 1) <==> GoesThrough(e, m, tx, inputs))
      && (reply == Error(403, UnauthorizedKey) <==> foreign)
      && (reply == Error(422, InvalidTransactionCode) <==> !legal && !foreign)
      && (reply == Error(422, Internal) <==> legal && !GoesThrough(e, m, tx, inputs))
  {
    hide Sound, Genuine, Timely, Legal, Minable, TryAccept, CheckPost, FreshDevice;
    PostAppendsExactly(e, m, disk, txs, tx, inputs);
    GenuinePasses(e, m, tx);
    Accepts(e, m, disk, txs, tx, inputs);
  }

  lemma GenuinePasses(e: Env, m: Mem, tx: Tx)
    ensures CheckPost(e, m, tx) == None <==> Genuine(e, m, tx)
  {
  }

  /** What the accept of a genuine and timely request comes to. */
  lemma Accepts(e: Env, m: Mem, disk: Disk, txs: seq<Tx>, tx: Tx, inputs: Inputs)
    requires Sound(e, m, disk, txs) && |m.blocks| < TWO_63 && m.count < TWO_63 && Genuine(e, m, tx) && Timely(m, tx)
    ensures var (m', _, r) := TryAccept(e, m, disk, tx, inputs);
      var foreign := IsOwnersOperation(tx.body.opType) && tx.body.author != m.owner;
      && (r.AcceptOk? ==> |m'.txIds| == |m.txIds| + 1)
      && (!r.AcceptOk? ==> r == Rejected(
            if Legal(e, m.owner, m.ownerEnc, m.authority, tx) then Internal
            else if foreign then UnauthorizedKey else InvalidTransactionCode))
      && (foreign ==> !Legal(e, m.owner, m.ownerEnc, m.authority, tx))
  {
    hide Sound, NoKeyClash, Committed, BlockHash, FirstNonce, HasId, SignatureVerifies;
    ProceedsExactly(e, m.owner, m.ownerEnc, m.authority, tx);
    PostAppendsExactly(e, m, disk, txs, tx, inputs);
  }

  // ----- a bundle that fails at a grant -----

  /** The first grant that names neither an enrolled device nor the owner's encryption key. */
  predicate IsFirstUnknown(members: map<Bytes, MemberRecord>, ownerEnc: Bytes, grants: seq<Grant>, n: nat) {
    && n < |grants| && grants[n].deviceId !in members && grants[n].encryption != ownerEnc
    && GrantsKnown(members, ownerEnc, grants[..n])
  }

  lemma {:induction false} GrantedUpTo(members: map<Bytes, MemberRecord>, ownerEnc: Bytes, grants: seq<Grant>, n: nat)
    requires IsFirstUnknown(members, ownerEnc, grants, n)
    ensures forall key :: key in Granted(members, ownerEnc, grants).0 <==>
      exists i :: 0 <= i < n && grants[i].deviceId in members && members[grants[i].deviceId].signing == key
    ensures !Granted(members, ownerEnc, grants).1
  {
    if n > 0 {
      var g, rest := grants[0], grants[1..];
      assert rest[..n - 1] == grants[..n][1..] && grants[..n][0] == g;
      GrantedUpTo(members, ownerEnc, rest, n - 1);
      forall key
        ensures key in Granted(members, ownerEnc, grants).0 <==>
          exists i :: 0 <= i < n && grants[i].deviceId in members && members[grants[i].deviceId].signing == key
      {
        if i :| 0 <= i < n && grants[i].deviceId in members && members[grants[i].deviceId].signing == key {
          assert i > 0 ==> rest[i - 1] == grants[i];
        }
        if i :| 0 <= i < n - 1 && rest[i].deviceId in members && members[rest[i].deviceId].signing == key {
          assert grants[i + 1] == rest[i];
        }
      }
    }
  }

  /** What it leaves in memory: the epoch and the revocation, and the devices granted before the unknown one. */
  lemma FailedBundleLeaves(e: Env, owner: Bytes, ownerEnc: Bytes, a: Authority, tx: Tx, n: nat)
    requires tx.body.opType == KeyRotationBundle && tx.body.author == owner
    requires Decode(e.decodeRotation, tx.body.payload).Some?
    requires var p := Decode(e.decodeRotation, tx.body.payload).value;
      p.revoked != owner && p.newKeyEpoch > a.keyEpoch && IsFirstUnknown(a.members, ownerEnc, p.grants, n)
    ensures var p := Decode(e.decodeRotation, tx.body.payload).value;
      var o := ApplyOp(e, owner, ownerEnc, a, tx);
      && o.Refuse? && o.code == InvalidTransactionCode
      && o.authority.members == a.members && o.authority.keyEpoch == p.newKeyEpoch
      && forall key :: key in o.authority.authorized <==>
           || (key in a.authorized && key != p.revoked)
           || exists i ::
                0 <= i < n && p.grants[i].deviceId in a.members && a.members[p.grants[i].deviceId].signing == key
  {
    hide Granted;
    var p := Decode(e.decodeRotation, tx.body.payload).value;
    GrantedUpTo(a.members, ownerEnc, p.grants, n);
  }

  // ----- a freshly seeded stream -----

  /** Which requests pass the handler's checks: by the genesis author or a configured key, with work against
      the target of the genesis payload. */
  lemma SeedChecks(e: Env, c: Config, gp: GenesisOp, txHash: Bytes, tx: Tx)
    ensures CheckPost(e, SeedMem(e, c, gp, txHash), tx) == None <==>
      && SelfProving(e, gp.initialTarget, tx)
      && (tx.body.author == c.genesis.tx.body.author || tx.body.author in c.authorizedKeys)
    ensures Timely(SeedMem(e, c, gp, txHash), tx) <==> tx.powEpoch == 0
  {
    hide Sha, Encode, BlockWork;
    GenuinePasses(e, SeedMem(e, c, gp, txHash), tx);
  }

  /** Which operations go through: a create under the initial key epoch of the payload, an enrolment or a
      grant by the genesis author, and his bundle with a greater epoch, not against himself, whose grants
      are all under the owner's encryption key of the payload. */
  lemma SeedOperations(e: Env, c: Config, gp: GenesisOp, txHash: Bytes, tx: Tx)
    ensures var m := SeedMem(e, c, gp, txHash); var owner := c.genesis.tx.body.author;
      ApplyOp(e, m.owner, m.ownerEnc, m.authority, tx).Proceed? <==>
        match tx.body.opType
        case Create =>
          (match Decode(e.decodeCreate, tx.body.payload)
           case Some(p) => p.keyEpoch == gp.initialKeyEpoch
           case None => false)
        case MemberAdd =>
          tx.body.author == owner &&
          (match Decode(e.decodeMemberAdd, tx.body.payload)
           case Some(p) => |p.deviceId| > 0 && |p.signing| == 32 && |p.encryption| == 32
           case None => false)
        case KeyGrant =>
          tx.body.author == owner &&
          (match Decode(e.decodeKeyGrant, tx.body.payload)
           case Some(p) => |p.deviceId| > 0 && |p.encryption| == 32 && |p.envelope| > 0
           case None => false)
        case KeyRotationBundle =>
          tx.body.author == owner &&
          (match Decode(e.decodeRotation, tx.body.payload)
           case Some(p) =>
             && p.revoked != owner && p.newKeyEpoch > gp.initialKeyEpoch
             && forall i :: 0 <= i < |p.grants| ==> p.grants[i].encryption == gp.ownerEncryption
           case None => false)
        case _ => false
  {
    hide Sha, Encode, BlockWork, ApplyOp;
    var m := SeedMem(e, c, gp, txHash);
    ProceedsExactly(e, m.owner, m.ownerEnc, m.authority, tx);
  }

  /** What the stream starts from: the configured genesis block alone, whose hash is the anchor. */
  lemma SeedChain(e: Env, c: Config, gp: GenesisOp, txHash: Bytes)
    ensures var m := SeedMem(e, c, gp, txHash);
      && m.blocks == [BlockRecord(c.genesis.header, c.genesis.hash, Encode(e.encodeTx, c.genesis.tx))]
      && m.genesisHash == c.genesis.hash && m.leafHashes == [Sha(e.sha, MmrLeaf, txHash)]
      && DraftHeader(m, [], 0).powTarget == gp.initialTarget && DraftHeader(m, [], 0).prevHash == c.genesis.hash
  {
  }
}
