/**
 A small stream for exhibiting runs: an owner, one device, and the library functions filled in but for
 the codecs, which stay arbitrary, and the hash, which each run picks.
 */
module Scenario {
  import opened ByteStrings
  import opened Chainwork
  import opened Wire
  import opened Ledger
  import opened LedgerInvariants
  import opened LedgerHistory
  import opened LedgerRuns
  import opened LedgerAuthority

  function Filled(n: nat, b: Byte): (r: Bytes)
    ensures |r| == n && forall i :: 0 <= i < n ==> r[i] == b
  {
    seq(n, _ => b)
  }

  const OWNER: Bytes := Filled(32, 1)
  const DEVICE: Bytes := Filled(32, 2)
  const DEVICE_ID: Bytes := [9]
  const HERE: Bytes := Zeros(32)
  const OWNER_ENCRYPTION: Bytes := Filled(32, 3)
  const DEVICE_ENCRYPTION: Bytes := Filled(32, 6)
  const TARGET: Bytes := Zeros(31) + [1]
  const SHORT_TARGET: Bytes := [1]

  const GENESIS_PAYLOAD: Bytes := [0]
  const BUNDLE_PAYLOAD: Bytes := [1]
  const LATER_PAYLOAD: Bytes := [2]
  const CREATE_PAYLOAD: Bytes := [3]
  const ENROL_PAYLOAD: Bytes := [4]

  const GENESIS: Body := Body(1, HERE, Zeros(32), Genesis, GENESIS_PAYLOAD, 0, OWNER)
  const GENESIS_HEADER: Header := Header(1, 0, Zeros(32), 1, Zeros(32), 0, 0, SHORT_TARGET)
  const CONFIGURED: GenesisOp := GenesisOp(OWNER_ENCRYPTION, TARGET, 4)

  const NOW: Inputs := Inputs(0, 0, true)

  /** The bundle revokes the device, opens key epoch 5 and grants it to the owner's own encryption key; the
      two creates name epochs 5 and 4. */
  ghost function Libraries(codecs: Env, sha: Hash): Env {
    codecs.(
      sha := sha,
      isCanonicalItem := iset{GENESIS_PAYLOAD, BUNDLE_PAYLOAD, LATER_PAYLOAD, CREATE_PAYLOAD, ENROL_PAYLOAD},
      signatureOk := iset s: Signed | s.signature == Zeros(64) :: s,
      powOk := iset tx: Tx | tx.powNonce == 0 :: (tx, TARGET),
      decodeCreate := imap[LATER_PAYLOAD := Some(CreateOp(5)), CREATE_PAYLOAD := Some(CreateOp(4))],
      decodeMemberAdd := imap[ENROL_PAYLOAD := Some(MemberAddOp(DEVICE_ID, "", DEVICE, DEVICE_ENCRYPTION))],
      decodeRotation := imap[BUNDLE_PAYLOAD := Some(RotationOp(DEVICE, 5, [Grant([8], OWNER_ENCRYPTION)]))],
      decodeGenesis := imap[GENESIS_PAYLOAD := Some(CONFIGURED)])
  }

  /** The hash of everything but transaction ids and the genesis header is zero. */
  ghost predicate Usable(codecs: Env, sha: Hash) {
    && Libraries(codecs, sha).Codecs()
    && forall i :: i in sha ==>
         i.domain == TxIdDomain || i == HashInput(BlockDomain, Encode(codecs.encodeHeader, GENESIS_HEADER))
  }

  /** The body as its author sends it, under its own id. */
  function Sent(e: Env, body: Body): Tx {
    Tx(body, Sha(e.sha, TxIdDomain, Encode(e.encodeBody, body)), Zeros(64), 0, 0)
  }

  /** The stream starts at key epoch 4 with the owner and the device authorized. */
  function Start(e: Env): Launch {
    var tx := Sent(e, GENESIS);
    Launch(e, Config(Block(GENESIS_HEADER, BlockHash(e, GENESIS_HEADER), tx), [DEVICE]), CONFIGURED,
           Sha(e.sha, TxDomain, Encode(e.encodeTx, tx)))
  }

  lemma SentProvesItself(codecs: Env, sha: Hash, body: Body)
    requires ValidBody(Libraries(codecs, sha), body)
    ensures var e := Libraries(codecs, sha);
      SelfProving(e, TARGET, Sent(e, body)) && TransactionHash(e, Sent(e, body)).Some?
  {
    var e := Libraries(codecs, sha);
    assert Signed(body, Zeros(64), body.author) in e.signatureOk;
    assert (Sent(e, body), TARGET) in e.powOk;
    assert |body.payload| == 1;
  }

  lemma StartIsStartable(codecs: Env, sha: Hash)
    requires Usable(codecs, sha)
    ensures var l := Start(Libraries(codecs, sha)); Startable(l) && Reachable(l, SeedServer(l))
  {
    hide SeedServer, Reachable;
    TargetValue();
    SeedIsReachable(Start(Libraries(codecs, sha)));
  }

  lemma SeedIsReachable(l: Launch)
    ensures Reachable(l, SeedServer(l))
  {
    hide Step, Clean, SeedServer;
    assert CleanRun(l.e, SeedServer(l), []) && Run(l.e, SeedServer(l), []) == SeedServer(l);
  }

  lemma SeedState(e: Env)
    ensures SeedServer(Start(e)).txs == [Sent(e, GENESIS)] && |SeedServer(Start(e)).checks| == 1
    ensures var m := SeedServer(Start(e)).mem;
      && m.target == TARGET && |m.blocks| == 1 && m.owner == OWNER && m.ownerEnc == OWNER_ENCRYPTION
      && m.txIds == {} && m.noteIds == {} && m.count == 0
      && m.authority == Authority(map[], {OWNER, DEVICE}, 4)
  {
    hide Sha, BlockHash, LeafHash, BlockWork, Encode, Filled;
    assert Elements([DEVICE]) == {DEVICE};
  }

  lemma DeviceIsNotOwner()
    ensures DEVICE != OWNER
  {
    assert OWNER[0] != DEVICE[0];
  }

  lemma PayloadsDecode(codecs: Env, sha: Hash)
    ensures var e := Libraries(codecs, sha);
      && Decode(e.decodeRotation, BUNDLE_PAYLOAD) == Some(RotationOp(DEVICE, 5, [Grant([8], OWNER_ENCRYPTION)]))
      && Decode(e.decodeCreate, LATER_PAYLOAD) == Some(CreateOp(5))
      && Decode(e.decodeCreate, CREATE_PAYLOAD) == Some(CreateOp(4))
      && Decode(e.decodeMemberAdd, ENROL_PAYLOAD) == Some(MemberAddOp(DEVICE_ID, "", DEVICE, DEVICE_ENCRYPTION))
  {
  }

  lemma TargetValue()
    ensures Value(TARGET) == Value(SHORT_TARGET) == 1 && Value(Zeros(32)) == 0
    ensures BlockWork(TARGET) > 0 && BlockWork(SHORT_TARGET) > 0
  {
    ValueOfLeadingZeros(31, [1]);
    ValueOfLeadingZeros(32, []);
    assert Zeros(32) + [] == Zeros(32);
    assert [1 as Byte][..0] == [];
  }

  /** Any other header than the first hashes to zero, which meets the target. */
  lemma OtherHeaders(codecs: Env, sha: Hash, h: Header)
    requires Usable(codecs, sha) && h != GENESIS_HEADER && h.powTarget == TARGET
    ensures BlockHash(Libraries(codecs, sha), h) == Zeros(32) && SatisfiesTarget(Libraries(codecs, sha), h)
  {
    var e := Libraries(codecs, sha);
    TargetValue();
    assert Decode(e.decodeHeader, Encode(e.encodeHeader, h)) == Some(h);
    assert Decode(e.decodeHeader, Encode(e.encodeHeader, GENESIS_HEADER)) == Some(GENESIS_HEADER);
  }

  lemma AlwaysMinable(codecs: Env, sha: Hash, m: Mem, tx: Tx)
    requires Usable(codecs, sha) && Growable(m) && m.target == TARGET
    requires TransactionHash(Libraries(codecs, sha), tx).Some?
    ensures Minable(Libraries(codecs, sha), m, tx, NOW)
  {
    hide Libraries, Usable, SatisfiesTarget, BlockHash;
    var e := Libraries(codecs, sha);
    var draft := NextDraft(e, m, LeafHash(e, TransactionHash(e, tx).value), NOW.now);
    OtherHeaders(codecs, sha, draft.(nonce := 0));
  }

  // ----- posting a request -----

  /** The guards of the accept pass, and the operation goes through. */
  ghost predicate MayAppend(e: Env, m: Mem, tx: Tx) {
    && EarlyCheck(m, tx) == None
    && var o := ApplyOp(e, m.owner, m.ownerEnc, m.authority, tx); o.Proceed? && FreshDevice(m, o)
  }

  lemma SentPassesChecks(codecs: Env, sha: Hash, m: Mem, body: Body)
    requires ValidBody(Libraries(codecs, sha), body) && m.target == TARGET && body.author in m.authority.authorized
    ensures CheckPost(Libraries(codecs, sha), m, Sent(Libraries(codecs, sha), body)) == None
  {
    hide Libraries, ValidBody;
    SentProvesItself(codecs, sha, body);
  }

  lemma PostAppends(codecs: Env, sha: Hash, s: Server, body: Body)
    requires Usable(codecs, sha) && Reachable(Start(Libraries(codecs, sha)), s) && Growable(s.mem)
    requires s.mem.target == TARGET && ValidBody(Libraries(codecs, sha), body)
    requires body.author in s.mem.authority.authorized
    requires MayAppend(Libraries(codecs, sha), s.mem, Sent(Libraries(codecs, sha), body))
    ensures var e := Libraries(codecs, sha); Appends(e, s, Sent(e, body), NOW)
  {
    hide Libraries, Usable, ValidBody, Startable, Reachable, TryAccept, CheckPost, ApplyOp, EarlyCheck, Chained,
      Mirrored, Recorded, Vouched;
    var e := Libraries(codecs, sha);
    var tx := Sent(e, body);
    StartIsStartable(codecs, sha);
    ReachableInvariant(Start(e), s);
    SentPassesChecks(codecs, sha, s.mem, body);
    SentProvesItself(codecs, sha, body);
    AlwaysMinable(codecs, sha, s.mem, tx);
    AcceptsExactly(e, s.mem, s.disk, s.txs, tx, NOW);
  }

  /** What an appended request leaves. */
  lemma PostedState(l: Launch, s: Server, tx: Tx)
    requires Startable(l) && Reachable(l, s) && Appends(l.e, s, tx, NOW)
    ensures var m, m' := s.mem, AfterPost(l.e, s, tx, NOW).mem;
      && Reachable(l, AfterPost(l.e, s, tx, NOW)) && AfterPost(l.e, s, tx, NOW).txs == s.txs + [tx]
      && |m'.blocks| == |m.blocks| + 1 && m'.target == m.target && m'.owner == m.owner && m'.ownerEnc == m.ownerEnc
      && m'.txIds == m.txIds + {tx.id} && m'.count == m.count + 1
      && m'.noteIds == (if IsCreate(tx) then m.noteIds + {tx.body.noteId} else m.noteIds)
      && m'.authority == Effect(l.e, m.authority, tx)
  {
    hide Startable, Reachable, TryAccept, CheckPost, ApplyOp, EarlyCheck, TransactionHash, BlockHash, NoKeyClash,
      Committed, Effect;
    ReachableSteps(l, s, Post(tx, NOW));
    var rec, leaf, o := AcceptGrows(l.e, s.mem, s.disk, tx, NOW);
    ProceedIsEffect(l.e, s.mem.owner, s.mem.ownerEnc, s.mem.authority, tx);
  }
}
