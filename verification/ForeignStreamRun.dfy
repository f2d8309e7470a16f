/**
 One run in which the server accepts a transaction signed for another stream, and a client that follows
 it and stops there.
 */
module ForeignStreamRun {
  import opened ByteStrings
  import opened Mmr
  import opened Chainwork
  import opened Wire
  import opened HeaderTree
  import opened HeaderTreeProofs
  import opened FinalizationLoop
  import opened Ledger
  import opened LedgerInvariants
  import opened LedgerRuns
  import opened LedgerAuthority
  import opened Peer
  import opened CatchUp
  import opened ClientFollowsServer
  import opened Scenario

  const THERE: Bytes := Filled(32, 5)
  const NOTE: Body := Body(1, THERE, Zeros(32), Create, CREATE_PAYLOAD, 0, DEVICE)

  /** The genesis header and the next have different hashes. */
  function Hashes(codecs: Env): Hash {
    imap[HashInput(BlockDomain, Encode(codecs.encodeHeader, GENESIS_HEADER)) := TARGET]
  }

  ghost function Libs(codecs: Env): Env {
    Libraries(codecs, Hashes(codecs))
  }

  /** The server after the transaction is posted. */
  ghost function Posted(codecs: Env): Server {
    AfterPost(Libs(codecs), SeedServer(Start(Libs(codecs))), Sent(Libs(codecs), NOTE), NOW)
  }

  lemma NoteAppends(codecs: Env)
    requires Libs(codecs).Codecs()
    ensures var e := Libs(codecs); var s := SeedServer(Start(e));
      Startable(Start(e)) && Reachable(Start(e), s) && Appends(e, s, Sent(e, NOTE), NOW)
  {
    hide Libraries, Decode, Sha, Filled, BlockHash, SeedServer, Startable, Reachable, Appends;
    var e := Libs(codecs);
    SeedState(e);
    PayloadsDecode(codecs, Hashes(codecs));
    NoteIsValid(codecs);
    StartIsStartable(codecs, Hashes(codecs));
    PostAppends(codecs, Hashes(codecs), SeedServer(Start(e)), NOTE);
  }

  lemma NoteIsValid(codecs: Env)
    ensures ValidBody(Libs(codecs), NOTE) && ValidBody(Libs(codecs), GENESIS)
  {
  }

  lemma GenesisIsOk(codecs: Env)
    requires Libs(codecs).Codecs()
    ensures var m := SeedServer(Start(Libs(codecs))).mem; Shaped(m) && GenesisOk(Libs(codecs), m)
  {
    hide Peaks, BlockWork;
    TargetValue();
  }

  /** Two blocks: the seeded one, and one mined on it under the stream's target. */
  lemma TwoBlocks(codecs: Env)
    requires Libs(codecs).Codecs()
    ensures var e := Libs(codecs); var s := Posted(codecs); var l := Start(e);
      && Startable(l) && Reachable(l, s) && Shaped(s.mem) && Growable(s.mem)
      && s.txs == [Sent(e, GENESIS), Sent(e, NOTE)] && |s.mem.blocks| == 2
      && s.mem.blocks[0].header == GENESIS_HEADER && s.mem.blocks[0].hash == BlockHash(e, GENESIS_HEADER)
      && s.mem.blocks[1].header.height == 1 && s.mem.blocks[1].header.powTarget == TARGET
      && s.mem.blocks[1].hash == BlockHash(e, s.mem.blocks[1].header)
  {
    hide Libraries, Startable, Reachable, TryAccept, CheckPost, ApplyOp, EarlyCheck, TransactionHash, BlockHash,
      NoKeyClash, Committed, Sent;
    var e := Libs(codecs);
    NoteAppends(codecs);
    var s0 := SeedServer(Start(e));
    var rec, leaf, o := AcceptGrows(e, s0.mem, s0.disk, Sent(e, NOTE), NOW);
    ReachableSteps(Start(e), s0, Post(Sent(e, NOTE), NOW));
  }

  /** The two blocks on request. */
  ghost function Answers(codecs: Env): Served {
    var m, txs := Posted(codecs).mem, Posted(codecs).txs;
    if |m.blocks| == |txs| == 2 then
      map[m.blocks[0].hash := Block(m.blocks[0].header, m.blocks[0].hash, txs[0]),
          m.blocks[1].hash := Block(m.blocks[1].header, m.blocks[1].hash, txs[1])]
    else map[]
  }

  lemma ItServes(codecs: Env)
    requires Libs(codecs).Codecs()
    ensures Serves(Start(Libs(codecs)), Posted(codecs), Answers(codecs))
  {
    hide Libraries, Startable, LedgerRuns.Reachable, BlockHash, Posted, Sent, SeedServer, GenesisOk, BlockWork, Start;
    var e := Libs(codecs);
    var s := Posted(codecs);
    StartOf(e);
    TwoBlocks(codecs);
    GenesisIsOk(codecs);
    TargetValue();
    TwoHashes(codecs, s.mem.blocks[1].header);
    assert ServesBlock(Answers(codecs), s.mem, s.txs, 0) && ServesBlock(Answers(codecs), s.mem, s.txs, 1);
  }

  lemma StartOf(e: Env)
    ensures Start(e).e == e
  {
  }

  lemma TwoHashes(codecs: Env, h: Header)
    requires Libs(codecs).Codecs() && h.height == 1 && h.powTarget == TARGET
    ensures BlockHash(Libs(codecs), GENESIS_HEADER) != BlockHash(Libs(codecs), h)
  {
    OtherHeaders(codecs, Hashes(codecs), h);
    assert BlockHash(Libs(codecs), GENESIS_HEADER) == TARGET;
    assert TARGET[31] == 1 && Zeros(32)[31] == 0;
  }

  /** The server takes the foreign transaction; a fresh client follows its headers, and the loop that
      finalizes them stops at that block with the malformed-header error. */
  lemma ForeignTransactionStopsClient(codecs: Env)
    requires Libs(codecs).Codecs()
    ensures var e := Libs(codecs); var s := Posted(codecs);
      && Serves(Start(e), s, Answers(codecs)) && |s.txs| == |s.mem.blocks| == 2 && s.txs[1].body.streamId != HERE
      && var c := ClientConfig(e, s.mem.genesisHash, HERE);
         FinalizeLoop(c, Followed(e, s.mem), Answers(codecs), 2).1 == BlockFailed(1, Failed(MalformedHeader))
  {
    hide Libraries, Startable, LedgerRuns.Reachable, Posted, Sent, Start, Serves, FinalizeLoop, Followed, ValidBody,
      BlockHash, SignatureVerifies, HasId, Answers, CaughtUp;
    var e := Libs(codecs);
    var s := Posted(codecs);
    StartOf(e);
    TwoBlocks(codecs);
    ItServes(codecs);
    ClientCatchesUp(Start(e), s, HERE, Answers(codecs));
    TransactionsAre(codecs);
  }

  lemma TransactionsAre(codecs: Env)
    ensures var e := Libs(codecs);
      && Acceptable(e, HERE, Sent(e, GENESIS)) && !Acceptable(e, HERE, Sent(e, NOTE))
      && Sent(e, NOTE).body.streamId != HERE && BodyError(e, Sent(e, NOTE)) == Failed(MalformedHeader)
  {
    NoteIsValid(codecs);
    SentProvesItself(codecs, Hashes(codecs), GENESIS);
    assert THERE[0] != HERE[0];
  }
}
