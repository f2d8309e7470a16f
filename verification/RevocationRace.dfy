/**
 One run in which a device's create is checked, the owner's bundle revokes the device, and the create
 is accepted afterwards; and what becomes of the device's outbox row.
 */
module RevocationRace {
  import opened ByteStrings
  import opened Wire
  import opened Ledger
  import opened LedgerInvariants
  import opened LedgerHistory
  import opened LedgerRuns
  import opened LedgerAuthority
  import opened Scenario
  import opened ClientOutbox
  import opened SubmissionRuns

  const CREATE: Body := Body(1, HERE, Zeros(32), Create, LATER_PAYLOAD, 0, DEVICE)
  const BUNDLE: Body := Body(1, HERE, Zeros(32), KeyRotationBundle, BUNDLE_PAYLOAD, 0, OWNER)

  /** The create and the bundle have different ids. */
  function Ids(codecs: Env): Hash {
    imap[HashInput(TxIdDomain, Encode(codecs.encodeBody, CREATE)) := Filled(32, 1)]
  }

  ghost function Libs(codecs: Env): Env {
    Libraries(codecs, Ids(codecs))
  }

  lemma BodiesAreValid(codecs: Env)
    ensures ValidBody(Libs(codecs), CREATE) && ValidBody(Libs(codecs), BUNDLE)
  {
  }

  lemma IdsDiffer(codecs: Env)
    requires Libs(codecs).Codecs()
    ensures Sent(Libs(codecs), CREATE).id != Sent(Libs(codecs), BUNDLE).id
  {
    var e := Libs(codecs);
    BodiesAreValid(codecs);
    assert Decode(e.decodeBody, Encode(e.encodeBody, CREATE)) == Some(CREATE);
    assert Decode(e.decodeBody, Encode(e.encodeBody, BUNDLE)) == Some(BUNDLE);
    assert CREATE.opType != BUNDLE.opType;
    assert Sent(e, CREATE).id[0] != Sent(e, BUNDLE).id[0];
  }

  lemma AtTheStart(codecs: Env)
    ensures var e := Libs(codecs); var m := SeedServer(Start(e)).mem;
      && MayAppend(e, m, Sent(e, BUNDLE))
      && Premature(e, OWNER, m.authority, Sent(e, CREATE))
      && Overtakes(e, m, Sent(e, BUNDLE), Sent(e, CREATE))
  {
    hide Libraries, Decode, Sha, Filled, BlockHash, SeedServer;
    SeedState(Libs(codecs));
    PayloadsDecode(codecs, Ids(codecs));
    DeviceIsNotOwner();
    var e := Libs(codecs);
    ProceedsExactly(e, OWNER, OWNER_ENCRYPTION, SeedServer(Start(e)).mem.authority, Sent(e, BUNDLE));
  }

  /** The server after the check of the create, the bundle, and the accept of the create. */
  ghost function RaceEnd(codecs: Env): Server {
    var e := Libs(codecs);
    AfterOvertaking(e, SeedServer(Start(e)), Sent(e, CREATE), Sent(e, BUNDLE), NOW, NOW)
  }

  lemma CreateUnhindered(codecs: Env)
    requires Libs(codecs).Codecs()
    ensures var e := Libs(codecs); var s := SeedServer(Start(e));
      && Appends(e, s, Sent(e, BUNDLE), NOW)
      && Unhindered(e, AfterPost(e, s, Sent(e, BUNDLE), NOW).mem, Sent(e, CREATE), NOW)
  {
    hide Libraries, ValidBody, Startable, Reachable, MayAppend, Minable, Appends, SeedServer, AfterPost, Premature,
      Overtakes;
    var e := Libs(codecs);
    var s := SeedServer(Start(e));
    AtTheStart(codecs);
    SeedState(e);
    BodiesAreValid(codecs);
    IdsDiffer(codecs);
    StartIsStartable(codecs, Ids(codecs));
    PostAppends(codecs, Ids(codecs), s, BUNDLE);
    PostedState(Start(e), s, Sent(e, BUNDLE));
    SentProvesItself(codecs, Ids(codecs), CREATE);
    AlwaysMinable(codecs, Ids(codecs), AfterPost(e, s, Sent(e, BUNDLE), NOW).mem, Sent(e, CREATE));
  }

  lemma RaceRuns(codecs: Env)
    requires Libs(codecs).Codecs()
    ensures var e := Libs(codecs); var s := RaceEnd(codecs);
      && Startable(Start(e)) && Reachable(Start(e), s)
      && s.txs == [Sent(e, GENESIS), Sent(e, BUNDLE), Sent(e, CREATE)] && |s.checks| == 3 && s.checks[2] == 1
      && DEVICE !in Below(e, OriginOf(Start(e)).seed, s.txs, 2).authorized
  {
    hide Libraries, SeedServer, Startable, Reachable, TryAccept, CheckPost, Premature, Overtakes, Appends, Unhindered,
      Below, AfterPost, AfterOvertaking, ValidBody, MayAppend;
    var e := Libs(codecs);
    var l := Start(e);
    StartIsStartable(codecs, Ids(codecs));
    AtTheStart(codecs);
    SeedState(e);
    BodiesAreValid(codecs);
    SentPassesChecks(codecs, Ids(codecs), SeedServer(l).mem, CREATE);
    CreateUnhindered(codecs);
    PrematureOutlivesItsKey(l, SeedServer(l), Sent(e, CREATE), Sent(e, BUNDLE), NOW, NOW);
  }

  /** The device's create is checked, the bundle that revokes the device is appended, and then the create
      is: the third block's author is not authorized by the two below it, nor by all three. */
  lemma RevokedAuthorAppends(codecs: Env)
    requires Libs(codecs).Codecs()
    ensures var e := Libs(codecs); var s := RaceEnd(codecs);
      && Startable(Start(e)) && Reachable(Start(e), s) && Growable(s.mem)
      && |s.txs| == |s.checks| == 3 && s.txs[1..] == [Sent(e, BUNDLE), Sent(e, CREATE)] && s.checks[2] == 1
      && DEVICE !in Below(e, OriginOf(Start(e)).seed, s.txs, 2).authorized
      && DEVICE !in s.mem.authority.authorized
  {
    hide Libs, Startable, Reachable, Below, RaceEnd;
    RaceRuns(codecs);
    StaysRevoked(Start(Libs(codecs)), RaceEnd(codecs), DEVICE);
  }

  /** A create changes nothing for keys. */
  lemma StaysRevoked(l: Launch, s: Server, key: Bytes)
    requires Startable(l) && Reachable(l, s) && |s.txs| > 1 && IsCreate(s.txs[|s.txs| - 1])
    ensures key in s.mem.authority.authorized <==> key in Below(l.e, OriginOf(l).seed, s.txs, |s.txs| - 1).authorized
    ensures |s.mem.blocks| == |s.txs|
  {
    hide Startable, Reachable, Below;
    ReachableIsLawful(l, s);
    StrictPowEpochs(l, s);
    BelowStep(l.e, OriginOf(l).seed, s.txs, |s.txs| - 1);
  }

  // ----- the device's row -----

  ghost function CreateItem(codecs: Env): Item {
    var e := Libs(codecs);
    Item(HERE, Sent(e, CREATE).id, Encode(e.encodeTx, Sent(e, CREATE)), 0, Pending)
  }

  /** When the reply to that accept is lost, the device's next submission marks the row failed although its
      create is on the chain. */
  lemma AcceptedRowFails(codecs: Env, id: string) returns (n: Net)
    requires Libs(codecs).Codecs()
    ensures var e := Libs(codecs);
      && NetReachable(Start(e), n) && |n.server.txs| == 3
      && id in n.rows && n.rows[id].status == Failed && Holds(e, n.rows[id], n.server.txs[2])
  {
    hide Libraries, Startable, Reachable, NetReachable, RaceEnd, ValidBody, Below, NetStep;
    var e := Libs(codecs);
    var l := Start(e);
    var s := RaceEnd(codecs);
    RevokedAuthorAppends(codecs);
    ItemHolds(codecs);
    var waiting := ReachableWithRow(l, s, id, CreateItem(codecs));
    assert s.txs[2] == s.txs[1..][1];
    RetriedRowFails(l, waiting, id, 2, NOW);
    var sent := NetStep(e, waiting, Serve(Post(s.txs[2], NOW)));
    n := NetStep(e, sent, Receive(id, Error(403, UnauthorizedKey)));
  }

  lemma ItemHolds(codecs: Env)
    requires Libs(codecs).Codecs()
    ensures Holds(Libs(codecs), CreateItem(codecs), Sent(Libs(codecs), CREATE))
  {
    BodiesAreValid(codecs);
    SentProvesItself(codecs, Ids(codecs), CREATE);
  }
}
