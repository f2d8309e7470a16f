/**
 One run in which the owner enrols a device, enrols it again, and the device creates a note: every
 request passes its checks, and the server cannot be restarted.
 */
module ReenrolmentRun {
  import opened ByteStrings
  import opened Wire
  import opened Ledger
  import opened LedgerInvariants
  import opened LedgerHistory
  import opened LedgerRuns
  import opened LedgerAuthority
  import opened LateFailures
  import opened Scenario

  const ENROL: Body := Body(1, HERE, Zeros(32), MemberAdd, ENROL_PAYLOAD, 0, OWNER)
  const AGAIN: Body := Body(1, HERE, Zeros(32), MemberAdd, ENROL_PAYLOAD, 1, OWNER)
  const CREATE: Body := Body(1, HERE, Zeros(32), Create, CREATE_PAYLOAD, 0, DEVICE)

  const ENROLLED: MemberRecord := MemberRecord(DEVICE, DEVICE_ENCRYPTION, "")
  const WITH_DEVICE: Authority := Authority(map[DEVICE_ID := ENROLLED], {OWNER, DEVICE}, 4)

  /** The three requests have different ids. */
  function Ids(codecs: Env): Hash {
    imap[HashInput(TxIdDomain, Encode(codecs.encodeBody, AGAIN)) := Filled(32, 1),
         HashInput(TxIdDomain, Encode(codecs.encodeBody, CREATE)) := Filled(32, 2)]
  }

  ghost function Libs(codecs: Env): Env {
    Libraries(codecs, Ids(codecs))
  }

  lemma BodiesAreValid(codecs: Env)
    ensures ValidBody(Libs(codecs), ENROL) && ValidBody(Libs(codecs), AGAIN) && ValidBody(Libs(codecs), CREATE)
  {
  }

  lemma IdsDiffer(codecs: Env)
    requires Libs(codecs).Codecs()
    ensures var e := Libs(codecs);
      && Sent(e, ENROL).id != Sent(e, AGAIN).id && Sent(e, CREATE).id != Sent(e, ENROL).id
      && Sent(e, CREATE).id != Sent(e, AGAIN).id
  {
    var e := Libs(codecs);
    BodiesAreValid(codecs);
    assert Decode(e.decodeBody, Encode(e.encodeBody, ENROL)) == Some(ENROL);
    assert Decode(e.decodeBody, Encode(e.encodeBody, AGAIN)) == Some(AGAIN);
    assert Decode(e.decodeBody, Encode(e.encodeBody, CREATE)) == Some(CREATE);
    assert ENROL.clientCreatedAt != AGAIN.clientCreatedAt;
    assert CREATE.opType != ENROL.opType && CREATE.opType != AGAIN.opType;
    assert Filled(32, 1)[0] == 1 && Filled(32, 2)[0] == 2 && Sent(e, ENROL).id[0] == 0;
  }

  ghost function Enrolled(codecs: Env): Server {
    AfterPost(Libs(codecs), SeedServer(Start(Libs(codecs))), Sent(Libs(codecs), ENROL), NOW)
  }

  lemma EnrolAppends(codecs: Env)
    requires Libs(codecs).Codecs()
    ensures var e := Libs(codecs); var s := SeedServer(Start(e));
      && Appends(e, s, Sent(e, ENROL), NOW)
      && ApplyOp(e, OWNER, OWNER_ENCRYPTION, s.mem.authority, Sent(e, ENROL)).Proceed?
      && Effect(e, s.mem.authority, Sent(e, ENROL)) == WITH_DEVICE
  {
    hide Libraries, Decode, Sha, Filled, BlockHash, SeedServer, Startable, Reachable, Appends, ValidBody;
    var e := Libs(codecs);
    SeedState(e);
    PayloadsDecode(codecs, Ids(codecs));
    BodiesAreValid(codecs);
    StartIsStartable(codecs, Ids(codecs));
    PostAppends(codecs, Ids(codecs), SeedServer(Start(e)), ENROL);
  }

  /** Memory once the device is enrolled, with these transaction ids and no note. */
  ghost predicate LooksLike(m: Mem, ids: set<Bytes>, count: nat) {
    && |m.blocks| == count + 1 && m.target == TARGET && m.owner == OWNER && m.ownerEnc == OWNER_ENCRYPTION
    && m.authority == WITH_DEVICE && m.txIds == ids && m.noteIds == {} && m.count == count
  }

  lemma StartOf(e: Env)
    ensures Start(e).e == e
  {
  }

  lemma AfterEnrol(codecs: Env)
    requires Libs(codecs).Codecs()
    ensures var e := Libs(codecs); var s := Enrolled(codecs);
      && Startable(Start(e)) && Reachable(Start(e), s) && LooksLike(s.mem, {Sent(e, ENROL).id}, 1)
      && s.txs == [Sent(e, GENESIS), Sent(e, ENROL)]
  {
    hide Libraries, SeedServer, Startable, Reachable, Appends, AfterPost, Effect, ApplyOp, Sent, Start;
    var e := Libs(codecs);
    SeedState(e);
    SentIs(e, ENROL);
    StartOf(e);
    StartIsStartable(codecs, Ids(codecs));
    EnrolAppends(codecs);
    PostedState(Start(e), SeedServer(Start(e)), Sent(e, ENROL));
  }

  /** The second enrolment and the create, on memory as the steps before leave it. */
  lemma Operations(codecs: Env)
    ensures var e := Libs(codecs);
      && ApplyOp(e, OWNER, OWNER_ENCRYPTION, WITH_DEVICE, Sent(e, AGAIN))
         == Proceed(WITH_DEVICE, AuthorityChange(Some((DEVICE_ID, ENROLLED)), [], [DEVICE], None))
      && ApplyOp(e, OWNER, OWNER_ENCRYPTION, WITH_DEVICE, Sent(e, CREATE)) == Proceed(WITH_DEVICE, NO_CHANGE)
  {
    hide Libraries, Decode, Sha, Filled;
    PayloadsDecode(codecs, Ids(codecs));
    assert WITH_DEVICE.authorized + {DEVICE} == WITH_DEVICE.authorized;
    assert WITH_DEVICE.members[DEVICE_ID := ENROLLED] == WITH_DEVICE.members;
  }

  lemma SentIs(e: Env, body: Body)
    ensures Sent(e, body).body == body && Sent(e, body).powEpoch == 0
  {
  }

  lemma IsTimely(m: Mem, tx: Tx, ids: set<Bytes>, count: nat)
    requires LooksLike(m, ids, count) && count < 1000 && tx.id !in ids && tx.powEpoch == 0
    ensures EarlyCheck(m, tx) == None
  {
  }

  lemma AgainIsReady(codecs: Env, m: Mem)
    requires Libs(codecs).Codecs() && LooksLike(m, {Sent(Libs(codecs), ENROL).id}, 1)
    ensures var e := Libs(codecs); var tx := Sent(e, AGAIN);
      && CheckPost(e, m, tx) == None && EarlyCheck(m, tx) == None && Minable(e, m, tx, NOW)
      && var o := ApplyOp(e, m.owner, m.ownerEnc, m.authority, tx);
         o.Proceed? && o.authority == WITH_DEVICE && !FreshDevice(m, o)
  {
    hide Libraries, ValidBody, CheckPost, EarlyCheck, Minable, ApplyOp, Sent;
    var e := Libs(codecs);
    Operations(codecs);
    IdsDiffer(codecs);
    BodiesAreValid(codecs);
    SentIs(e, AGAIN);
    SentProvesItself(codecs, Ids(codecs), AGAIN);
    SentPassesChecks(codecs, Ids(codecs), m, AGAIN);
    AlwaysMinable(codecs, Ids(codecs), m, Sent(e, AGAIN));
    IsTimely(m, Sent(e, AGAIN), {Sent(e, ENROL).id}, 1);
  }

  lemma CreateIsReady(codecs: Env, m: Mem)
    requires Libs(codecs).Codecs()
    requires LooksLike(m, {Sent(Libs(codecs), ENROL).id, Sent(Libs(codecs), AGAIN).id}, 2)
    ensures var e := Libs(codecs); var tx := Sent(e, CREATE);
      && CheckPost(e, m, tx) == None && EarlyCheck(m, tx) == None && Minable(e, m, tx, NOW)
      && ApplyOp(e, m.owner, m.ownerEnc, m.authority, tx).Proceed? && tx.body.opType == Create
  {
    hide Libraries, ValidBody, CheckPost, EarlyCheck, Minable, ApplyOp, Sent;
    var e := Libs(codecs);
    Operations(codecs);
    IdsDiffer(codecs);
    BodiesAreValid(codecs);
    SentIs(e, CREATE);
    SentProvesItself(codecs, Ids(codecs), CREATE);
    SentPassesChecks(codecs, Ids(codecs), m, CREATE);
    AlwaysMinable(codecs, Ids(codecs), m, Sent(e, CREATE));
    IsTimely(m, Sent(e, CREATE), {Sent(e, ENROL).id, Sent(e, AGAIN).id}, 2);
  }

  lemma EnrolledIsSound(codecs: Env)
    requires Libs(codecs).Codecs()
    ensures var s := Enrolled(codecs); Growable(s.mem) && Sound(Libs(codecs), s.mem, s.disk, s.txs)
  {
    hide Libraries, Startable, Reachable, Enrolled, Sent, Recorded, Vouched, Sound;
    AfterEnrol(codecs);
    ReachableInvariant(Start(Libs(codecs)), Enrolled(codecs));
  }

  /** Memory after the second enrolment. */
  ghost function Stranding(codecs: Env): Mem {
    var s := Enrolled(codecs);
    if Growable(s.mem) then TryAccept(Libs(codecs), s.mem, s.disk, Sent(Libs(codecs), AGAIN), NOW).0 else s.mem
  }

  lemma AgainStrands(codecs: Env)
    requires Libs(codecs).Codecs()
    ensures var e := Libs(codecs); var s := Enrolled(codecs);
      && Growable(s.mem) && !TryAccept(e, s.mem, s.disk, Sent(e, AGAIN), NOW).2.AcceptOk?
      && TryAccept(e, s.mem, s.disk, Sent(e, AGAIN), NOW).1 == s.disk
      && LooksLike(Stranding(codecs), {Sent(e, ENROL).id, Sent(e, AGAIN).id}, 2)
  {
    hide Libraries, Startable, Reachable, Sound, TryAccept, CheckPost, EarlyCheck, Minable, ApplyOp, Enrolled, Sent,
      FreshDevice;
    var e := Libs(codecs);
    var s := Enrolled(codecs);
    AfterEnrol(codecs);
    EnrolledIsSound(codecs);
    AgainIsReady(codecs, s.mem);
    SentIs(e, AGAIN);
    StrandsExactly(e, s.mem, s.disk, s.txs, Sent(e, AGAIN), NOW);
  }

  ghost function First(codecs: Env): Event {
    Post(Sent(Libs(codecs), ENROL), NOW)
  }

  ghost function Second(codecs: Env): Event {
    Post(Sent(Libs(codecs), AGAIN), NOW)
  }

  ghost function Third(codecs: Env): Event {
    Post(Sent(Libs(codecs), CREATE), NOW)
  }

  lemma SecondStep(codecs: Env)
    requires Libs(codecs).Codecs()
    ensures var s := Enrolled(codecs); var s' := Step(Libs(codecs), s, Second(codecs));
      s'.mem == Stranding(codecs) && s'.disk == s.disk && s'.txs == s.txs
  {
    hide Libraries, TryAccept, CheckPost, EarlyCheck, Minable, ApplyOp, Enrolled, Sent, FreshDevice, Startable,
      Reachable;
    AfterEnrol(codecs);
    AgainIsReady(codecs, Enrolled(codecs).mem);
    AgainStrands(codecs);
  }

  lemma ThirdStep(codecs: Env, s: Server)
    requires Libs(codecs).Codecs()
    requires s.mem == Stranding(codecs) && s.disk == Enrolled(codecs).disk
    ensures var s' := Step(Libs(codecs), s, Third(codecs));
      Rebuild(Libs(codecs), s'.disk) == None && s'.txs == s.txs + [Sent(Libs(codecs), CREATE)]
  {
    hide Libraries, TryAccept, CheckPost, EarlyCheck, Minable, ApplyOp, Enrolled, Sent, FreshDevice, Startable,
      Reachable, Rebuild, Sound;
    var e := Libs(codecs);
    var before := Enrolled(codecs);
    AfterEnrol(codecs);
    EnrolledIsSound(codecs);
    AgainIsReady(codecs, before.mem);
    AgainStrands(codecs);
    CreateIsReady(codecs, s.mem);
    ReenrolmentHoles(e, before.mem, before.disk, before.txs, Sent(e, AGAIN), Sent(e, CREATE), NOW, NOW);
  }

  /** The second enrolment passes every guard and strands its block, the create after it is accepted, and
      the server does not start again. */
  lemma ReenrolledServerStops(codecs: Env)
    requires Libs(codecs).Codecs()
    ensures var e := Libs(codecs); var h0 := Up(SeedServer(Start(e)));
      var h := HostRun(e, h0, [First(codecs), Second(codecs), Third(codecs)]);
      && Startable(Start(e)) && h.Up? && h.server.txs == [Sent(e, GENESIS), Sent(e, ENROL), Sent(e, CREATE)]
      && HostRun(e, h0, [First(codecs), Second(codecs), Third(codecs), Restart]).Down?
  {
    hide Libraries, SeedServer, Startable, Reachable, LooksLike, Step, Rebuild, HostRun, Stranding, Sent, Start;
    var e := Libs(codecs);
    var h0 := Up(SeedServer(Start(e)));
    var a, b, c := First(codecs), Second(codecs), Third(codecs);
    AfterEnrol(codecs);
    SecondStep(codecs);
    ThirdStep(codecs, Step(e, Enrolled(codecs), b));
    NoMore(e, h0);
    OneMore(e, h0, [], a);
    OneMore(e, h0, [a], b);
    OneMore(e, h0, [a, b], c);
    OneMore(e, h0, [a, b, c], Restart);
    assert [] + [a] == [a] && [a] + [b] == [a, b] && [a, b] + [c] == [a, b, c];
    assert [a, b, c] + [Restart] == [a, b, c, Restart];
  }

  lemma NoMore(e: Env, h: Host)
    ensures HostRun(e, h, []) == h
  {
  }
}
