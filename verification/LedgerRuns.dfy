/**
 All clean runs of the server without a peer reorganisation, from the seeded stream on: requests
 checked and accepted in any interleaving, requests handled one at a time, and restarts.
 */
module LedgerRuns {
  import opened Arith
  import opened ByteStrings
  import opened Mmr
  import opened Chainwork
  import opened Wire
  import opened Ledger
  import opened LedgerInvariants
  import opened LedgerHistory

  /** A request past its checks, and how many blocks the chain had when they passed. */
  datatype Request = Request(tx: Tx, checkedAt: nat)

  /** The server, with the transaction of each block, the number of blocks below which that transaction
      was checked, the clock at its accept, and the requests past their checks. A checked request may reach
      tryAccept at any later time, and more than once. */
  datatype Server = Server(
    mem: Mem, disk: Disk, txs: seq<Tx>, checks: seq<nat>, clocks: seq<UInt64>, inFlight: set<Request>)

  datatype Event =
      Check(tx: Tx)
    | Accept(request: Request, inputs: Inputs)
    | Post(tx: Tx, inputs: Inputs)
    | Restart

  ghost predicate Growable(m: Mem) {
    0 < |m.blocks| < TWO_63
  }

  ghost function Accepting(e: Env, s: Server, q: Request, inputs: Inputs): Server
    requires Growable(s.mem)
  {
    var (m', disk', r) := TryAccept(e, s.mem, s.disk, q.tx, inputs);
    s.(mem := m', disk := disk',
       txs := if r.AcceptOk? then s.txs + [q.tx] else s.txs,
       checks := if r.AcceptOk? then s.checks + [q.checkedAt] else s.checks,
       clocks := if r.AcceptOk? then s.clocks + [inputs.now] else s.clocks)
  }

  /** A request checked now. */
  function CheckedNow(s: Server, tx: Tx): Request {
    Request(tx, |s.txs|)
  }

  /** The accept succeeds, or it is rejected with nothing changed. */
  ghost predicate CleanAccept(e: Env, m: Mem, disk: Disk, tx: Tx, inputs: Inputs)
    requires Growable(m)
  {
    var (m', disk', r) := TryAccept(e, m, disk, tx, inputs);
    r.AcceptOk? || (m' == m && disk' == disk)
  }

  ghost function Step(e: Env, s: Server, ev: Event): Server {
    if !Growable(s.mem) then s
    else
    match ev
    case Check(tx) => if CheckPost(e, s.mem, tx) == None then s.(inFlight := s.inFlight + {CheckedNow(s, tx)}) else s
    case Accept(q, inputs) => if q in s.inFlight then Accepting(e, s, q, inputs) else s
    case Post(tx, inputs) => if CheckPost(e, s.mem, tx) == None then Accepting(e, s, CheckedNow(s, tx), inputs) else s
    case Restart =>
      if Rebuild(e, s.disk).Some? then s.(mem := Rebuild(e, s.disk).value, inFlight := {}) else s
  }

  ghost predicate Clean(e: Env, s: Server, ev: Event) {
    && Growable(s.mem)
    && match ev
       case Check(_) | Restart => true
       case Accept(q, inputs) => q in s.inFlight ==> CleanAccept(e, s.mem, s.disk, q.tx, inputs)
       case Post(tx, inputs) => CheckPost(e, s.mem, tx) == None ==> CleanAccept(e, s.mem, s.disk, tx, inputs)
  }

  ghost function Run(e: Env, s: Server, events: seq<Event>): Server {
    if |events| == 0 then s else Step(e, Run(e, s, events[..|events| - 1]), events[|events| - 1])
  }

  /** Every step of the run is clean. */
  ghost predicate CleanRun(e: Env, s: Server, events: seq<Event>) {
    |events| > 0 ==>
      && CleanRun(e, s, events[..|events| - 1])
      && Clean(e, Run(e, s, events[..|events| - 1]), events[|events| - 1])
  }

  /** Requests are handled one at a time. */
  predicate Serial(events: seq<Event>) {
    forall i :: 0 <= i < |events| ==> events[i].Post? || events[i].Restart?
  }

  // ----- the invariant -----

  ghost predicate AuthorizedBelow(e: Env, g: Origin, txs: seq<Tx>, author: Bytes, i: nat) {
    1 <= i <= |txs| && author in Below(e, g.seed, txs, i).authorized
  }

  /** tx passes the handler's checks against the first i blocks. */
  ghost predicate PassedBelow(e: Env, g: Origin, target: Bytes, txs: seq<Tx>, tx: Tx, i: nat) {
    SelfProving(e, target, tx) && AuthorizedBelow(e, g, txs, tx.body.author, i)
  }

  /** Every checked request, and every block's transaction, passed the checks below the height recorded for it. */
  ghost predicate Vouched(e: Env, g: Origin, s: Server) {
    && |s.checks| == |s.txs|
    && (forall q :: q in s.inFlight ==> PassedBelow(e, g, s.mem.target, s.txs, q.tx, q.checkedAt))
    && (forall i :: 1 <= i < |s.txs| ==>
          s.checks[i] <= i && PassedBelow(e, g, s.mem.target, s.txs, s.txs[i], s.checks[i]))
  }

  /** Every block's header was drafted for its place, at its accept. */
  ghost predicate Drafted(m: Mem, clocks: seq<UInt64>) {
    && |clocks| == |m.blocks|
    && forall i :: 1 <= i < |m.blocks| ==> IsDraftOf(m.blocks[i].header, i, clocks[i], m.target)
  }

  predicate IsDraftOf(h: Header, i: nat, clock: UInt64, target: Bytes) {
    h.protocolVersion == 1 && h.transactionCount == i + 1 && h.timestamp == clock && h.powTarget == target
  }

  ghost predicate Invariant(e: Env, g: Origin, s: Server) {
    Sound(e, s.mem, s.disk, s.txs) && Recorded(e, g, s.mem, s.txs) && Vouched(e, g, s) && Drafted(s.mem, s.clocks)
  }

  lemma StillPassed(e: Env, g: Origin, target: Bytes, txs: seq<Tx>, tx: Tx, t: Tx, i: nat)
    requires PassedBelow(e, g, target, txs, t, i)
    ensures PassedBelow(e, g, target, txs + [tx], t, i) && i <= |txs|
  {
    hide SelfProving;
    BelowExtends(e, g.seed, txs, tx, i);
  }

  lemma VouchedGrows(e: Env, g: Origin, s: Server, s': Server, q: Request)
    requires Vouched(e, g, s) && PassedBelow(e, g, s.mem.target, s.txs, q.tx, q.checkedAt)
    requires s'.inFlight == s.inFlight && s'.mem.target == s.mem.target
    requires s'.txs == s.txs + [q.tx] && s'.checks == s.checks + [q.checkedAt]
    ensures Vouched(e, g, s')
  {
    hide PassedBelow;
    forall p | p in s'.inFlight
      ensures PassedBelow(e, g, s'.mem.target, s'.txs, p.tx, p.checkedAt)
    {
      StillPassed(e, g, s.mem.target, s.txs, q.tx, p.tx, p.checkedAt);
    }
    forall i | 1 <= i < |s'.txs|
      ensures s'.checks[i] <= i && PassedBelow(e, g, s'.mem.target, s'.txs, s'.txs[i], s'.checks[i])
    {
      StillPassed(e, g, s.mem.target, s.txs, q.tx, s'.txs[i], s'.checks[i]);
    }
  }

  lemma AcceptDrafts(e: Env, m: Mem, disk: Disk, tx: Tx, inputs: Inputs)
    requires Growable(m) && TryAccept(e, m, disk, tx, inputs).2.AcceptOk?
    ensures var m' := TryAccept(e, m, disk, tx, inputs).0;
      && |m'.blocks| == |m.blocks| + 1 && m'.blocks[..|m.blocks|] == m.blocks && m'.target == m.target
      && IsDraftOf(m'.blocks[|m.blocks|].header, |m.blocks|, inputs.now, m.target)
  {
    hide TryAccept, ApplyOp, EarlyCheck, NoKeyClash, Committed, BlockHash;
    var rec, leaf, o := AcceptGrows(e, m, disk, tx, inputs);
    AcceptedHeader(e, m, disk, tx, inputs);
  }

  lemma DraftedGrows(e: Env, s: Server, q: Request, inputs: Inputs)
    requires Drafted(s.mem, s.clocks) && Growable(s.mem) && TryAccept(e, s.mem, s.disk, q.tx, inputs).2.AcceptOk?
    ensures var s' := Accepting(e, s, q, inputs); Drafted(s'.mem, s'.clocks)
  {
    hide TryAccept, IsDraftOf;
    AcceptDrafts(e, s.mem, s.disk, q.tx, inputs);
    var s' := Accepting(e, s, q, inputs);
    assert forall i :: 0 <= i < |s.mem.blocks| ==> s'.mem.blocks[i] == s'.mem.blocks[..|s.mem.blocks|][i];
  }

  lemma AcceptingKeepsInvariant(e: Env, g: Origin, s: Server, q: Request, inputs: Inputs)
    requires Invariant(e, g, s) && Growable(s.mem) && CleanAccept(e, s.mem, s.disk, q.tx, inputs)
    requires PassedBelow(e, g, s.mem.target, s.txs, q.tx, q.checkedAt)
    ensures Invariant(e, g, Accepting(e, s, q, inputs))
  {
    hide PassedBelow, Vouched, Recorded, Chained, Mirrored, Drafted;
    var s' := Accepting(e, s, q, inputs);
    if TryAccept(e, s.mem, s.disk, q.tx, inputs).2.AcceptOk? {
      AcceptKeepsSound(e, s.mem, s.disk, s.txs, q.tx, inputs);
      var rec, leaf, o := AcceptGrows(e, s.mem, s.disk, q.tx, inputs);
      GrowsKeepsRecorded(e, g, s.mem, s.disk, s'.mem, s'.disk, s.txs, q.tx, rec, leaf, o);
      VouchedGrows(e, g, s, s', q);
      DraftedGrows(e, s, q, inputs);
    }
  }

  /** A request that passes its checks now is vouched for by the whole chain. */
  lemma CheckedIsVouched(e: Env, g: Origin, s: Server, tx: Tx)
    requires Recorded(e, g, s.mem, s.txs) && CheckPost(e, s.mem, tx) == None
    ensures PassedBelow(e, g, s.mem.target, s.txs, tx, |s.txs|)
  {
  }

  lemma StepKeepsInvariant(e: Env, g: Origin, s: Server, ev: Event)
    requires e.Codecs() && Invariant(e, g, s) && Clean(e, s, ev)
    ensures Invariant(e, g, Step(e, s, ev))
    ensures ev == Restart ==> Step(e, s, ev) == s.(inFlight := {})
  {
    hide CheckPost, TryAccept, Chained, Mirrored, Recorded, PassedBelow, Drafted;
    match ev
    case Check(tx) =>
      if CheckPost(e, s.mem, tx) == None {
        CheckedIsVouched(e, g, s, tx);
      }
    case Accept(q, inputs) =>
      if q in s.inFlight {
        AcceptingKeepsInvariant(e, g, s, q, inputs);
      }
    case Post(tx, inputs) =>
      if CheckPost(e, s.mem, tx) == None {
        CheckedIsVouched(e, g, s, tx);
        AcceptingKeepsInvariant(e, g, s, CheckedNow(s, tx), inputs);
      }
    case Restart =>
      RestartRestores(e, s.mem, s.disk, s.txs);
  }

  lemma {:induction false} RunKeepsInvariant(e: Env, g: Origin, s: Server, events: seq<Event>)
    requires e.Codecs() && Invariant(e, g, s) && CleanRun(e, s, events)
    ensures Invariant(e, g, Run(e, s, events))
    decreases |events|
  {
    if |events| > 0 {
      RunKeepsInvariant(e, g, s, events[..|events| - 1]);
      StepKeepsInvariant(e, g, Run(e, s, events[..|events| - 1]), events[|events| - 1]);
    }
  }

  // ----- from the seeded stream -----

  /** A stream's libraries, configured genesis block, its payload, and its transaction hash. */
  datatype Launch = Launch(e: Env, c: Config, gp: GenesisOp, txHash: Bytes)

  function SeedServer(l: Launch): Server {
    Server(SeedMem(l.e, l.c, l.gp, l.txHash), SeedDisk(l.e, l.c, l.gp, l.txHash), [l.c.genesis.tx], [0],
           [l.c.genesis.header.timestamp], {})
  }

  function OriginOf(l: Launch): Origin {
    var m := SeedMem(l.e, l.c, l.gp, l.txHash);
    Origin(m.owner, m.ownerEnc, m.authority)
  }

  /** A configuration the server can restart from bit for bit. */
  ghost predicate Startable(l: Launch) {
    && l.e.Codecs() && Seedable(l.e, l.c, l.gp, l.txHash)
    && BlockWork(l.c.genesis.header.powTarget) == BlockWork(l.gp.initialTarget)
  }

  ghost predicate Reachable(l: Launch, s: Server) {
    exists events :: CleanRun(l.e, SeedServer(l), events) && s == Run(l.e, SeedServer(l), events)
  }

  lemma SeedInvariant(l: Launch)
    requires Startable(l)
    ensures Invariant(l.e, OriginOf(l), SeedServer(l))
  {
    SeedSoundExactly(l.e, l.c, l.gp, l.txHash);
    assert [l.c.genesis.tx][1..1] == [];
  }

  lemma ReachableInvariant(l: Launch, s: Server)
    requires Startable(l) && Reachable(l, s)
    ensures Invariant(l.e, OriginOf(l), s)
  {
    var events :| CleanRun(l.e, SeedServer(l), events) && s == Run(l.e, SeedServer(l), events);
    SeedInvariant(l);
    RunKeepsInvariant(l.e, OriginOf(l), SeedServer(l), events);
  }

  /** Restart refinement: after any clean run, the tables rebuild exactly the state in memory. */
  lemma RestartRefinement(l: Launch, s: Server)
    requires Startable(l) && Reachable(l, s)
    ensures Rebuild(l.e, s.disk) == Some(s.mem)
  {
    ReachableInvariant(l, s);
    RestartRestores(l.e, s.mem, s.disk, s.txs);
  }

  /** Strict proof-of-work epochs: the transaction at height i carries epoch (i - 1) / 1000, because
      the count, the id set and the chain stay in step. */
  lemma StrictPowEpochs(l: Launch, s: Server)
    requires Startable(l) && Reachable(l, s)
    ensures |s.mem.blocks| == |s.txs| > 0 && s.mem.count == |s.mem.txIds| == |s.txs| - 1
    ensures forall i :: 1 <= i < |s.txs| ==> s.txs[i].powEpoch == (i - 1) / 1000
  {
    ReachableInvariant(l, s);
    assert MirrorsSets(s.mem, s.disk);
    forall i | 1 <= i < |s.txs|
      ensures s.txs[i].powEpoch == (i - 1) / 1000
    {
      assert Lawful(l.e, OriginOf(l), s.txs, i);
    }
  }

  /** Members, authorized keys and key epoch are the replay of the chain's transactions. */
  lemma AuthorityIsReplay(l: Launch, s: Server)
    requires Startable(l) && Reachable(l, s)
    ensures |s.txs| > 0 && s.mem.authority == Replay(l.e, OriginOf(l).seed, s.txs[1..])
  {
    hide Reachable, Sound, Vouched, Lawful, IdsMatch, NotesMatch, BodiesStored, Effect;
    ReachableInvariant(l, s);
    assert s.txs[1..|s.txs|] == s.txs[1..];
  }

  /** Every block above genesis passed the handler's checks against the blocks below the height recorded
      for it: its own id, signature and work, by an author authorized there. */
  lemma BlocksWereChecked(l: Launch, s: Server, i: nat)
    requires Startable(l) && Reachable(l, s) && 1 <= i < |s.txs|
    ensures |s.checks| == |s.txs| && 1 <= s.checks[i] <= i
    ensures SelfProving(l.e, s.mem.target, s.txs[i])
    ensures s.txs[i].body.author in Below(l.e, OriginOf(l).seed, s.txs, s.checks[i]).authorized
  {
    hide Reachable, Startable, Sound, Recorded, Below, SelfProving;
    ReachableInvariant(l, s);
    assert PassedBelow(l.e, OriginOf(l), s.mem.target, s.txs, s.txs[i], s.checks[i]);
  }

  /** Every block above genesis was drafted for its place: version 1, one transaction for each leaf its root
      commits to, the clock at its accept, and the stream's target, which its hash does not exceed. Header,
      transaction and leaf are hashed each in its own domain. */
  lemma BlocksAreDrafted(l: Launch, s: Server, i: nat)
    requires Startable(l) && Reachable(l, s) && 1 <= i < |s.mem.blocks|
    ensures |s.mem.leafHashes| == |s.clocks| == |s.mem.blocks|
    ensures var h := s.mem.blocks[i].header;
      && h.protocolVersion == 1 && h.height == i && h.timestamp == s.clocks[i]
      && h.transactionCount == i + 1 && h.mmrRoot == Root(l.e.sha, s.mem.leafHashes[..h.transactionCount])
    ensures |s.mem.target| == 32 && s.mem.blocks[i].header.powTarget == s.mem.target
    ensures !Greater(s.mem.blocks[i].hash, s.mem.target)
    ensures s.mem.blocks[i].hash == Sha(l.e.sha, BlockDomain, Encode(l.e.encodeHeader, s.mem.blocks[i].header))
    ensures |s.txs| == |s.mem.leafHashes|
    ensures s.mem.leafHashes[i] == Sha(l.e.sha, MmrLeaf, Sha(l.e.sha, TxDomain, Encode(l.e.encodeTx, s.txs[i])))
  {
    hide Reachable, Startable, Mirrored, Recorded, Peaks, WorkOf, SatisfiesTarget, SelfProving, AuthorizedBelow, Sha,
      Encode;
    ReachableInvariant(l, s);
    assert LinkedBlock(l.e, s.mem, i);
    assert IsDraftOf(s.mem.blocks[i].header, i, s.clocks[i], s.mem.target);
    ProvesAgainst32Bytes(l.e, s.mem.target, s.txs[i]);
    MeetsTargetExactly(l.e, s.mem.blocks[i].header);
  }

  lemma ProvesAgainst32Bytes(e: Env, target: Bytes, tx: Tx)
    requires SelfProving(e, target, tx)
    ensures |target| == 32
  {
  }
}
