/**
 Runs that go on after a late failure. An accept whose rows are not written leaves its block in memory
 alone. A later accept that commits then leaves a gap in the tables, and no restart reads them again;
 short of that, a restart always brings memory and tables back together.
 */
module LateFailures {
  import opened Arith
  import opened ByteStrings
  import opened Mmr
  import opened Chainwork
  import opened Wire
  import opened Ledger
  import opened LedgerInvariants
  import opened LedgerRuns

  /** The server's process; it does not start on tables it cannot read. */
  datatype Host = Up(server: Server) | Down(disk: Disk)

  function DiskOf(h: Host): Disk {
    match h case Up(s) => s.disk case Down(disk) => disk
  }

  ghost function HostStep(e: Env, h: Host, ev: Event): Host {
    if h.Down? then h
    else if !ev.Restart? then Up(Step(e, h.server, ev))
    else
      match Rebuild(e, h.server.disk)
      case Some(m) => Up(h.server.(mem := m, inFlight := {}))
      case None => Down(h.server.disk)
  }

  ghost function HostRun(e: Env, h: Host, events: seq<Event>): Host {
    if |events| == 0 then h else HostStep(e, HostRun(e, h, events[..|events| - 1]), events[|events| - 1])
  }

  lemma OneMore(e: Env, h: Host, events: seq<Event>, ev: Event)
    ensures HostRun(e, h, events + [ev]) == HostStep(e, HostRun(e, h, events), ev)
  {
    assert (events + [ev])[..|events|] == events;
  }

  // ----- late failures -----

  /** The transaction and inputs with which the event reaches tryAccept. */
  ghost function Attempt(e: Env, s: Server, ev: Event): Option<(Tx, Inputs)> {
    if !Growable(s.mem) then None
    else
      match ev
      case Accept(q, inputs) => if q in s.inFlight then Some((q.tx, inputs)) else None
      case Post(tx, inputs) => if CheckPost(e, s.mem, tx) == None then Some((tx, inputs)) else None
      case _ => None
  }

  ghost predicate Commits(e: Env, h: Host, ev: Event) {
    && h.Up? && Attempt(e, h.server, ev).Some?
    && var (tx, inputs) := Attempt(e, h.server, ev).value;
       TryAccept(e, h.server.mem, h.server.disk, tx, inputs).2.AcceptOk?
  }

  /** The accept pushes its block in memory and fails to write it. */
  ghost predicate Strands(e: Env, h: Host, ev: Event) {
    && h.Up? && Attempt(e, h.server, ev).Some?
    && var (tx, inputs) := Attempt(e, h.server, ev).value;
       var (m', _, r) := TryAccept(e, h.server.mem, h.server.disk, tx, inputs);
       !r.AcceptOk? && |m'.blocks| > |h.server.mem.blocks|
  }

  /** A block was stranded and no restart came since. */
  ghost predicate Stranded(e: Env, h: Host, events: seq<Event>) {
    |events| > 0 &&
    var front, ev := events[..|events| - 1], events[|events| - 1];
    Strands(e, HostRun(e, h, front), ev) || (Stranded(e, h, front) && !ev.Restart?)
  }

  /** Some accept committed on top of a stranded block. */
  ghost predicate Holed(e: Env, h: Host, events: seq<Event>) {
    |events| > 0 &&
    var front, ev := events[..|events| - 1], events[|events| - 1];
    Holed(e, h, front) || (Stranded(e, h, front) && Commits(e, HostRun(e, h, front), ev))
  }

  /** Since the last restart, or the start, every step was clean. */
  ghost predicate Tidy(e: Env, h: Host, events: seq<Event>) {
    |events| > 0 ==>
      var front, ev := events[..|events| - 1], events[|events| - 1];
      var before := HostRun(e, h, front);
      ev.Restart? || (Tidy(e, h, front) && before.Up? && Clean(e, before.server, ev))
  }

  /** Event i strands a block that no restart up to the end removes. */
  ghost predicate StrandedSince(e: Env, h: Host, events: seq<Event>, i: nat) {
    && i < |events| && Strands(e, HostRun(e, h, events[..i]), events[i])
    && forall k :: i < k < |events| ==> !events[k].Restart?
  }

  /** Event j commits, and an event before it strands a block that no restart in between removes. */
  ghost predicate HoledAt(e: Env, h: Host, events: seq<Event>, j: nat) {
    && j < |events| && Commits(e, HostRun(e, h, events[..j]), events[j])
    && exists i :: StrandedSince(e, h, events[..j], i)
  }

  lemma {:induction false} StrandedMeans(e: Env, h: Host, events: seq<Event>)
    ensures Stranded(e, h, events) <==> exists i :: StrandedSince(e, h, events, i)
    decreases |events|
  {
    hide Strands, HostRun;
    if |events| > 0 {
      var front, last := events[..|events| - 1], |events| - 1;
      StrandedMeans(e, h, front);
      if Strands(e, HostRun(e, h, front), events[last]) {
        assert StrandedSince(e, h, events, last);
      }
      forall i: nat | i < last
        ensures StrandedSince(e, h, events, i) <==> StrandedSince(e, h, front, i) && !events[last].Restart?
      {
        assert events[..i] == front[..i];
        assert forall k :: 0 <= k < last ==> events[k] == front[k];
      }
    }
  }

  /** A hole is an accept that commits after a stranded block with no restart in between. */
  lemma {:induction false} HoledMeans(e: Env, h: Host, events: seq<Event>)
    ensures Holed(e, h, events) <==> exists j :: HoledAt(e, h, events, j)
    decreases |events|
  {
    hide Commits, HostRun, StrandedSince;
    if |events| > 0 {
      var front, last := events[..|events| - 1], |events| - 1;
      HoledMeans(e, h, front);
      StrandedMeans(e, h, front);
      forall j: nat | j < last
        ensures HoledAt(e, h, events, j) <==> HoledAt(e, h, front, j)
      {
        assert events[..j] == front[..j];
      }
      if Stranded(e, h, front) && Commits(e, HostRun(e, h, front), events[last]) {
        assert HoledAt(e, h, events, last);
      }
    }
  }

  // ----- the tables -----

  ghost predicate IsWritten(e: Env, row: BlockRow) {
    exists h: Header :: row.headerCbor == Encode(e.encodeHeader, h)
  }

  /** Rows for the heights below the number of blocks and for no others, each written by the server. */
  ghost predicate Intact(e: Env, disk: Disk) {
    && 0 < |disk.blocks| <= TWO_63
    && (forall h :: h in disk.blocks <==> 0 <= h < |disk.blocks|)
    && (forall h :: h in disk.leaves <==> 0 <= h < |disk.blocks|)
    && (forall h :: 0 <= h < |disk.blocks| ==> IsWritten(e, disk.blocks[h]))
    && disk.stream.height == |disk.blocks| - 1
  }

  /** A leaf is missing below the number of rows, and memory is past it. */
  ghost predicate Gapped(h: Host, gap: nat) {
    && gap < |DiskOf(h).blocks| && gap !in DiskOf(h).leaves
    && (h.Up? ==> gap < |h.server.mem.blocks|)
  }

  lemma {:induction false} WrittenDecode(e: Env, rows: seq<BlockRow>) returns (blocks: seq<BlockRecord>)
    requires e.Codecs() && forall i :: 0 <= i < |rows| ==> IsWritten(e, rows[i])
    ensures |blocks| == |rows| && forall i :: 0 <= i < |rows| ==> rows[i] == RowOf(e, blocks[i])
  {
    blocks := [];
    if |rows| > 0 {
      var row := rows[|rows| - 1];
      var front := WrittenDecode(e, rows[..|rows| - 1]);
      var h: Header :| row.headerCbor == Encode(e.encodeHeader, h);
      blocks := front + [BlockRecord(h, row.hash, row.txCbor)];
    }
  }

  lemma {:induction false} LeavesLoad(disk: Disk, n: nat)
    requires forall h :: 0 <= h < n ==> h in disk.leaves
    ensures LoadLeaves(disk, n).Some? && |LoadLeaves(disk, n).value| == n
    ensures forall h :: 0 <= h < n ==> LoadLeaves(disk, n).value[h] == disk.leaves[h]
  {
    if n > 0 {
      LeavesLoad(disk, n - 1);
    }
  }

  /** Intact tables are read back, and memory is then their twin. */
  lemma IntactRebuilds(e: Env, disk: Disk)
    requires e.Codecs() && Intact(e, disk)
    ensures Rebuild(e, disk).Some? && Twin(e, Rebuild(e, disk).value, disk)
    ensures |Rebuild(e, disk).value.blocks| == |disk.blocks|
  {
    hide LoadBlocks, LoadLeaves, RowsInOrder, Peaks, WorkOf, Decode, Encode;
    var rows := RowsInOrder(disk);
    RowsWithoutGap(disk);
    assert forall i :: 0 <= i < |rows| ==> rows[i] == disk.blocks[i];
    var blocks := WrittenDecode(e, rows);
    LoadsBack(e, blocks, rows);
    LeavesLoad(disk, |disk.blocks|);
  }

  // ----- one step -----

  lemma StepIs(e: Env, s: Server, ev: Event)
    requires !ev.Restart?
    ensures var s' := Step(e, s, ev);
      match Attempt(e, s, ev)
      case None => s'.mem == s.mem && s'.disk == s.disk
      case Some((tx, inputs)) =>
        && Growable(s.mem)
        && var (m', disk', _) := TryAccept(e, s.mem, s.disk, tx, inputs);
           s'.mem == m' && s'.disk == disk'
  {
    hide TryAccept, CheckPost;
  }

  lemma AcceptEffect(e: Env, m: Mem, disk: Disk, tx: Tx, inputs: Inputs) returns (d: Delta)
    requires Growable(m)
    ensures var (m', disk', r) := TryAccept(e, m, disk, tx, inputs);
      && |m.blocks| <= |m'.blocks| <= |m.blocks| + 1
      && if r.AcceptOk? then
           |m'.blocks| == |m.blocks| + 1 && d.newBlock.header.height == |m.blocks| && disk' == Committed(e, disk, d)
         else disk' == disk
  {
    if TryAccept(e, m, disk, tx, inputs).2.AcceptOk? {
      hide TryAccept, ApplyOp, Committed, EarlyCheck;
      var rec, leaf, o := AcceptGrows(e, m, disk, tx, inputs);
      d := NewDelta(tx, rec, leaf, o.change);
    } else {
      hide ApplyOp, EarlyCheck, Committed, NoKeyClash, TransactionHash;
      d := *;
    }
  }

  lemma CommitKeepsIntact(e: Env, disk: Disk, d: Delta)
    requires Intact(e, disk) && d.newBlock.header.height == |disk.blocks| < TWO_63
    ensures Intact(e, Committed(e, disk, d)) && |Committed(e, disk, d).blocks| == |disk.blocks| + 1
  {
    hide Elements, IsWritten, Encode;
    var disk', n := Committed(e, disk, d), |disk.blocks|;
    NewIsWritten(e, disk'.blocks[n], d.newBlock.header);
    forall h | 0 <= h < n
      ensures IsWritten(e, disk'.blocks[h])
    {
      assert disk'.blocks[h] == disk.blocks[h];
    }
  }

  lemma NewIsWritten(e: Env, row: BlockRow, h: Header)
    requires row.headerCbor == Encode(e.encodeHeader, h)
    ensures IsWritten(e, row)
  {
  }

  lemma CommitLeavesGap(e: Env, disk: Disk, d: Delta, gap: nat)
    requires gap == |disk.blocks| && gap !in disk.leaves && d.newBlock.header.height > gap
    requires d.newBlock.header.height !in disk.blocks
    ensures gap < |Committed(e, disk, d).blocks| && gap !in Committed(e, disk, d).leaves
  {
    hide Elements;
  }

  lemma IntactKeys(e: Env, disk: Disk)
    requires Intact(e, disk)
    ensures forall h :: |disk.blocks| <= h ==> h !in disk.blocks && h !in disk.leaves
  {
  }

  /** Intact tables under a running server, whose memory is ahead of them or not. */
  ghost predicate InStep(e: Env, h: Host, ahead: bool) {
    && h.Up? && Intact(e, h.server.disk)
    && |h.server.disk.blocks| <= |h.server.mem.blocks|
    && (ahead <==> |h.server.disk.blocks| < |h.server.mem.blocks|)
  }

  lemma StepFromIntact(e: Env, h: Host, ev: Event, ahead: bool)
    requires e.Codecs() && InStep(e, h, ahead)
    ensures var h' := HostStep(e, h, ev);
      if ahead && Commits(e, h, ev) then Gapped(h', |DiskOf(h).blocks|)
      else InStep(e, h', Strands(e, h, ev) || (ahead && !ev.Restart?))
  {
    hide Intact, TryAccept, Rebuild, Committed, Step;
    var s := h.server;
    if ev.Restart? {
      IntactRebuilds(e, s.disk);
    } else {
      StepIs(e, s, ev);
      if Attempt(e, s, ev).Some? {
        var (tx, inputs) := Attempt(e, s, ev).value;
        var d := AcceptEffect(e, s.mem, s.disk, tx, inputs);
        if Commits(e, h, ev) {
          if ahead {
            IntactKeys(e, s.disk);
            CommitLeavesGap(e, s.disk, d, |s.disk.blocks|);
          } else {
            CommitKeepsIntact(e, s.disk, d);
          }
        }
      }
    }
  }

  lemma StepKeepsGap(e: Env, h: Host, ev: Event, gap: nat)
    requires Gapped(h, gap)
    ensures Gapped(HostStep(e, h, ev), gap) && Rebuild(e, DiskOf(h)) == None
  {
    hide TryAccept, Step, RowsInOrder, LoadBlocks;
    LeafMissing(DiskOf(h), gap, |DiskOf(h).blocks|);
    if h.Up? && !ev.Restart? {
      var s := h.server;
      StepIs(e, s, ev);
      if Attempt(e, s, ev).Some? {
        var (tx, inputs) := Attempt(e, s, ev).value;
        var d := AcceptEffect(e, s.mem, s.disk, tx, inputs);
      }
    }
  }

  // ----- all runs -----

  lemma {:induction false} RunIsInStep(e: Env, h: Host, events: seq<Event>) returns (gap: nat)
    requires e.Codecs() && InStep(e, h, false)
    ensures var h' := HostRun(e, h, events);
      if Holed(e, h, events) then Gapped(h', gap) else InStep(e, h', Stranded(e, h, events))
    decreases |events|
  {
    hide InStep, Gapped, Commits, Strands, HostStep;
    gap := 0;
    if |events| > 0 {
      var front, ev := events[..|events| - 1], events[|events| - 1];
      gap := RunIsInStep(e, h, front);
      var before := HostRun(e, h, front);
      if Holed(e, h, front) {
        StepKeepsGap(e, before, ev, gap);
      } else {
        StepFromIntact(e, before, ev, Stranded(e, h, front));
        if Holed(e, h, events) {
          gap := |DiskOf(before).blocks|;
        }
      }
    }
  }

  lemma SeedIsInStep(l: Launch)
    requires Startable(l)
    ensures InStep(l.e, Up(SeedServer(l)), false)
  {
    hide BlockWork, Carry, Sha, IsWritten, Encode;
    var s := SeedServer(l);
    NewIsWritten(l.e, s.disk.blocks[0], l.c.genesis.header);
  }

  /** Over every run, late failures included: the tables are read back exactly when no accept committed
      between a stranded block and the next restart; only then may the server be down. */
  lemma TablesRebuildExactly(l: Launch, events: seq<Event>)
    requires Startable(l)
    ensures var h0 := Up(SeedServer(l)); var h := HostRun(l.e, h0, events);
      && (Rebuild(l.e, DiskOf(h)).Some? <==> !Holed(l.e, h0, events))
      && (Holed(l.e, h0, events) <==> exists j :: HoledAt(l.e, h0, events, j))
      && (h.Down? ==> Holed(l.e, h0, events))
  {
    hide Startable, Intact, Rebuild, HostRun, Holed, Stranded, HoledAt;
    HoledMeans(l.e, Up(SeedServer(l)), events);
    var h0 := Up(SeedServer(l));
    SeedIsInStep(l);
    assert l.e.Codecs() by { StartableCodecs(l); }
    var gap := RunIsInStep(l.e, h0, events);
    var h := HostRun(l.e, h0, events);
    if Holed(l.e, h0, events) {
      StepKeepsGap(l.e, h, Restart, gap);
    } else {
      IntactRebuilds(l.e, DiskOf(h));
    }
  }

  lemma StartableCodecs(l: Launch)
    requires Startable(l)
    ensures l.e.Codecs()
  {
  }

  // ----- what a restart repairs -----

  lemma CleanKeepsTwin(e: Env, s: Server, ev: Event)
    requires Twin(e, s.mem, s.disk) && Clean(e, s, ev) && !ev.Restart?
    ensures Twin(e, Step(e, s, ev).mem, Step(e, s, ev).disk)
  {
    hide TryAccept, Mirrored, Peaks, WorkOf, Step, Clean;
    StepIs(e, s, ev);
    if Attempt(e, s, ev).Some? {
      var (tx, inputs) := Attempt(e, s, ev).value;
      CleanIsClean(e, s, ev);
      if TryAccept(e, s.mem, s.disk, tx, inputs).2.AcceptOk? {
        AcceptKeepsTwin(e, s.mem, s.disk, tx, inputs);
      }
    }
  }

  lemma CleanIsClean(e: Env, s: Server, ev: Event)
    requires Clean(e, s, ev) && Attempt(e, s, ev).Some?
    ensures var (tx, inputs) := Attempt(e, s, ev).value; CleanAccept(e, s.mem, s.disk, tx, inputs)
  {
    hide TryAccept, CheckPost;
  }

  lemma AcceptKeepsTwin(e: Env, m: Mem, disk: Disk, tx: Tx, inputs: Inputs)
    requires Twin(e, m, disk) && Growable(m) && TryAccept(e, m, disk, tx, inputs).2.AcceptOk?
    ensures var (m', disk', _) := TryAccept(e, m, disk, tx, inputs); Twin(e, m', disk')
  {
    hide TryAccept, Mirrored, ApplyOp, EarlyCheck, NoKeyClash, Committed, TransactionHash;
    var (m', disk', _) := TryAccept(e, m, disk, tx, inputs);
    var rec, leaf, o := AcceptGrows(e, m, disk, tx, inputs);
    GrowsKeepsMirrored(e, m, disk, m', disk', tx, rec, leaf, o);
    CarryAppends(e.sha, m.leafHashes, leaf);
    assert m'.blocks[..|m.blocks|] == m.blocks;
  }

  lemma {:induction false} TidyIsTwin(e: Env, h: Host, events: seq<Event>)
    requires e.Codecs() && InStep(e, h, false) && Twin(e, h.server.mem, h.server.disk)
    requires Tidy(e, h, events) && !Holed(e, h, events)
    ensures var h' := HostRun(e, h, events); h'.Up? && Twin(e, h'.server.mem, h'.server.disk)
    decreases |events|
  {
    hide Intact, Twin, Commits, Strands, Rebuild, Step, Clean;
    if |events| > 0 {
      var front, ev := events[..|events| - 1], events[|events| - 1];
      var gap := RunIsInStep(e, h, front);
      var before := HostRun(e, h, front);
      if ev.Restart? {
        IntactRebuilds(e, before.server.disk);
      } else {
        TidyIsTwin(e, h, front);
        CleanKeepsTwin(e, before.server, ev);
      }
    }
  }

  /** As long as the tables can be read back, a restart brings memory and tables together: from it on,
      until the next late failure, the tables rebuild exactly the state in memory. What was committed
      in between stays. */
  lemma RestartRepairs(l: Launch, events: seq<Event>)
    requires Startable(l)
    requires var h0 := Up(SeedServer(l)); Tidy(l.e, h0, events) && !Holed(l.e, h0, events)
    ensures var h := HostRun(l.e, Up(SeedServer(l)), events); h.Up? && Rebuild(l.e, h.server.disk) == Some(h.server.mem)
  {
    hide Startable, Rebuild, HostRun, Holed, Tidy, Intact, Twin;
    var h0 := Up(SeedServer(l));
    SeedIsInStep(l);
    StartableCodecs(l);
    SeedIsTwin(l);
    TidyIsTwin(l.e, h0, events);
    var h := HostRun(l.e, h0, events);
    TwinRebuilds(l.e, h.server.mem, h.server.disk);
  }

  lemma SeedIsTwin(l: Launch)
    requires Startable(l)
    ensures Twin(l.e, SeedServer(l).mem, SeedServer(l).disk)
  {
    hide Startable, Vouched, Mirrored, SeedServer;
    SeedInvariant(l);
  }

  // ----- enrolling a device again -----

  /** Memory with the block of tx pushed on top. */
  predicate StrandedState(m: Mem, m': Mem, tx: Tx, a: Authority) {
    && |m'.blocks| == |m.blocks| + 1 && m'.target == m.target && m'.owner == m.owner && m'.ownerEnc == m.ownerEnc
    && m'.txIds == m.txIds + {tx.id} && m'.count == m.count + 1 && m'.authority == a
    && m'.noteIds == if tx.body.opType == Create then m.noteIds + {tx.body.noteId} else m.noteIds
  }

  /** From a sound state an accept strands its block exactly when the operation goes through and a nonce
      exists, but the database fails or the member_add names an enrolled device. */
  lemma StrandsExactly(e: Env, m: Mem, disk: Disk, txs: seq<Tx>, tx: Tx, inputs: Inputs)
    requires Sound(e, m, disk, txs) && |m.blocks| < TWO_63
    ensures var o := ApplyOp(e, m.owner, m.ownerEnc, m.authority, tx);
      var (m', disk', r) := TryAccept(e, m, disk, tx, inputs);
      && (!r.AcceptOk? && |m'.blocks| > |m.blocks| <==>
            EarlyCheck(m, tx) == None && o.Proceed? && Minable(e, m, tx, inputs) && !(inputs.ioOk && FreshDevice(m, o)))
      && (!r.AcceptOk? && |m'.blocks| > |m.blocks| ==>
            r == Rejected(Internal) && disk' == disk && StrandedState(m, m', tx, o.authority))
  {
    hide LinkedBlock, IsLeafOf, Mirrored, Peaks, WorkOf, ApplyOp, EarlyCheck, NoKeyClash, Committed, FirstNonce,
      BlockHash, Minable;
    AcceptsExactly(e, m, disk, txs, tx, inputs);
    var o := ApplyOp(e, m.owner, m.ownerEnc, m.authority, tx);
    if EarlyCheck(m, tx) == None && o.Proceed? {
      MinableEncodes(e, m, tx, inputs);
      if TransactionHash(e, tx).Some? {
        MinableExactly(e, m, tx, inputs);
        var leaf := LeafHash(e, TransactionHash(e, tx).value);
        assert NextDraft(e, m.(authority := o.authority), leaf, inputs.now) == NextDraft(e, m, leaf, inputs.now);
      }
    }
  }

  lemma MinableEncodes(e: Env, m: Mem, tx: Tx, inputs: Inputs)
    requires Growable(m)
    ensures Minable(e, m, tx, inputs) ==> TransactionHash(e, tx).Some?
  {
  }

  /** A create on top of a stranded block commits: its primary keys are free. */
  lemma CreateCommits(e: Env, m: Mem, disk: Disk, create: Tx, inputs: Inputs)
    requires Growable(m) && EarlyCheck(m, create) == None && create.body.opType == Create
    requires ApplyOp(e, m.owner, m.ownerEnc, m.authority, create).Proceed?
    requires Minable(e, m, create, inputs) && inputs.ioOk
    requires disk.txIds <= m.txIds && disk.noteIds <= m.noteIds
    requires |m.blocks| !in disk.blocks && |m.blocks| !in disk.leaves
    ensures TryAccept(e, m, disk, create, inputs).2.AcceptOk?
  {
    MinableExactly(e, m, create, inputs);
    var leaf := LeafHash(e, TransactionHash(e, create).value);
    var o := ApplyOp(e, m.owner, m.ownerEnc, m.authority, create);
    assert NextDraft(e, m.(authority := o.authority), leaf, inputs.now) == NextDraft(e, m, leaf, inputs.now);
  }

  /** The owner enrols an enrolled device again, which passes every guard; then any device creates a note.
      The second request commits and the tables can no longer be read back. */
  lemma ReenrolmentHoles(e: Env, m: Mem, disk: Disk, txs: seq<Tx>, again: Tx, create: Tx, first: Inputs, second: Inputs)
    requires Sound(e, m, disk, txs) && |m.blocks| + 1 < TWO_63
    requires var o := ApplyOp(e, m.owner, m.ownerEnc, m.authority, again);
      EarlyCheck(m, again) == None && o.Proceed? && Minable(e, m, again, first) && !FreshDevice(m, o)
    requires var m1 := TryAccept(e, m, disk, again, first).0;
      && Growable(m1) && EarlyCheck(m1, create) == None && create.body.opType == Create
      && ApplyOp(e, m1.owner, m1.ownerEnc, m1.authority, create).Proceed?
      && Minable(e, m1, create, second) && second.ioOk
    ensures var (m1, disk1, r1) := TryAccept(e, m, disk, again, first);
      var (m2, disk2, r2) := TryAccept(e, m1, disk1, create, second);
      && r1 == Rejected(Internal) && disk1 == disk
      && r2.AcceptOk? && Rebuild(e, disk2) == None
  {
    hide TryAccept, ApplyOp, EarlyCheck, Minable, LinkedBlock, IsLeafOf, Peaks, WorkOf, RowsInOrder, LoadBlocks,
      Committed;
    StrandsExactly(e, m, disk, txs, again, first);
    var m1 := TryAccept(e, m, disk, again, first).0;
    MirroredKeys(e, m, disk);
    CreateCommits(e, m1, disk, create, second);
    var d := AcceptEffect(e, m1, disk, create, second);
    CommitLeavesGap(e, disk, d, |m.blocks|);
    var disk2 := TryAccept(e, m1, disk, create, second).1;
    LeafMissing(disk2, |m.blocks|, |disk2.blocks|);
  }

  lemma MirroredKeys(e: Env, m: Mem, disk: Disk)
    requires Shaped(m) && |m.blocks| <= TWO_63 && Mirrored(e, m, disk)
    ensures |disk.blocks| == |m.blocks| && disk.txIds == m.txIds && disk.noteIds == m.noteIds
    ensures forall h :: |m.blocks| <= h ==> h !in disk.blocks && h !in disk.leaves
  {
  }
}
