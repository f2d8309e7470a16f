/**
 One node pointed at another converges on the chain with more work: the served chain validates, its
 rows do not clash, and the adopting node ends with the serving node's accumulator.
 */
module Convergence {
  import opened Arith
  import opened ByteStrings
  import opened Mmr
  import opened InclusionProofs
  import opened Wire
  import opened Ledger
  import opened LedgerInvariants
  import opened LedgerHistory
  import opened LedgerRuns
  import opened Peer
  import opened PeerRuns

  /** Two transactions with one hash. */
  predicate TxCollision(e: Env, a: Tx, b: Tx) {
    IsCollision(e.sha, InputPair(TxDomain, Encode(e.encodeTx, a), Encode(e.encodeTx, b)))
  }

  ghost predicate HasTxCollision(e: Env, txs: seq<Tx>) {
    exists i, j :: 0 <= i < j < |txs| && TxCollision(e, txs[i], txs[j])
  }

  lemma SameHashOrCollision(e: Env, a: Tx, b: Tx)
    requires e.Codecs() && TransactionHash(e, a).Some? && TransactionHash(e, a) == TransactionHash(e, b)
    ensures a == b || TxCollision(e, a, b)
  {
    assert Decode(e.decodeTx, Encode(e.encodeTx, a)) == Some(a);
    assert Decode(e.decodeTx, Encode(e.encodeTx, b)) == Some(b);
  }

  /** In a history whose genesis is a genesis operation no transaction occurs twice. */
  lemma TransactionsDiffer(e: Env, g: Origin, m: Mem, txs: seq<Tx>, i: nat, j: nat)
    requires Recorded(e, g, m, txs) && txs[0].body.opType == Genesis && i < j < |txs|
    ensures txs[i] != txs[j]
  {
    hide Below, NotesMatch, BodiesStored, Granted;
    assert Lawful(e, g, txs, j);
  }

  lemma NotesDiffer(e: Env, g: Origin, m: Mem, txs: seq<Tx>, i: nat, j: nat)
    requires Recorded(e, g, m, txs) && txs[0].body.opType == Genesis && i < j < |txs|
    requires IsCreate(txs[i]) && IsCreate(txs[j])
    ensures txs[i].body.noteId != txs[j].body.noteId
  {
  }

  lemma ServedRowsDistinct(e: Env, g: Origin, m: Mem, txs: seq<Tx>)
    requires e.Codecs() && Chained(e, m, txs) && Recorded(e, g, m, txs) && txs[0].body.opType == Genesis
    ensures DistinctRows(e, ChainOf(m, txs)) || HasTxCollision(e, txs)
  {
    var blocks := ChainOf(m, txs);
    if !HasTxCollision(e, txs) {
      forall i, j | 0 <= i < j < |blocks|
        ensures RowHash(e, blocks[i]) != RowHash(e, blocks[j])
      {
        assert IsLeafOf(e, m.leafHashes[i], txs[i]);
        TransactionsDiffer(e, g, m, txs, i, j);
        if RowHash(e, blocks[i]) == RowHash(e, blocks[j]) {
          SameHashOrCollision(e, txs[i], txs[j]);
        }
      }
      forall i, j | 0 <= i < j < |blocks| && IsCreate(blocks[i].tx)
        ensures !CreatesNote(blocks[j], blocks[i].tx.body.noteId)
      {
        if IsCreate(blocks[j].tx) {
          NotesDiffer(e, g, m, txs, i, j);
        }
      }
    }
  }

  ghost predicate SameHeaders(x: seq<BlockRecord>, y: seq<BlockRecord>) {
    |x| == |y| && forall i :: 0 <= i < |x| ==> x[i].header == y[i].header && x[i].hash == y[i].hash
  }

  /** b keeps its chain, having at least a's work, or ends with a's work, leaves, peaks and headers. */
  ghost predicate Converges(a: Server, b: Server, outcome: (Mem, Disk, ReorgOutcome)) {
    var (m', disk', r) := outcome;
    if a.mem.chainwork > b.mem.chainwork then
      && r == Replaced && m'.chainwork == a.mem.chainwork
      && m'.leafHashes == a.mem.leafHashes && m'.peaks == a.mem.peaks && SameHeaders(m'.blocks, a.mem.blocks)
    else r == Kept && m' == b.mem && disk' == b.disk
  }

  /** Any node with the same anchor that adopts the chain of a server which never reorganised ends
      with the greater work of the two; when it reorganises it has the server's leaves, peaks and
      headers. The one way out is two transactions on the chain with the same hash. */
  lemma AdoptingConverges(l: Launch, a: Server, b: Server)
    requires Startable(l) && Reachable(l, a) && GenesisOk(l.e, SeedServer(l).mem)
    requires l.c.genesis.tx.body.opType == Genesis
    requires SoundServer(l.e, b) && b.mem.genesisHash == a.mem.genesisHash
    ensures |a.txs| == |a.mem.blocks| <= TWO_63
    ensures HasTxCollision(l.e, a.txs) ||
      Converges(a, b, Reorg(l.e, b.mem, b.disk, b.mem.genesisHash, ChainOf(a.mem, a.txs), true))
  {
    hide Reachable, Chained, Mirrored, Vouched, ValidChain, DistinctRows, HasTxCollision, GenesisOk;
    ReachableInvariant(l, a);
    ReachableGenesis(l, a);
    ServedChainIsValid(l.e, a.mem, a.txs);
    ServedRowsDistinct(l.e, OriginOf(l), a.mem, a.txs);
    if DistinctRows(l.e, ChainOf(a.mem, a.txs)) && a.mem.chainwork > b.mem.chainwork {
      ServedReplaces(l.e, a, b);
    }
  }

  lemma ReachableGenesis(l: Launch, s: Server)
    requires Startable(l) && Reachable(l, s) && GenesisOk(l.e, SeedServer(l).mem)
    ensures Shaped(s.mem) && GenesisOk(l.e, s.mem) && |s.txs| > 0 && s.txs[0] == l.c.genesis.tx
  {
    var events :| CleanRun(l.e, SeedServer(l), events) && s == Run(l.e, SeedServer(l), events);
    SeedInvariant(l);
    GenesisStays(l.e, OriginOf(l), SeedServer(l), events);
  }

  lemma {:induction false} GenesisStays(e: Env, g: Origin, s: Server, events: seq<Event>)
    requires e.Codecs() && Invariant(e, g, s) && CleanRun(e, s, events) && GenesisOk(e, s.mem)
    ensures var s' := Run(e, s, events);
      Invariant(e, g, s') && GenesisOk(e, s'.mem) && |s.txs| > 0 && |s'.txs| > 0 && s'.txs[0] == s.txs[0]
    decreases |events|
  {
    hide Invariant, GenesisOk, Step, Clean;
    FirstStays(e, g, s);
    if |events| > 0 {
      var front, ev := events[..|events| - 1], events[|events| - 1];
      GenesisStays(e, g, s, front);
      GenesisStep(e, g, Run(e, s, front), ev);
    }
  }

  lemma FirstStays(e: Env, g: Origin, s: Server)
    requires Invariant(e, g, s)
    ensures |s.txs| > 0 && SoundServer(e, s) && Shaped(s.mem)
  {
  }

  lemma GenesisStep(e: Env, g: Origin, s: Server, ev: Event)
    requires e.Codecs() && Invariant(e, g, s) && Clean(e, s, ev) && GenesisOk(e, s.mem)
    ensures var s' := Step(e, s, ev);
      Invariant(e, g, s') && GenesisOk(e, s'.mem) && |s.txs| > 0 && |s'.txs| > 0 && s'.txs[0] == s.txs[0]
  {
    hide Invariant, GenesisOk, TryAccept, CheckPost, Rebuild, CleanAccept, SoundServer;
    FirstStays(e, g, s);
    StepKeepsInvariant(e, g, s, ev);
    FirstStays(e, g, Step(e, s, ev));
    LocalAdvances(e, s, ev);
  }

  lemma ServedReplaces(e: Env, a: Server, b: Server)
    requires e.Codecs() && SoundServer(e, a) && GenesisOk(e, a.mem) && SoundServer(e, b)
    requires b.mem.genesisHash == a.mem.genesisHash && a.mem.chainwork > b.mem.chainwork
    requires DistinctRows(e, ChainOf(a.mem, a.txs))
    ensures Converges(a, b, Reorg(e, b.mem, b.disk, b.mem.genesisHash, ChainOf(a.mem, a.txs), true))
  {
    hide LinkedBlock, Mirrored, DistinctRows, ValidChain, GenesisOk, Peaks, WorkOf, ChainWork, Reorg, Rewritten;
    var blocks := ChainOf(a.mem, a.txs);
    ServedChainIsValid(e, a.mem, a.txs);
    ServedRowsFit(e, a, b);
    ReorgReplaces(e, b.mem, b.disk, b.txs, blocks, true);
    ServedLeaves(e, a.mem, a.txs);
    assert a.mem.peaks == Peaks(e.sha, a.mem.leafHashes);
  }

  lemma ServedLeaves(e: Env, m: Mem, txs: seq<Tx>)
    requires Chained(e, m, txs)
    ensures TxLeaves(e, ChainOf(m, txs)) == m.leafHashes
  {
    forall i | 0 <= i < |txs|
      ensures TxLeaves(e, ChainOf(m, txs))[i] == m.leafHashes[i]
    {
      assert IsLeafOf(e, m.leafHashes[i], txs[i]);
    }
  }

  lemma ServedRowsFit(e: Env, a: Server, b: Server)
    requires SoundServer(e, a) && GenesisOk(e, a.mem) && DistinctRows(e, ChainOf(a.mem, a.txs))
    ensures Rewritten(e, b.disk, ChainOf(a.mem, a.txs)).Some?
  {
    var blocks := ChainOf(a.mem, a.txs);
    ServedChainIsValid(e, a.mem, a.txs);
    ValidIsNumbered(e, a.mem.genesisHash, blocks);
    forall i | 0 <= i < |blocks|
      ensures RowHash(e, blocks[i]).Some?
    {
      assert ValidAt(e, a.mem.genesisHash, blocks, i);
    }
    RewriteExactly(e, b.disk, blocks);
  }
}
