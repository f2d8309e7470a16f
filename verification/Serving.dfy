/**
 What clients read from a running server: pages that join up to a valid chain while it grows, and
 inclusion proofs that verify against the tip.
 */
module Serving {
  import opened Arith
  import opened ByteStrings
  import opened Mmr
  import opened InclusionProofs
  import opened Commitment
  import opened Wire
  import opened Ledger
  import opened LedgerInvariants
  import opened LedgerHistory
  import opened LedgerRuns
  import opened Peer
  import opened PeerRuns
  import opened Convergence
  import opened Paging

  // ----- the chain only grows -----

  /** s' continues s: its chain starts with the chain of s. */
  ghost predicate Continues(s: Server, s': Server) {
    && IsPrefix(s.mem.blocks, s'.mem.blocks)
    && |s.txs| <= |s'.txs| && s'.txs[..|s.txs|] == s.txs
  }

  lemma StepContinues(e: Env, g: Origin, s: Server, ev: Event)
    requires e.Codecs() && Invariant(e, g, s) && Clean(e, s, ev)
    ensures Continues(s, Step(e, s, ev))
  {
    hide TryAccept, CheckPost, Chained, Mirrored, Recorded, Vouched, Rebuild;
    match ev
    case Check(_) =>
    case Restart => RestartRestores(e, s.mem, s.disk, s.txs);
    case Accept(q, inputs) =>
      if q in s.inFlight {
        AcceptingContinues(e, s, q, inputs);
      }
    case Post(tx, inputs) =>
      if CheckPost(e, s.mem, tx) == None {
        AcceptingContinues(e, s, CheckedNow(s, tx), inputs);
      }
  }

  lemma AcceptingContinues(e: Env, s: Server, q: Request, inputs: Inputs)
    requires Growable(s.mem) && CleanAccept(e, s.mem, s.disk, q.tx, inputs)
    ensures Continues(s, Accepting(e, s, q, inputs))
  {
    if TryAccept(e, s.mem, s.disk, q.tx, inputs).2.AcceptOk? {
      var rec, leaf, o := AcceptGrows(e, s.mem, s.disk, q.tx, inputs);
    }
  }

  lemma ContinuesTransitive(s: Server, t: Server, u: Server)
    requires Continues(s, t) && Continues(t, u)
    ensures Continues(s, u)
  {
    assert u.mem.blocks[..|s.mem.blocks|] == u.mem.blocks[..|t.mem.blocks|][..|s.mem.blocks|];
    assert u.txs[..|s.txs|] == u.txs[..|t.txs|][..|s.txs|];
  }

  /** Without reorganisations a server only ever appends. */
  lemma {:induction false} RunContinues(e: Env, g: Origin, s: Server, events: seq<Event>)
    requires e.Codecs() && Invariant(e, g, s) && CleanRun(e, s, events)
    ensures Invariant(e, g, Run(e, s, events)) && Continues(s, Run(e, s, events))
    decreases |events|
  {
    hide Invariant, Step, Clean;
    if |events| > 0 {
      var front, ev := events[..|events| - 1], events[|events| - 1];
      RunContinues(e, g, s, front);
      StepKeepsInvariant(e, g, Run(e, s, front), ev);
      StepContinues(e, g, Run(e, s, front), ev);
      ContinuesTransitive(s, Run(e, s, front), Run(e, s, events));
    }
  }

  /** A page of headers holds, in order, the headers of the chain from its first height on, each with its own
      block hash. */
  lemma HeaderPagesAreHeaders(l: Launch, s: Server, entries: seq<Entry>, from: nat, to: nat)
    requires Startable(l) && Reachable(l, s) && 1 <= from <= to <= |s.mem.blocks|
    requires AreEntries(l.e, entries, s.mem.blocks[from..to], false)
    ensures |entries| == to - from
    ensures forall i :: 0 <= i < |entries| ==>
      && entries[i].HeaderEntry? && entries[i].header.height == from + i
      && entries[i].header == s.mem.blocks[from + i].header && entries[i].hash == BlockHash(l.e, entries[i].header)
  {
    hide Reachable, Startable, Mirrored, Recorded, Vouched, BlockHash, SatisfiesTarget, Peaks, WorkOf;
    ReachableInvariant(l, s);
    forall i | 0 <= i < |entries|
      ensures entries[i] == HeaderEntry(s.mem.blocks[from + i].header, s.mem.blocks[from + i].hash)
      ensures LinkedBlock(l.e, s.mem, from + i)
    {
      assert EntryOf(l.e, s.mem.blocks[from..to][i], false) == Some(entries[i]);
    }
  }

  // ----- after a reorganisation -----

  /** A stored block is not mistaken for a transaction: the strict decoder knows other fields. */
  ghost predicate BlocksAreNoTransactions(e: Env) {
    forall b: Block :: Decode(e.decodeTx, Encode(e.encodeBlock, b)) == None
  }

  /** A reorganisation stores whole blocks where the page handler looks for transactions. Over every clean
      run, the records whose bodies can be served are exactly those appended by an accept since the last
      one; so the chain can be downloaded exactly when there was none. Headers can always be served. */
  lemma ServableExactly(l: Launch, events: seq<MixedEvent>)
    requires Startable(l) && CleanMixedRun(l.e, SeedServer(l), events) && BlocksAreNoTransactions(l.e)
    ensures var s, n := MixedRun(l.e, SeedServer(l), events), AdoptedLength(l.e, SeedServer(l), events);
      && n <= |s.mem.blocks| && |s.mem.blocks| > 0
      && (forall i :: 0 <= i < |s.mem.blocks| ==> (EntryOf(l.e, s.mem.blocks[i], true).Some? <==> n <= i))
      && (Servable(l.e, s.mem.blocks, true) <==> n == 0)
      && Servable(l.e, s.mem.blocks, false)
  {
    hide MixedRun, AdoptedLength, CleanMixedRun, Startable, Encode, Decode, SoundServer;
    var s0 := SeedServer(l);
    var s, n := MixedRun(l.e, s0, events), AdoptedLength(l.e, s0, events);
    SeedStores(l);
    MixedRunAdvances(l.e, s0, events);
    RunStores(l.e, s0, events);
    SoundIsNotEmpty(l.e, s, n);
    forall i | 0 <= i < |s.mem.blocks|
      ensures EntryOf(l.e, s.mem.blocks[i], true).Some? <==> n <= i
    {
      RecordServes(l.e, s, n, i);
    }
    if n > 0 {
      assert EntryOf(l.e, s.mem.blocks[0], true) == None;
    }
  }

  lemma SeedStores(l: Launch)
    requires Startable(l)
    ensures l.e.Codecs() && SoundServer(l.e, SeedServer(l)) && StoredFrom(l.e, SeedServer(l), 0)
  {
    hide Sound;
    SeedSoundExactly(l.e, l.c, l.gp, l.txHash);
  }

  lemma SoundIsNotEmpty(e: Env, s: Server, n: nat)
    requires SoundServer(e, s) && StoredFrom(e, s, n)
    ensures n <= |s.mem.blocks| && |s.mem.blocks| > 0
  {
  }

  lemma RecordServes(e: Env, s: Server, n: nat, i: nat)
    requires e.Codecs() && SoundServer(e, s) && StoredFrom(e, s, n) && BlocksAreNoTransactions(e) && i < |s.mem.blocks|
    ensures EntryOf(e, s.mem.blocks[i], true).Some? <==> n <= i
  {
    hide LinkedBlock, Mirrored, Peaks, WorkOf, Encode, Decode;
    if n <= i {
      assert IsLeafOf(e, s.mem.leafHashes[i], s.txs[i]);
      assert Decode(e.decodeTx, Encode(e.encodeTx, s.txs[i])) == Some(s.txs[i]);
    } else {
      assert IsWholeBlock(e, s.mem.blocks[i]);
      var b: Block :| s.mem.blocks[i].txCbor == Encode(e.encodeBlock, b);
      assert Decode(e.decodeTx, Encode(e.encodeBlock, b)) == None;
    }
  }

  // ----- downloads -----

  /** Every stored body is served, and blocks read off the records are the chain itself. */
  lemma ServesItsChain(l: Launch, s: Server, out: seq<Block>)
    requires Startable(l) && Reachable(l, s)
    ensures |s.txs| == |s.mem.blocks| && Servable(l.e, s.mem.blocks, true)
    ensures AreBlocks(l.e, out, s.mem.blocks) <==> out == ChainOf(s.mem, s.txs)
  {
    ReachableInvariant(l, s);
    assert BodiesStored(l.e, s.mem, s.txs);
    forall i | 0 <= i < |s.txs|
      ensures EntryOf(l.e, s.mem.blocks[i], true) == Some(BlockEntry(ChainOf(s.mem, s.txs)[i]))
    {
      assert Decode(l.e.decodeTx, Encode(l.e.encodeTx, s.txs[i])) == Some(s.txs[i]);
    }
    if AreBlocks(l.e, out, s.mem.blocks) {
      forall i | 0 <= i < |out|
        ensures out[i] == ChainOf(s.mem, s.txs)[i]
      {
        assert EntryOf(l.e, s.mem.blocks[i], true) == Some(BlockEntry(out[i]));
      }
    }
  }

  /** The server at each request of a download, with clean runs in between. */
  ghost predicate RunsThrough(l: Launch, states: seq<Server>) {
    && |states| > 0
    && (forall i :: 0 <= i < |states| ==> Reachable(l, states[i]))
    && (forall i, j :: 0 <= i <= j < |states| ==> Continues(states[i], states[j]))
  }

  function Snapshots(states: seq<Server>): (snapshots: seq<seq<BlockRecord>>)
    ensures |snapshots| == |states|
    ensures forall i :: 0 <= i < |states| ==> snapshots[i] == states[i].mem.blocks
  {
    seq(|states|, i requires 0 <= i < |states| => states[i].mem.blocks)
  }

  /** Downloading from a running server succeeds, however it appends between the pages, and gives the
      chain of one of the states it went through, no older than the one at the first request; from a
      valid genesis that chain passes validation. */
  method Download(ghost l: Launch, e: Env, ghost states: seq<Server>, snapshots: seq<seq<BlockRecord>>)
    returns (out: seq<Block>, ok: bool, ghost at: nat)
    requires Startable(l) && RunsThrough(l, states) && e == l.e && snapshots == Snapshots(states)
    ensures ok && at < |states| && |states[at].txs| == |states[at].mem.blocks|
    ensures out == ChainOf(states[at].mem, states[at].txs) && |out| >= |states[0].mem.blocks|
    ensures GenesisOk(l.e, SeedServer(l).mem) ==> ValidChain(l.e, states[at].mem.genesisHash, out)
  {
    ReachableInvariant(l, states[0]);
    SnapshotsGrow(l, states);
    ServesItsChain(l, states[|states| - 1], []);
    ghost var last;
    out, ok, last := FetchPeerChain(e, snapshots);
    at := if last < |states| then last else |states| - 1;
    ServesItsChain(l, states[at], out);
    if GenesisOk(l.e, SeedServer(l).mem) {
      ReachableGenesis(l, states[at]);
      ReachableInvariant(l, states[at]);
      ServedChainIsValid(l.e, states[at].mem, states[at].txs);
    }
  }

  lemma SnapshotsGrow(l: Launch, states: seq<Server>)
    requires RunsThrough(l, states) && |states[0].mem.blocks| > 0
    ensures Growing(Snapshots(states))
  {
    forall i, j | 0 <= i <= j < |states|
      ensures IsPrefix(Snapshots(states)[i], Snapshots(states)[j])
    {
      assert Continues(states[i], states[j]);
    }
  }

  // ----- inclusion proofs -----

  function TipRoot(m: Mem): Bytes
    requires |m.blocks| > 0
  {
    m.blocks[|m.blocks| - 1].header.mmrRoot
  }

  lemma TipCommits(e: Env, m: Mem, txs: seq<Tx>)
    requires Chained(e, m, txs) && (|txs| > 1 || GenesisOk(e, m))
    ensures TipRoot(m) == Root(e.sha, m.leafHashes) && AllDigests(m.leafHashes)
  {
    var n := |m.blocks|;
    assert m.leafHashes[..n] == m.leafHashes;
    if n > 1 {
      assert LinkedBlock(e, m, n - 1);
    }
    forall i | 0 <= i < n
      ensures |m.leafHashes[i]| == 32
    {
      assert IsLeafOf(e, m.leafHashes[i], txs[i]);
    }
  }

  /** The proof a sound server serves for any transaction on its chain verifies against the root in
      its tip header with one leaf per block; and a proof with 32-byte peaks that verifies there names
      the leaf of the transaction at its index, or a collision is exhibited. */
  lemma TipProofs(e: Env, m: Mem, disk: Disk, txs: seq<Tx>, pos: nat, p: InclusionProof)
    requires Sound(e, m, disk, txs) && |txs| < TWO_63 && (|txs| > 1 || GenesisOk(e, m))
    requires pos < |txs| && p.leafIndex < |txs| && AllDigests(p.peaks)
    ensures Accepts(e.sha, HonestProof(e.sha, m.leafHashes, pos), TipRoot(m), |txs|)
    ensures HonestProof(e.sha, m.leafHashes, pos).leafHash == m.leafHashes[pos] && IsLeafOf(e, m.leafHashes[pos], txs[pos])
    ensures Accepts(e.sha, p, TipRoot(m), |txs|) ==>
      IsLeafOf(e, p.leafHash, txs[p.leafIndex]) || IsCollision(e.sha, FindCollision(e.sha, m.leafHashes, p))
  {
    TipCommits(e, m, txs);
    HonestProofAccepted(e.sha, m.leafHashes, pos);
    if Accepts(e.sha, p, TipRoot(m), |txs|) {
      AlignedWhenDigests(p, |txs|);
      AcceptedProofSound(e.sha, m.leafHashes, p);
    }
  }

  // ----- the tip commits to the history -----

  function TxHashes(e: Env, txs: seq<Tx>): (hashes: seq<Bytes>)
    ensures |hashes| == |txs|
    ensures forall i :: 0 <= i < |txs| ==>
      hashes[i] == match TransactionHash(e, txs[i]) case Some(h) => h case None => []
  {
    seq(|txs|, i requires 0 <= i < |txs| => match TransactionHash(e, txs[i]) case Some(h) => h case None => [])
  }

  lemma LeavesAreTagged(e: Env, m: Mem, txs: seq<Tx>)
    requires Chained(e, m, txs)
    ensures m.leafHashes == TaggedLeaves(e.sha, TxHashes(e, txs))
  {
    hide LinkedBlock, TransactionHash, Peaks, WorkOf, Sha;
    forall i | 0 <= i < |txs|
      ensures m.leafHashes[i] == TaggedLeaves(e.sha, TxHashes(e, txs))[i]
    {
      assert IsLeafOf(e, m.leafHashes[i], txs[i]);
    }
  }

  ghost predicate CollideSomewhere(e: Env, txs: seq<Tx>, txs': seq<Tx>) {
    exists i :: 0 <= i < |txs| && i < |txs'| && TxCollision(e, txs[i], txs'[i])
  }

  /** Two chains whose tip headers have one mmr_root have the same transactions, all the way down and
      equally many, or two inputs with one hash are exhibited. */
  lemma TipFixesHistory(e: Env, m: Mem, txs: seq<Tx>, m': Mem, txs': seq<Tx>)
    requires e.Codecs() && Chained(e, m, txs) && Chained(e, m', txs')
    requires (|txs| > 1 || GenesisOk(e, m)) && (|txs'| > 1 || GenesisOk(e, m'))
    requires |txs| < TWO_63 && |txs'| < TWO_63 && TipRoot(m) == TipRoot(m')
    ensures var xs, ys := TxHashes(e, txs), TxHashes(e, txs');
      if xs != ys then Collides(e.sha, ListCollision(e.sha, xs, ys))
      else txs == txs' || CollideSomewhere(e, txs, txs')
  {
    hide LinkedBlock, Peaks, WorkOf, Sha, GenesisOk, TransactionHash, TxCollision, ListCollision;
    var xs, ys := TxHashes(e, txs), TxHashes(e, txs');
    TipCommits(e, m, txs);
    TipCommits(e, m', txs');
    LeavesAreTagged(e, m, txs);
    LeavesAreTagged(e, m', txs');
    OneRootOneList(e.sha, xs, ys);
    if xs == ys && !CollideSomewhere(e, txs, txs') {
      forall i | 0 <= i < |txs|
        ensures txs[i] == txs'[i]
      {
        assert IsLeafOf(e, m.leafHashes[i], txs[i]) && IsLeafOf(e, m'.leafHashes[i], txs'[i]);
        assert xs[i] == ys[i];
        SameHashOrCollision(e, txs[i], txs'[i]);
      }
    }
  }
}
