/**
 Runs in which the server also adopts peers' chains: the work never decreases, the genesis never
 changes, and the chain stays one that other nodes accept. What of it can still be served is in Serving.
 */
module PeerRuns {
  import opened Arith
  import opened ByteStrings
  import opened Mmr
  import opened Wire
  import opened Ledger
  import opened LedgerInvariants
  import opened LedgerHistory
  import opened LedgerRuns
  import opened Peer

  datatype MixedEvent = Local(ev: Event) | Adopt(blocks: seq<Block>, ioOk: bool)

  function Timestamps(blocks: seq<Block>): seq<UInt64> {
    seq(|blocks|, i requires 0 <= i < |blocks| => blocks[i].header.timestamp)
  }

  ghost function MixedStep(e: Env, s: Server, ev: MixedEvent): Server {
    match ev
    case Local(local) => Step(e, s, local)
    case Adopt(blocks, ioOk) =>
      if |blocks| > TWO_63 then s
      else
        var (m', disk', r) := Reorg(e, s.mem, s.disk, s.mem.genesisHash, blocks, ioOk);
        s.(mem := m', disk := disk',
           txs := if r == Replaced then TxsOf(blocks) else s.txs,
           checks := if r == Replaced then seq(|blocks|, _ => 0) else s.checks,
           clocks := if r == Replaced then Timestamps(blocks) else s.clocks)
  }

  ghost predicate CleanMixed(e: Env, s: Server, ev: MixedEvent) {
    ev.Local? ==> Clean(e, s, ev.ev)
  }

  ghost function MixedRun(e: Env, s: Server, events: seq<MixedEvent>): Server {
    if |events| == 0 then s else MixedStep(e, MixedRun(e, s, events[..|events| - 1]), events[|events| - 1])
  }

  ghost predicate CleanMixedRun(e: Env, s: Server, events: seq<MixedEvent>) {
    |events| > 0 ==>
      && CleanMixedRun(e, s, events[..|events| - 1])
      && CleanMixed(e, MixedRun(e, s, events[..|events| - 1]), events[|events| - 1])
  }

  ghost predicate SoundServer(e: Env, s: Server) {
    Sound(e, s.mem, s.disk, s.txs)
  }

  /** Work never decreases, the anchor stays, and a valid genesis block stays valid. */
  ghost predicate Advances(e: Env, s: Server, s': Server) {
    && s.mem.chainwork <= s'.mem.chainwork
    && s.mem.genesisHash == s'.mem.genesisHash
    && (Shaped(s.mem) && Shaped(s'.mem) && GenesisOk(e, s.mem) ==> GenesisOk(e, s'.mem))
  }

  lemma AcceptingAdvances(e: Env, s: Server, q: Request, inputs: Inputs)
    requires SoundServer(e, s) && Growable(s.mem) && CleanAccept(e, s.mem, s.disk, q.tx, inputs)
    ensures SoundServer(e, Accepting(e, s, q, inputs)) && Advances(e, s, Accepting(e, s, q, inputs))
  {
    hide TryAccept, LinkedBlock, IsLeafOf, Mirrored, Root, ApplyOp, EarlyCheck, NoKeyClash, Committed, BlockHash,
      SatisfiesTarget, IsZero32;
    if TryAccept(e, s.mem, s.disk, q.tx, inputs).2.AcceptOk? {
      AcceptKeepsSound(e, s.mem, s.disk, s.txs, q.tx, inputs);
      var rec, leaf, o := AcceptGrows(e, s.mem, s.disk, q.tx, inputs);
      assert (s.mem.leafHashes + [leaf])[..1] == s.mem.leafHashes[..1];
    }
  }

  lemma LocalAdvances(e: Env, s: Server, ev: Event)
    requires e.Codecs() && SoundServer(e, s) && Clean(e, s, ev)
    ensures SoundServer(e, Step(e, s, ev)) && Advances(e, s, Step(e, s, ev))
  {
    hide TryAccept, CheckPost, Chained, Mirrored, Rebuild, GenesisOk;
    match ev
    case Check(_) =>
    case Restart => RestartRestores(e, s.mem, s.disk, s.txs);
    case Accept(q, inputs) =>
      if q in s.inFlight {
        AcceptingAdvances(e, s, q, inputs);
      }
    case Post(tx, inputs) =>
      if CheckPost(e, s.mem, tx) == None {
        AcceptingAdvances(e, s, CheckedNow(s, tx), inputs);
      }
  }

  lemma AdoptAdvances(e: Env, s: Server, blocks: seq<Block>, ioOk: bool)
    requires e.Codecs() && SoundServer(e, s) && |blocks| <= TWO_63
    ensures var s' := MixedStep(e, s, Adopt(blocks, ioOk)); SoundServer(e, s') && Advances(e, s, s')
  {
    if Replaces(e, s.mem, s.disk, blocks, ioOk) {
      ReorgReplaces(e, s.mem, s.disk, s.txs, blocks, ioOk);
      assert ValidAt(e, s.mem.genesisHash, blocks, 0);
    } else {
      ReorgElseKeeps(e, s.mem, s.disk, blocks, ioOk);
    }
  }

  /** Over every clean run of accepts, restarts and reorganisations the state stays sound, so the work
      is the sum over the blocks; the work never decreases and the genesis hash never changes. */
  lemma {:induction false} MixedRunAdvances(e: Env, s: Server, events: seq<MixedEvent>)
    requires e.Codecs() && SoundServer(e, s) && CleanMixedRun(e, s, events)
    ensures var s' := MixedRun(e, s, events); SoundServer(e, s') && Advances(e, s, s')
    decreases |events|
  {
    if |events| > 0 {
      var before, ev := MixedRun(e, s, events[..|events| - 1]), events[|events| - 1];
      MixedRunAdvances(e, s, events[..|events| - 1]);
      match ev
      case Local(local) => LocalAdvances(e, before, local);
      case Adopt(blocks, ioOk) =>
        if |blocks| <= TWO_63 {
          AdoptAdvances(e, before, blocks, ioOk);
        }
    }
  }

  /** Producer and validator agree over whole runs: from a valid genesis block, whatever accepts,
      restarts and reorganisations follow, the chain the server holds is valid for any node with the same
      anchor, and is credited with the work the server counts. */
  lemma RunKeepsChainValid(l: Launch, events: seq<MixedEvent>)
    requires Startable(l) && GenesisOk(l.e, SeedServer(l).mem)
    requires CleanMixedRun(l.e, SeedServer(l), events)
    ensures var s := MixedRun(l.e, SeedServer(l), events);
      && |s.txs| == |s.mem.blocks|
      && ValidChain(l.e, l.c.genesis.hash, ChainOf(s.mem, s.txs))
      && ChainWork(ChainOf(s.mem, s.txs)) == s.mem.chainwork == WorkOf(s.mem.blocks)
  {
    SeedSoundExactly(l.e, l.c, l.gp, l.txHash);
    MixedRunAdvances(l.e, SeedServer(l), events);
    var s := MixedRun(l.e, SeedServer(l), events);
    ServedChainIsValid(l.e, s.mem, s.txs);
  }

  // ----- what the records hold -----

  /** How many blocks came with the last reorganisation of the run. */
  ghost function AdoptedLength(e: Env, s: Server, events: seq<MixedEvent>): nat {
    if |events| == 0 then 0
    else
      var front := events[..|events| - 1];
      var before := MixedRun(e, s, front);
      match events[|events| - 1]
      case Local(_) => AdoptedLength(e, s, front)
      case Adopt(blocks, ioOk) =>
        if |blocks| <= TWO_63 && Replaces(e, before.mem, before.disk, blocks, ioOk) then |blocks|
        else AdoptedLength(e, s, front)
  }

  ghost predicate IsWholeBlock(e: Env, rec: BlockRecord) {
    exists b: Block :: rec.txCbor == Encode(e.encodeBlock, b)
  }

  /** The first n records hold whole blocks, the others their transactions. */
  ghost predicate StoredFrom(e: Env, s: Server, n: nat) {
    && n <= |s.txs| == |s.mem.blocks|
    && (forall i :: 0 <= i < n ==> IsWholeBlock(e, s.mem.blocks[i]))
    && (forall i :: n <= i < |s.txs| ==> s.mem.blocks[i].txCbor == Encode(e.encodeTx, s.txs[i]))
  }

  lemma AcceptingKeepsStored(e: Env, s: Server, q: Request, inputs: Inputs, n: nat)
    requires StoredFrom(e, s, n) && Growable(s.mem) && CleanAccept(e, s.mem, s.disk, q.tx, inputs)
    ensures StoredFrom(e, Accepting(e, s, q, inputs), n)
  {
    hide TryAccept, ApplyOp, EarlyCheck, NoKeyClash, Committed, BlockHash, SatisfiesTarget, IsWholeBlock, IsLeafOf;
    if TryAccept(e, s.mem, s.disk, q.tx, inputs).2.AcceptOk? {
      var rec, leaf, o := AcceptGrows(e, s.mem, s.disk, q.tx, inputs);
    }
  }

  lemma LocalKeepsStored(e: Env, s: Server, ev: Event, n: nat)
    requires e.Codecs() && SoundServer(e, s) && Clean(e, s, ev) && StoredFrom(e, s, n)
    ensures StoredFrom(e, Step(e, s, ev), n)
  {
    hide TryAccept, CheckPost, Chained, Mirrored, Rebuild, IsWholeBlock;
    match ev
    case Check(_) =>
    case Restart => RestartRestores(e, s.mem, s.disk, s.txs);
    case Accept(q, inputs) =>
      if q in s.inFlight {
        AcceptingKeepsStored(e, s, q, inputs, n);
      }
    case Post(tx, inputs) =>
      if CheckPost(e, s.mem, tx) == None {
        AcceptingKeepsStored(e, s, CheckedNow(s, tx), inputs, n);
      }
  }

  lemma AdoptStores(e: Env, s: Server, blocks: seq<Block>, ioOk: bool)
    requires e.Codecs() && SoundServer(e, s) && |blocks| <= TWO_63 && Replaces(e, s.mem, s.disk, blocks, ioOk)
    ensures StoredFrom(e, MixedStep(e, s, Adopt(blocks, ioOk)), |blocks|)
  {
    hide Replaces, Sound, Reorg, Peaks, WorkOf, ChainWork;
    ReorgReplaces(e, s.mem, s.disk, s.txs, blocks, ioOk);
    var records := RecordsOf(e, blocks);
    forall i | 0 <= i < |blocks|
      ensures IsWholeBlock(e, records[i])
    {
      assert records[i].txCbor == Encode(e.encodeBlock, blocks[i]);
    }
  }

  /** Over every clean run, exactly the blocks of the last reorganisation are stored whole. */
  lemma {:induction false} RunStores(e: Env, s: Server, events: seq<MixedEvent>)
    requires e.Codecs() && SoundServer(e, s) && StoredFrom(e, s, 0) && CleanMixedRun(e, s, events)
    ensures StoredFrom(e, MixedRun(e, s, events), AdoptedLength(e, s, events))
    decreases |events|
  {
    hide SoundServer, StoredFrom, Step, Clean, Reorg, Replaces;
    if |events| > 0 {
      var front, ev := events[..|events| - 1], events[|events| - 1];
      var before := MixedRun(e, s, front);
      RunStores(e, s, front);
      MixedRunAdvances(e, s, front);
      match ev
      case Local(local) => LocalKeepsStored(e, before, local, AdoptedLength(e, s, front));
      case Adopt(blocks, ioOk) =>
        if |blocks| <= TWO_63 {
          if Replaces(e, before.mem, before.disk, blocks, ioOk) {
            AdoptStores(e, before, blocks, ioOk);
          } else {
            ElseUnchanged(e, before, blocks, ioOk);
          }
        }
    }
  }

  lemma ElseUnchanged(e: Env, s: Server, blocks: seq<Block>, ioOk: bool)
    requires |blocks| <= TWO_63 && !Replaces(e, s.mem, s.disk, blocks, ioOk)
    ensures MixedStep(e, s, Adopt(blocks, ioOk)) == s
  {
    hide Reorg, Replaces;
    ReorgElseKeeps(e, s.mem, s.disk, blocks, ioOk);
  }

  // ----- when the rows of a candidate clash -----

  function RowHash(e: Env, b: Block): Option<Bytes> {
    TransactionHash(e, b.tx)
  }

  predicate CreatesNote(b: Block, note: Bytes) {
    IsCreate(b.tx) && b.tx.body.noteId == note
  }

  /** No two blocks have the same transaction hash, and no two creates the same note. */
  ghost predicate DistinctRows(e: Env, blocks: seq<Block>) {
    && (forall i, j :: 0 <= i < j < |blocks| ==> RowHash(e, blocks[i]) != RowHash(e, blocks[j]))
    && (forall i, j :: 0 <= i < j < |blocks| && IsCreate(blocks[i].tx) ==> !CreatesNote(blocks[j], blocks[i].tx.body.noteId))
  }

  ghost predicate HoldsIds(e: Env, d: Disk, blocks: seq<Block>) {
    && (forall x :: x in d.txIds <==> exists i :: 0 <= i < |blocks| && RowHash(e, blocks[i]) == Some(x))
    && (forall x :: x in d.noteIds <==> exists i :: 0 <= i < |blocks| && CreatesNote(blocks[i], x))
  }

  ghost predicate Hashable(e: Env, blocks: seq<Block>) {
    forall i :: 0 <= i < |blocks| ==> RowHash(e, blocks[i]).Some?
  }

  lemma IdsGrowWith(e: Env, d: Disk, d': Disk, front: seq<Block>, b: Block)
    requires HoldsIds(e, d, front) && RowHash(e, b).Some?
    requires d'.txIds == d.txIds + {RowHash(e, b).value}
    requires d'.noteIds == if IsCreate(b.tx) then d.noteIds + {b.tx.body.noteId} else d.noteIds
    ensures HoldsIds(e, d', front + [b])
  {
    var blocks, n := front + [b], |front|;
    assert blocks[n] == b;
    forall x | x in d'.txIds
      ensures exists i :: 0 <= i < |blocks| && RowHash(e, blocks[i]) == Some(x)
    {
      if x in d.txIds {
        var i :| 0 <= i < n && RowHash(e, front[i]) == Some(x);
        assert blocks[i] == front[i];
      }
    }
    forall x | x in d'.noteIds
      ensures exists i :: 0 <= i < |blocks| && CreatesNote(blocks[i], x)
    {
      if x in d.noteIds {
        var i :| 0 <= i < n && CreatesNote(front[i], x);
        assert blocks[i] == front[i];
      } else {
        assert CreatesNote(blocks[n], x);
      }
    }
    forall i | 0 <= i < |blocks|
      ensures RowHash(e, blocks[i]).Some? ==> RowHash(e, blocks[i]).value in d'.txIds
      ensures forall x :: CreatesNote(blocks[i], x) ==> x in d'.noteIds
    {
      if i < n {
        assert blocks[i] == front[i];
        assert RowHash(e, front[i]).Some? ==> RowHash(e, front[i]).value in d.txIds;
      }
    }
  }

  /** The rewrite goes through exactly when the candidate's rows are distinct. */
  lemma {:induction false} RewriteExactly(e: Env, disk: Disk, blocks: seq<Block>)
    requires Numbered(blocks) && Hashable(e, blocks)
    ensures InsertBlocks(e, Emptied(disk), blocks).Some? <==> DistinctRows(e, blocks)
    ensures InsertBlocks(e, Emptied(disk), blocks).Some? ==>
      HoldsIds(e, InsertBlocks(e, Emptied(disk), blocks).value, blocks)
  {
    if |blocks| > 0 {
      hide DistinctRows, HoldsIds, TransactionHash, CandidateRow;
      var n := |blocks| - 1;
      var front, b := blocks[..n], blocks[n];
      assert blocks == front + [b];
      RewriteExactly(e, disk, front);
      if InsertBlocks(e, Emptied(disk), front).Some? {
        TablesHold(e, disk, front);
        var d := InsertBlocks(e, Emptied(disk), front).value;
        LastRowDistinct(e, d, front, b);
        if InsertBlock(e, d, n, b).Some? {
          IdsGrowWith(e, d, InsertBlock(e, d, n, b).value, front, b);
        }
      } else {
        FrontDistinct(e, front, b);
      }
    }
  }

  lemma FrontDistinct(e: Env, front: seq<Block>, b: Block)
    requires !DistinctRows(e, front)
    ensures !DistinctRows(e, front + [b])
  {
    var blocks := front + [b];
    if DistinctRows(e, blocks) {
      assert forall i :: 0 <= i < |front| ==> blocks[i] == front[i];
      assert DistinctRows(e, front);
    }
  }

  lemma LastRowDistinct(e: Env, d: Disk, front: seq<Block>, b: Block)
    requires DistinctRows(e, front) && HoldsIds(e, d, front) && RowHash(e, b).Some?
    ensures DistinctRows(e, front + [b]) <==>
      RowHash(e, b).value !in d.txIds && (IsCreate(b.tx) ==> b.tx.body.noteId !in d.noteIds)
  {
    var blocks, n := front + [b], |front|;
    assert blocks[n] == b && forall i :: 0 <= i < n ==> blocks[i] == front[i];
    if RowHash(e, b).value in d.txIds {
      var i :| 0 <= i < n && RowHash(e, front[i]) == Some(RowHash(e, b).value);
      assert RowHash(e, blocks[i]) == RowHash(e, blocks[n]);
    } else if IsCreate(b.tx) && b.tx.body.noteId in d.noteIds {
      var i :| 0 <= i < n && CreatesNote(front[i], b.tx.body.noteId);
      assert IsCreate(blocks[i].tx) && CreatesNote(blocks[n], blocks[i].tx.body.noteId);
    } else {
      forall i | 0 <= i < n
        ensures RowHash(e, blocks[i]) != RowHash(e, b)
        ensures IsCreate(blocks[i].tx) ==> !CreatesNote(b, blocks[i].tx.body.noteId)
      {
        assert RowHash(e, front[i]).Some? ==> RowHash(e, front[i]).value in d.txIds;
        assert IsCreate(front[i].tx) ==> CreatesNote(front[i], front[i].tx.body.noteId);
      }
    }
  }
}
