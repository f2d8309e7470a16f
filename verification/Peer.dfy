/**
 Reorganising onto another node's chain: which candidates validate, when one replaces the local
 chain, and what the tables hold afterwards.
 */
module Peer {
  import opened Arith
  import opened ByteStrings
  import opened Mmr
  import opened Chainwork
  import opened Wire
  import opened Ledger
  import opened LedgerInvariants

  // ----- a valid candidate -----

  /** The leaf of a transaction; empty when it does not encode. */
  function TxLeaf(e: Env, tx: Tx): Bytes {
    match TransactionHash(e, tx) case Some(h) => LeafHash(e, h) case None => []
  }

  function TxLeaves(e: Env, blocks: seq<Block>): (leaves: seq<Bytes>)
    ensures |leaves| == |blocks|
    ensures forall i :: 0 <= i < |blocks| ==> leaves[i] == TxLeaf(e, blocks[i].tx)
  {
    seq(|blocks|, i requires 0 <= i < |blocks| => TxLeaf(e, blocks[i].tx))
  }

  /** Block i is numbered, hashed, mined and linked down to the anchor. */
  predicate LinkedAt(e: Env, anchor: Bytes, blocks: seq<Block>, i: nat)
    requires i < |blocks|
  {
    var b := blocks[i];
    && b.header.height == i
    && b.hash == BlockHash(e, b.header)
    && SatisfiesTarget(e, b.header)
    && (if i == 0 then IsZero32(b.header.prevHash) && b.hash == anchor else b.header.prevHash == blocks[i - 1].hash)
  }

  /** Its root also commits to the transactions up to its own. */
  ghost predicate ValidAt(e: Env, anchor: Bytes, blocks: seq<Block>, i: nat)
    requires i < |blocks|
  {
    && LinkedAt(e, anchor, blocks, i)
    && TransactionHash(e, blocks[i].tx).Some?
    && blocks[i].header.mmrRoot == Root(e.sha, TxLeaves(e, blocks)[..i + 1])
  }

  ghost predicate ValidChain(e: Env, anchor: Bytes, blocks: seq<Block>) {
    |blocks| > 0 && forall i :: 0 <= i < |blocks| ==> ValidAt(e, anchor, blocks, i)
  }

  /** The cumulative work the headers declare. */
  function ChainWork(blocks: seq<Block>): nat {
    if |blocks| == 0 then 0 else ChainWork(blocks[..|blocks| - 1]) + BlockWork(blocks[|blocks| - 1].header.powTarget)
  }

  // ----- the tables rewritten -----

  function Emptied(disk: Disk): Disk {
    disk.(blocks := map[], leaves := map[], txIds := {}, noteIds := {})
  }

  function CandidateRow(e: Env, b: Block): BlockRow {
    BlockRow(Encode(e.encodeHeader, b.header), b.hash, Encode(e.encodeBlock, b))
  }

  /** Insert the rows of block i; None when an insert meets its primary key or the transaction does
      not encode. */
  function InsertBlock(e: Env, disk: Disk, i: nat, b: Block): Option<Disk> {
    var txHash := TransactionHash(e, b.tx);
    if ToInt64(b.header.height) in disk.blocks || txHash == None then None
    else if i in disk.leaves || txHash.value in disk.txIds then None
    else if b.tx.body.opType == Create && b.tx.body.noteId in disk.noteIds then None
    else
      Some(disk.(
        blocks := disk.blocks[ToInt64(b.header.height) := CandidateRow(e, b)],
        leaves := disk.leaves[i := LeafHash(e, txHash.value)],
        txIds := disk.txIds + {txHash.value},
        noteIds := if b.tx.body.opType == Create then disk.noteIds + {b.tx.body.noteId} else disk.noteIds))
  }

  function InsertBlocks(e: Env, disk: Disk, blocks: seq<Block>): Option<Disk> {
    if |blocks| == 0 then Some(disk)
    else
      match InsertBlocks(e, disk, blocks[..|blocks| - 1])
      case None => None
      case Some(d) => InsertBlock(e, d, |blocks| - 1, blocks[|blocks| - 1])
  }

  /** The tables after the old chain's rows are deleted and the candidate's inserted. */
  function Rewritten(e: Env, disk: Disk, blocks: seq<Block>): Option<Disk>
    requires 0 < |blocks| <= TWO_63
  {
    match InsertBlocks(e, Emptied(disk), blocks)
    case None => None
    case Some(d) => Some(d.(stream := d.stream.(height := |blocks| - 1)))
  }

  // ----- the operation -----

  datatype ReorgOutcome = Replaced | Kept | InvalidChain | StoreFailed

  ghost function Reorg(e: Env, m: Mem, disk: Disk, anchor: Bytes, blocks: seq<Block>, ioOk: bool)
    : (Mem, Disk, ReorgOutcome)
    requires |blocks| <= TWO_63
  {
    if !ValidChain(e, anchor, blocks) then (m, disk, InvalidChain)
    else if m.chainwork >= ChainWork(blocks) then (m, disk, Kept)
    else
      var d := Rewritten(e, disk, blocks);
      if d == None || !ioOk then (m, disk, StoreFailed)
      else if Rebuild(e, d.value).Some? then (Rebuild(e, d.value).value, d.value, Replaced)
      else (m, d.value, StoreFailed)
  }

  // ----- what the rewritten tables hold -----

  function RecordsOf(e: Env, blocks: seq<Block>): (records: seq<BlockRecord>)
    ensures |records| == |blocks|
    ensures forall i :: 0 <= i < |blocks| ==>
      records[i] == BlockRecord(blocks[i].header, blocks[i].hash, Encode(e.encodeBlock, blocks[i]))
  {
    seq(|blocks|, i requires 0 <= i < |blocks| =>
      BlockRecord(blocks[i].header, blocks[i].hash, Encode(e.encodeBlock, blocks[i])))
  }

  ghost predicate HoldsBlocks(e: Env, d: Disk, blocks: seq<Block>) {
    && |d.blocks| == |blocks|
    && (forall h :: h in d.blocks <==> 0 <= h < |blocks|)
    && (forall h :: 0 <= h < |blocks| ==> d.blocks[h] == CandidateRow(e, blocks[h]))
  }

  ghost predicate HoldsLeaves(e: Env, d: Disk, blocks: seq<Block>) {
    && (forall h :: h in d.leaves <==> 0 <= h < |blocks|)
    && (forall h :: 0 <= h < |blocks| ==> d.leaves[h] == TxLeaf(e, blocks[h].tx))
  }

  predicate Numbered(blocks: seq<Block>) {
    |blocks| <= TWO_63 && forall i :: 0 <= i < |blocks| ==> blocks[i].header.height == i
  }

  lemma InsertHolds(e: Env, d: Disk, front: seq<Block>, b: Block)
    requires HoldsBlocks(e, d, front) && HoldsLeaves(e, d, front)
    requires b.header.height == |front| < TWO_63 && InsertBlock(e, d, |front|, b).Some?
    ensures var d' := InsertBlock(e, d, |front|, b).value;
      && HoldsBlocks(e, d', front + [b]) && HoldsLeaves(e, d', front + [b])
      && d'.stream == d.stream && d'.members == d.members && d'.authorized == d.authorized
  {
    hide CandidateRow, LeafHash, TransactionHash;
  }

  lemma {:induction false} TablesHold(e: Env, disk: Disk, blocks: seq<Block>)
    requires Numbered(blocks) && InsertBlocks(e, Emptied(disk), blocks).Some?
    ensures var d := InsertBlocks(e, Emptied(disk), blocks).value;
      && HoldsBlocks(e, d, blocks) && HoldsLeaves(e, d, blocks)
      && d.stream == disk.stream && d.members == disk.members && d.authorized == disk.authorized
  {
    if |blocks| > 0 {
      hide InsertBlock, HoldsBlocks, HoldsLeaves;
      var front, b := blocks[..|blocks| - 1], blocks[|blocks| - 1];
      TablesHold(e, disk, front);
      InsertHolds(e, InsertBlocks(e, Emptied(disk), front).value, front, b);
      assert front + [b] == blocks;
    }
  }

  lemma {:induction false} RecordsWork(e: Env, blocks: seq<Block>)
    ensures WorkOf(RecordsOf(e, blocks)) == ChainWork(blocks)
  {
    if |blocks| > 0 {
      var front := blocks[..|blocks| - 1];
      RecordsWork(e, front);
      assert RecordsOf(e, blocks)[..|blocks| - 1] == RecordsOf(e, front);
    }
  }

  function TxsOf(blocks: seq<Block>): seq<Tx> {
    seq(|blocks|, i requires 0 <= i < |blocks| => blocks[i].tx)
  }

  /** Memory after a reorganisation onto blocks: the chain is the candidate's, the dedup sets are
      the tables', the authority stays. */
  function Onto(e: Env, m: Mem, d: Disk, blocks: seq<Block>): Mem {
    m.(blocks := RecordsOf(e, blocks), leafHashes := TxLeaves(e, blocks), peaks := Peaks(e.sha, TxLeaves(e, blocks)),
       chainwork := ChainWork(blocks), txIds := d.txIds, noteIds := d.noteIds, count := |d.txIds|)
  }

  lemma OntoIsChained(e: Env, m: Mem, d: Disk, blocks: seq<Block>)
    requires ValidChain(e, m.genesisHash, blocks)
    ensures Chained(e, Onto(e, m, d, blocks), TxsOf(blocks))
  {
    var m' := Onto(e, m, d, blocks);
    assert ValidAt(e, m.genesisHash, blocks, 0);
    forall i | 0 < i < |blocks|
      ensures LinkedBlock(e, m', i)
    {
      assert ValidAt(e, m.genesisHash, blocks, i);
    }
    forall i | 0 <= i < |blocks|
      ensures IsLeafOf(e, m'.leafHashes[i], TxsOf(blocks)[i])
    {
      assert ValidAt(e, m.genesisHash, blocks, i);
    }
    RecordsWork(e, blocks);
  }

  lemma OntoIsMirrored(e: Env, m: Mem, disk: Disk, txs: seq<Tx>, blocks: seq<Block>)
    requires Sound(e, m, disk, txs) && 0 < |blocks| <= TWO_63 && Numbered(blocks)
    requires Rewritten(e, disk, blocks).Some?
    ensures var d := Rewritten(e, disk, blocks).value; Mirrored(e, Onto(e, m, d, blocks), d)
  {
    hide InsertBlocks, Peaks, ChainWork, WorkOf, Chained, Encode, Sha, TransactionHash;
    TablesHold(e, disk, blocks);
    var d := Rewritten(e, disk, blocks).value;
    var m' := Onto(e, m, d, blocks);
    assert MirrorsBlocks(e, m', d);
    assert MirrorsLeaves(m', d);
    assert MirrorsSets(m', d);
    assert MirrorsStream(m', d);
  }

  lemma ValidIsNumbered(e: Env, anchor: Bytes, blocks: seq<Block>)
    requires ValidChain(e, anchor, blocks) && |blocks| <= TWO_63
    ensures Numbered(blocks)
  {
    forall i | 0 <= i < |blocks|
      ensures blocks[i].header.height == i
    {
      assert ValidAt(e, anchor, blocks, i);
    }
  }

  lemma CommitIsSound(e: Env, m: Mem, disk: Disk, txs: seq<Tx>, blocks: seq<Block>)
    requires e.Codecs() && Sound(e, m, disk, txs) && |blocks| <= TWO_63
    requires ValidChain(e, m.genesisHash, blocks) && Rewritten(e, disk, blocks).Some?
    ensures var d := Rewritten(e, disk, blocks).value;
      && Rebuild(e, d) == Some(Onto(e, m, d, blocks))
      && Sound(e, Onto(e, m, d, blocks), d, TxsOf(blocks))
  {
    ValidIsNumbered(e, m.genesisHash, blocks);
    var d := Rewritten(e, disk, blocks).value;
    OntoIsChained(e, m, d, blocks);
    OntoIsMirrored(e, m, disk, txs, blocks);
    RestartRestores(e, Onto(e, m, d, blocks), d, TxsOf(blocks));
  }

  /** The candidate is valid, has strictly more work, its rows do not clash, and the database commits. */
  ghost predicate Replaces(e: Env, m: Mem, disk: Disk, blocks: seq<Block>, ioOk: bool)
    requires |blocks| <= TWO_63
  {
    && ValidChain(e, m.genesisHash, blocks) && ChainWork(blocks) > m.chainwork
    && Rewritten(e, disk, blocks).Some? && ioOk
  }

  /** Then memory becomes the candidate's chain under the old authority, and the state is sound again. */
  lemma ReorgReplaces(e: Env, m: Mem, disk: Disk, txs: seq<Tx>, blocks: seq<Block>, ioOk: bool)
    requires e.Codecs() && Sound(e, m, disk, txs) && |blocks| <= TWO_63
    requires Replaces(e, m, disk, blocks, ioOk)
    ensures var d := Rewritten(e, disk, blocks).value;
      && Reorg(e, m, disk, m.genesisHash, blocks, ioOk) == (Onto(e, m, d, blocks), d, Replaced)
      && Sound(e, Onto(e, m, d, blocks), d, TxsOf(blocks))
  {
    CommitIsSound(e, m, disk, txs, blocks);
  }

  /** Otherwise nothing changes. */
  lemma ReorgElseKeeps(e: Env, m: Mem, disk: Disk, blocks: seq<Block>, ioOk: bool)
    requires |blocks| <= TWO_63
    requires !Replaces(e, m, disk, blocks, ioOk)
    ensures var (m', disk', r) := Reorg(e, m, disk, m.genesisHash, blocks, ioOk);
      m' == m && disk' == disk && r != Replaced
  {
  }

  // ----- the producer's chain -----

  /** The chain a ledger serves. */
  function ChainOf(m: Mem, txs: seq<Tx>): (blocks: seq<Block>)
    requires |txs| == |m.blocks|
    ensures |blocks| == |txs|
    ensures forall i :: 0 <= i < |txs| ==> blocks[i] == Block(m.blocks[i].header, m.blocks[i].hash, txs[i])
  {
    seq(|txs|, i requires 0 <= i < |txs| => Block(m.blocks[i].header, m.blocks[i].hash, txs[i]))
  }

  /** The genesis block itself is valid: the server seeds from it without checking. */
  ghost predicate GenesisOk(e: Env, m: Mem)
    requires Shaped(m)
  {
    var b := m.blocks[0];
    && b.header.height == 0
    && b.hash == BlockHash(e, b.header)
    && SatisfiesTarget(e, b.header)
    && IsZero32(b.header.prevHash)
    && b.header.mmrRoot == Root(e.sha, m.leafHashes[..1])
  }

  lemma {:induction false} ServedWork(m: Mem, txs: seq<Tx>, n: nat)
    requires |txs| == |m.blocks| && n <= |txs|
    ensures ChainWork(ChainOf(m, txs)[..n]) == WorkOf(m.blocks[..n])
  {
    if n > 0 {
      ServedWork(m, txs, n - 1);
      assert ChainOf(m, txs)[..n][..n - 1] == ChainOf(m, txs)[..n - 1];
      assert m.blocks[..n][..n - 1] == m.blocks[..n - 1];
    }
  }

  /** Producer and validator agree: the chain of a sound ledger passes another node's validation
      exactly when the genesis block does, and is credited with the work the ledger counts. */
  lemma ServedChainIsValid(e: Env, m: Mem, txs: seq<Tx>)
    requires Chained(e, m, txs)
    ensures ValidChain(e, m.genesisHash, ChainOf(m, txs)) <==> GenesisOk(e, m)
    ensures ChainWork(ChainOf(m, txs)) == m.chainwork
  {
    hide BlockHash, SatisfiesTarget, Root, Peaks, Sha, BlockWork, WorkOf, ChainWork, IsZero32;
    var blocks := ChainOf(m, txs);
    assert TxLeaves(e, blocks) == m.leafHashes;
    assert ValidAt(e, m.genesisHash, blocks, 0) <==> GenesisOk(e, m);
    forall i | 0 < i < |blocks|
      ensures ValidAt(e, m.genesisHash, blocks, i)
    {
      assert LinkedBlock(e, m, i);
    }
    ServedWork(m, txs, |txs|);
    assert blocks[..|txs|] == blocks && m.blocks[..|txs|] == m.blocks;
  }

  // ----- what the operation answers, and the tables after it -----

  /** Each outcome exactly: the candidate is invalid, has no more work, cannot be stored, or replaces. */
  lemma ReorgOutcomeExactly(e: Env, m: Mem, disk: Disk, txs: seq<Tx>, blocks: seq<Block>, ioOk: bool)
    requires e.Codecs() && Sound(e, m, disk, txs) && |blocks| <= TWO_63
    ensures var r := Reorg(e, m, disk, m.genesisHash, blocks, ioOk).2;
      var valid, heavier := ValidChain(e, m.genesisHash, blocks), ChainWork(blocks) > m.chainwork;
      && (r == InvalidChain <==> !valid)
      && (r == Kept <==> valid && !heavier)
      && (r == StoreFailed <==> valid && heavier && (!ioOk || Rewritten(e, disk, blocks) == None))
      && (r == Replaced <==> valid && heavier && ioOk && Rewritten(e, disk, blocks).Some?)
  {
    hide Sound, ValidAt, Rebuild, ChainWork, InsertBlocks;
    if Replaces(e, m, disk, blocks, ioOk) {
      ReorgReplaces(e, m, disk, txs, blocks, ioOk);
    }
  }

  lemma InsertAdds(e: Env, d: Disk, i: nat, b: Block)
    requires InsertBlock(e, d, i, b).Some?
    ensures var d' := InsertBlock(e, d, i, b).value;
      && TransactionHash(e, b.tx).Some? && d'.txIds == d.txIds + {TransactionHash(e, b.tx).value}
      && d'.noteIds == if b.tx.body.opType == Create then d.noteIds + {b.tx.body.noteId} else d.noteIds
  {
    hide TransactionHash, CandidateRow, LeafHash;
  }

  /** The rewritten dedup table of ids holds the hashes of the candidate's transactions. */
  lemma {:induction false} DedupHashesHold(e: Env, disk: Disk, blocks: seq<Block>)
    requires InsertBlocks(e, Emptied(disk), blocks).Some?
    ensures forall x :: x in InsertBlocks(e, Emptied(disk), blocks).value.txIds <==>
      exists i :: 0 <= i < |blocks| && TransactionHash(e, blocks[i].tx) == Some(x)
  {
    if |blocks| > 0 {
      hide InsertBlock, TransactionHash;
      var front, b := blocks[..|blocks| - 1], blocks[|blocks| - 1];
      InsertAdds(e, InsertBlocks(e, Emptied(disk), front).value, |blocks| - 1, b);
      DedupHashesHold(e, disk, front);
      assert forall i :: 0 <= i < |front| ==> front[i] == blocks[i];
    }
  }

  /** And that of notes the notes its creates create. */
  lemma {:induction false} DedupNotesHold(e: Env, disk: Disk, blocks: seq<Block>)
    requires InsertBlocks(e, Emptied(disk), blocks).Some?
    ensures forall x :: x in InsertBlocks(e, Emptied(disk), blocks).value.noteIds <==>
      exists i :: 0 <= i < |blocks| && blocks[i].tx.body.opType == Create && blocks[i].tx.body.noteId == x
  {
    if |blocks| > 0 {
      hide InsertBlock, TransactionHash;
      var front, b := blocks[..|blocks| - 1], blocks[|blocks| - 1];
      InsertAdds(e, InsertBlocks(e, Emptied(disk), front).value, |blocks| - 1, b);
      DedupNotesHold(e, disk, front);
      assert forall i :: 0 <= i < |front| ==> front[i] == blocks[i];
    }
  }

  /** A valid chain starts at the anchor with a zero parent, and each hash is not above its 32-byte target. */
  lemma ValidMeetsTarget(e: Env, anchor: Bytes, blocks: seq<Block>, i: nat)
    requires ValidChain(e, anchor, blocks) && i < |blocks| && |blocks[i].header.powTarget| == 32
    ensures !Greater(blocks[i].hash, blocks[i].header.powTarget)
    ensures blocks[0].hash == anchor && blocks[0].header.prevHash == Zeros(32)
  {
    hide BlockHash, SatisfiesTarget, Root, TransactionHash;
    assert ValidAt(e, anchor, blocks, i) && ValidAt(e, anchor, blocks, 0);
    MeetsTargetExactly(e, blocks[i].header);
  }

  /** Its transactions are of version 1 with ids, names, keys and signatures of the right lengths, and the leaf
      of each is the tagged hash of its tagged hash. */
  lemma ValidTransactions(e: Env, anchor: Bytes, blocks: seq<Block>, i: nat)
    requires ValidChain(e, anchor, blocks) && i < |blocks|
    ensures var t := blocks[i].tx;
      && |t.id| == 32 && |t.signature| == 64 && t.body.protocolVersion == 1
      && |t.body.streamId| == |t.body.noteId| == |t.body.author| == 32
      && t.body.payload != [] && t.body.payload in e.isCanonicalItem
      && TxLeaves(e, blocks)[i] == Sha(e.sha, MmrLeaf, Sha(e.sha, TxDomain, Encode(e.encodeTx, t)))
  {
    hide BlockHash, SatisfiesTarget, Root, Sha, Encode;
    assert ValidAt(e, anchor, blocks, i);
  }
}
