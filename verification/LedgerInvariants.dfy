/**
 What every successful accept keeps, whatever came before: the chain is linked, hashed, mined and
 accumulated, the work is the blocks' sum, and the tables mirror memory row for row, so a restart
 reads back exactly the state it left.
 */
module LedgerInvariants {
  import opened Arith
  import opened ByteStrings
  import opened Mmr
  import opened Chainwork
  import opened Wire
  import opened Ledger

  // ----- the chain in memory -----

  ghost predicate Shaped(m: Mem) {
    |m.blocks| == |m.leafHashes| > 0
  }

  /** Block i > 0 is numbered, hashed, mined, linked to the block below and commits to the leaves
      up to its own. */
  ghost predicate LinkedBlock(e: Env, m: Mem, i: nat)
    requires Shaped(m) && 0 < i < |m.blocks|
  {
    var b := m.blocks[i];
    && b.header.height == i
    && b.hash == BlockHash(e, b.header)
    && SatisfiesTarget(e, b.header)
    && b.header.prevHash == m.blocks[i - 1].hash
    && b.header.mmrRoot == Root(e.sha, m.leafHashes[..i + 1])
  }

  /** The leaf of a transaction. */
  ghost predicate IsLeafOf(e: Env, leaf: Bytes, tx: Tx) {
    TransactionHash(e, tx).Some? && leaf == LeafHash(e, TransactionHash(e, tx).value)
  }

  /** The chain whose blocks carry the transactions txs. */
  ghost predicate Chained(e: Env, m: Mem, txs: seq<Tx>) {
    && Shaped(m) && |txs| == |m.blocks|
    && (forall i :: 0 < i < |m.blocks| ==> LinkedBlock(e, m, i))
    && (forall i :: 0 <= i < |txs| ==> IsLeafOf(e, m.leafHashes[i], txs[i]))
    && m.blocks[0].hash == m.genesisHash
    && m.peaks == Peaks(e.sha, m.leafHashes)
    && m.chainwork == WorkOf(m.blocks)
  }

  // ----- the tables mirror memory -----

  function RowOf(e: Env, b: BlockRecord): BlockRow {
    BlockRow(Encode(e.encodeHeader, b.header), b.hash, b.txCbor)
  }

  ghost predicate MirrorsBlocks(e: Env, m: Mem, disk: Disk) {
    && |disk.blocks| == |m.blocks|
    && (forall h :: h in disk.blocks <==> 0 <= h < |m.blocks|)
    && (forall h :: 0 <= h < |m.blocks| ==> disk.blocks[h] == RowOf(e, m.blocks[h]))
  }

  ghost predicate MirrorsLeaves(m: Mem, disk: Disk) {
    && (forall h :: h in disk.leaves <==> 0 <= h < |m.leafHashes|)
    && (forall h :: 0 <= h < |m.leafHashes| ==> disk.leaves[h] == m.leafHashes[h])
  }

  ghost predicate MirrorsSets(m: Mem, disk: Disk) {
    && disk.members == m.authority.members && disk.authorized == m.authority.authorized
    && disk.txIds == m.txIds && disk.noteIds == m.noteIds && m.count == |m.txIds|
  }

  ghost predicate MirrorsStream(m: Mem, disk: Disk)
    requires |m.blocks| <= TWO_63
  {
    disk.stream == StreamRow(m.target, m.genesisHash, m.owner, m.ownerEnc, ToInt64(m.authority.keyEpoch), |m.blocks| - 1)
  }

  ghost predicate Mirrored(e: Env, m: Mem, disk: Disk)
    requires Shaped(m) && |m.blocks| <= TWO_63
  {
    MirrorsBlocks(e, m, disk) && MirrorsLeaves(m, disk) && MirrorsSets(m, disk) && MirrorsStream(m, disk)
  }

  /** What holds after every clean step, reorganisations included. */
  ghost predicate Sound(e: Env, m: Mem, disk: Disk, txs: seq<Tx>) {
    Chained(e, m, txs) && |m.blocks| <= TWO_63 && Mirrored(e, m, disk)
  }

  // ----- restart -----

  lemma RowDecodes(e: Env, b: BlockRecord)
    requires e.Codecs()
    ensures Decode(e.decodeHeader, RowOf(e, b).headerCbor) == Some(b.header)
    ensures RowOf(e, b).hash == b.hash && RowOf(e, b).txCbor == b.txCbor
  {
    hide Decode, Encode;
    assert Decode(e.decodeHeader, Encode(e.encodeHeader, b.header)) == Some(b.header);
  }

  /** Rows that hold the blocks decode to them. */
  lemma {:induction false} LoadsBack(e: Env, blocks: seq<BlockRecord>, rows: seq<BlockRow>)
    requires e.Codecs() && |rows| == |blocks|
    requires forall i :: 0 <= i < |rows| ==> rows[i] == RowOf(e, blocks[i])
    ensures LoadBlocks(e, rows) == Some(blocks)
  {
    hide Decode, Encode, RowOf;
    var n := |rows|;
    if n > 0 {
      LoadsBack(e, blocks[..n - 1], rows[..n - 1]);
      RowDecodes(e, blocks[n - 1]);
      assert blocks == blocks[..n - 1] + [blocks[n - 1]];
    }
  }

  lemma {:induction false} LoadsLeavesBack(m: Mem, disk: Disk, n: nat)
    requires MirrorsLeaves(m, disk) && n <= |m.leafHashes|
    ensures LoadLeaves(disk, n) == Some(m.leafHashes[..n])
  {
    if n > 0 {
      LoadsLeavesBack(m, disk, n - 1);
      assert m.leafHashes[..n] == m.leafHashes[..n - 1] + [m.leafHashes[n - 1]];
    }
  }

  /** The tables mirror memory, and its peaks and work are those of its leaves and blocks. */
  ghost predicate Twin(e: Env, m: Mem, disk: Disk) {
    && Shaped(m) && |m.blocks| <= TWO_63 && Mirrored(e, m, disk)
    && m.peaks == Peaks(e.sha, m.leafHashes) && m.chainwork == WorkOf(m.blocks)
  }

  lemma TwinRebuilds(e: Env, m: Mem, disk: Disk)
    requires e.Codecs() && Twin(e, m, disk)
    ensures Rebuild(e, disk) == Some(m)
  {
    hide Peaks, WorkOf, LoadBlocks, LoadLeaves, Encode, Decode, RowsInOrder;
    RowsWithoutGap(disk);
    LoadsBack(e, m.blocks, RowsInOrder(disk));
    LoadsLeavesBack(m, disk, |m.blocks|);
    assert m.leafHashes[..|m.blocks|] == m.leafHashes;
    assert Restored(e, disk, m.blocks, m.leafHashes) == m;
  }

  /** Rebuilding from the tables gives exactly the state in memory. */
  lemma RestartRestores(e: Env, m: Mem, disk: Disk, txs: seq<Tx>)
    requires e.Codecs() && Sound(e, m, disk, txs)
    ensures Rebuild(e, disk) == Some(m)
  {
    hide LinkedBlock, IsLeafOf, Mirrored;
    TwinRebuilds(e, m, disk);
  }

  // ----- the accept step -----

  /** The step from (m, disk) to (m', disk') that records tx in the block rec. */
  ghost predicate Grows(
    e: Env, m: Mem, disk: Disk, m': Mem, disk': Disk, tx: Tx, rec: BlockRecord, leaf: Bytes, o: OpOutcome)
    requires 0 < |m.blocks| < TWO_63
  {
    && EarlyCheck(m, tx) == None
    && o == ApplyOp(e, m.owner, m.ownerEnc, m.authority, tx) && o.Proceed?
    && IsLeafOf(e, leaf, tx)
    && NextBlock(e, m, tx, rec, leaf)
    && m' == Pushed(WithLeaf(e, m.(authority := o.authority), leaf), tx, rec)
    && NoKeyClash(disk, NewDelta(tx, rec, leaf, o.change))
    && disk' == Committed(e, disk, NewDelta(tx, rec, leaf, o.change))
  }

  /** rec is a mined block on top of m. */
  ghost predicate NextBlock(e: Env, m: Mem, tx: Tx, rec: BlockRecord, leaf: Bytes)
    requires 0 < |m.blocks| < TWO_63
  {
    && rec.header.height == |m.blocks|
    && rec.header.prevHash == m.blocks[|m.blocks| - 1].hash
    && rec.header.mmrRoot == Bag(e.sha, Carry(e.sha, m.peaks, leaf, |m.blocks|))
    && rec.header.powTarget == m.target
    && rec.hash == BlockHash(e, rec.header)
    && SatisfiesTarget(e, rec.header)
    && rec.txCbor == Encode(e.encodeTx, tx)
  }

  lemma AcceptGrows(e: Env, m: Mem, disk: Disk, tx: Tx, inputs: Inputs)
    returns (rec: BlockRecord, leaf: Bytes, o: OpOutcome)
    requires 0 < |m.blocks| < TWO_63
    requires TryAccept(e, m, disk, tx, inputs).2.AcceptOk?
    ensures var (m', disk', r) := TryAccept(e, m, disk, tx, inputs);
      Grows(e, m, disk, m', disk', tx, rec, leaf, o) && r == AcceptOk(|m.blocks|)
  {
    o := ApplyOp(e, m.owner, m.ownerEnc, m.authority, tx);
    var a := m.(authority := o.authority);
    leaf := LeafHash(e, TransactionHash(e, tx).value);
    var draft := DraftHeader(a, Bag(e.sha, WithLeaf(e, a, leaf).peaks), inputs.now);
    var nonce := FirstNonce(e, draft, inputs.start).value;
    assert IsFirstNonce(e, draft, inputs.start, nonce);
    rec := MinedBlock(e, tx, draft, nonce);
  }

  /** What the appended block's header says of itself; its nonce is the first from the random start that
      meets the target. */
  lemma AcceptedHeader(e: Env, m: Mem, disk: Disk, tx: Tx, inputs: Inputs)
    requires 0 < |m.blocks| < TWO_63
    requires TryAccept(e, m, disk, tx, inputs).2.AcceptOk?
    ensures var m' := TryAccept(e, m, disk, tx, inputs).0;
      && |m'.blocks| == |m.blocks| + 1
      && var h := m'.blocks[|m.blocks|].header;
         && h.protocolVersion == 1 && h.transactionCount == |m.blocks| + 1 && h.timestamp == inputs.now
         && inputs.start <= h.nonce && SatisfiesTarget(e, h)
         && forall k: UInt64 :: inputs.start <= k < h.nonce ==> !SatisfiesTarget(e, h.(nonce := k))
  {
    hide SatisfiesTarget;
    var o := ApplyOp(e, m.owner, m.ownerEnc, m.authority, tx);
    var a := m.(authority := o.authority);
    var leaf := LeafHash(e, TransactionHash(e, tx).value);
    var draft := DraftHeader(a, Bag(e.sha, WithLeaf(e, a, leaf).peaks), inputs.now);
    var nonce := FirstNonce(e, draft, inputs.start).value;
    assert MinedBlock(e, tx, draft, nonce).header == draft.(nonce := nonce);
    assert IsFirstNonce(e, draft, inputs.start, nonce);
    assert forall k: UInt64 :: draft.(nonce := nonce).(nonce := k) == draft.(nonce := k);
  }

  lemma GrowsKeepsChained(
    e: Env, m: Mem, disk: Disk, m': Mem, disk': Disk, txs: seq<Tx>, tx: Tx, rec: BlockRecord, leaf: Bytes, o: OpOutcome)
    requires Chained(e, m, txs) && |m.blocks| < TWO_63
    requires Grows(e, m, disk, m', disk', tx, rec, leaf, o)
    ensures Chained(e, m', txs + [tx])
  {
    hide ApplyOp, EarlyCheck, NoKeyClash, Committed, SatisfiesTarget, BlockHash, Carry, Peaks, IsLeafOf;
    var n := |m.blocks|;
    CarryAppends(e.sha, m.leafHashes, leaf);
    forall i | 0 < i < n + 1
      ensures LinkedBlock(e, m', i)
    {
      if i < n {
        assert LinkedBlock(e, m, i);
        assert m'.leafHashes[..i + 1] == m.leafHashes[..i + 1];
      } else {
        assert m'.leafHashes[..n + 1] == m.leafHashes + [leaf];
      }
    }
    assert m'.blocks[..n] == m.blocks;
  }

  /** The rows a change deletes, then inserts, leave the tables with the authority in memory. */
  lemma ChangeIsExact(e: Env, owner: Bytes, ownerEnc: Bytes, a: Authority, tx: Tx)
    requires ApplyOp(e, owner, ownerEnc, a, tx).Proceed?
    ensures var o := ApplyOp(e, owner, ownerEnc, a, tx);
      && o.authority.members == (match o.change.newMember case Some(r) => a.members[r.0 := r.1] case None => a.members)
      && o.authority.authorized == a.authorized - Elements(o.change.delAuth) + Elements(o.change.addAuth)
      && o.authority.keyEpoch == (match o.change.newEpoch case Some(n) => n case None => a.keyEpoch)
  {
    assert forall s: seq<Bytes> :: s == [] ==> Elements(s) == {};
    assert forall x: Bytes :: Elements([x]) == {x};
  }

  lemma BlocksGrow(e: Env, m: Mem, disk: Disk, m': Mem, disk': Disk, rec: BlockRecord)
    requires MirrorsBlocks(e, m, disk)
    requires m'.blocks == m.blocks + [rec] && disk'.blocks == disk.blocks[|m.blocks| := RowOf(e, rec)]
    ensures MirrorsBlocks(e, m', disk')
  {
  }

  lemma LeavesGrow(m: Mem, disk: Disk, m': Mem, disk': Disk, leaf: Bytes)
    requires MirrorsLeaves(m, disk)
    requires m'.leafHashes == m.leafHashes + [leaf] && disk'.leaves == disk.leaves[|m.leafHashes| := leaf]
    ensures MirrorsLeaves(m', disk')
  {
  }

  lemma SetsGrow(e: Env, m: Mem, disk: Disk, m': Mem, disk': Disk, tx: Tx, rec: BlockRecord, leaf: Bytes, o: OpOutcome)
    requires 0 < |m.blocks| < TWO_63 && Grows(e, m, disk, m', disk', tx, rec, leaf, o)
    requires MirrorsSets(m, disk) && MirrorsStream(m, disk)
    ensures MirrorsSets(m', disk') && MirrorsStream(m', disk')
  {
    ChangeIsExact(e, m.owner, m.ownerEnc, m.authority, tx);
  }

  lemma GrowsKeepsMirrored(
    e: Env, m: Mem, disk: Disk, m': Mem, disk': Disk, tx: Tx, rec: BlockRecord, leaf: Bytes, o: OpOutcome)
    requires Shaped(m) && |m.blocks| < TWO_63 && Mirrored(e, m, disk)
    requires Grows(e, m, disk, m', disk', tx, rec, leaf, o)
    ensures Shaped(m') && |m'.blocks| <= TWO_63 && Mirrored(e, m', disk')
  {
    BlocksGrow(e, m, disk, m', disk', rec);
    LeavesGrow(m, disk, m', disk', leaf);
    SetsGrow(e, m, disk, m', disk', tx, rec, leaf, o);
  }

  /** A successful accept keeps the chain sound. */
  lemma AcceptKeepsSound(e: Env, m: Mem, disk: Disk, txs: seq<Tx>, tx: Tx, inputs: Inputs)
    requires Sound(e, m, disk, txs) && |m.blocks| < TWO_63
    requires TryAccept(e, m, disk, tx, inputs).2.AcceptOk?
    ensures var (m', disk', _) := TryAccept(e, m, disk, tx, inputs);
      Sound(e, m', disk', txs + [tx]) && m'.chainwork >= m.chainwork && m'.genesisHash == m.genesisHash
  {
    var (m', disk', _) := TryAccept(e, m, disk, tx, inputs);
    var rec, leaf, o := AcceptGrows(e, m, disk, tx, inputs);
    GrowsKeepsChained(e, m, disk, m', disk', txs, tx, rec, leaf, o);
    GrowsKeepsMirrored(e, m, disk, m', disk', tx, rec, leaf, o);
  }

  // ----- when it succeeds, and what a rejection leaves behind -----

  /** The header tryAccept mines for tx on top of m. */
  function NextDraft(e: Env, m: Mem, leaf: Bytes, now: UInt64): Header
    requires 0 < |m.blocks| < TWO_63
  {
    DraftHeader(m, Bag(e.sha, WithLeaf(e, m, leaf).peaks), now)
  }

  ghost predicate Minable(e: Env, m: Mem, tx: Tx, inputs: Inputs)
    requires 0 < |m.blocks| < TWO_63
  {
    && TransactionHash(e, tx).Some?
    && var draft := NextDraft(e, m, LeafHash(e, TransactionHash(e, tx).value), inputs.now);
      exists n: UInt64 :: inputs.start <= n && SatisfiesTarget(e, draft.(nonce := n))
  }

  /** A member_add names a device that is not enrolled yet. */
  predicate FreshDevice(m: Mem, o: OpOutcome) {
    o.Proceed? && o.change.newMember.Some? ==> o.change.newMember.value.0 !in m.authority.members
  }

  lemma MinableExactly(e: Env, m: Mem, tx: Tx, inputs: Inputs)
    requires 0 < |m.blocks| < TWO_63 && TransactionHash(e, tx).Some?
    ensures var leaf := LeafHash(e, TransactionHash(e, tx).value);
      FirstNonce(e, NextDraft(e, m, leaf, inputs.now), inputs.start).Some? <==> Minable(e, m, tx, inputs)
  {
    var draft := NextDraft(e, m, LeafHash(e, TransactionHash(e, tx).value), inputs.now);
    if n: UInt64 :| inputs.start <= n && SatisfiesTarget(e, draft.(nonce := n)) {
      SomeFirstNonce(e, draft, inputs.start, n);
    }
  }

  /** The guards leave one primary key to collide on: the device of a member_add. */
  lemma OnlyDeviceCanClash(e: Env, m: Mem, disk: Disk, tx: Tx, rec: BlockRecord, leaf: Bytes, o: OpOutcome)
    requires Shaped(m) && |m.blocks| <= TWO_63 && Mirrored(e, m, disk)
    requires EarlyCheck(m, tx) == None && o.Proceed? && rec.header.height == |m.blocks|
    ensures NoKeyClash(disk, NewDelta(tx, rec, leaf, o.change)) <==> FreshDevice(m, o)
  {
  }

  /** tryAccept succeeds exactly when the guards pass, the operation goes through, the transaction
      encodes, a nonce exists, the database commits, and an enrolled device is new. */
  lemma AcceptsExactly(e: Env, m: Mem, disk: Disk, txs: seq<Tx>, tx: Tx, inputs: Inputs)
    requires Sound(e, m, disk, txs) && |m.blocks| < TWO_63
    ensures var o := ApplyOp(e, m.owner, m.ownerEnc, m.authority, tx);
      TryAccept(e, m, disk, tx, inputs).2.AcceptOk? <==>
        EarlyCheck(m, tx) == None && o.Proceed? && Minable(e, m, tx, inputs) && inputs.ioOk && FreshDevice(m, o)
  {
    var o := ApplyOp(e, m.owner, m.ownerEnc, m.authority, tx);
    var txHash := TransactionHash(e, tx);
    if EarlyCheck(m, tx) == None && o.Proceed? && txHash.Some? {
      var a, leaf := m.(authority := o.authority), LeafHash(e, txHash.value);
      MinableExactly(e, m, tx, inputs);
      var draft := NextDraft(e, m, leaf, inputs.now);
      assert NextDraft(e, a, leaf, inputs.now) == draft;
      if FirstNonce(e, draft, inputs.start).Some? {
        OnlyDeviceCanClash(e, m, disk, tx, MinedBlock(e, tx, draft, FirstNonce(e, draft, inputs.start).value), leaf, o);
      }
    }
  }

  /** A rejection leaves everything as it was exactly when it comes before the block is begun and
      the operation did not touch the authority. */
  lemma RejectionChangesNothingExactly(e: Env, m: Mem, disk: Disk, tx: Tx, inputs: Inputs)
    requires 0 < |m.blocks| < TWO_63
    requires !TryAccept(e, m, disk, tx, inputs).2.AcceptOk?
    ensures var (m', disk', r) := TryAccept(e, m, disk, tx, inputs);
      var o := ApplyOp(e, m.owner, m.ownerEnc, m.authority, tx);
      && disk' == disk
      && (m' == m <==>
            EarlyCheck(m, tx).Some? || (o.authority == m.authority && (o.Refuse? || TransactionHash(e, tx) == None)))
  {
  }

  /** A refused operation has changed the authority exactly when it is a rotation bundle that fails
      at one of its grants. */
  lemma RefusalChangesNothingExactly(e: Env, owner: Bytes, ownerEnc: Bytes, a: Authority, tx: Tx)
    requires ApplyOp(e, owner, ownerEnc, a, tx).Refuse?
    ensures ApplyOp(e, owner, ownerEnc, a, tx).authority != a <==>
      && tx.body.opType == KeyRotationBundle && tx.body.author == owner
      && Decode(e.decodeRotation, tx.body.payload).Some?
      && var p := Decode(e.decodeRotation, tx.body.payload).value;
        p.revoked != owner && p.newKeyEpoch > a.keyEpoch
  {
  }

  /** Whatever a rejection left in memory, a restart brings back the state from before the request. */
  lemma RestartUndoesRejection(e: Env, m: Mem, disk: Disk, txs: seq<Tx>, tx: Tx, inputs: Inputs)
    requires e.Codecs() && Sound(e, m, disk, txs) && |m.blocks| < TWO_63
    requires !TryAccept(e, m, disk, tx, inputs).2.AcceptOk?
    ensures var disk' := TryAccept(e, m, disk, tx, inputs).1; Rebuild(e, disk') == Some(m)
  {
    hide TryAccept, ApplyOp, LinkedBlock, IsLeafOf, Mirrored, Rebuild;
    RejectionChangesNothingExactly(e, m, disk, tx, inputs);
    RestartRestores(e, m, disk, txs);
  }

  // ----- the seeded stream -----

  /** The configured genesis block carries a transaction with this hash and this payload. */
  ghost predicate Seedable(e: Env, c: Config, gp: GenesisOp, txHash: Bytes) {
    && TransactionHash(e, c.genesis.tx) == Some(txHash)
    && Decode(e.decodeGenesis, c.genesis.tx.body.payload) == Some(gp)
  }

  lemma SeedChainedExactly(e: Env, c: Config, gp: GenesisOp, txHash: Bytes)
    requires Seedable(e, c, gp, txHash)
    ensures Chained(e, SeedMem(e, c, gp, txHash), [c.genesis.tx])
      <==> BlockWork(c.genesis.header.powTarget) == BlockWork(gp.initialTarget)
  {
    hide BlockWork, PeaksFrom, Carry, ApplyOp, TransactionHash, LeafHash;
    var m := SeedMem(e, c, gp, txHash);
    CarryAppends(e.sha, [], LeafHash(e, txHash));
    EmptyHasNoPeaks(e.sha);
    assert [] + [LeafHash(e, txHash)] == m.leafHashes;
    assert m.blocks[..0] == [];
    assert WorkOf(m.blocks) == BlockWork(c.genesis.header.powTarget);
    assert IsLeafOf(e, m.leafHashes[0], c.genesis.tx);
  }

  lemma SeedMirrored(e: Env, c: Config, gp: GenesisOp, txHash: Bytes)
    requires Seedable(e, c, gp, txHash)
    ensures Mirrored(e, SeedMem(e, c, gp, txHash), SeedDisk(e, c, gp, txHash))
  {
    hide BlockWork, Carry, Sha, TransactionHash;
  }

  /** The seeded stream is sound exactly when the genesis header's declared target is worth as much
      as the initial target in its payload; the server does not check that it is. */
  lemma SeedSoundExactly(e: Env, c: Config, gp: GenesisOp, txHash: Bytes)
    requires Seedable(e, c, gp, txHash)
    ensures Sound(e, SeedMem(e, c, gp, txHash), SeedDisk(e, c, gp, txHash), [c.genesis.tx])
      <==> BlockWork(c.genesis.header.powTarget) == BlockWork(gp.initialTarget)
  {
    hide Chained, Mirrored, BlockWork, Seedable;
    SeedChainedExactly(e, c, gp, txHash);
    SeedMirrored(e, c, gp, txHash);
  }

  // ----- which requests append -----

  /** Every grant of the bundle names an enrolled device or the owner's encryption key. */
  predicate GrantsKnown(members: map<Bytes, MemberRecord>, ownerEnc: Bytes, grants: seq<Grant>) {
    forall i :: 0 <= i < |grants| ==> grants[i].deviceId in members || grants[i].encryption == ownerEnc
  }

  /** The operation is one its author may perform now. */
  predicate Legal(e: Env, owner: Bytes, ownerEnc: Bytes, a: Authority, tx: Tx) {
    match tx.body.opType
    case Create =>
      Decode(e.decodeCreate, tx.body.payload).Some? &&
      Decode(e.decodeCreate, tx.body.payload).value.keyEpoch == a.keyEpoch
    case Genesis | Unknown(_) => false
    case MemberAdd =>
      tx.body.author == owner && Decode(e.decodeMemberAdd, tx.body.payload).Some? &&
      var p := Decode(e.decodeMemberAdd, tx.body.payload).value;
      |p.deviceId| > 0 && |p.signing| == |p.encryption| == 32
    case KeyGrant =>
      tx.body.author == owner && Decode(e.decodeKeyGrant, tx.body.payload).Some? &&
      var p := Decode(e.decodeKeyGrant, tx.body.payload).value;
      |p.deviceId| > 0 && |p.encryption| == 32 && |p.envelope| > 0
    case KeyRotationBundle =>
      tx.body.author == owner && Decode(e.decodeRotation, tx.body.payload).Some? &&
      var p := Decode(e.decodeRotation, tx.body.payload).value;
      p.revoked != owner && p.newKeyEpoch > a.keyEpoch && GrantsKnown(a.members, ownerEnc, p.grants)
  }

  lemma {:induction false} GrantedExactly(members: map<Bytes, MemberRecord>, ownerEnc: Bytes, grants: seq<Grant>)
    ensures Granted(members, ownerEnc, grants).1 <==> GrantsKnown(members, ownerEnc, grants)
  {
    if |grants| > 0 {
      GrantedExactly(members, ownerEnc, grants[1..]);
      assert grants == [grants[0]] + grants[1..];
    }
  }

  lemma ProceedsExactly(e: Env, owner: Bytes, ownerEnc: Bytes, a: Authority, tx: Tx)
    ensures ApplyOp(e, owner, ownerEnc, a, tx).Proceed? <==> Legal(e, owner, ownerEnc, a, tx)
  {
    if tx.body.opType == KeyRotationBundle && Decode(e.decodeRotation, tx.body.payload).Some? {
      GrantedExactly(a.members, ownerEnc, Decode(e.decodeRotation, tx.body.payload).value.grants);
    }
  }

  /** The checks that the stream's past does not affect: id, signature, size and work. */
  predicate SelfProving(e: Env, target: Bytes, tx: Tx) {
    HasId(e, tx) && SignatureVerifies(e, tx) && |tx.body.payload| <= MAX_BODY_BYTES && PowMeets(e, tx, target)
  }

  /** The request proves itself and comes from a key that may write. */
  predicate Genuine(e: Env, m: Mem, tx: Tx) {
    SelfProving(e, m.target, tx) && tx.body.author in m.authority.authorized
  }

  /** Its id, and the note it creates, are new, and it carries the current proof-of-work epoch. */
  predicate Timely(m: Mem, tx: Tx) {
    && tx.id !in m.txIds
    && (tx.body.opType == Create ==> tx.body.noteId !in m.noteIds)
    && tx.powEpoch == m.count / 1000
  }

  /** A posted transaction is appended exactly when it is genuine, timely and legal, a nonce exists,
      the database commits, and an enrolled device is new; a genuine one always encodes. */
  lemma PostAppendsExactly(e: Env, m: Mem, disk: Disk, txs: seq<Tx>, tx: Tx, inputs: Inputs)
    requires Sound(e, m, disk, txs) && |m.blocks| < TWO_63 && m.count < TWO_63
    ensures CheckPost(e, m, tx) == None && TryAccept(e, m, disk, tx, inputs).2.AcceptOk? <==>
      && Genuine(e, m, tx) && Timely(m, tx) && Legal(e, m.owner, m.ownerEnc, m.authority, tx)
      && Minable(e, m, tx, inputs) && inputs.ioOk
      && FreshDevice(m, ApplyOp(e, m.owner, m.ownerEnc, m.authority, tx))
    ensures Genuine(e, m, tx) ==> TransactionHash(e, tx).Some?
  {
    hide ApplyOp, Legal, TryAccept, Sound, Minable;
    AcceptsExactly(e, m, disk, txs, tx, inputs);
    ProceedsExactly(e, m.owner, m.ownerEnc, m.authority, tx);
  }
}
