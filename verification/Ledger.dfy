/**
 One stream of the server ledger: the in-memory state, the table set on disk, and the accept step
 that updates both. The functions give each step's whole outcome, late failures included.
 */
module Ledger {
  import opened Arith
  import opened ByteStrings
  import opened Mmr
  import opened Chainwork
  import opened Wire

  datatype MemberRecord = MemberRecord(signing: Bytes, encryption: Bytes, deviceLabel: string)

  datatype BlockRecord = BlockRecord(header: Header, hash: Bytes, txCbor: Bytes)

  /** Who may write, and under which key epoch. */
  datatype Authority = Authority(members: map<Bytes, MemberRecord>, authorized: set<Bytes>, keyEpoch: UInt64)

  /** The fields of streamState. */
  datatype Mem = Mem(
    target: Bytes, genesisHash: Bytes, owner: Bytes, ownerEnc: Bytes,
    txIds: set<Bytes>, noteIds: set<Bytes>, count: nat,
    blocks: seq<BlockRecord>, peaks: seq<Bytes>, leafHashes: seq<Bytes>, chainwork: nat,
    authority: Authority)

  // ----- the tables -----

  datatype StreamRow = StreamRow(
    target: Bytes, genesisHash: Bytes, owner: Bytes, ownerEnc: Bytes, keyEpoch: Int64, height: Int64)

  datatype BlockRow = BlockRow(headerCbor: Bytes, hash: Bytes, txCbor: Bytes)

  /** One stream's rows, each table keyed by the rest of its primary key. */
  datatype Disk = Disk(
    stream: StreamRow, blocks: map<int, BlockRow>, leaves: map<int, Bytes>,
    members: map<Bytes, MemberRecord>, authorized: set<Bytes>, txIds: set<Bytes>, noteIds: set<Bytes>)

  /** The writes of one accepted block. */
  datatype Delta = Delta(
    newBlock: BlockRecord, leafHash: Bytes, txId: Bytes, noteId: Option<Bytes>, change: AuthorityChange)

  datatype AuthorityChange = AuthorityChange(
    newMember: Option<(Bytes, MemberRecord)>, delAuth: seq<Bytes>, addAuth: seq<Bytes>, newEpoch: Option<UInt64>)

  const NO_CHANGE: AuthorityChange := AuthorityChange(None, [], [], None)

  function Elements(s: seq<Bytes>): set<Bytes> {
    set x | x in s
  }

  /** No INSERT of the delta meets an existing primary key. */
  predicate NoKeyClash(disk: Disk, d: Delta) {
    && d.newBlock.header.height !in disk.blocks
    && d.newBlock.header.height !in disk.leaves
    && d.txId !in disk.txIds
    && (d.noteId.Some? ==> d.noteId.value !in disk.noteIds)
    && (d.change.newMember.Some? ==> d.change.newMember.value.0 !in disk.members)
  }

  /** The tables after the delta commits. */
  function Committed(e: Env, disk: Disk, d: Delta): Disk {
    var h := d.newBlock.header.height;
    Disk(
      disk.stream.(
        keyEpoch := if d.change.newEpoch.Some? then ToInt64(d.change.newEpoch.value) else disk.stream.keyEpoch,
        height := ToInt64(h)),
      disk.blocks[h := BlockRow(Encode(e.encodeHeader, d.newBlock.header), d.newBlock.hash, d.newBlock.txCbor)],
      disk.leaves[h := d.leafHash],
      (match d.change.newMember case Some(m) => disk.members[m.0 := m.1] case None => disk.members),
      disk.authorized - Elements(d.change.delAuth) + Elements(d.change.addAuth),
      disk.txIds + {d.txId},
      (match d.noteId case Some(n) => disk.noteIds + {n} case None => disk.noteIds))
  }

  // ----- one operation -----

  datatype Code =
    InvalidTransactionCode | UnauthorizedKey | StalePowEpoch | Internal | DuplicateNoteId | PayloadTooLarge

  datatype AcceptResult = AcceptOk(height: nat) | DuplicateTx | DuplicateNote | Rejected(code: Code)

  /** The signing keys granted before the first grant to an unknown device, and whether there is none. */
  function Granted(members: map<Bytes, MemberRecord>, ownerEnc: Bytes, grants: seq<Grant>): (seq<Bytes>, bool) {
    if |grants| == 0 then ([], true)
    else
      var g := grants[0];
      if g.deviceId !in members && g.encryption != ownerEnc then ([], false)
      else
        var rest := Granted(members, ownerEnc, grants[1..]);
        if g.deviceId in members then ([members[g.deviceId].signing] + rest.0, rest.1) else rest
  }

  /** What an operation does to the authority before the block is built: a rejection may leave it
      changed, when a rotation bundle fails at a later grant. */
  datatype OpOutcome = Refuse(authority: Authority, code: Code) | Proceed(authority: Authority, change: AuthorityChange)

  function ApplyOp(e: Env, owner: Bytes, ownerEnc: Bytes, a: Authority, tx: Tx): OpOutcome {
    match tx.body.opType
    case Create =>
      (match Decode(e.decodeCreate, tx.body.payload)
       case None => Refuse(a, InvalidTransactionCode)
       case Some(p) =>
         if p.keyEpoch != a.keyEpoch then Refuse(a, InvalidTransactionCode) else Proceed(a, NO_CHANGE))
    case MemberAdd =>
      if tx.body.author != owner then Refuse(a, UnauthorizedKey)
      else
        (match Decode(e.decodeMemberAdd, tx.body.payload)
         case None => Refuse(a, InvalidTransactionCode)
         case Some(p) =>
           if |p.deviceId| == 0 || |p.signing| != 32 || |p.encryption| != 32 then Refuse(a, InvalidTransactionCode)
           else
             var rec := MemberRecord(p.signing, p.encryption, p.deviceLabel);
             Proceed(a.(members := a.members[p.deviceId := rec], authorized := a.authorized + {p.signing}),
                     AuthorityChange(Some((p.deviceId, rec)), [], [p.signing], None)))
    case KeyGrant =>
      if tx.body.author != owner then Refuse(a, UnauthorizedKey)
      else
        (match Decode(e.decodeKeyGrant, tx.body.payload)
         case None => Refuse(a, InvalidTransactionCode)
         case Some(p) =>
           if |p.deviceId| == 0 || |p.encryption| != 32 || |p.envelope| == 0 then Refuse(a, InvalidTransactionCode)
           else Proceed(a, NO_CHANGE))
    case KeyRotationBundle =>
      if tx.body.author != owner then Refuse(a, UnauthorizedKey)
      else
        (match Decode(e.decodeRotation, tx.body.payload)
         case None => Refuse(a, InvalidTransactionCode)
         case Some(p) =>
           if p.revoked == owner || p.newKeyEpoch <= a.keyEpoch then Refuse(a, InvalidTransactionCode)
           else
             var (added, ok) := Granted(a.members, ownerEnc, p.grants);
             var b := a.(authorized := a.authorized - {p.revoked} + Elements(added), keyEpoch := p.newKeyEpoch);
             if ok then Proceed(b, AuthorityChange(None, [p.revoked], added, Some(p.newKeyEpoch)))
             else Refuse(b, InvalidTransactionCode))
    case Genesis => Refuse(a, InvalidTransactionCode)
    case Unknown(_) => Refuse(a, InvalidTransactionCode)
  }

  // ----- the accept step -----

  /** The checks under the lock that come before anything is changed. */
  function EarlyCheck(m: Mem, tx: Tx): Option<AcceptResult> {
    if tx.id in m.txIds then Some(DuplicateTx)
    else if tx.body.opType == Create && tx.body.noteId in m.noteIds then Some(DuplicateNote)
    else if ToInt64(tx.powEpoch) != m.count / 1000 then Some(Rejected(StalePowEpoch))
    else None
  }

  /** The environment of one accept: the clock, the random mining start, and whether the database
      transaction goes through. */
  datatype Inputs = Inputs(now: UInt64, start: UInt64, ioOk: bool)

  /** The header to mine. */
  function DraftHeader(m: Mem, root: Bytes, now: UInt64): Header
    requires 0 < |m.blocks| < TWO_63
  {
    Header(1, |m.blocks|, m.blocks[|m.blocks| - 1].hash, |m.blocks| + 1, root, now, 0, m.target)
  }

  /** Memory after the leaf is added to the accumulator. */
  function WithLeaf(e: Env, m: Mem, leaf: Bytes): Mem {
    m.(peaks := Carry(e.sha, m.peaks, leaf, |m.blocks|), leafHashes := m.leafHashes + [leaf])
  }

  /** Memory after the mined block is recorded. */
  function Pushed(m: Mem, tx: Tx, rec: BlockRecord): Mem {
    m.(blocks := m.blocks + [rec],
       txIds := m.txIds + {tx.id},
       noteIds := if tx.body.opType == Create then m.noteIds + {tx.body.noteId} else m.noteIds,
       count := m.count + 1,
       chainwork := m.chainwork + BlockWork(rec.header.powTarget))
  }

  function NewDelta(tx: Tx, rec: BlockRecord, leaf: Bytes, change: AuthorityChange): Delta {
    Delta(rec, leaf, tx.id, if tx.body.opType == Create then Some(tx.body.noteId) else None, change)
  }

  /** Record the block in memory, then commit its rows. */
  function StoreBlock(e: Env, m: Mem, disk: Disk, tx: Tx, d: Delta, ioOk: bool): (Mem, Disk, AcceptResult) {
    var after := Pushed(m, tx, d.newBlock);
    if ioOk && NoKeyClash(disk, d) then (after, Committed(e, disk, d), AcceptOk(d.newBlock.header.height))
    else (after, disk, Rejected(Internal))
  }

  function MinedBlock(e: Env, tx: Tx, draft: Header, nonce: UInt64): BlockRecord {
    var header := draft.(nonce := nonce);
    BlockRecord(header, BlockHash(e, header), Encode(e.encodeTx, tx))
  }

  /** Build, mine and persist the block, once the operation went through. */
  ghost function AppendBlock(e: Env, m: Mem, disk: Disk, tx: Tx, change: AuthorityChange, inputs: Inputs)
    : (Mem, Disk, AcceptResult)
    requires 0 < |m.blocks| < TWO_63
  {
    var txHash := TransactionHash(e, tx);
    if txHash == None then (m, disk, Rejected(InvalidTransactionCode))
    else
      var leaf := LeafHash(e, txHash.value);
      var m' := WithLeaf(e, m, leaf);
      var draft := DraftHeader(m, Bag(e.sha, m'.peaks), inputs.now);
      match FirstNonce(e, draft, inputs.start)
      case None => (m', disk, Rejected(Internal))
      case Some(nonce) =>
        StoreBlock(e, m', disk, tx, NewDelta(tx, MinedBlock(e, tx, draft, nonce), leaf, change), inputs.ioOk)
  }

  ghost function TryAccept(e: Env, m: Mem, disk: Disk, tx: Tx, inputs: Inputs): (Mem, Disk, AcceptResult)
    requires 0 < |m.blocks| < TWO_63
  {
    match EarlyCheck(m, tx)
    case Some(r) => (m, disk, r)
    case None =>
      match ApplyOp(e, m.owner, m.ownerEnc, m.authority, tx)
      case Refuse(a, code) => (m.(authority := a), disk, Rejected(code))
      case Proceed(a, change) => AppendBlock(e, m.(authority := a), disk, tx, change, inputs)
  }

  // ----- the request handler -----

  const MAX_BODY_BYTES: int := 0x10_0000

  /** The transaction's own proof of work against a 32-byte target. */
  predicate PowMeets(e: Env, tx: Tx, target: Bytes) {
    |target| == 32 && (tx, target) in e.powOk
  }

  /** The handler's checks before tryAccept, in order; None when all pass. */
  function CheckPost(e: Env, m: Mem, tx: Tx): Option<Code> {
    if TransactionId(e, tx.body) != Some(tx.id) then Some(InvalidTransactionCode)
    else if !SignatureVerifies(e, tx) then Some(InvalidTransactionCode)
    else if |tx.body.payload| > MAX_BODY_BYTES then Some(PayloadTooLarge)
    else if tx.body.author !in m.authority.authorized then Some(UnauthorizedKey)
    else if !PowMeets(e, tx, m.target) then Some(InvalidTransactionCode)
    else None
  }

  datatype Reply = Receipt(sequence: nat) | Error(status: nat, code: Code)

  function StatusOf(code: Code): nat {
    match code
    case UnauthorizedKey => 403
    case StalePowEpoch | DuplicateNoteId => 409
    case PayloadTooLarge => 413
    case _ => 422
  }

  function ReplyOf(m: Mem, r: AcceptResult): Reply {
    match r
    case DuplicateTx | AcceptOk(_) => Receipt(|m.txIds|)
    case DuplicateNote => Error(409, DuplicateNoteId)
    case Rejected(code) => Error(StatusOf(code), code)
  }

  /** One request handled without another in between. */
  ghost function HandlePost(e: Env, m: Mem, disk: Disk, tx: Tx, inputs: Inputs): (Mem, Disk, Reply)
    requires 0 < |m.blocks| < TWO_63
  {
    match CheckPost(e, m, tx)
    case Some(code) => (m, disk, Error(StatusOf(code), code))
    case None =>
      var (m', disk', r) := TryAccept(e, m, disk, tx, inputs);
      (m', disk', ReplyOf(m', r))
  }

  // ----- seed and restart -----

  /** The configured genesis block and keys. */
  datatype Config = Config(genesis: Block, authorizedKeys: seq<Bytes>)

  function SeedMem(e: Env, c: Config, gp: GenesisOp, txHash: Bytes): (m: Mem)
    ensures forall key :: key in m.authority.authorized <==> key == c.genesis.tx.body.author || key in c.authorizedKeys
  {
    var owner := c.genesis.tx.body.author;
    var leaf := LeafHash(e, txHash);
    Mem(gp.initialTarget, c.genesis.hash, owner, gp.ownerEncryption, {}, {}, 0,
        [BlockRecord(c.genesis.header, c.genesis.hash, Encode(e.encodeTx, c.genesis.tx))],
        Carry(e.sha, [], leaf, 0), [leaf], BlockWork(gp.initialTarget),
        Authority(map[], {owner} + Elements(c.authorizedKeys), gp.initialKeyEpoch))
  }

  function SeedDisk(e: Env, c: Config, gp: GenesisOp, txHash: Bytes): Disk {
    var owner := c.genesis.tx.body.author;
    Disk(StreamRow(gp.initialTarget, c.genesis.hash, owner, gp.ownerEncryption, ToInt64(gp.initialKeyEpoch), 0),
         map[0 := BlockRow(Encode(e.encodeHeader, c.genesis.header), c.genesis.hash, Encode(e.encodeTx, c.genesis.tx))],
         map[0 := LeafHash(e, txHash)],
         map[], {owner} + Elements(c.authorizedKeys), {}, {})
  }

  function WorkOf(blocks: seq<BlockRecord>): nat {
    if |blocks| == 0 then 0 else WorkOf(blocks[..|blocks| - 1]) + BlockWork(blocks[|blocks| - 1].header.powTarget)
  }

  // ----- rows in height order -----

  /** hs lists the keys in increasing order. */
  ghost predicate IsHeightOrder(hs: seq<int>, keys: set<int>) {
    && (forall i, j :: 0 <= i < j < |hs| ==> hs[i] < hs[j])
    && (forall h :: h in keys <==> h in hs)
  }

  predicate IsGreatest(top: int, keys: set<int>) {
    top in keys && forall h :: h in keys ==> h <= top
  }

  lemma SomeKey(keys: set<int>)
    requires keys != {}
    ensures exists h :: h in keys
  {
    assert (forall h :: h !in keys) ==> keys == {};
  }

  lemma {:induction false} SomeGreatest(keys: set<int>)
    requires keys != {}
    ensures exists top :: IsGreatest(top, keys)
  {
    SomeKey(keys);
    var x :| x in keys;
    if keys == {x} {
      assert IsGreatest(x, keys);
    } else {
      SomeGreatest(keys - {x});
      var top :| IsGreatest(top, keys - {x});
      var best := if x > top then x else top;
      forall h | h in keys
        ensures h <= best
      {
        assert h != x ==> h in keys - {x};
      }
      assert IsGreatest(best, keys);
    }
  }

  ghost function HeightOrder(keys: set<int>): (hs: seq<int>)
    ensures IsHeightOrder(hs, keys) && |hs| == |keys|
  {
    if keys == {} then []
    else
      SomeGreatest(keys);
      var top :| IsGreatest(top, keys);
      HeightOrder(keys - {top}) + [top]
  }

  lemma FrontOrder(hs: seq<int>, keys: set<int>)
    requires IsHeightOrder(hs, keys) && |hs| > 0
    ensures IsHeightOrder(hs[..|hs| - 1], keys - {hs[|hs| - 1]})
  {
    var front, top := hs[..|hs| - 1], hs[|hs| - 1];
    assert hs == front + [top];
    forall h
      ensures h in keys - {top} <==> h in front
    {
      assert h in keys <==> h in hs;
    }
  }

  lemma {:induction false} HeightOrderIsUnique(hs: seq<int>, js: seq<int>, keys: set<int>)
    requires IsHeightOrder(hs, keys) && IsHeightOrder(js, keys)
    ensures hs == js
    decreases |hs|
  {
    assert |hs| > 0 ==> hs[|hs| - 1] in hs;
    assert |js| > 0 ==> js[|js| - 1] in js;
    if |hs| > 0 && |js| > 0 {
      var top := hs[|hs| - 1];
      assert top == js[|js| - 1];
      FrontOrder(hs, keys);
      FrontOrder(js, keys);
      HeightOrderIsUnique(hs[..|hs| - 1], js[..|js| - 1], keys - {top});
      assert hs == hs[..|hs| - 1] + [top] && js == js[..|js| - 1] + [top];
    }
  }

  /** The block rows as ORDER BY height reads them. */
  ghost function RowsInOrder(disk: Disk): (rows: seq<BlockRow>)
    ensures |rows| == |disk.blocks|
  {
    var hs := HeightOrder(disk.blocks.Keys);
    seq(|hs|, i requires 0 <= i < |hs| => assert hs[i] in hs; disk.blocks[hs[i]])
  }

  /** The blocks of the rows; None if one does not decode. */
  function LoadBlocks(e: Env, rows: seq<BlockRow>): Option<seq<BlockRecord>> {
    if |rows| == 0 then Some([])
    else
      var below := LoadBlocks(e, rows[..|rows| - 1]);
      var row := rows[|rows| - 1];
      match Decode(e.decodeHeader, row.headerCbor)
      case None => None
      case Some(h) =>
        if below == None then None else Some(below.value + [BlockRecord(h, row.hash, row.txCbor)])
  }

  /** The leaves at positions 0 to n - 1; None if one is missing. */
  function LoadLeaves(disk: Disk, n: nat): Option<seq<Bytes>> {
    if n == 0 then Some([])
    else
      var below := LoadLeaves(disk, n - 1);
      if below == None || n - 1 !in disk.leaves then None else Some(below.value + [disk.leaves[n - 1]])
  }

  /** The state rebuildStream makes of the loaded blocks and leaves and of the other tables; peaks
      and work are recomputed. */
  function Restored(e: Env, disk: Disk, blocks: seq<BlockRecord>, leaves: seq<Bytes>): Mem {
    var row := disk.stream;
    Mem(row.target, row.genesisHash, row.owner, row.ownerEnc, disk.txIds, disk.noteIds, |disk.txIds|,
        blocks, Peaks(e.sha, leaves), leaves, WorkOf(blocks),
        Authority(disk.members, disk.authorized, ToUInt64(row.keyEpoch)))
  }

  /** One leaf is read for each block row, by its place in the order. */
  ghost function Rebuild(e: Env, disk: Disk): Option<Mem> {
    var blocks, leaves := LoadBlocks(e, RowsInOrder(disk)), LoadLeaves(disk, |disk.blocks|);
    if blocks == None || leaves == None then None else Some(Restored(e, disk, blocks.value, leaves.value))
  }

  lemma {:induction false} LeafMissing(disk: Disk, pos: nat, n: nat)
    requires pos < n && pos !in disk.leaves
    ensures LoadLeaves(disk, n) == None
    decreases n
  {
    if n > pos + 1 {
      LeafMissing(disk, pos, n - 1);
    }
  }

  /** Rows at heights 0, 1, 2, ... come in that order. */
  lemma RowsWithoutGap(disk: Disk)
    requires forall h :: h in disk.blocks <==> 0 <= h < |disk.blocks|
    ensures forall h :: 0 <= h < |disk.blocks| ==> RowsInOrder(disk)[h] == disk.blocks[h]
  {
    var n, keys := |disk.blocks|, disk.blocks.Keys;
    var hs: seq<int> := seq(n, i => i);
    forall h
      ensures h in keys <==> h in hs
    {
      assert 0 <= h < n ==> hs[h] == h;
    }
    HeightOrderIsUnique(hs, HeightOrder(keys), keys);
  }
}
