/** The ledger's stream as the server keeps it: fields updated in place beside a transactional disk. */
module LedgerService {
  import opened Arith
  import opened ByteStrings
  import opened Mmr
  import opened InclusionProofs
  import opened Chainwork
  import opened Wire
  import opened Ledger
  import opened Peer
  import opened Paging

  class LedgerStream {
    const e: Env
    var target: Bytes
    var genesisHash: Bytes
    var owner: Bytes
    var ownerEnc: Bytes
    var authorized: set<Bytes>
    var txIds: set<Bytes>
    var noteIds: set<Bytes>
    var count: nat
    var blocks: seq<BlockRecord>
    var peaks: seq<Bytes>
    var leafHashes: seq<Bytes>
    var chainwork: nat
    var members: map<Bytes, MemberRecord>
    var currentKeyEpoch: UInt64
    var disk: Disk

    function View(): Mem
      reads this
    {
      Mem(target, genesisHash, owner, ownerEnc, txIds, noteIds, count, blocks, peaks, leafHashes, chainwork,
          Authority(members, authorized, currentKeyEpoch))
    }

    /** seedStream on an empty data directory. */
    constructor Seed(e: Env, c: Config, gp: GenesisOp, txHash: Bytes)
      requires TransactionHash(e, c.genesis.tx) == Some(txHash)
      requires Decode(e.decodeGenesis, c.genesis.tx.body.payload) == Some(gp)
      ensures this.e == e && View() == SeedMem(e, c, gp, txHash) && disk == SeedDisk(e, c, gp, txHash)
    {
      var leaf := LeafHash(e, txHash);
      this.e := e;
      target, genesisHash := gp.initialTarget, c.genesis.hash;
      owner, ownerEnc := c.genesis.tx.body.author, gp.ownerEncryption;
      authorized := {c.genesis.tx.body.author} + Elements(c.authorizedKeys);
      txIds, noteIds, count := {}, {}, 0;
      blocks := [BlockRecord(c.genesis.header, c.genesis.hash, Encode(e.encodeTx, c.genesis.tx))];
      leafHashes := [leaf];
      chainwork := BlockWork(gp.initialTarget);
      members, currentKeyEpoch := map[], gp.initialKeyEpoch;
      disk := SeedDisk(e, c, gp, txHash);
      new;
      peaks := AddLeaf(e.sha, [], leaf, 0);
    }

    /** rebuildStream: read everything back from the tables, replaying leaves for the peaks and
        declared targets for the work. */
    method Restart() returns (ok: bool)
      requires |disk.blocks| < TWO_63
      modifies this
      ensures disk == old(disk)
      ensures ok <==> Rebuild(e, disk).Some?
      ensures ok ==> View() == Rebuild(e, disk).value
      ensures !ok ==> View() == old(View())
    {
      var d := disk;
      var newBlocks, newLeaves, newPeaks, loaded := LoadChain(e, d);
      if !loaded {
        return false;
      }
      var cw := TotalWork(newBlocks);
      Install(Mem(d.stream.target, d.stream.genesisHash, d.stream.owner, d.stream.ownerEnc, d.txIds, d.noteIds, |d.txIds|,
                  newBlocks, newPeaks, newLeaves, cw,
                  Authority(d.members, d.authorized, ToUInt64(d.stream.keyEpoch))));
      ok := true;
    }

    /** Replace the in-memory state. */
    method Install(m: Mem)
      modifies this
      ensures View() == m && disk == old(disk)
    {
      InstallChain(m.blocks, m.leafHashes, m.peaks, m.chainwork);
      target, genesisHash, owner, ownerEnc := m.target, m.genesisHash, m.owner, m.ownerEnc;
      members, authorized, currentKeyEpoch := m.authority.members, m.authority.authorized, m.authority.keyEpoch;
      txIds, noteIds, count := m.txIds, m.noteIds, m.count;
    }

    method InstallChain(newBlocks: seq<BlockRecord>, newLeaves: seq<Bytes>, newPeaks: seq<Bytes>, work: nat)
      modifies this`blocks, this`leafHashes, this`peaks, this`chainwork
      ensures blocks == newBlocks && leafHashes == newLeaves && peaks == newPeaks && chainwork == work
    {
      blocks, leafHashes, peaks, chainwork := newBlocks, newLeaves, newPeaks, work;
    }

    /** ORDER BY height. */
    static method SortedHeights(rows: map<int, BlockRow>) returns (hs: seq<int>)
      ensures hs == HeightOrder(rows.Keys)
    {
      hs := [];
      var left := rows.Keys;
      while left != {}
        invariant left <= rows.Keys && IsHeightOrder(hs, rows.Keys - left)
        decreases left
      {
        SomeKey(left);
        var h :| h in left;
        InsertKeepsOrder(hs, rows.Keys - left, h);
        hs := InsertHeight(hs, h);
        left := left - {h};
        assert rows.Keys - left == rows.Keys - (left + {h}) + {h};
      }
      assert rows.Keys - left == rows.Keys;
      HeightOrderIsUnique(hs, HeightOrder(rows.Keys), rows.Keys);
    }

    /** The loop over the block rows in height order, with one leaf read for each by its place. */
    static method LoadChain(e: Env, disk: Disk)
      returns (blocks: seq<BlockRecord>, leaves: seq<Bytes>, peaks: seq<Bytes>, ok: bool)
      requires |disk.blocks| < TWO_63
      ensures var rows, n := RowsInOrder(disk), |disk.blocks|;
        if ok then
          LoadBlocks(e, rows) == Some(blocks) && LoadLeaves(disk, n) == Some(leaves) && peaks == Peaks(e.sha, leaves)
        else LoadBlocks(e, rows) == None || LoadLeaves(disk, n) == None
    {
      hide Peaks, Decode, RowsInOrder, HeightOrder, IsHeightOrder;
      var hs := SortedHeights(disk.blocks);
      EmptyHasNoPeaks(e.sha);
      blocks, leaves, peaks := [], [], [];
      ghost var rows := RowsInOrder(disk);
      for pos := 0 to |hs|
        invariant LoadBlocks(e, rows[..pos]) == Some(blocks) && LoadLeaves(disk, pos) == Some(leaves)
        invariant |leaves| == pos && peaks == Peaks(e.sha, leaves)
      {
        RowAt(disk, pos);
        var row := disk.blocks[hs[pos]];
        assert rows[..pos + 1][..pos] == rows[..pos] && rows[pos] == row;
        var hdr := Decode(e.decodeHeader, row.headerCbor);
        if hdr == None || pos !in disk.leaves {
          LoadFails(e, disk, pos);
          return blocks, leaves, peaks, false;
        }
        blocks := blocks + [BlockRecord(hdr.value, row.hash, row.txCbor)];
        CarryAppends(e.sha, leaves, disk.leaves[pos]);
        peaks := AddLeaf(e.sha, peaks, disk.leaves[pos], pos);
        leaves := leaves + [disk.leaves[pos]];
      }
      assert rows[..|hs|] == rows;
      ok := true;
    }

    static method TotalWork(blocks: seq<BlockRecord>) returns (cw: nat)
      ensures cw == WorkOf(blocks)
    {
      cw := 0;
      for i := 0 to |blocks|
        invariant cw == WorkOf(blocks[..i])
      {
        assert blocks[..i + 1][..i] == blocks[..i];
        cw := cw + BlockWork(blocks[i].header.powTarget);
      }
      assert blocks[..|blocks|] == blocks;
    }

    /** One database transaction: every insert must find its primary key free, or nothing is written. */
    method PersistDelta(d: Delta, ioOk: bool) returns (ok: bool)
      modifies this`disk
      ensures ok <==> ioOk && NoKeyClash(old(disk), d)
      ensures disk == if ok then Committed(e, old(disk), d) else old(disk)
    {
      if !ioOk {
        return false;
      }
      var t := disk;
      var h := d.newBlock.header.height;
      if h in t.blocks {
        return false;
      }
      var row := BlockRow(Encode(e.encodeHeader, d.newBlock.header), d.newBlock.hash, d.newBlock.txCbor);
      t := t.(blocks := t.blocks[h := row]);
      if h in t.leaves {
        return false;
      }
      t := t.(leaves := t.leaves[h := d.leafHash]);
      if d.txId in t.txIds {
        return false;
      }
      t := t.(txIds := t.txIds + {d.txId});
      if d.noteId.Some? {
        if d.noteId.value in t.noteIds {
          return false;
        }
        t := t.(noteIds := t.noteIds + {d.noteId.value});
      }
      if d.change.newMember.Some? {
        var (id, rec) := d.change.newMember.value;
        if id in t.members {
          return false;
        }
        t := t.(members := t.members[id := rec]);
      }
      var auth := WriteAuthorized(t.authorized, d.change.delAuth, d.change.addAuth);
      t := t.(authorized := auth);
      if d.change.newEpoch.Some? {
        t := t.(stream := t.stream.(keyEpoch := ToInt64(d.change.newEpoch.value)));
      }
      t := t.(stream := t.stream.(height := ToInt64(h)));
      disk := t;
      ok := true;
    }

    /** Delete the revoked rows first, then insert the granted ones. */
    static method WriteAuthorized(rows: set<Bytes>, delAuth: seq<Bytes>, addAuth: seq<Bytes>) returns (r: set<Bytes>)
      ensures r == rows - Elements(delAuth) + Elements(addAuth)
    {
      r := rows;
      for i := 0 to |delAuth|
        invariant r == rows - Elements(delAuth[..i])
      {
        assert delAuth[..i + 1] == delAuth[..i] + [delAuth[i]];
        r := r - {delAuth[i]};
      }
      assert delAuth[..|delAuth|] == delAuth;
      for i := 0 to |addAuth|
        invariant r == rows - Elements(delAuth) + Elements(addAuth[..i])
      {
        assert addAuth[..i + 1] == addAuth[..i] + [addAuth[i]];
        r := r + {addAuth[i]};
      }
      assert addAuth[..|addAuth|] == addAuth;
    }

    predicate IsAuthorized(pubKey: Bytes)
      reads this
    {
      pubKey in authorized
    }

    /** The operation-specific part of tryAccept, which changes the authority fields as it goes. */
    method ApplyOperation(tx: Tx) returns (refused: Option<Code>, change: AuthorityChange)
      modifies this`members, this`authorized, this`currentKeyEpoch
      ensures var o := ApplyOp(e, old(owner), old(ownerEnc), old(View()).authority, tx);
        && View() == old(View()).(authority := o.authority)
        && (refused == match o case Refuse(_, code) => Some(code) case Proceed(_, _) => None)
        && (o.Proceed? ==> change == o.change)
    {
      change := NO_CHANGE;
      refused := None;
      match tx.body.opType {
        case Create =>
          var p := Decode(e.decodeCreate, tx.body.payload);
          if p == None || p.value.keyEpoch != currentKeyEpoch {
            refused := Some(InvalidTransactionCode);
          }
        case MemberAdd =>
          if tx.body.author != owner {
            return Some(UnauthorizedKey), change;
          }
          var p := Decode(e.decodeMemberAdd, tx.body.payload);
          if p == None || |p.value.deviceId| == 0 || |p.value.signing| != 32 || |p.value.encryption| != 32 {
            return Some(InvalidTransactionCode), change;
          }
          var rec := MemberRecord(p.value.signing, p.value.encryption, p.value.deviceLabel);
          members := members[p.value.deviceId := rec];
          authorized := authorized + {p.value.signing};
          change := AuthorityChange(Some((p.value.deviceId, rec)), [], [p.value.signing], None);
        case KeyGrant =>
          if tx.body.author != owner {
            return Some(UnauthorizedKey), change;
          }
          var p := Decode(e.decodeKeyGrant, tx.body.payload);
          if p == None || |p.value.deviceId| == 0 || |p.value.encryption| != 32 || |p.value.envelope| == 0 {
            return Some(InvalidTransactionCode), change;
          }
        case KeyRotationBundle =>
          if tx.body.author != owner {
            return Some(UnauthorizedKey), change;
          }
          var p := Decode(e.decodeRotation, tx.body.payload);
          if p == None || p.value.revoked == owner || p.value.newKeyEpoch <= currentKeyEpoch {
            return Some(InvalidTransactionCode), change;
          }
          authorized := authorized - {p.value.revoked};
          currentKeyEpoch := p.value.newKeyEpoch;
          var added, ok := ApplyGrants(p.value.grants);
          if !ok {
            return Some(InvalidTransactionCode), change;
          }
          change := AuthorityChange(None, [p.value.revoked], added, Some(p.value.newKeyEpoch));
        case Genesis =>
          refused := Some(InvalidTransactionCode);
        case Unknown(_) =>
          refused := Some(InvalidTransactionCode);
      }
    }

    /** Authorize the granted members one by one, stopping at a grant to an unknown device. */
    method ApplyGrants(grants: seq<Grant>) returns (added: seq<Bytes>, ok: bool)
      modifies this`authorized
      ensures (added, ok) == Granted(members, ownerEnc, grants)
      ensures authorized == old(authorized) + Elements(added)
    {
      added := [];
      assert grants[0..] == grants;
      assert [] + Granted(members, ownerEnc, grants).0 == Granted(members, ownerEnc, grants).0;
      for i := 0 to |grants|
        invariant authorized == old(authorized) + Elements(added)
        invariant var (rest, restOk) := Granted(members, ownerEnc, grants[i..]);
          Granted(members, ownerEnc, grants) == (added + rest, restOk)
      {
        var g := grants[i];
        assert grants[i..][1..] == grants[i + 1..];
        if g.deviceId !in members && g.encryption != ownerEnc {
          assert added + [] == added;
          return added, false;
        }
        if g.deviceId in members {
          var key := members[g.deviceId].signing;
          ghost var rest := Granted(members, ownerEnc, grants[i + 1..]).0;
          assert added + ([key] + rest) == (added + [key]) + rest;
          assert Elements(added + [key]) == Elements(added) + {key};
          authorized := authorized + {key};
          added := added + [key];
        }
      }
      assert added + [] == added;
      ok := true;
    }

    /** Record the mined block in memory. */
    method PushBlock(rec: BlockRecord, tx: Tx)
      modifies this`blocks, this`txIds, this`noteIds, this`count, this`chainwork
      ensures blocks == old(blocks) + [rec] && txIds == old(txIds) + {tx.id} && count == old(count) + 1
      ensures noteIds == if tx.body.opType == Create then old(noteIds) + {tx.body.noteId} else old(noteIds)
      ensures chainwork == old(chainwork) + BlockWork(rec.header.powTarget)
    {
      blocks := blocks + [rec];
      txIds := txIds + {tx.id};
      if tx.body.opType == Create {
        noteIds := noteIds + {tx.body.noteId};
      }
      count := count + 1;
      chainwork := chainwork + BlockWork(rec.header.powTarget);
    }

    /** Add the leaf to the accumulator and mine the block over it. */
    method MineNext(tx: Tx, leaf: Bytes, inputs: Inputs) returns (rec: BlockRecord, ok: bool)
      requires 0 < |blocks| < TWO_63
      modifies this`peaks, this`leafHashes
      ensures View() == WithLeaf(e, old(View()), leaf)
      ensures var draft := DraftHeader(old(View()), Bag(e.sha, peaks), inputs.now);
        match FirstNonce(e, draft, inputs.start)
        case None => !ok
        case Some(n) => ok && rec == MinedBlock(e, tx, draft, n)
    {
      var prev := blocks[|blocks| - 1];
      var height := |blocks|;
      peaks := AddLeaf(e.sha, peaks, leaf, height);
      leafHashes := leafHashes + [leaf];
      var mmrRoot := MmrRootFromPeaks(e.sha, peaks);
      var header := Header(1, height, prev.hash, height + 1, mmrRoot, inputs.now, 0, []);
      var nonce, hash, mined, _ := MineBlock(e, header, target, 0, inputs.start);
      ok := mined;
      rec := BlockRecord(header.(nonce := nonce, powTarget := target), hash, Encode(e.encodeTx, tx));
    }

    /** Record the mined block in memory, then write its rows. */
    method RecordBlock(tx: Tx, rec: BlockRecord, leaf: Bytes, change: AuthorityChange, ioOk: bool)
      returns (r: AcceptResult)
      modifies this`blocks, this`txIds, this`noteIds, this`count, this`chainwork, this`disk
      ensures (View(), disk, r) ==
        StoreBlock(e, old(View()), old(disk), tx, NewDelta(tx, rec, leaf, change), ioOk)
    {
      PushBlock(rec, tx);
      assert View() == Pushed(old(View()), tx, rec);
      var d := Delta(rec, leaf, tx.id, if tx.body.opType == Create then Some(tx.body.noteId) else None, change);
      var stored := PersistDelta(d, ioOk);
      r := if stored then AcceptOk(rec.header.height) else Rejected(Internal);
    }

    /** The part of tryAccept after the operation went through. */
    method AppendMined(tx: Tx, change: AuthorityChange, inputs: Inputs) returns (r: AcceptResult)
      requires 0 < |blocks| < TWO_63
      modifies this`peaks, this`leafHashes, this`blocks, this`txIds, this`noteIds, this`count, this`chainwork, this`disk
      ensures (View(), disk, r) == AppendBlock(e, old(View()), old(disk), tx, change, inputs)
    {
      var txHash := TransactionHash(e, tx);
      if txHash == None {
        return Rejected(InvalidTransactionCode);
      }
      var leaf := LeafHash(e, txHash.value);
      var rec, ok := MineNext(tx, leaf, inputs);
      if !ok {
        return Rejected(Internal);
      }
      r := RecordBlock(tx, rec, leaf, change, inputs.ioOk);
    }

    method TryAccept(tx: Tx, inputs: Inputs) returns (r: AcceptResult)
      requires 0 < |blocks| < TWO_63
      modifies this
      ensures (View(), disk, r) == Ledger.TryAccept(e, old(View()), old(disk), tx, inputs)
    {
      if tx.id in txIds {
        return DuplicateTx;
      }
      if tx.body.opType == Create && tx.body.noteId in noteIds {
        return DuplicateNote;
      }
      if ToInt64(tx.powEpoch) != count / 1000 {
        return Rejected(StalePowEpoch);
      }
      var refused, change := ApplyOperation(tx);
      if refused.Some? {
        return Rejected(refused.value);
      }
      r := AppendMined(tx, change, inputs);
    }

    /** handlePostTransaction, from the decoded transaction on. */
    method PostTransaction(tx: Tx, inputs: Inputs) returns (reply: Reply)
      requires 0 < |blocks| < TWO_63
      modifies this
      ensures (View(), disk, reply) == HandlePost(e, old(View()), old(disk), tx, inputs)
    {
      var computedId := TransactionId(e, tx.body);
      if computedId == None || computedId.value != tx.id {
        return Error(422, InvalidTransactionCode);
      }
      if !SignatureVerifies(e, tx) {
        return Error(422, InvalidTransactionCode);
      }
      if |tx.body.payload| > MAX_BODY_BYTES {
        return Error(413, PayloadTooLarge);
      }
      if !IsAuthorized(tx.body.author) {
        return Error(403, UnauthorizedKey);
      }
      if !PowMeets(e, tx, target) {
        return Error(422, InvalidTransactionCode);
      }
      var res := TryAccept(tx, inputs);
      match res {
        case DuplicateTx =>
          reply := Receipt(|txIds|);
        case DuplicateNote =>
          reply := Error(409, DuplicateNoteId);
        case Rejected(code) =>
          var status := 422;
          match code {
            case UnauthorizedKey => status := 403;
            case StalePowEpoch => status := 409;
            case _ =>
          }
          reply := Error(status, code);
        case AcceptOk(_) =>
          reply := Receipt(|txIds|);
      }
    }

    /** Validate a peer's chain against the anchor and adopt it when it has strictly more work. */
    method ValidateAndReplaceChain(anchor: Bytes, candidate: seq<Block>, ioOk: bool) returns (r: ReorgOutcome)
      requires |candidate| < TWO_63
      modifies this
      ensures (View(), disk, r) == Reorg(e, old(View()), old(disk), anchor, candidate, ioOk)
    {
      var ok, newPeaks, cumulative := ValidateChain(e, anchor, candidate);
      if !ok {
        return InvalidChain;
      }
      if chainwork >= cumulative {
        return Kept;
      }
      r := ReplaceChain(anchor, candidate, ioOk);
    }

    /** The structural and proof-of-work checks of block i, in order. */
    static method CheckLink(e: Env, anchor: Bytes, candidate: seq<Block>, i: nat) returns (ok: bool)
      requires i < |candidate| < TWO_63
      ensures ok <==> LinkedAt(e, anchor, candidate, i)
    {
      var b := candidate[i];
      var h := b.header;
      if ToInt64(h.height) != i || BlockHash(e, h) != b.hash || !SatisfiesTarget(e, h) {
        return false;
      }
      if i == 0 {
        if !IsZero32(h.prevHash) || b.hash != anchor {
          return false;
        }
      } else if h.prevHash != candidate[i - 1].hash {
        return false;
      }
      ok := true;
    }

    /** The validation loop: one pass that carries the accumulator and the work along. */
    static method ValidateChain(e: Env, anchor: Bytes, candidate: seq<Block>)
      returns (ok: bool, peaks: seq<Bytes>, cumulative: nat)
      requires |candidate| < TWO_63
      ensures ok <==> ValidChain(e, anchor, candidate)
      ensures ok ==> peaks == Peaks(e.sha, TxLeaves(e, candidate)) && cumulative == ChainWork(candidate)
    {
      hide LinkedAt, Carry, Peaks, Bag, Sha, BlockWork, ValidBody;
      EmptyHasNoPeaks(e.sha);
      assert TxLeaves(e, candidate)[..0] == [];
      peaks, cumulative := [], 0;
      if |candidate| == 0 {
        return false, peaks, cumulative;
      }
      var prevLeaf := 0;
      for i := 0 to |candidate|
        invariant prevLeaf == i
        invariant peaks == Peaks(e.sha, TxLeaves(e, candidate)[..i]) && cumulative == ChainWork(candidate[..i])
        invariant forall k :: 0 <= k < i ==> ValidAt(e, anchor, candidate, k)
      {
        var b := candidate[i];
        var linked := CheckLink(e, anchor, candidate, i);
        var txHash := TransactionHash(e, b.tx);
        if !linked || txHash == None {
          assert !ValidAt(e, anchor, candidate, i);
          return false, peaks, cumulative;
        }
        var leaf := LeafHash(e, txHash.value);
        CandidateStep(e, candidate, i);
        peaks := AddLeaf(e.sha, peaks, leaf, prevLeaf);
        prevLeaf := prevLeaf + 1;
        var root := MmrRootFromPeaks(e.sha, peaks);
        if root != b.header.mmrRoot {
          assert !ValidAt(e, anchor, candidate, i);
          return false, peaks, cumulative;
        }
        cumulative := cumulative + BlockWork(b.header.powTarget);
      }
      assert TxLeaves(e, candidate)[..|candidate|] == TxLeaves(e, candidate) && candidate[..|candidate|] == candidate;
      ok := true;
    }

    /** Delete the old chain's rows, insert the candidate's in one transaction, and reload. */
    method ReplaceChain(anchor: Bytes, candidate: seq<Block>, ioOk: bool) returns (r: ReorgOutcome)
      requires |candidate| < TWO_63 && ValidChain(e, anchor, candidate) && ChainWork(candidate) > chainwork
      modifies this
      ensures (View(), disk, r) == Reorg(e, old(View()), old(disk), anchor, candidate, ioOk)
    {
      hide ValidAt, ChainWork, InsertBlocks, LoadBlocks, LoadLeaves, Peaks, WorkOf;
      var t, ok := WriteChain(e, disk, candidate);
      if !ok || !ioOk {
        return StoreFailed;
      }
      ValidIsNumbered(e, anchor, candidate);
      TablesHold(e, disk, candidate);
      disk := t.(stream := t.stream.(height := |candidate| - 1));
      var rebuilt := Restart();
      r := if rebuilt then Replaced else StoreFailed;
    }

    static method WriteChain(e: Env, before: Disk, candidate: seq<Block>) returns (t: Disk, ok: bool)
      ensures InsertBlocks(e, Emptied(before), candidate) == if ok then Some(t) else None
    {
      t := before.(blocks := map[], leaves := map[], txIds := {}, noteIds := {});
      for i := 0 to |candidate|
        invariant InsertBlocks(e, Emptied(before), candidate[..i]) == Some(t)
      {
        assert candidate[..i + 1][..i] == candidate[..i];
        var b := candidate[i];
        var height, txHash := ToInt64(b.header.height), TransactionHash(e, b.tx);
        if height in t.blocks || txHash == None || i in t.leaves || txHash.value in t.txIds {
          InsertStops(e, Emptied(before), candidate, i + 1);
          return t, false;
        }
        if b.tx.body.opType == Create && b.tx.body.noteId in t.noteIds {
          InsertStops(e, Emptied(before), candidate, i + 1);
          return t, false;
        }
        t := t.(blocks := t.blocks[height := CandidateRow(e, b)], leaves := t.leaves[i := LeafHash(e, txHash.value)],
                txIds := t.txIds + {txHash.value});
        if b.tx.body.opType == Create {
          t := t.(noteIds := t.noteIds + {b.tx.body.noteId});
        }
      }
      assert candidate[..|candidate|] == candidate;
      ok := true;
    }

    /** The page handler: the limit clamped, then the records read. */
    method HandlePage(fromHeight: Int64, limit: Int64, withTx: bool, known: Option<Bytes>) returns (r: PageResult)
      ensures !(0 <= fromHeight < |blocks|) ==> r == Page([], None)
      ensures 0 <= fromHeight < |blocks| ==>
        var end := fromHeight + ClampLimit(limit, withTx);
        var stop := if end > |blocks| then |blocks| else end;
        && (r == ChainMismatch <==> known.Some? && known.value != blocks[fromHeight].hash)
        && (r == ServerError <==> r != ChainMismatch && !Servable(e, blocks[fromHeight..stop], withTx))
        && (r.Page? ==> AreEntries(e, r.entries, blocks[fromHeight..stop], withTx))
        && (r.Page? ==> r.next == if stop < |blocks| then Some(stop) else None)
    {
      r := ReadPage(e, blocks, fromHeight, ClampLimit(limit, withTx), withTx, known);
    }

    /** The inclusion proof of the leaf at idx, recomputed from all leaves; None past the end. */
    method ProofFor(idx: Int64) returns (proof: Option<InclusionProof>)
      requires 0 <= idx && |leafHashes| < TWO_63
      ensures proof == if idx < |leafHashes| then Some(HonestProof(e.sha, leafHashes, idx)) else None
    {
      if idx >= |leafHashes| {
        return None;
      }
      proof := GenerateInclusionProof(e.sha, leafHashes, idx);
    }
  }

  function InsertHeight(hs: seq<int>, h: int): seq<int> {
    if |hs| == 0 || hs[|hs| - 1] < h then hs + [h]
    else InsertHeight(hs[..|hs| - 1], h) + [hs[|hs| - 1]]
  }

  lemma {:induction false} InsertKeepsOrder(hs: seq<int>, keys: set<int>, h: int)
    requires IsHeightOrder(hs, keys) && h !in keys
    ensures IsHeightOrder(InsertHeight(hs, h), keys + {h})
    decreases |hs|
  {
    assert forall i :: 0 <= i < |hs| ==> hs[i] in hs;
    if |hs| > 0 && hs[|hs| - 1] >= h {
      var front, top := hs[..|hs| - 1], hs[|hs| - 1];
      FrontOrder(hs, keys);
      InsertKeepsOrder(front, keys - {top}, h);
      var longer := InsertHeight(front, h);
      assert keys + {h} == keys - {top} + {h} + {top};
      forall i | 0 <= i < |longer|
        ensures longer[i] < top
      {
        assert longer[i] in longer;
        assert longer[i] in keys ==> longer[i] in front;
      }
    }
  }

  lemma RowAt(disk: Disk, pos: nat)
    requires pos < |disk.blocks|
    ensures var hs := HeightOrder(disk.blocks.Keys);
      hs[pos] in disk.blocks && RowsInOrder(disk)[pos] == disk.blocks[hs[pos]]
  {
    assert HeightOrder(disk.blocks.Keys)[pos] in HeightOrder(disk.blocks.Keys);
  }

  /** A row that does not decode, or a missing leaf, makes the whole load fail. */
  lemma LoadFails(e: Env, disk: Disk, pos: nat)
    requires pos < |disk.blocks|
    requires Decode(e.decodeHeader, RowsInOrder(disk)[pos].headerCbor) == None || pos !in disk.leaves
    ensures LoadBlocks(e, RowsInOrder(disk)) == None || LoadLeaves(disk, |disk.blocks|) == None
  {
    if pos !in disk.leaves {
      LeafMissing(disk, pos, |disk.blocks|);
    } else {
      RowBroken(e, RowsInOrder(disk), pos);
    }
  }

  lemma {:induction false} RowBroken(e: Env, rows: seq<BlockRow>, pos: nat)
    requires pos < |rows| && Decode(e.decodeHeader, rows[pos].headerCbor) == None
    ensures LoadBlocks(e, rows) == None
  {
    if pos < |rows| - 1 {
      RowBroken(e, rows[..|rows| - 1], pos);
    }
  }

  /** One turn of the validation loop. */
  lemma CandidateStep(e: Env, blocks: seq<Block>, i: nat)
    requires i < |blocks|
    ensures Carry(e.sha, Peaks(e.sha, TxLeaves(e, blocks)[..i]), TxLeaf(e, blocks[i].tx), i)
      == Peaks(e.sha, TxLeaves(e, blocks)[..i + 1])
    ensures ChainWork(blocks[..i + 1]) == ChainWork(blocks[..i]) + BlockWork(blocks[i].header.powTarget)
  {
    var leaves := TxLeaves(e, blocks);
    CarryAppends(e.sha, leaves[..i], leaves[i]);
    assert leaves[..i] + [leaves[i]] == leaves[..i + 1];
    assert blocks[..i + 1][..i] == blocks[..i];
  }

  /** One failed insert fails the whole rewrite. */
  lemma {:induction false} InsertStops(e: Env, disk: Disk, blocks: seq<Block>, i: nat)
    requires i <= |blocks| && InsertBlocks(e, disk, blocks[..i]) == None
    ensures InsertBlocks(e, disk, blocks) == None
    decreases |blocks|
  {
    if i == |blocks| {
      assert blocks[..i] == blocks;
    } else {
      var front := blocks[..|blocks| - 1];
      assert front[..i] == blocks[..i];
      InsertStops(e, disk, front, i);
    }
  }
}
