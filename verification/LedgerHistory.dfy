/**
 Runs of the server without a peer reorganisation: request checks and accepts interleaved in any
 order, and restarts. The transactions on the chain determine who may write, under which key
 epoch, and which proof-of-work epoch each of them carries.
 */
module LedgerHistory {
  import opened Arith
  import opened ByteStrings
  import opened Wire
  import opened Ledger
  import opened LedgerInvariants

  // ----- replaying the membership transactions -----

  /** The signing keys of the enrolled devices a bundle grants to. */
  function GrantedKeys(members: map<Bytes, MemberRecord>, grants: seq<Grant>): set<Bytes> {
    set g | g in grants && g.deviceId in members :: members[g.deviceId].signing
  }

  /** What a transaction on the chain does to the authority: enrolment adds a device and its key;
      a rotation revokes one key, then authorizes the granted devices, and opens a new epoch. */
  function Effect(e: Env, a: Authority, tx: Tx): Authority {
    match tx.body.opType
    case MemberAdd =>
      (match Decode(e.decodeMemberAdd, tx.body.payload)
       case None => a
       case Some(p) =>
         Authority(a.members[p.deviceId := MemberRecord(p.signing, p.encryption, p.deviceLabel)],
                   a.authorized + {p.signing}, a.keyEpoch))
    case KeyRotationBundle =>
      (match Decode(e.decodeRotation, tx.body.payload)
       case None => a
       case Some(p) =>
         Authority(a.members, a.authorized - {p.revoked} + GrantedKeys(a.members, p.grants), p.newKeyEpoch))
    case _ => a
  }

  /** The authority after the transactions txs. */
  function Replay(e: Env, seed: Authority, txs: seq<Tx>): Authority {
    if |txs| == 0 then seed else Effect(e, Replay(e, seed, txs[..|txs| - 1]), txs[|txs| - 1])
  }

  /** The authority under which block i was appended: the replay of the blocks between genesis and i. */
  function Below(e: Env, seed: Authority, txs: seq<Tx>, i: nat): Authority
    requires 1 <= i <= |txs|
  {
    Replay(e, seed, txs[1..i])
  }

  lemma {:induction false} GrantedAre(members: map<Bytes, MemberRecord>, ownerEnc: Bytes, grants: seq<Grant>)
    requires Granted(members, ownerEnc, grants).1
    ensures Elements(Granted(members, ownerEnc, grants).0) == GrantedKeys(members, grants)
  {
    if |grants| > 0 {
      var g := grants[0];
      GrantedAre(members, ownerEnc, grants[1..]);
      var keys, rest := GrantedKeys(members, grants), GrantedKeys(members, grants[1..]);
      assert grants == [g] + grants[1..];
      if g.deviceId in members {
        assert Elements([members[g.deviceId].signing] + Granted(members, ownerEnc, grants[1..]).0)
            == {members[g.deviceId].signing} + rest;
        assert keys == {members[g.deviceId].signing} + rest;
      } else {
        assert keys == rest;
      }
    }
  }

  /** An operation that goes through leaves the authority the replay gives. */
  lemma ProceedIsEffect(e: Env, owner: Bytes, ownerEnc: Bytes, a: Authority, tx: Tx)
    requires ApplyOp(e, owner, ownerEnc, a, tx).Proceed?
    ensures ApplyOp(e, owner, ownerEnc, a, tx).authority == Effect(e, a, tx)
  {
    if tx.body.opType == KeyRotationBundle {
      GrantedAre(a.members, ownerEnc, Decode(e.decodeRotation, tx.body.payload).value.grants);
    }
  }

  // ----- what the transactions on the chain satisfy -----

  /** The identity of a stream: set once from genesis. */
  datatype Origin = Origin(owner: Bytes, ownerEnc: Bytes, seed: Authority)

  /** Transaction i > 0 went through under the authority below it and carries the epoch of its height. */
  ghost predicate Lawful(e: Env, g: Origin, txs: seq<Tx>, i: nat)
    requires 1 <= i < |txs|
  {
    && ApplyOp(e, g.owner, g.ownerEnc, Below(e, g.seed, txs, i), txs[i]).Proceed?
    && txs[i].powEpoch == (i - 1) / 1000
  }

  ghost predicate IdsMatch(m: Mem, txs: seq<Tx>) {
    && m.count == |txs| - 1
    && (forall i :: 1 <= i < |txs| ==> txs[i].id in m.txIds)
    && (forall x :: x in m.txIds ==> exists i :: 1 <= i < |txs| && txs[i].id == x)
    && (forall i, j :: 1 <= i < j < |txs| ==> txs[i].id != txs[j].id)
  }

  predicate IsCreate(tx: Tx) {
    tx.body.opType == Create
  }

  ghost predicate NotesMatch(m: Mem, txs: seq<Tx>) {
    && (forall i :: 1 <= i < |txs| && IsCreate(txs[i]) ==> txs[i].body.noteId in m.noteIds)
    && (forall x :: x in m.noteIds ==> exists i :: 1 <= i < |txs| && IsCreate(txs[i]) && txs[i].body.noteId == x)
    && (forall i, j :: 1 <= i < j < |txs| && IsCreate(txs[i]) && IsCreate(txs[j]) ==>
          txs[i].body.noteId != txs[j].body.noteId)
  }

  ghost predicate BodiesStored(e: Env, m: Mem, txs: seq<Tx>) {
    && |m.blocks| == |txs|
    && forall i :: 0 <= i < |txs| ==> m.blocks[i].txCbor == Encode(e.encodeTx, txs[i])
  }

  /** Memory is what the transactions on the chain say. */
  ghost predicate Recorded(e: Env, g: Origin, m: Mem, txs: seq<Tx>) {
    && |txs| > 0
    && m.owner == g.owner && m.ownerEnc == g.ownerEnc
    && m.authority == Below(e, g.seed, txs, |txs|)
    && (forall i :: 1 <= i < |txs| ==> Lawful(e, g, txs, i))
    && IdsMatch(m, txs) && NotesMatch(m, txs) && BodiesStored(e, m, txs)
  }

  lemma BelowExtends(e: Env, seed: Authority, txs: seq<Tx>, tx: Tx, i: nat)
    requires 1 <= i <= |txs|
    ensures Below(e, seed, txs + [tx], i) == Below(e, seed, txs, i)
    ensures i == |txs| ==> Below(e, seed, txs + [tx], i + 1) == Effect(e, Below(e, seed, txs, i), tx)
  {
    assert (txs + [tx])[1..i] == txs[1..i];
    if i == |txs| {
      var all := (txs + [tx])[1..i + 1];
      assert all[..|all| - 1] == txs[1..i];
    }
  }

  lemma GrowsKeepsLawful(
    e: Env, g: Origin, m: Mem, disk: Disk, m': Mem, disk': Disk, txs: seq<Tx>, tx: Tx,
    rec: BlockRecord, leaf: Bytes, o: OpOutcome)
    requires Recorded(e, g, m, txs) && |m.blocks| < TWO_63
    requires Grows(e, m, disk, m', disk', tx, rec, leaf, o)
    ensures m'.authority == Below(e, g.seed, txs + [tx], |txs| + 1)
    ensures forall i :: 1 <= i < |txs| + 1 ==> Lawful(e, g, txs + [tx], i)
  {
    var n := |txs|;
    BelowExtends(e, g.seed, txs, tx, n);
    ProceedIsEffect(e, m.owner, m.ownerEnc, m.authority, tx);
    forall i | 1 <= i < n + 1
      ensures Lawful(e, g, txs + [tx], i)
    {
      BelowExtends(e, g.seed, txs, tx, i);
      if i < n {
        assert Lawful(e, g, txs, i);
      }
    }
  }

  lemma GrowsKeepsRecorded(
    e: Env, g: Origin, m: Mem, disk: Disk, m': Mem, disk': Disk, txs: seq<Tx>, tx: Tx,
    rec: BlockRecord, leaf: Bytes, o: OpOutcome)
    requires Recorded(e, g, m, txs) && |m.blocks| < TWO_63
    requires Grows(e, m, disk, m', disk', tx, rec, leaf, o)
    ensures Recorded(e, g, m', txs + [tx])
  {
    hide ApplyOp, Effect, Lawful, IdsMatch, NotesMatch, NoKeyClash, Committed, BlockHash, SatisfiesTarget;
    GrowsKeepsLawful(e, g, m, disk, m', disk', txs, tx, rec, leaf, o);
    IdsGrow(m, m', txs, tx);
    NotesGrow(m, m', txs, tx);
  }

  lemma IdsGrow(m: Mem, m': Mem, txs: seq<Tx>, tx: Tx)
    requires |txs| > 0 && IdsMatch(m, txs) && tx.id !in m.txIds
    requires m'.txIds == m.txIds + {tx.id} && m'.count == m.count + 1
    ensures IdsMatch(m', txs + [tx])
  {
    var longer := txs + [tx];
    forall x | x in m'.txIds
      ensures exists i :: 1 <= i < |longer| && longer[i].id == x
    {
      if x in m.txIds {
        var i :| 1 <= i < |txs| && txs[i].id == x;
        assert longer[i].id == x;
      } else {
        assert longer[|txs|].id == x;
      }
    }
  }

  lemma NotesGrow(m: Mem, m': Mem, txs: seq<Tx>, tx: Tx)
    requires |txs| > 0 && NotesMatch(m, txs) && (IsCreate(tx) ==> tx.body.noteId !in m.noteIds)
    requires m'.noteIds == if IsCreate(tx) then m.noteIds + {tx.body.noteId} else m.noteIds
    ensures NotesMatch(m', txs + [tx])
  {
    var longer := txs + [tx];
    forall x | x in m'.noteIds
      ensures exists i :: 1 <= i < |longer| && IsCreate(longer[i]) && longer[i].body.noteId == x
    {
      if x in m.noteIds {
        var i :| 1 <= i < |txs| && IsCreate(txs[i]) && txs[i].body.noteId == x;
        assert longer[i] == txs[i];
      } else {
        assert longer[|txs|] == tx;
      }
    }
  }
}
