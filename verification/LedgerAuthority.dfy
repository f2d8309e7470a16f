/**
 Who may append. The chain says who is authorized at every height. An author was authorized where its
 request was checked; with checks and accepts interleaved a revocation may come in between, and this
 module says exactly when the block is appended all the same.
 */
module LedgerAuthority {
  import opened Arith
  import opened ByteStrings
  import opened Wire
  import opened Ledger
  import opened LedgerInvariants
  import opened LedgerHistory
  import opened LedgerRuns

  // ----- along one chain -----

  lemma BelowStep(e: Env, seed: Authority, txs: seq<Tx>, i: nat)
    requires 1 <= i < |txs|
    ensures Below(e, seed, txs, i + 1) == Effect(e, Below(e, seed, txs, i), txs[i])
  {
    assert txs[1..i + 1][..i - 1] == txs[1..i];
  }

  /** tx is a rotation bundle that revokes key. */
  predicate Revokes(e: Env, tx: Tx, key: Bytes) {
    && tx.body.opType == KeyRotationBundle
    && match Decode(e.decodeRotation, tx.body.payload) case Some(p) => p.revoked == key case None => false
  }

  /** tx enrols a device with key, or rotates with a grant to a device enrolled with key. */
  predicate Grants(e: Env, a: Authority, tx: Tx, key: Bytes) {
    match tx.body.opType
    case MemberAdd =>
      (match Decode(e.decodeMemberAdd, tx.body.payload) case Some(p) => p.signing == key case None => false)
    case KeyRotationBundle =>
      (match Decode(e.decodeRotation, tx.body.payload)
       case Some(p) => key in GrantedKeys(a.members, p.grants)
       case None => false)
    case _ => false
  }

  /** The bundle at r revokes key and nothing from r up to i grants it. */
  ghost predicate RevokedSince(e: Env, g: Origin, txs: seq<Tx>, key: Bytes, r: nat, i: nat)
    requires 1 <= r < i <= |txs|
  {
    && Revokes(e, txs[r], key)
    && forall t :: r <= t < i ==> !Grants(e, Below(e, g.seed, txs, t), txs[t], key)
  }

  lemma KeyAfter(e: Env, a: Authority, tx: Tx, key: Bytes)
    ensures key in Effect(e, a, tx).authorized <==>
      Grants(e, a, tx, key) || (key in a.authorized && !Revokes(e, tx, key))
  {
  }

  /** A key authorized below j is unauthorized below i exactly when a bundle in between revokes it
      and nothing since grants it again. */
  lemma UnauthorizedExactlyWhenRevoked(e: Env, g: Origin, txs: seq<Tx>, key: Bytes, j: nat, i: nat)
    requires 1 <= j <= i <= |txs| && key in Below(e, g.seed, txs, j).authorized
    ensures key !in Below(e, g.seed, txs, i).authorized <==>
      exists r :: j <= r < i && RevokedSince(e, g, txs, key, r, i)
  {
    if key !in Below(e, g.seed, txs, i).authorized {
      var r := LastRevocation(e, g, txs, key, j, i);
    } else if r :| j <= r < i && RevokedSince(e, g, txs, key, r, i) {
      RevokedStaysOut(e, g, txs, key, r, i);
      assert false;
    }
  }

  lemma {:induction false} LastRevocation(e: Env, g: Origin, txs: seq<Tx>, key: Bytes, j: nat, i: nat) returns (r: nat)
    requires 1 <= j <= i <= |txs|
    requires key in Below(e, g.seed, txs, j).authorized && key !in Below(e, g.seed, txs, i).authorized
    ensures j <= r < i && RevokedSince(e, g, txs, key, r, i)
    decreases i
  {
    BelowStep(e, g.seed, txs, i - 1);
    var a := Below(e, g.seed, txs, i - 1);
    KeyAfter(e, a, txs[i - 1], key);
    r := i - 1;
    if key !in a.authorized {
      r := LastRevocation(e, g, txs, key, j, i - 1);
    }
  }

  lemma {:induction false} RevokedStaysOut(e: Env, g: Origin, txs: seq<Tx>, key: Bytes, r: nat, i: nat)
    requires 1 <= r < i <= |txs| && RevokedSince(e, g, txs, key, r, i)
    ensures key !in Below(e, g.seed, txs, i).authorized
    decreases i
  {
    BelowStep(e, g.seed, txs, i - 1);
    KeyAfter(e, Below(e, g.seed, txs, i - 1), txs[i - 1], key);
    if r < i - 1 {
      RevokedStaysOut(e, g, txs, key, r, i - 1);
    }
  }

  // ----- enrolled devices -----

  /** tx enrols the device under these keys and label. */
  predicate Enrols(e: Env, tx: Tx, device: Bytes, signing: Bytes, encryption: Bytes, deviceLabel: string) {
    && tx.body.opType == MemberAdd
    && Decode(e.decodeMemberAdd, tx.body.payload) == Some(MemberAddOp(device, deviceLabel, signing, encryption))
  }

  predicate EnrolsDevice(e: Env, tx: Tx, device: Bytes) {
    && tx.body.opType == MemberAdd
    && match Decode(e.decodeMemberAdd, tx.body.payload) case Some(p) => p.deviceId == device case None => false
  }

  /** A device is known under the keys and label of its last enrolment. */
  lemma {:induction false} LastEnrolmentCounts(
    e: Env, g: Origin, txs: seq<Tx>, t: nat, i: nat,
    device: Bytes, signing: Bytes, encryption: Bytes, deviceLabel: string)
    requires 1 <= t < i <= |txs| && Enrols(e, txs[t], device, signing, encryption, deviceLabel)
    requires forall u :: t < u < i ==> !EnrolsDevice(e, txs[u], device)
    ensures var a := Below(e, g.seed, txs, i);
      && device in a.members && a.members[device].signing == signing
      && a.members[device].encryption == encryption && a.members[device].deviceLabel == deviceLabel
    decreases i
  {
    hide Below;
    BelowStep(e, g.seed, txs, i - 1);
    if t < i - 1 {
      LastEnrolmentCounts(e, g, txs, t, i - 1, device, signing, encryption, deviceLabel);
    }
  }

  /** A bundle that grants an enrolled device authorizes the signing key of its last enrolment. */
  lemma GrantAuthorizesDevice(
    e: Env, g: Origin, txs: seq<Tx>, t: nat, r: nat, n: nat,
    device: Bytes, signing: Bytes, encryption: Bytes, deviceLabel: string)
    requires 1 <= t < r < |txs| && Enrols(e, txs[t], device, signing, encryption, deviceLabel)
    requires forall u :: t < u < r ==> !EnrolsDevice(e, txs[u], device)
    requires txs[r].body.opType == KeyRotationBundle && Decode(e.decodeRotation, txs[r].body.payload).Some?
    requires var p := Decode(e.decodeRotation, txs[r].body.payload).value;
      n < |p.grants| && p.grants[n].deviceId == device
    ensures signing in Below(e, g.seed, txs, r + 1).authorized
  {
    hide Below;
    LastEnrolmentCounts(e, g, txs, t, r, device, signing, encryption, deviceLabel);
    BelowStep(e, g.seed, txs, r);
    var p := Decode(e.decodeRotation, txs[r].body.payload).value;
    assert p.grants[n] in p.grants;
  }

  ghost predicate AllLawful(e: Env, g: Origin, txs: seq<Tx>) {
    && g.owner in g.seed.authorized
    && forall i :: 1 <= i < |txs| ==> Lawful(e, g, txs, i)
  }

  /** The owner is authorized below every height. */
  lemma {:induction false} OwnerBelow(e: Env, g: Origin, txs: seq<Tx>, i: nat)
    requires AllLawful(e, g, txs) && 1 <= i <= |txs|
    ensures g.owner in Below(e, g.seed, txs, i).authorized
  {
    if i > 1 {
      OwnerBelow(e, g, txs, i - 1);
      assert Lawful(e, g, txs, i - 1);
      BelowStep(e, g.seed, txs, i - 1);
    }
  }

  predicate IsRotation(tx: Tx) {
    tx.body.opType == KeyRotationBundle
  }

  /** The key epoch a bundle opens. */
  function RotationEpoch(e: Env, tx: Tx): UInt64 {
    match Decode(e.decodeRotation, tx.body.payload) case Some(p) => p.newKeyEpoch case None => 0
  }

  /** The key epoch a create was written under. */
  function CreateEpoch(e: Env, tx: Tx): UInt64 {
    match Decode(e.decodeCreate, tx.body.payload) case Some(p) => p.keyEpoch case None => 0
  }

  /** epoch is the one set by the last bundle below i, or the initial one. */
  ghost predicate IsEpochBelow(e: Env, g: Origin, txs: seq<Tx>, i: nat, epoch: UInt64)
    requires 1 <= i <= |txs|
  {
    || (epoch == g.seed.keyEpoch && forall t :: 1 <= t < i ==> !IsRotation(txs[t]))
    || (exists r :: 1 <= r < i && IsRotation(txs[r]) && epoch == RotationEpoch(e, txs[r])
          && forall t :: r < t < i ==> !IsRotation(txs[t]))
  }

  lemma {:induction false} EpochBelowIs(e: Env, g: Origin, txs: seq<Tx>, i: nat)
    requires AllLawful(e, g, txs) && 1 <= i <= |txs|
    ensures IsEpochBelow(e, g, txs, i, Below(e, g.seed, txs, i).keyEpoch)
  {
    if i > 1 {
      hide Below, Granted;
      EpochBelowIs(e, g, txs, i - 1);
      assert Lawful(e, g, txs, i - 1);
      BelowStep(e, g.seed, txs, i - 1);
    }
  }

  /** Key epochs never decrease along the chain, and every bundle moves to a greater one. */
  lemma {:induction false} EpochsGrow(e: Env, g: Origin, txs: seq<Tx>, i: nat, j: nat)
    requires AllLawful(e, g, txs) && 1 <= i <= j <= |txs|
    ensures Below(e, g.seed, txs, i).keyEpoch <= Below(e, g.seed, txs, j).keyEpoch
    ensures i < j && IsRotation(txs[i]) ==> Below(e, g.seed, txs, i).keyEpoch < Below(e, g.seed, txs, j).keyEpoch
    decreases j
  {
    if i < j {
      EpochsGrow(e, g, txs, i, j - 1);
      assert Lawful(e, g, txs, j - 1);
      BelowStep(e, g.seed, txs, j - 1);
    }
  }

  // ----- over all runs -----

  lemma ReachableIsLawful(l: Launch, s: Server)
    requires Startable(l) && Reachable(l, s)
    ensures |s.txs| > 0 && AllLawful(l.e, OriginOf(l), s.txs)
    ensures s.mem.authority == Below(l.e, OriginOf(l).seed, s.txs, |s.txs|) && s.mem.owner == OriginOf(l).owner
  {
    ReachableInvariant(l, s);
  }

  lemma OwnerIsAlwaysAuthorized(l: Launch, s: Server)
    requires Startable(l) && Reachable(l, s)
    ensures s.mem.owner in s.mem.authority.authorized
  {
    ReachableIsLawful(l, s);
    OwnerBelow(l.e, OriginOf(l), s.txs, |s.txs|);
  }

  /** Atomic rotation: under any interleaving, every create on the chain carries the key epoch of the
      last bundle below it, and a later create never carries a smaller one. */
  lemma CreatesCarryTheLastRotation(l: Launch, s: Server, i: nat, j: nat)
    requires Startable(l) && Reachable(l, s)
    requires 1 <= i <= j < |s.txs| && IsCreate(s.txs[i]) && IsCreate(s.txs[j])
    ensures IsEpochBelow(l.e, OriginOf(l), s.txs, i, CreateEpoch(l.e, s.txs[i]))
    ensures CreateEpoch(l.e, s.txs[i]) <= CreateEpoch(l.e, s.txs[j])
  {
    var g := OriginOf(l);
    ReachableIsLawful(l, s);
    assert Lawful(l.e, g, s.txs, i) && Lawful(l.e, g, s.txs, j);
    EpochBelowIs(l.e, g, s.txs, i);
    EpochsGrow(l.e, g, s.txs, i, j);
  }

  /** With checks and accepts interleaved, the author of a block is unauthorized by the blocks below it
      exactly when a bundle between the check and the block revokes its key and nothing since grants it. */
  lemma AuthorUnauthorizedExactly(l: Launch, s: Server, i: nat)
    requires Startable(l) && Reachable(l, s) && 1 <= i < |s.txs|
    ensures |s.checks| == |s.txs| && 1 <= s.checks[i] <= i
    ensures var g, author := OriginOf(l), s.txs[i].body.author;
      author !in Below(l.e, g.seed, s.txs, i).authorized <==>
        exists r :: s.checks[i] <= r < i && RevokedSince(l.e, g, s.txs, author, r, i)
  {
    hide Reachable, Startable, Below, RevokedSince;
    BlocksWereChecked(l, s, i);
    UnauthorizedExactlyWhenRevoked(l.e, OriginOf(l), s.txs, s.txs[i].body.author, s.checks[i], i);
  }

  predicate SameVerdict(a: OpOutcome, b: OpOutcome) {
    match a
    case Refuse(_, code) => b.Refuse? && b.code == code
    case Proceed(_, change) => b.Proceed? && b.change == change
  }

  lemma OperationIgnoresKeys(e: Env, owner: Bytes, ownerEnc: Bytes, a: Authority, keys: set<Bytes>, tx: Tx)
    ensures SameVerdict(ApplyOp(e, owner, ownerEnc, a.(authorized := keys), tx), ApplyOp(e, owner, ownerEnc, a, tx))
  {
    hide Granted, Elements;
  }

  lemma AppendIgnoresAuthority(
    e: Env, m: Mem, disk: Disk, tx: Tx, change: AuthorityChange, inputs: Inputs, a: Authority)
    requires 0 < |m.blocks| < TWO_63
    ensures AppendBlock(e, m.(authority := a), disk, tx, change, inputs).2
      == AppendBlock(e, m, disk, tx, change, inputs).2
  {
    hide NoKeyClash, Committed, FirstNonce, BlockHash, TransactionHash, Pushed;
    var m' := m.(authority := a);
    if TransactionHash(e, tx).Some? {
      var leaf := LeafHash(e, TransactionHash(e, tx).value);
      assert WithLeaf(e, m', leaf).peaks == WithLeaf(e, m, leaf).peaks;
      assert NextDraft(e, m', leaf, inputs.now) == NextDraft(e, m, leaf, inputs.now);
    }
  }

  /** The accept decides without looking at the authorized keys, whatever the operation, so it cannot
      notice a key revoked since the check. What it does look at is a create's epoch and the owner. */
  lemma AcceptIgnoresKeys(e: Env, m: Mem, disk: Disk, tx: Tx, inputs: Inputs, keys: set<Bytes>)
    requires 0 < |m.blocks| < TWO_63
    ensures TryAccept(e, m.(authority := m.authority.(authorized := keys)), disk, tx, inputs).2
      == TryAccept(e, m, disk, tx, inputs).2
  {
    hide ApplyOp, AppendBlock;
    var m' := m.(authority := m.authority.(authorized := keys));
    OperationIgnoresKeys(e, m.owner, m.ownerEnc, m.authority, keys, tx);
    var o, o' := ApplyOp(e, m.owner, m.ownerEnc, m.authority, tx), ApplyOp(e, m.owner, m.ownerEnc, m'.authority, tx);
    if o.Proceed? {
      AppendIgnoresAuthority(e, m, disk, tx, o.change, inputs, o.authority);
      AppendIgnoresAuthority(e, m', disk, tx, o.change, inputs, o'.authority);
      AppendIgnoresAuthority(e, m, disk, tx, o.change, inputs, m'.authority);
    }
  }

  // ----- which requests stay authorized -----

  /** A create by another key than the owner's, naming a key epoch that is not open yet. */
  predicate Premature(e: Env, owner: Bytes, a: Authority, tx: Tx) {
    IsCreate(tx) && tx.body.author != owner && CreateEpoch(e, tx) > a.keyEpoch
  }

  lemma OthersAreTheOwners(e: Env, g: Origin, txs: seq<Tx>, i: nat)
    requires 1 <= i < |txs| && Lawful(e, g, txs, i) && !IsCreate(txs[i])
    ensures txs[i].body.author == g.owner
  {
  }

  /** A revocation raises the epoch, so a create that names an epoch open at its check is refused after it. */
  lemma StaysAuthorized(e: Env, g: Origin, txs: seq<Tx>, c: nat, i: nat)
    requires AllLawful(e, g, txs) && 1 <= c <= i < |txs|
    requires txs[i].body.author in Below(e, g.seed, txs, c).authorized
    requires !Premature(e, g.owner, Below(e, g.seed, txs, c), txs[i])
    ensures txs[i].body.author in Below(e, g.seed, txs, i).authorized
  {
    hide Below, Granted, Grants;
    assert Lawful(e, g, txs, i);
    OwnerBelow(e, g, txs, i);
    if txs[i].body.author != g.owner {
      assert IsCreate(txs[i]) by { if !IsCreate(txs[i]) { OthersAreTheOwners(e, g, txs, i); } }
      if txs[i].body.author !in Below(e, g.seed, txs, i).authorized {
        var r := LastRevocation(e, g, txs, txs[i].body.author, c, i);
        EpochsGrow(e, g, txs, c, r);
        EpochsGrow(e, g, txs, r, i);
        assert false;
      }
    }
  }

  /** Over all runs: the author of a block is authorized by the blocks below it, unless the block is a
      create that named, when it was checked, an epoch not open yet. */
  lemma OnlyPrematureCreatesOutliveTheirKey(l: Launch, s: Server, i: nat)
    requires Startable(l) && Reachable(l, s) && 1 <= i < |s.txs|
    ensures |s.checks| == |s.txs| && 1 <= s.checks[i] <= i
    ensures var seed := OriginOf(l).seed;
      s.txs[i].body.author !in Below(l.e, seed, s.txs, i).authorized ==>
        Premature(l.e, s.mem.owner, Below(l.e, seed, s.txs, s.checks[i]), s.txs[i])
  {
    hide Reachable, Startable, Below, Premature, AllLawful;
    BlocksWereChecked(l, s, i);
    ReachableIsLawful(l, s);
    if !Premature(l.e, s.mem.owner, Below(l.e, OriginOf(l).seed, s.txs, s.checks[i]), s.txs[i]) {
      StaysAuthorized(l.e, OriginOf(l), s.txs, s.checks[i], i);
    }
  }

  /** After a bundle revokes a key, a block by that key follows a grant by the owner between the bundle,
      which may regrant it itself, and the block; or it is a create checked before the bundle that named
      an epoch not open then. */
  lemma RevokedKeyNeedsTheOwner(l: Launch, s: Server, key: Bytes, r: nat, i: nat)
    requires Startable(l) && Reachable(l, s)
    requires 1 <= r < i < |s.txs| && Revokes(l.e, s.txs[r], key) && s.txs[i].body.author == key
    ensures |s.checks| == |s.txs| && 1 <= s.checks[i] <= i
    ensures var seed := OriginOf(l).seed;
      || (exists t :: r <= t < i && s.txs[t].body.author == s.mem.owner
                        && Grants(l.e, Below(l.e, seed, s.txs, t), s.txs[t], key))
      || (s.checks[i] <= r && Premature(l.e, s.mem.owner, Below(l.e, seed, s.txs, s.checks[i]), s.txs[i]))
  {
    hide Reachable, Startable, Revokes, Below, Granted, Premature;
    var g := OriginOf(l);
    ReachableIsLawful(l, s);
    OnlyPrematureCreatesOutliveTheirKey(l, s, i);
    if t :| r <= t < i && Grants(l.e, Below(l.e, g.seed, s.txs, t), s.txs[t], key) {
      assert Lawful(l.e, g, s.txs, t);
    } else {
      RevokedStaysOut(l.e, g, s.txs, key, r, i);
      if r < s.checks[i] {
        BlocksWereChecked(l, s, i);
        RevokedStaysOut(l.e, g, s.txs, key, r, s.checks[i]);
      }
    }
  }

  // ----- the requests that do not -----

  lemma ReachableSteps(l: Launch, s: Server, ev: Event)
    requires Reachable(l, s) && Clean(l.e, s, ev)
    ensures Reachable(l, Step(l.e, s, ev))
  {
    hide Step, Clean;
    var events :| CleanRun(l.e, SeedServer(l), events) && s == Run(l.e, SeedServer(l), events);
    assert (events + [ev])[..|events|] == events;
    assert CleanRun(l.e, SeedServer(l), events + [ev]);
    assert Run(l.e, SeedServer(l), events + [ev]) == Step(l.e, s, ev);
  }

  /** rot is the owner's bundle that revokes the author of tx, does not grant it again, and opens the
      epoch tx names. */
  predicate Overtakes(e: Env, m: Mem, rot: Tx, tx: Tx) {
    && rot.body.author == m.owner
    && Revokes(e, rot, tx.body.author) && !Grants(e, m.authority, rot, tx.body.author)
    && RotationEpoch(e, rot) == CreateEpoch(e, tx)
  }

  ghost function AfterPost(e: Env, s: Server, tx: Tx, inputs: Inputs): Server {
    Step(e, s, Post(tx, inputs))
  }

  /** The bundle is posted between the check of tx and its accept. */
  ghost function AfterOvertaking(e: Env, s: Server, tx: Tx, rot: Tx, first: Inputs, second: Inputs): Server {
    Step(e, AfterPost(e, Step(e, s, Check(tx)), rot, first), Accept(CheckedNow(s, tx), second))
  }

  /** The request is appended when posted now. */
  ghost predicate Appends(e: Env, s: Server, tx: Tx, inputs: Inputs) {
    && Growable(s.mem) && CheckPost(e, s.mem, tx) == None
    && TryAccept(e, s.mem, s.disk, tx, inputs).2.AcceptOk?
  }

  /** Nothing but the operation itself can stop the accept of tx. */
  ghost predicate Unhindered(e: Env, m: Mem, tx: Tx, inputs: Inputs) {
    Growable(m) && EarlyCheck(m, tx) == None && Minable(e, m, tx, inputs) && inputs.ioOk
  }

  lemma PostedAfterCheck(l: Launch, s: Server, tx: Tx, rot: Tx, first: Inputs)
    requires Reachable(l, s) && CheckPost(l.e, s.mem, tx) == None && Appends(l.e, s, rot, first)
    ensures var s2 := AfterPost(l.e, Step(l.e, s, Check(tx)), rot, first);
      && Reachable(l, s2) && s2.txs == s.txs + [rot] && CheckedNow(s, tx) in s2.inFlight
      && s2.mem == AfterPost(l.e, s, rot, first).mem
  {
    hide CheckPost, TryAccept, Reachable;
    ReachableSteps(l, s, Check(tx));
    ReachableSteps(l, Step(l.e, s, Check(tx)), Post(rot, first));
  }

  /** Every premature request that passes its checks, and that a bundle opening its epoch overtakes,
      is appended although its author is no longer authorized. */
  lemma PrematureOutlivesItsKey(l: Launch, s: Server, tx: Tx, rot: Tx, first: Inputs, second: Inputs)
    requires Startable(l) && Reachable(l, s)
    requires CheckPost(l.e, s.mem, tx) == None && Premature(l.e, s.mem.owner, s.mem.authority, tx)
    requires Overtakes(l.e, s.mem, rot, tx) && Appends(l.e, s, rot, first)
    requires Unhindered(l.e, AfterPost(l.e, s, rot, first).mem, tx, second)
    ensures var s3, n := AfterOvertaking(l.e, s, tx, rot, first, second), |s.txs|;
      && Reachable(l, s3) && s3.txs == s.txs + [rot, tx] && |s3.checks| == n + 2 && s3.checks[n + 1] == n > 0
      && tx.body.author !in Below(l.e, OriginOf(l).seed, s3.txs, n + 1).authorized
  {
    hide CheckPost, TryAccept, Reachable, Startable, Sound, Vouched, Minable, EarlyCheck, Below, Grants, Revokes;
    var g, n := OriginOf(l), |s.txs|;
    PostedAfterCheck(l, s, tx, rot, first);
    var s2 := AfterPost(l.e, Step(l.e, s, Check(tx)), rot, first);
    ReachableInvariant(l, s);
    ReachableInvariant(l, s2);
    BelowExtends(l.e, g.seed, s.txs, rot, n);
    KeyAfter(l.e, s.mem.authority, rot, tx.body.author);
    OpensItsEpoch(l.e, s.mem.authority, rot, tx);
    CreateGoesThrough(l.e, s2.mem, s2.disk, s2.txs, tx, second);
    ReachableSteps(l, s2, Accept(CheckedNow(s, tx), second));
    var s3 := AfterOvertaking(l.e, s, tx, rot, first, second);
    BlocksWereChecked(l, s3, n + 1);
    assert s3.txs == s.txs + [rot, tx];
    BelowExtends(l.e, g.seed, s2.txs, tx, n + 1);
  }

  lemma OpensItsEpoch(e: Env, a: Authority, rot: Tx, tx: Tx)
    requires Revokes(e, rot, tx.body.author) && RotationEpoch(e, rot) == CreateEpoch(e, tx)
    ensures Effect(e, a, rot).keyEpoch == CreateEpoch(e, tx)
  {
  }

  lemma CreateGoesThrough(e: Env, m: Mem, disk: Disk, txs: seq<Tx>, tx: Tx, inputs: Inputs)
    requires Sound(e, m, disk, txs) && Unhindered(e, m, tx, inputs)
    requires IsCreate(tx) && CreateEpoch(e, tx) == m.authority.keyEpoch > 0
    ensures TryAccept(e, m, disk, tx, inputs).2.AcceptOk?
  {
    hide TryAccept, Sound, Minable, EarlyCheck;
    AcceptsExactly(e, m, disk, txs, tx, inputs);
  }

  // ----- requests handled one at a time -----

  ghost predicate ReachableSerially(l: Launch, s: Server) {
    exists events :: Serial(events) && CleanRun(l.e, SeedServer(l), events) && s == Run(l.e, SeedServer(l), events)
  }

  ghost predicate AuthorsAuthorized(e: Env, g: Origin, txs: seq<Tx>) {
    forall i :: 1 <= i < |txs| ==> txs[i].body.author in Below(e, g.seed, txs, i).authorized
  }

  /** Every block was checked directly below itself. */
  predicate ChecksAreCurrent(s: Server) {
    |s.checks| == |s.txs| && forall i :: 1 <= i < |s.txs| ==> s.checks[i] == i
  }

  lemma SerialStep(e: Env, s: Server, ev: Event)
    requires ChecksAreCurrent(s) && (ev.Post? || ev.Restart?)
    ensures ChecksAreCurrent(Step(e, s, ev))
  {
    hide CheckPost, TryAccept, Rebuild;
  }

  lemma {:induction false} SerialRun(e: Env, s: Server, events: seq<Event>)
    requires ChecksAreCurrent(s) && Serial(events)
    ensures ChecksAreCurrent(Run(e, s, events))
    decreases |events|
  {
    hide ChecksAreCurrent, Step;
    if |events| > 0 {
      SerialRun(e, s, events[..|events| - 1]);
      SerialStep(e, Run(e, s, events[..|events| - 1]), events[|events| - 1]);
    }
  }

  /** Chain-derived authority: when requests are handled one at a time, the author of every block is
      authorized by the replay of the blocks below it. */
  lemma AuthorsAreAuthorized(l: Launch, s: Server)
    requires Startable(l) && ReachableSerially(l, s)
    ensures Reachable(l, s) && ChecksAreCurrent(s) && AuthorsAuthorized(l.e, OriginOf(l), s.txs)
  {
    hide Startable, Sound, Recorded, Below;
    var events :| Serial(events) && CleanRun(l.e, SeedServer(l), events) && s == Run(l.e, SeedServer(l), events);
    SerialRun(l.e, SeedServer(l), events);
    forall i | 1 <= i < |s.txs|
      ensures s.txs[i].body.author in Below(l.e, OriginOf(l).seed, s.txs, i).authorized
    {
      BlocksWereChecked(l, s, i);
    }
  }
}
