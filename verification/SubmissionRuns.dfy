/**
 Submission over a network that may lose, delay and duplicate requests and replies: whatever the
 interleaving, nothing is appended twice and a row marked synced is on the chain.
 */
module SubmissionRuns {
  import opened Arith
  import opened ByteStrings
  import opened InclusionProofs
  import opened Wire
  import opened Ledger
  import opened LedgerInvariants
  import opened LedgerHistory
  import opened LedgerRuns
  import opened RequestOutcomes
  import opened ClientOutbox

  /** A reply the server sent about tx, and how many blocks its chain had then. */
  datatype Answer = Answer(tx: Tx, reply: Reply, at: nat)

  /** A server, one client's rows, and every reply the server ever sent: a reply may arrive late, more
      than once, or never. A request that is lost is one the server never serves; a retried one it
      serves again. */
  datatype Net = Net(server: Server, rows: Rows, replies: set<Answer>)

  datatype NetEvent =
      Serve(ev: Event)
    | Store(id: string, item: Item)
    | Receive(id: string, reply: Reply)
    | Drop(id: string)

  /** The reply to a request whose failing check, accept, or whole handling is this event. */
  ghost function RepliesTo(e: Env, s: Server, ev: Event): set<Answer>
    requires Growable(s.mem)
  {
    match ev
    case Check(tx) =>
      (match CheckPost(e, s.mem, tx)
       case Some(code) => {Answer(tx, Error(StatusOf(code), code), |s.txs|)}
       case None => {})
    case Accept(q, inputs) =>
      if q in s.inFlight then
        var (m', _, r) := TryAccept(e, s.mem, s.disk, q.tx, inputs);
        {Answer(q.tx, ReplyOf(m', r), |s.txs|)}
      else {}
    case Post(tx, inputs) => {Answer(tx, HandlePost(e, s.mem, s.disk, tx, inputs).2, |s.txs|)}
    case Restart => {}
  }

  /** The row's payload is this transaction. */
  predicate Holds(e: Env, item: Item, tx: Tx) {
    Decode(e.decodeTx, item.payload) == Some(tx)
  }

  ghost function NetStep(e: Env, n: Net, ev: NetEvent): Net {
    match ev
    case Serve(sev) =>
      if !Growable(n.server.mem) then n
      else n.(server := Step(e, n.server, sev), replies := n.replies + RepliesTo(e, n.server, sev))
    case Store(id, item) =>
      n.(rows := if id in n.rows then Marked(n.rows, id, item.status) else n.rows[id := item])
    case Receive(id, reply) =>
      if Settle(reply) == Pending then n else n.(rows := Marked(n.rows, id, Settle(reply)))
    case Drop(id) => n.(rows := Marked(n.rows, id, Failed))
  }

  /** Server steps are clean, rows are stored pending, a reply that arrives was sent in answer to the
      row's own transaction, and a row is dropped when it holds none. */
  ghost predicate CleanNet(e: Env, n: Net, ev: NetEvent) {
    match ev
    case Serve(sev) => Clean(e, n.server, sev)
    case Store(_, item) => item.status == Pending
    case Receive(id, reply) =>
      id in n.rows && exists a :: a in n.replies && a.reply == reply && Holds(e, n.rows[id], a.tx)
    case Drop(id) => id in n.rows ==> Decode(e.decodeTx, n.rows[id].payload) == None
  }

  ghost function NetRun(e: Env, n: Net, events: seq<NetEvent>): Net {
    if |events| == 0 then n else NetStep(e, NetRun(e, n, events[..|events| - 1]), events[|events| - 1])
  }

  ghost predicate CleanNetRun(e: Env, n: Net, events: seq<NetEvent>) {
    |events| > 0 ==>
      && CleanNetRun(e, n, events[..|events| - 1])
      && CleanNet(e, NetRun(e, n, events[..|events| - 1]), events[|events| - 1])
  }

  // ----- the invariant -----

  /** Some block carries tx's id, or tx is a create and some block creates its note. */
  ghost predicate OnChain(txs: seq<Tx>, tx: Tx) {
    || (exists i :: 1 <= i < |txs| && txs[i].id == tx.id)
    || (IsCreate(tx) && NoteOnChain(txs, tx.body.noteId))
  }

  ghost predicate NoteOnChain(txs: seq<Tx>, note: Bytes) {
    exists i :: 1 <= i < |txs| && IsCreate(txs[i]) && txs[i].body.noteId == note
  }

  ghost predicate Settled(e: Env, txs: seq<Tx>, tx: Tx) {
    HasId(e, tx) && OnChain(txs, tx)
  }

  /** A failing reply about a transaction that is already on the chain says its author is no longer authorized. */
  ghost predicate FailsTruly(e: Env, g: Origin, txs: seq<Tx>, a: Answer) {
    && 1 <= a.at <= |txs|
    && forall i :: 1 <= i < a.at && txs[i] == a.tx ==>
         a.reply == Error(403, UnauthorizedKey) && !AuthorizedBelow(e, g, txs, a.tx.body.author, a.at)
  }

  ghost predicate AnswerTrue(e: Env, g: Origin, txs: seq<Tx>, a: Answer) {
    match Settle(a.reply)
    case Synced => Settled(e, txs, a.tx)
    case Failed => FailsTruly(e, g, txs, a)
    case Pending => true
  }

  ghost predicate RepliesTrue(e: Env, g: Origin, n: Net) {
    forall a :: a in n.replies ==> AnswerTrue(e, g, n.server.txs, a)
  }

  ghost predicate WasRefused(n: Net, tx: Tx) {
    exists a :: a in n.replies && a.tx == tx && Settle(a.reply) == Failed
  }

  ghost predicate RowTrue(e: Env, n: Net, item: Item) {
    match item.status
    case Synced => exists tx :: Holds(e, item, tx) && Settled(e, n.server.txs, tx)
    case Failed => forall tx :: Holds(e, item, tx) ==> WasRefused(n, tx)
    case Pending => true
  }

  ghost predicate RowsTrue(e: Env, n: Net) {
    forall id :: id in n.rows ==> RowTrue(e, n, n.rows[id])
  }

  ghost predicate NetInvariant(e: Env, g: Origin, n: Net) {
    Invariant(e, g, n.server) && RepliesTrue(e, g, n) && RowsTrue(e, n)
  }

  // ----- it is kept -----

  ghost predicate Extends(txs: seq<Tx>, longer: seq<Tx>) {
    |txs| <= |longer| && longer[..|txs|] == txs
  }

  lemma StillOnChain(txs: seq<Tx>, longer: seq<Tx>, tx: Tx)
    requires Extends(txs, longer) && OnChain(txs, tx)
    ensures OnChain(longer, tx)
  {
    assert forall i :: 0 <= i < |txs| ==> longer[i] == longer[..|txs|][i];
    if i :| 1 <= i < |txs| && txs[i].id == tx.id {
      assert longer[i] == txs[i];
    } else {
      var i :| 1 <= i < |txs| && IsCreate(txs[i]) && txs[i].body.noteId == tx.body.noteId;
      assert longer[i] == txs[i];
    }
  }

  lemma AnswerStaysTrue(e: Env, g: Origin, txs: seq<Tx>, longer: seq<Tx>, a: Answer)
    requires Extends(txs, longer) && AnswerTrue(e, g, txs, a)
    ensures AnswerTrue(e, g, longer, a)
  {
    hide OnChain, Below;
    match Settle(a.reply)
    case Synced => StillOnChain(txs, longer, a.tx);
    case Pending =>
    case Failed =>
      assert forall i :: 0 <= i < |txs| ==> longer[i] == longer[..|txs|][i];
      assert longer[1..a.at] == txs[1..a.at];
      SameBelow(e, g, txs, longer, a.at);
  }

  lemma SameBelow(e: Env, g: Origin, txs: seq<Tx>, longer: seq<Tx>, i: nat)
    requires 1 <= i <= |txs| && i <= |longer| && longer[1..i] == txs[1..i]
    ensures Below(e, g.seed, longer, i) == Below(e, g.seed, txs, i)
  {
  }

  lemma RowStaysTrue(e: Env, n: Net, n': Net, item: Item)
    requires Extends(n.server.txs, n'.server.txs) && n.replies <= n'.replies && RowTrue(e, n, item)
    ensures RowTrue(e, n', item)
  {
    hide OnChain;
    if item.status == Synced {
      var tx :| Holds(e, item, tx) && Settled(e, n.server.txs, tx);
      StillOnChain(n.server.txs, n'.server.txs, tx);
    }
  }

  /** A settling or failing reply to a request that reached tryAccept is true of the chain after it. */
  lemma ReplyIsTrue(e: Env, g: Origin, s: Server, q: Request, inputs: Inputs)
    requires Recorded(e, g, s.mem, s.txs) && Growable(s.mem) && HasId(e, q.tx)
    requires CleanAccept(e, s.mem, s.disk, q.tx, inputs)
    ensures var (m', _, r) := TryAccept(e, s.mem, s.disk, q.tx, inputs);
      AnswerTrue(e, g, Accepting(e, s, q, inputs).txs, Answer(q.tx, ReplyOf(m', r), |s.txs|))
  {
    hide Below, BodiesStored, Lawful;
    var tx, s' := q.tx, Accepting(e, s, q, inputs);
    var r := TryAccept(e, s.mem, s.disk, tx, inputs).2;
    match r
    case AcceptOk(_) => assert s'.txs[|s.txs|] == tx;
    case DuplicateTx => assert IdsMatch(s.mem, s.txs);
    case DuplicateNote => assert NotesMatch(s.mem, s.txs);
    case Rejected(code) => RejectionsAreTrue(e, g, s, q, inputs);
  }

  /** A rejection settles nothing, and comes only when the transaction is not on the chain. */
  lemma RejectionsAreTrue(e: Env, g: Origin, s: Server, q: Request, inputs: Inputs)
    requires Recorded(e, g, s.mem, s.txs) && Growable(s.mem) && TryAccept(e, s.mem, s.disk, q.tx, inputs).2.Rejected?
    ensures var (m', _, r) := TryAccept(e, s.mem, s.disk, q.tx, inputs);
      AnswerTrue(e, g, s.txs, Answer(q.tx, ReplyOf(m', r), |s.txs|))
  {
    hide Below, BodiesStored, Lawful, NotesMatch;
    RejectionsDoNotSettle(e, s.mem, s.disk, q.tx, inputs);
    assert IdsMatch(s.mem, s.txs);
  }

  lemma RejectionsDoNotSettle(e: Env, m: Mem, disk: Disk, tx: Tx, inputs: Inputs)
    requires Growable(m) && TryAccept(e, m, disk, tx, inputs).2.Rejected?
    ensures Settle(ReplyOf(m, TryAccept(e, m, disk, tx, inputs).2)) != Synced && tx.id !in m.txIds
  {
  }

  /** Of a transaction that proves itself, only the author's key is left to check. */
  lemma OnlyTheAuthorFails(e: Env, m: Mem, tx: Tx)
    requires SelfProving(e, m.target, tx)
    ensures CheckPost(e, m, tx) == if tx.body.author in m.authority.authorized then None else Some(UnauthorizedKey)
  {
  }

  lemma ChecksSettleNothing(e: Env, m: Mem, tx: Tx)
    requires CheckPost(e, m, tx).Some?
    ensures var code := CheckPost(e, m, tx).value; Settle(Error(StatusOf(code), code)) == Failed
  {
  }

  /** A failing check of a transaction on the chain is the check of its author. */
  lemma RefusalIsTrue(e: Env, g: Origin, s: Server, tx: Tx)
    requires Invariant(e, g, s) && CheckPost(e, s.mem, tx).Some?
    ensures var code := CheckPost(e, s.mem, tx).value;
      AnswerTrue(e, g, s.txs, Answer(tx, Error(StatusOf(code), code), |s.txs|))
  {
    hide Sound, Below, Lawful, IdsMatch, NotesMatch, BodiesStored, SelfProving, CheckPost;
    ChecksSettleNothing(e, s.mem, tx);
    forall i | 1 <= i < |s.txs| && s.txs[i] == tx
      ensures CheckPost(e, s.mem, tx) == Some(UnauthorizedKey) && !AuthorizedBelow(e, g, s.txs, tx.body.author, |s.txs|)
    {
      assert PassedBelow(e, g, s.mem.target, s.txs, s.txs[i], s.checks[i]);
      OnlyTheAuthorFails(e, s.mem, tx);
    }
  }

  lemma ServeExtends(e: Env, g: Origin, s: Server, ev: Event)
    requires e.Codecs() && Invariant(e, g, s) && Clean(e, s, ev)
    ensures Extends(s.txs, Step(e, s, ev).txs)
  {
    hide Invariant, TryAccept, CheckPost, Rebuild;
  }

  lemma ServeRepliesTrue(e: Env, g: Origin, s: Server, ev: Event)
    requires Invariant(e, g, s) && Clean(e, s, ev)
    ensures forall a :: a in RepliesTo(e, s, ev) ==> AnswerTrue(e, g, Step(e, s, ev).txs, a)
  {
    hide Sound, Recorded, TryAccept, CheckPost, AnswerTrue, Rebuild, CleanAccept;
    match ev
    case Check(tx) =>
      if CheckPost(e, s.mem, tx).Some? {
        RefusalIsTrue(e, g, s, tx);
      }
    case Accept(q, inputs) =>
      if q in s.inFlight {
        assert PassedBelow(e, g, s.mem.target, s.txs, q.tx, q.checkedAt);
        ReplyIsTrue(e, g, s, q, inputs);
      }
    case Post(tx, inputs) =>
      if CheckPost(e, s.mem, tx) == None {
        CheckedIsVouched(e, g, s, tx);
        ReplyIsTrue(e, g, s, CheckedNow(s, tx), inputs);
      } else {
        RefusalIsTrue(e, g, s, tx);
      }
    case Restart =>
  }

  lemma ServeKeepsInvariant(e: Env, g: Origin, n: Net, ev: Event)
    requires e.Codecs() && NetInvariant(e, g, n) && Clean(e, n.server, ev)
    ensures NetInvariant(e, g, NetStep(e, n, Serve(ev)))
  {
    hide Invariant, AnswerTrue, RowTrue, RepliesTo, Extends, Step;
    var n' := NetStep(e, n, Serve(ev));
    StepKeepsInvariant(e, g, n.server, ev);
    ServeExtends(e, g, n.server, ev);
    ServeRepliesTrue(e, g, n.server, ev);
    forall a | a in n.replies
      ensures AnswerTrue(e, g, n'.server.txs, a)
    {
      AnswerStaysTrue(e, g, n.server.txs, n'.server.txs, a);
    }
    forall id | id in n'.rows
      ensures RowTrue(e, n', n'.rows[id])
    {
      RowStaysTrue(e, n, n', n'.rows[id]);
    }
  }

  lemma NetStepKeepsInvariant(e: Env, g: Origin, n: Net, ev: NetEvent)
    requires e.Codecs() && NetInvariant(e, g, n) && CleanNet(e, n, ev)
    ensures NetInvariant(e, g, NetStep(e, n, ev))
  {
    hide Invariant, RowsTrue, AnswerTrue;
    match ev
    case Serve(sev) => ServeKeepsInvariant(e, g, n, sev);
    case _ => RowsStayTrue(e, g, n, ev);
  }

  /** The client's own steps keep its rows true. */
  lemma RowsStayTrue(e: Env, g: Origin, n: Net, ev: NetEvent)
    requires RepliesTrue(e, g, n) && RowsTrue(e, n) && CleanNet(e, n, ev) && !ev.Serve?
    ensures RowsTrue(e, NetStep(e, n, ev))
  {
    hide OnChain, FailsTruly;
    var n' := NetStep(e, n, ev);
    forall id | id in n'.rows
      ensures RowTrue(e, n', n'.rows[id])
    {
      assert id in n.rows ==> RowTrue(e, n, n.rows[id]);
      if ev.Receive? && ev.id == id {
        var a :| a in n.replies && a.reply == ev.reply && Holds(e, n.rows[id], a.tx);
        assert AnswerTrue(e, g, n.server.txs, a);
        assert Holds(e, n'.rows[id], a.tx);
      }
    }
  }

  lemma {:induction false} NetRunKeepsInvariant(e: Env, g: Origin, n: Net, events: seq<NetEvent>)
    requires e.Codecs() && NetInvariant(e, g, n) && CleanNetRun(e, n, events)
    ensures NetInvariant(e, g, NetRun(e, n, events))
    decreases |events|
  {
    if |events| > 0 {
      NetRunKeepsInvariant(e, g, n, events[..|events| - 1]);
      NetStepKeepsInvariant(e, g, NetRun(e, n, events[..|events| - 1]), events[|events| - 1]);
    }
  }

  // ----- exactly once -----

  ghost predicate NetReachable(l: Launch, n: Net) {
    exists events :: CleanNetRun(l.e, Net(SeedServer(l), map[], {}), events)
      && n == NetRun(l.e, Net(SeedServer(l), map[], {}), events)
  }

  lemma NetReachableInvariant(l: Launch, n: Net)
    requires Startable(l) && NetReachable(l, n)
    ensures NetInvariant(l.e, OriginOf(l), n)
  {
    var start := Net(SeedServer(l), map[], {});
    var events :| CleanNetRun(l.e, start, events) && n == NetRun(l.e, start, events);
    SeedInvariant(l);
    NetRunKeepsInvariant(l.e, OriginOf(l), start, events);
  }

  /** No two blocks carry the same transaction id, and no two creates the same note id. */
  lemma NothingTwice(l: Launch, n: Net, i: nat, j: nat)
    requires Startable(l) && NetReachable(l, n) && 1 <= i < j < |n.server.txs|
    ensures n.server.txs[i].id != n.server.txs[j].id
    ensures IsCreate(n.server.txs[i]) && IsCreate(n.server.txs[j])
      ==> n.server.txs[i].body.noteId != n.server.txs[j].body.noteId
  {
    NetReachableInvariant(l, n);
    assert IdsMatch(n.server.mem, n.server.txs) && NotesMatch(n.server.mem, n.server.txs);
  }

  predicate IdCollision(e: Env, a: Tx, b: Tx) {
    IsCollision(e.sha, InputPair(TxIdDomain, Encode(e.encodeBody, a.body), Encode(e.encodeBody, b.body)))
  }

  lemma SameIdOrCollision(e: Env, a: Tx, b: Tx)
    requires e.Codecs() && HasId(e, a) && HasId(e, b) && a.id == b.id
    ensures a.body == b.body || IdCollision(e, a, b)
  {
    assert Decode(e.decodeBody, Encode(e.encodeBody, a.body)) == Some(a.body);
    assert Decode(e.decodeBody, Encode(e.encodeBody, b.body)) == Some(b.body);
  }

  /** A synced row holding a create has its note on the chain, whatever was lost, delayed or repeated;
      the one way out is a block whose transaction has the same id and another body. */
  lemma SyncedIsOnChain(l: Launch, n: Net, id: string, tx: Tx)
    requires Startable(l) && NetReachable(l, n)
    requires id in n.rows && n.rows[id].status == Synced
    requires Holds(l.e, n.rows[id], tx) && IsCreate(tx)
    ensures NoteOnChain(n.server.txs, tx.body.noteId)
      || exists i :: 1 <= i < |n.server.txs| && IdCollision(l.e, n.server.txs[i], tx)
  {
    NetReachableInvariant(l, n);
    assert RowTrue(l.e, n, n.rows[id]);
    if !NoteOnChain(n.server.txs, tx.body.noteId) {
      var i :| 1 <= i < |n.server.txs| && n.server.txs[i].id == tx.id;
      assert PassedBelow(l.e, OriginOf(l), n.server.mem.target, n.server.txs, n.server.txs[i], n.server.checks[i]);
      SameIdOrCollision(l.e, n.server.txs[i], tx);
    }
  }

  /** Retrying a transaction that is already on the chain changes nothing and is answered with a
      receipt, as long as the handler's checks pass again. */
  lemma RetryChangesNothing(l: Launch, n: Net, i: nat, tx: Tx, inputs: Inputs)
    requires Startable(l) && NetReachable(l, n) && Growable(n.server.mem)
    requires 1 <= i < |n.server.txs| && n.server.txs[i].id == tx.id && CheckPost(l.e, n.server.mem, tx) == None
    ensures HandlePost(l.e, n.server.mem, n.server.disk, tx, inputs)
      == (n.server.mem, n.server.disk, Receipt(|n.server.txs| - 1))
  {
    hide CheckPost, TryAccept, Chained, Lawful, RepliesTrue, RowsTrue, Vouched;
    NetReachableInvariant(l, n);
    RetriedIsDuplicate(l.e, n.server.mem, n.server.disk, n.server.txs, i, tx, inputs);
  }

  lemma RetriedIsDuplicate(e: Env, m: Mem, disk: Disk, txs: seq<Tx>, i: nat, tx: Tx, inputs: Inputs)
    requires Growable(m) && IdsMatch(m, txs) && MirrorsSets(m, disk)
    requires 1 <= i < |txs| && txs[i].id == tx.id && CheckPost(e, m, tx) == None
    ensures HandlePost(e, m, disk, tx, inputs) == (m, disk, Receipt(|txs| - 1))
  {
  }

  /** The reply to the accept that appends a block is the receipt with the block's height. */
  lemma AppendedReceipt(l: Launch, s: Server, tx: Tx, inputs: Inputs)
    requires Startable(l) && Reachable(l, s) && Growable(s.mem)
    requires TryAccept(l.e, s.mem, s.disk, tx, inputs).2.AcceptOk?
    ensures var (m', _, r) := TryAccept(l.e, s.mem, s.disk, tx, inputs); ReplyOf(m', r) == Receipt(|s.txs|)
  {
    hide TryAccept, Startable, Reachable, Chained, Lawful, Vouched, ApplyOp, NoKeyClash, Committed, BlockHash, Below,
      NotesMatch, BodiesStored;
    ReachableInvariant(l, s);
    var rec, leaf, o := AcceptGrows(l.e, s.mem, s.disk, tx, inputs);
    assert IdsMatch(s.mem, s.txs) && MirrorsSets(s.mem, s.disk);
  }

  /** A resubmission is documented to return the original receipt. It does exactly when nothing was
      appended since: the receipt counts all transactions, whichever was sent. */
  lemma RetryGetsOriginalExactly(l: Launch, s: Server, tx: Tx, first: Inputs, n: Net, again: Inputs)
    requires Startable(l) && Reachable(l, s) && Growable(s.mem)
    requires TryAccept(l.e, s.mem, s.disk, tx, first).2.AcceptOk?
    requires NetReachable(l, n) && Growable(n.server.mem) && CheckPost(l.e, n.server.mem, tx) == None
    requires |s.txs| < |n.server.txs| && n.server.txs[|s.txs|] == tx
    ensures var (m', _, r) := TryAccept(l.e, s.mem, s.disk, tx, first);
      HandlePost(l.e, n.server.mem, n.server.disk, tx, again).2 == ReplyOf(m', r) <==> |n.server.txs| == |s.txs| + 1
  {
    hide TryAccept, CheckPost, HandlePost, Startable, Reachable, NetReachable;
    AppendedReceipt(l, s, tx, first);
    assert |s.txs| > 0 by { StrictPowEpochs(l, s); }
    RetryChangesNothing(l, n, |s.txs|, tx, again);
  }

  // ----- what a submission does to its row -----

  /** The request is appended by this accept. */
  ghost predicate IsAppended(e: Env, m: Mem, tx: Tx, inputs: Inputs)
    requires 0 < |m.blocks| < TWO_63
  {
    Genuine(e, m, tx) && Timely(m, tx) && GoesThrough(e, m, tx, inputs)
  }

  /** One delivered submission of a pending row. The row is synced when its transaction is appended, or is
      genuine and on the chain already, or genuine and refused for its note; it stays pending when it is
      genuine and only its proof-of-work epoch is stale; otherwise it has failed. Other rows stay. */
  lemma DeliveredRowExactly(
    e: Env, m: Mem, disk: Disk, txs: seq<Tx>, rows: Rows, id: string, item: Item, tx: Tx, inputs: Inputs)
    requires Sound(e, m, disk, txs) && |m.blocks| < TWO_63 && m.count < TWO_63
    requires id in rows && rows[id] == item && item.status == Pending && Decode(e.decodeTx, item.payload) == Some(tx)
    ensures var rows' := Submission(e, m, disk, rows, id, item, Delivered, inputs).2;
      && id in rows' && rows' == rows[id := item.(status := rows'[id].status)]
      && (rows'[id].status == Synced <==>
            || IsAppended(e, m, tx, inputs)
            || (Genuine(e, m, tx) && (IsRepeated(m, tx) || NoteIsTaken(m, tx))))
      && (rows'[id].status == Pending <==>
            Genuine(e, m, tx) && !IsRepeated(m, tx) && !NoteIsTaken(m, tx) && tx.powEpoch != m.count / 1000)
  {
    hide LinkedBlock, IsLeafOf, Mirrored, WorkOf, Genuine, GoesThrough, HandlePost, Legal;
    if !Genuine(e, m, tx) {
      RefusedReplies(e, m, disk, tx, inputs);
      RefusedFail(e, m, disk, tx, inputs);
    } else if !Timely(m, tx) {
      UntimelyReplies(e, m, disk, tx, inputs);
    } else {
      TimelyReplies(e, m, disk, txs, tx, inputs);
    }
  }

  /** A check that fails is answered 403, 413 or 422. */
  lemma RefusedFail(e: Env, m: Mem, disk: Disk, tx: Tx, inputs: Inputs)
    requires Growable(m) && !Genuine(e, m, tx)
    ensures var reply := HandlePost(e, m, disk, tx, inputs).2;
      reply.Error? && (reply.status == 403 || reply.status == 413 || reply.status == 422)
  {
    hide TransactionId, SignatureVerifies, TryAccept;
  }

  /** A row whose request or reply is lost stays as it is, and one that holds no transaction has failed. */
  lemma UndeliveredRow(e: Env, m: Mem, disk: Disk, rows: Rows, id: string, item: Item, fate: Fate, inputs: Inputs)
    requires Growable(m) && id in rows && rows[id] == item
    ensures var rows' := Submission(e, m, disk, rows, id, item, fate, inputs).2;
      if Decode(e.decodeTx, item.payload) == None then rows' == rows[id := item.(status := Failed)]
      else fate != Delivered ==> rows' == rows
  {
    hide HandlePost;
  }

  /** A rate-limited submission leaves the row to be retried, whatever the code. */
  lemma RateLimitKeepsRow(e: Env, n: Net, id: string, code: Code)
    ensures NetStep(e, n, Receive(id, Error(429, code))) == n
  {
  }

  // ----- rows marked failed -----

  /** Retrying a transaction that is on the chain is answered with a failing reply exactly when its
      author is no longer authorized: the handler checks the author before it looks for duplicates. */
  lemma RetryFailsExactly(l: Launch, n: Net, i: nat, inputs: Inputs)
    requires Startable(l) && NetReachable(l, n) && Growable(n.server.mem) && 1 <= i < |n.server.txs|
    ensures var (m, disk, reply) := HandlePost(l.e, n.server.mem, n.server.disk, n.server.txs[i], inputs);
      && m == n.server.mem && disk == n.server.disk
      && (Settle(reply) == Failed <==> n.server.txs[i].body.author !in m.authority.authorized)
      && (Settle(reply) == Failed ==> reply == Error(403, UnauthorizedKey))
  {
    hide TryAccept, CheckPost, Sound, Recorded, RepliesTrue, RowsTrue, SelfProving, Startable, NetReachable, Below;
    NetReachableInvariant(l, n);
    var tx := n.server.txs[i];
    assert PassedBelow(l.e, OriginOf(l), n.server.mem.target, n.server.txs, tx, n.server.checks[i]);
    OnlyTheAuthorFails(l.e, n.server.mem, tx);
    if CheckPost(l.e, n.server.mem, tx) == None {
      RetryChangesNothing(l, n, i, tx, inputs);
    }
  }

  lemma NetReachableSteps(l: Launch, n: Net, ev: NetEvent)
    requires NetReachable(l, n) && CleanNet(l.e, n, ev)
    ensures NetReachable(l, NetStep(l.e, n, ev))
  {
    hide NetStep, CleanNet;
    var start := Net(SeedServer(l), map[], {});
    var events :| CleanNetRun(l.e, start, events) && n == NetRun(l.e, start, events);
    assert (events + [ev])[..|events|] == events;
    assert CleanNetRun(l.e, start, events + [ev]) && NetRun(l.e, start, events + [ev]) == NetStep(l.e, n, ev);
  }

  /** Whatever a server can do, it can do while a client's row waits. */
  lemma {:induction false} RowWaits(l: Launch, n: Net, events: seq<Event>) returns (n': Net)
    requires NetReachable(l, n) && CleanRun(l.e, n.server, events)
    ensures NetReachable(l, n') && n'.server == Run(l.e, n.server, events) && n'.rows == n.rows
    decreases |events|
  {
    hide NetReachable, Step, Clean, RepliesTo;
    n' := n;
    if |events| > 0 {
      var front, ev := events[..|events| - 1], events[|events| - 1];
      var before := RowWaits(l, n, front);
      assert Clean(l.e, before.server, ev) && Growable(before.server.mem) by { CleanIsGrowable(l.e, before.server, ev); }
      NetReachableSteps(l, before, Serve(ev));
      n' := NetStep(l.e, before, Serve(ev));
    }
  }

  lemma CleanIsGrowable(e: Env, s: Server, ev: Event)
    requires Clean(e, s, ev)
    ensures Growable(s.mem)
  {
  }

  lemma ReachableWithRow(l: Launch, s: Server, id: string, item: Item) returns (n: Net)
    requires Reachable(l, s) && item.status == Pending
    ensures NetReachable(l, n) && n.server == s && n.rows == map[id := item]
  {
    hide NetReachable, CleanRun, Run, SeedServer;
    var events :| CleanRun(l.e, SeedServer(l), events) && s == Run(l.e, SeedServer(l), events);
    var start := Net(SeedServer(l), map[], {});
    StartIsReachable(l);
    NetReachableSteps(l, start, Store(id, item));
    n := RowWaits(l, NetStep(l.e, start, Store(id, item)), events);
  }

  lemma StartIsReachable(l: Launch)
    ensures NetReachable(l, Net(SeedServer(l), map[], {}))
  {
    hide SeedServer, NetStep, CleanNet;
    var start := Net(SeedServer(l), map[], {});
    assert CleanNetRun(l.e, start, []) && NetRun(l.e, start, []) == start;
  }

  /** A row that waits for a transaction which is on the chain, by an author who is no longer authorized,
      is marked failed by the next submission, although its transaction is there. */
  lemma RetriedRowFails(l: Launch, n: Net, id: string, i: nat, inputs: Inputs)
    requires Startable(l) && NetReachable(l, n) && Growable(n.server.mem) && 1 <= i < |n.server.txs|
    requires id in n.rows && Holds(l.e, n.rows[id], n.server.txs[i])
    requires n.server.txs[i].body.author !in n.server.mem.authority.authorized
    ensures var sent := NetStep(l.e, n, Serve(Post(n.server.txs[i], inputs)));
      var n' := NetStep(l.e, sent, Receive(id, Error(403, UnauthorizedKey)));
      NetReachable(l, n') && n'.server == n.server && n'.rows == n.rows[id := n.rows[id].(status := Failed)]
  {
    hide TryAccept, CheckPost, NetReachable, Startable;
    var tx := n.server.txs[i];
    RetryFailsExactly(l, n, i, inputs);
    AcceptKeepsNothing(l, n, i, inputs);
    var sent := NetStep(l.e, n, Serve(Post(tx, inputs)));
    NetReachableSteps(l, n, Serve(Post(tx, inputs)));
    assert Answer(tx, Error(403, UnauthorizedKey), |n.server.txs|) in sent.replies;
    NetReachableSteps(l, sent, Receive(id, Error(403, UnauthorizedKey)));
  }

  lemma AcceptKeepsNothing(l: Launch, n: Net, i: nat, inputs: Inputs)
    requires Growable(n.server.mem) && 1 <= i < |n.server.txs|
    requires n.server.txs[i].body.author !in n.server.mem.authority.authorized
    ensures CheckPost(l.e, n.server.mem, n.server.txs[i]) != None
  {
  }

  /** When a row marked failed holds a transaction that is on the chain, a failing reply about it was
      sent before its block was appended, or below a chain that does not authorize its author. */
  lemma FailedRowOnChain(l: Launch, n: Net, id: string, i: nat)
    requires Startable(l) && NetReachable(l, n) && 1 <= i < |n.server.txs|
    requires id in n.rows && n.rows[id].status == Failed && Holds(l.e, n.rows[id], n.server.txs[i])
    ensures exists a ::
      && a in n.replies && a.tx == n.server.txs[i] && Settle(a.reply) == Failed
      && (a.at <= i || !AuthorizedBelow(l.e, OriginOf(l), n.server.txs, a.tx.body.author, a.at))
  {
    hide NetReachable, Startable, Invariant, Below;
    NetReachableInvariant(l, n);
    assert RowTrue(l.e, n, n.rows[id]);
    var a :| a in n.replies && a.tx == n.server.txs[i] && Settle(a.reply) == Failed;
    assert AnswerTrue(l.e, OriginOf(l), n.server.txs, a);
  }

  // ----- the client's code is such a run -----

  /** The events of one submission. */
  ghost function EventsOf(e: Env, n: Net, id: string, item: Item, fate: Fate, inputs: Inputs): seq<NetEvent>
    requires Growable(n.server.mem)
  {
    var tx := Decode(e.decodeTx, item.payload);
    if tx == None then [Drop(id)]
    else if fate == RequestLost then []
    else if fate == ReplyLost then [Serve(Post(tx.value, inputs))]
    else
      [Serve(Post(tx.value, inputs)),
       Receive(id, HandlePost(e, n.server.mem, n.server.disk, tx.value, inputs).2)]
  }

  lemma TwoEvents(e: Env, n: Net, a: NetEvent, b: NetEvent)
    ensures NetRun(e, n, []) == n && CleanNetRun(e, n, [])
    ensures NetRun(e, n, [a]) == NetStep(e, n, a) && (CleanNetRun(e, n, [a]) <==> CleanNet(e, n, a))
    ensures NetRun(e, n, [a, b]) == NetStep(e, NetStep(e, n, a), b)
    ensures CleanNetRun(e, n, [a, b]) <==> CleanNet(e, n, a) && CleanNet(e, NetStep(e, n, a), b)
  {
    assert [a][..0] == [] && [a, b][..1] == [a];
  }

  /** What SyncOne does to the server and the row is one of the runs above, clean when the server's
      step is, so every property of the runs holds of the client's code. */
  lemma SubmissionIsARun(e: Env, n: Net, id: string, item: Item, fate: Fate, inputs: Inputs)
    requires Growable(n.server.mem) && id in n.rows && n.rows[id] == item
    ensures var events := EventsOf(e, n, id, item, fate, inputs);
      var n' := NetRun(e, n, events);
      && Submission(e, n.server.mem, n.server.disk, n.rows, id, item, fate, inputs)
         == (n'.server.mem, n'.server.disk, n'.rows)
      && ((forall tx :: Decode(e.decodeTx, item.payload) == Some(tx) ==> Clean(e, n.server, Post(tx, inputs)))
          ==> CleanNetRun(e, n, events))
  {
    var events := EventsOf(e, n, id, item, fate, inputs);
    if |events| == 2 {
      TwoEvents(e, n, events[0], events[1]);
    } else if |events| == 1 {
      TwoEvents(e, n, events[0], events[0]);
    } else {
      TwoEvents(e, n, Drop(id), Drop(id));
    }
  }

  lemma {:induction false} NetRunSplits(e: Env, n: Net, a: seq<NetEvent>, b: seq<NetEvent>)
    ensures NetRun(e, n, a + b) == NetRun(e, NetRun(e, n, a), b)
    ensures CleanNetRun(e, n, a + b) <==> CleanNetRun(e, n, a) && CleanNetRun(e, NetRun(e, n, a), b)
    decreases |b|
  {
    hide NetStep, CleanNet;
    if |b| == 0 {
      assert a + b == a;
    } else {
      var front := b[..|b| - 1];
      assert (a + b)[..|a + b| - 1] == a + front && (a + b)[|a + b| - 1] == b[|b| - 1];
      NetRunSplits(e, n, a, front);
    }
  }

  /** Posting the row's transaction leaves nothing half done. */
  ghost predicate CleanRow(e: Env, m: Mem, disk: Disk, item: Item, inputs: Inputs) {
    Growable(m) && forall tx :: Holds(e, item, tx) && CheckPost(e, m, tx) == None ==> CleanAccept(e, m, disk, tx, inputs)
  }

  ghost predicate CleanSubmissions(
    e: Env, m: Mem, disk: Disk, rows: Rows, pending: seq<(string, Item)>, fates: seq<Fate>, inputs: seq<Inputs>)
    requires 0 < |m.blocks| && |m.blocks| + |pending| <= TWO_63
    requires |pending| <= |fates| && |pending| <= |inputs|
    decreases |pending|
  {
    if |pending| == 0 then true
    else
      SubmissionGrows(e, m, disk, rows, pending[0].0, pending[0].1, fates[0], inputs[0]);
      var (m', disk', rows') := Submission(e, m, disk, rows, pending[0].0, pending[0].1, fates[0], inputs[0]);
      CleanRow(e, m, disk, pending[0].1, inputs[0])
      && CleanSubmissions(e, m', disk', rows', pending[1..], fates[1..], inputs[1..])
  }

  /** The listed rows are there, each listed once. */
  predicate RowsAre(rows: Rows, pending: seq<(string, Item)>) {
    && (forall i :: 0 <= i < |pending| ==> pending[i].0 in rows && rows[pending[i].0] == pending[i].1)
    && (forall i, j :: 0 <= i < j < |pending| ==> pending[i].0 != pending[j].0)
  }

  /** What SubmitPending does is one of the runs above, too. */
  lemma {:induction false} SubmissionsAreARun(
    e: Env, n: Net, pending: seq<(string, Item)>, fates: seq<Fate>, inputs: seq<Inputs>) returns (events: seq<NetEvent>)
    requires 0 < |n.server.mem.blocks| && |n.server.mem.blocks| + |pending| <= TWO_63
    requires |pending| <= |fates| && |pending| <= |inputs| && RowsAre(n.rows, pending)
    ensures var n' := NetRun(e, n, events);
      && Submissions(e, n.server.mem, n.server.disk, n.rows, pending, fates, inputs)
         == (n'.server.mem, n'.server.disk, n'.rows)
      && (CleanSubmissions(e, n.server.mem, n.server.disk, n.rows, pending, fates, inputs) ==> CleanNetRun(e, n, events))
    decreases |pending|
  {
    hide Submission, NetStep, CleanNet, EventsOf, CheckPost, CleanAccept;
    events := [];
    if |pending| > 0 {
      var (id, item) := pending[0];
      SubmissionIsARun(e, n, id, item, fates[0], inputs[0]);
      SubmissionGrows(e, n.server.mem, n.server.disk, n.rows, id, item, fates[0], inputs[0]);
      OtherRowsStay(e, n.server.mem, n.server.disk, n.rows, pending, fates[0], inputs[0]);
      var first := EventsOf(e, n, id, item, fates[0], inputs[0]);
      var rest := SubmissionsAreARun(e, NetRun(e, n, first), pending[1..], fates[1..], inputs[1..]);
      NetRunSplits(e, n, first, rest);
      CleanRowIsClean(e, n, item, inputs[0]);
      events := first + rest;
    }
  }

  lemma OtherRowsStay(e: Env, m: Mem, disk: Disk, rows: Rows, pending: seq<(string, Item)>, fate: Fate, inputs: Inputs)
    requires Growable(m) && |pending| > 0 && RowsAre(rows, pending)
    ensures RowsAre(Submission(e, m, disk, rows, pending[0].0, pending[0].1, fate, inputs).2, pending[1..])
  {
    hide HandlePost;
  }

  lemma CleanRowIsClean(e: Env, n: Net, item: Item, inputs: Inputs)
    ensures CleanRow(e, n.server.mem, n.server.disk, item, inputs) ==>
      forall tx :: Decode(e.decodeTx, item.payload) == Some(tx) ==> Clean(e, n.server, Post(tx, inputs))
  {
    hide CheckPost, CleanAccept;
  }

  /** The rows SubmitPending lists are such rows. */
  lemma ListedRowsAre(pending: seq<(string, Item)>, rows: Rows)
    requires ListsPending(pending, rows)
    ensures RowsAre(rows, pending)
  {
    forall i | 0 <= i < |pending|
      ensures pending[i].0 in rows && rows[pending[i].0] == pending[i].1
    {
      assert pending[i] in pending;
    }
    forall i, j | 0 <= i < j < |pending|
      ensures pending[i].0 != pending[j].0
    {
      IdsAreOrdered(pending[i].0, pending[j].0, pending[i].0);
      assert pending[i] in pending && pending[j] in pending && Before(pending[i], pending[j]);
    }
  }
}
