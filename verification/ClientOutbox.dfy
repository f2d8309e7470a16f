/** The client's outbox and the submission of its pending rows to the server. */
module ClientOutbox {
  import opened Arith
  import opened ByteStrings
  import opened Wire
  import opened Ledger
  import opened LedgerService

  datatype SyncStatus = Pending | Synced | Failed

  /** An outbox row; the payload is the encoded transaction, the time is in milliseconds. */
  datatype Item = Item(streamId: Bytes, txId: Bytes, payload: Bytes, createdAt: Int64, status: SyncStatus)

  type Rows = map<string, Item>

  // ----- what a reply means for a row -----

  /** The status of the row after the reply: a receipt or a duplicate settles it, a stale epoch leaves
      it to be retried, anything else is permanent. */
  function Settle(reply: Reply): SyncStatus {
    match reply
    case Receipt(_) => Synced
    case Error(409, DuplicateNoteId) => Synced
    case Error(409, StalePowEpoch) => Pending
    case Error(429, _) => Pending
    case Error(_, _) => Failed
  }

  /** What becomes of a request: it never arrives, its reply never arrives, or both do. */
  datatype Fate = RequestLost | ReplyLost | Delivered

  function Marked(rows: Rows, id: string, status: SyncStatus): Rows {
    if id in rows then rows[id := rows[id].(status := status)] else rows
  }

  /** One submission: the server handles the transaction unless the request is lost, and the row
      learns of it unless the reply is. */
  ghost function Submission(e: Env, m: Mem, disk: Disk, rows: Rows, id: string, item: Item, fate: Fate, inputs: Inputs)
    : (Mem, Disk, Rows)
    requires 0 < |m.blocks| < TWO_63
  {
    var tx := Decode(e.decodeTx, item.payload);
    if tx == None then (m, disk, Marked(rows, id, Failed))
    else if fate == RequestLost then (m, disk, rows)
    else
      var (m', disk', reply) := HandlePost(e, m, disk, tx.value, inputs);
      (m', disk', if fate == ReplyLost || Settle(reply) == Pending then rows else Marked(rows, id, Settle(reply)))
  }

  // ----- the listing -----

  /** The order of ids: the first differing character decides. */
  predicate IdBefore(a: string, b: string) {
    if |b| == 0 then false
    else if |a| == 0 then true
    else if a[0] != b[0] then a[0] < b[0]
    else IdBefore(a[1..], b[1..])
  }

  /** Older rows first, rows of one time by id. */
  predicate Before(x: (string, Item), y: (string, Item)) {
    x.1.createdAt < y.1.createdAt || (x.1.createdAt == y.1.createdAt && IdBefore(x.0, y.0))
  }

  lemma {:induction false} IdsAreOrdered(a: string, b: string, c: string)
    ensures !IdBefore(a, a) && (a == b || IdBefore(a, b) || IdBefore(b, a))
    ensures IdBefore(a, b) && IdBefore(b, c) ==> IdBefore(a, c)
    decreases |a|
  {
    if |a| > 0 {
      IdsAreOrdered(a[1..], if |b| > 0 then b[1..] else b, if |c| > 0 then c[1..] else c);
      assert a == [a[0]] + a[1..];
      assert |b| > 0 ==> b == [b[0]] + b[1..];
    }
  }

  /** One id precedes another exactly when it has the smaller character where they first differ, or is the
      shorter where they do not. */
  lemma {:induction false} IdBeforeExactly(a: string, b: string)
    ensures IdBefore(a, b) <==>
      exists k :: 0 <= k <= |a| && k < |b| && a[..k] == b[..k] && (k == |a| || a[k] < b[k])
    decreases |b|
  {
    if |a| > 0 && |b| > 0 && a[0] == b[0] {
      IdBeforeExactly(a[1..], b[1..]);
      if k :| 0 <= k <= |a| && k < |b| && a[..k] == b[..k] && (k == |a| || a[k] < b[k]) {
        assert k > 0;
        assert a[1..][..k - 1] == a[..k][1..] && b[1..][..k - 1] == b[..k][1..];
      }
      if k :| 0 <= k <= |a| - 1 && k < |b| - 1 && a[1..][..k] == b[1..][..k] && (k == |a| - 1 || a[1..][k] < b[1..][k]) {
        assert a[..k + 1] == [a[0]] + a[1..][..k] && b[..k + 1] == [b[0]] + b[1..][..k];
      }
    } else if |b| > 0 {
      assert a[..0] == b[..0];
      assert forall k :: 0 < k <= |a| && k < |b| ==> a[..k][0] == a[0] && b[..k][0] == b[0];
    }
  }

  /** A listing runs from the oldest row to the newest. */
  lemma OldestFirst(list: seq<(string, Item)>, i: nat, j: nat)
    requires InOrder(list) && i < j < |list|
    ensures list[i].1.createdAt <= list[j].1.createdAt
    ensures list[i].1.createdAt == list[j].1.createdAt ==> IdBefore(list[i].0, list[j].0)
  {
    assert Before(list[i], list[j]);
  }

  predicate InOrder(list: seq<(string, Item)>) {
    forall i, j :: 0 <= i < j < |list| ==> Before(list[i], list[j])
  }

  /** The pending rows, each once, the oldest first. */
  ghost predicate ListsPending(pending: seq<(string, Item)>, rows: Rows) {
    && (forall p :: p in pending <==> p.0 in rows && rows[p.0] == p.1 && p.1.status == Pending)
    && InOrder(pending)
  }

  /** list with x put before the first row it precedes. */
  function Inserted(list: seq<(string, Item)>, x: (string, Item)): seq<(string, Item)> {
    if |list| == 0 then [x]
    else if Before(x, list[0]) then [x] + list
    else [list[0]] + Inserted(list[1..], x)
  }

  lemma {:induction false} InsertedAt(list: seq<(string, Item)>, x: (string, Item))
    requires InOrder(list) && forall y :: y in list ==> y.0 != x.0
    ensures InOrder(Inserted(list, x)) && forall y :: y in Inserted(list, x) <==> y in list || y == x
  {
    if |list| > 0 {
      var rest := list[1..];
      assert list == [list[0]] + rest;
      InsertedAt(rest, x);
      forall y | y in list
        ensures Before(x, list[0]) ==> Before(x, y)
        ensures y in rest ==> Before(list[0], y)
      {
        IdsAreOrdered(x.0, list[0].0, y.0);
      }
      IdsAreOrdered(x.0, list[0].0, x.0);
    }
  }

  lemma FirstIsFirst(p: seq<(string, Item)>, x: (string, Item))
    requires InOrder(p) && x in p && x != p[0]
    ensures Before(p[0], x) && !Before(x, p[0])
  {
    IdsAreOrdered(p[0].0, x.0, p[0].0);
  }

  lemma TailIs(p: seq<(string, Item)>, x: (string, Item))
    requires InOrder(p) && |p| > 0
    ensures x in p[1..] <==> x in p && x != p[0]
  {
    IdsAreOrdered(x.0, x.0, x.0);
    assert x in p <==> x == p[0] || x in p[1..];
  }

  /** A table has one listing, so the order of submission is determined. */
  lemma {:induction false} ListingIsUnique(p: seq<(string, Item)>, q: seq<(string, Item)>)
    requires InOrder(p) && InOrder(q) && forall x :: x in p <==> x in q
    ensures p == q
  {
    assert |q| > 0 ==> q[0] in q;
    if |p| > 0 {
      assert p[0] in q && q[0] in p;
      if p[0] != q[0] {
        FirstIsFirst(p, q[0]);
        FirstIsFirst(q, p[0]);
        assert false;
      }
      forall x
        ensures x in p[1..] <==> x in q[1..]
      {
        TailIs(p, x);
        TailIs(q, x);
      }
      ListingIsUnique(p[1..], q[1..]);
      assert p == [p[0]] + p[1..] && q == [q[0]] + q[1..];
    }
  }

  lemma SubmissionGrows(e: Env, m: Mem, disk: Disk, rows: Rows, id: string, item: Item, fate: Fate, inputs: Inputs)
    requires 0 < |m.blocks| < TWO_63
    ensures |m.blocks| <= |Submission(e, m, disk, rows, id, item, fate, inputs).0.blocks| <= |m.blocks| + 1
  {
  }

  /** The listed rows submitted one after the other. */
  ghost function Submissions(
    e: Env, m: Mem, disk: Disk, rows: Rows, pending: seq<(string, Item)>, fates: seq<Fate>, inputs: seq<Inputs>)
    : (Mem, Disk, Rows)
    requires 0 < |m.blocks| && |m.blocks| + |pending| <= TWO_63
    requires |pending| <= |fates| && |pending| <= |inputs|
    decreases |pending|
  {
    if |pending| == 0 then (m, disk, rows)
    else
      SubmissionGrows(e, m, disk, rows, pending[0].0, pending[0].1, fates[0], inputs[0]);
      var (m', disk', rows') := Submission(e, m, disk, rows, pending[0].0, pending[0].1, fates[0], inputs[0]);
      Submissions(e, m', disk', rows', pending[1..], fates[1..], inputs[1..])
  }

  class Outbox {
    var rows: Rows

    constructor ()
      ensures rows == map[]
    {
      rows := map[];
    }

    /** Insert a row, or set the status of the row that already has its id. */
    method Enqueue(id: string, item: Item) returns (ok: bool)
      modifies this
      ensures ok <==> id != [] && |item.streamId| == 32 && |item.txId| == 32 && |item.payload| > 0
      ensures rows ==
        if !ok then old(rows)
        else if id in old(rows) then Marked(old(rows), id, item.status)
        else old(rows)[id := item]
    {
      if id == [] || |item.streamId| != 32 || |item.txId| != 32 || |item.payload| == 0 {
        return false;
      }
      if id in rows {
        rows := rows[id := rows[id].(status := item.status)];
      } else {
        rows := rows[id := item];
      }
      ok := true;
    }

    /** Every pending row once, the oldest first. */
    method ListPending() returns (pending: seq<(string, Item)>)
      ensures ListsPending(pending, rows)
    {
      pending := [];
      var left := rows.Keys;
      while left != {}
        invariant left <= rows.Keys && InOrder(pending)
        invariant forall p :: p in pending <==> p.0 in rows && p.0 !in left && rows[p.0] == p.1 && p.1.status == Pending
        decreases left
      {
        var id :| id in left;
        left := left - {id};
        if rows[id].status == Pending {
          InsertedAt(pending, (id, rows[id]));
          pending := Inserted(pending, (id, rows[id]));
        }
      }
    }

    method SetStatus(id: string, status: SyncStatus) returns (ok: bool)
      modifies this
      ensures ok <==> id in rows
      ensures rows == Marked(old(rows), id, status)
    {
      ok := id in rows;
      if ok {
        rows := rows[id := rows[id].(status := status)];
      }
    }
  }

  class SyncClient {
    const outbox: Outbox
    const server: LedgerStream

    constructor (outbox: Outbox, server: LedgerStream)
      ensures this.outbox == outbox && this.server == server
    {
      this.outbox := outbox;
      this.server := server;
    }

    /** Submit one row and mark it by the reply. */
    method SyncOne(id: string, item: Item, fate: Fate, inputs: Inputs)
      requires 0 < |server.blocks| < TWO_63
      modifies outbox, server
      ensures (server.View(), server.disk, outbox.rows)
        == Submission(server.e, old(server.View()), old(server.disk), old(outbox.rows), id, item, fate, inputs)
    {
      hide HandlePost;
      var tx := Decode(server.e.decodeTx, item.payload);
      if tx == None {
        var _ := outbox.SetStatus(id, Failed);
        return;
      }
      if fate == RequestLost {
        return;
      }
      var reply := server.PostTransaction(tx.value, inputs);
      if fate == ReplyLost {
        return;
      }
      match reply {
        case Receipt(_) =>
          var _ := outbox.SetStatus(id, Synced);
        case Error(status, code) =>
          if status == 409 && code == DuplicateNoteId {
            var _ := outbox.SetStatus(id, Synced);
          } else if status == 409 && code == StalePowEpoch {
            return;
          } else if status == 429 {
            return;
          } else {
            var _ := outbox.SetStatus(id, Failed);
          }
      }
    }

    /** Submit every pending row once, in the order of the listing. */
    method SubmitPending(fates: seq<Fate>, inputs: seq<Inputs>) returns (ghost pending: seq<(string, Item)>)
      requires 0 < |server.blocks| && |server.blocks| + |outbox.rows| <= TWO_63
      requires |outbox.rows| <= |fates| && |outbox.rows| <= |inputs|
      modifies outbox, server
      ensures ListsPending(pending, old(outbox.rows)) && |pending| <= old(|outbox.rows|)
      ensures (server.View(), server.disk, outbox.rows)
        == Submissions(server.e, old(server.View()), old(server.disk), old(outbox.rows), pending, fates, inputs)
    {
      var list := outbox.ListPending();
      pending := list;
      AtMostAllRows(list, outbox.rows);
      for i := 0 to |list|
        invariant 0 < |server.blocks| && |server.blocks| + (|list| - i) <= TWO_63
        invariant Submissions(server.e, server.View(), server.disk, outbox.rows, list[i..], fates[i..], inputs[i..])
          == Submissions(server.e, old(server.View()), old(server.disk), old(outbox.rows), list, fates, inputs)
      {
        assert list[i..][1..] == list[i + 1..];
        assert fates[i..][1..] == fates[i + 1..] && inputs[i..][1..] == inputs[i + 1..];
        SubmissionGrows(server.e, server.View(), server.disk, outbox.rows, list[i].0, list[i].1, fates[i], inputs[i]);
        SyncOne(list[i].0, list[i].1, fates[i], inputs[i]);
      }
    }
  }

  lemma AtMostAllRows(pending: seq<(string, Item)>, rows: Rows)
    requires ListsPending(pending, rows)
    ensures |pending| <= |rows|
  {
    forall i, j | 0 <= i < j < |pending|
      ensures pending[i].0 != pending[j].0
    {
      IdsAreOrdered(pending[i].0, pending[j].0, pending[i].0);
      assert pending[i] in pending && pending[j] in pending && Before(pending[i], pending[j]);
    }
    assert forall i :: 0 <= i < |pending| ==> pending[i] in pending;
    Distinct(pending, rows.Keys);
  }

  lemma {:induction false} Distinct(pending: seq<(string, Item)>, keys: set<string>)
    requires forall i :: 0 <= i < |pending| ==> pending[i].0 in keys
    requires forall i, j :: 0 <= i < j < |pending| ==> pending[i].0 != pending[j].0
    ensures |pending| <= |keys|
  {
    if |pending| > 0 {
      Distinct(pending[1..], keys - {pending[0].0});
    }
  }
}
