/**
 Reading the chain in pages: what one page holds, and what the download loop collects when the
 server keeps appending between requests.
 */
module Paging {
  import opened Arith
  import opened ByteStrings
  import opened Wire
  import opened Ledger

  const DEFAULT_BLOCK_LIMIT: int := 100
  const MAX_BLOCK_LIMIT: int := 100
  const MAX_HEADER_LIMIT: int := 2000

  /** The limit handlePage passes on: the default for none or a non-positive one, capped. */
  function ClampLimit(limit: Int64, withTx: bool): (l: nat)
    ensures var cap := if withTx then 100 else 2000;
      && 1 <= l <= cap
      && (1 <= limit <= cap ==> l == limit)
      && (limit > cap ==> l == cap)
      && (limit <= 0 ==> l == 100)
  {
    var l := if limit <= 0 then DEFAULT_BLOCK_LIMIT else limit;
    if withTx && l > MAX_BLOCK_LIMIT then MAX_BLOCK_LIMIT
    else if !withTx && l > MAX_HEADER_LIMIT then MAX_HEADER_LIMIT
    else l
  }

  datatype Entry = HeaderEntry(header: Header, hash: Bytes) | BlockEntry(block: Block)

  datatype PageResult = Page(entries: seq<Entry>, next: Option<nat>) | ChainMismatch | ServerError

  /** One record as served; None when the stored body is not a transaction. */
  function EntryOf(e: Env, rec: BlockRecord, withTx: bool): Option<Entry> {
    if !withTx then Some(HeaderEntry(rec.header, rec.hash))
    else
      match Decode(e.decodeTx, rec.txCbor)
      case None => None
      case Some(tx) => Some(BlockEntry(Block(rec.header, rec.hash, tx)))
  }

  ghost predicate Servable(e: Env, records: seq<BlockRecord>, withTx: bool) {
    forall i :: 0 <= i < |records| ==> EntryOf(e, records[i], withTx).Some?
  }

  ghost predicate AreEntries(e: Env, entries: seq<Entry>, records: seq<BlockRecord>, withTx: bool) {
    |entries| == |records| && forall i :: 0 <= i < |records| ==> EntryOf(e, records[i], withTx) == Some(entries[i])
  }

  /** A page is the records from fromHeight on, up to the limit or the end of the chain, and names the
      next height exactly when the chain goes on. */
  method ReadPage(e: Env, blocks: seq<BlockRecord>, fromHeight: int, limit: nat, withTx: bool, known: Option<Bytes>)
    returns (r: PageResult)
    ensures !(0 <= fromHeight < |blocks|) ==> r == Page([], None)
    ensures 0 <= fromHeight < |blocks| ==>
      var end := if fromHeight + limit > |blocks| then |blocks| else fromHeight + limit;
      && (r == ChainMismatch <==> known.Some? && known.value != blocks[fromHeight].hash)
      && (r == ServerError <==> r != ChainMismatch && !Servable(e, blocks[fromHeight..end], withTx))
      && (r.Page? ==> AreEntries(e, r.entries, blocks[fromHeight..end], withTx))
      && (r.Page? ==> r.next == if end < |blocks| then Some(end) else None)
  {
    if fromHeight < 0 || fromHeight >= |blocks| {
      return Page([], None);
    }
    if known.Some? && known.value != blocks[fromHeight].hash {
      return ChainMismatch;
    }
    var end := fromHeight + limit;
    if end > |blocks| {
      end := |blocks|;
    }
    var entries := [];
    ghost var records := blocks[fromHeight..end];
    for i := fromHeight to end
      invariant AreEntries(e, entries, records[..i - fromHeight], withTx)
    {
      assert records[i - fromHeight] == blocks[i];
      var entry := EntryOf(e, blocks[i], withTx);
      if entry == None {
        assert !Servable(e, records, withTx);
        return ServerError;
      }
      entries := entries + [entry.value];
      assert records[..i + 1 - fromHeight] == records[..i - fromHeight] + [blocks[i]];
    }
    assert records[..end - fromHeight] == records;
    assert forall i :: 0 <= i < |records| ==> EntryOf(e, records[i], withTx) == Some(entries[i]);
    r := Page(entries, if end < |blocks| then Some(end) else None);
  }

  // ----- the download loop -----

  predicate IsPrefix(a: seq<BlockRecord>, b: seq<BlockRecord>) {
    |a| <= |b| && b[..|a|] == a
  }

  /** The chain at each request: it only ever grows. */
  ghost predicate Growing(snapshots: seq<seq<BlockRecord>>) {
    && |snapshots| > 0 && |snapshots[0]| > 0
    && forall i, j :: 0 <= i <= j < |snapshots| ==> IsPrefix(snapshots[i], snapshots[j])
  }

  /** The blocks are exactly the records, in order. */
  ghost predicate AreBlocks(e: Env, blocks: seq<Block>, records: seq<BlockRecord>) {
    |blocks| == |records| &&
    forall i :: 0 <= i < |records| ==> EntryOf(e, records[i], true) == Some(BlockEntry(blocks[i]))
  }

  /** Request k sees snapshot k, and every request after the last one sees the last. */
  function Seen(snapshots: seq<seq<BlockRecord>>, k: nat): seq<BlockRecord>
    requires |snapshots| > 0
  {
    if k < |snapshots| then snapshots[k] else snapshots[|snapshots| - 1]
  }

  lemma SeenGrows(snapshots: seq<seq<BlockRecord>>, j: nat, k: nat)
    requires Growing(snapshots) && j <= k
    ensures IsPrefix(Seen(snapshots, j), Seen(snapshots, k))
    ensures IsPrefix(Seen(snapshots, k), snapshots[|snapshots| - 1])
  {
  }

  /**
   Follow next_from_height from zero. If every stored body decodes, the download succeeds, and then
   it is exactly the chain as the last request saw it: no gap, no duplicate, no shorter than the
   chain at the first request, and a prefix of every later chain.
   */
  method FetchPeerChain(e: Env, snapshots: seq<seq<BlockRecord>>) returns (out: seq<Block>, ok: bool, ghost last: nat)
    requires Growing(snapshots)
    ensures ok ==> AreBlocks(e, out, Seen(snapshots, last)) && |out| >= |snapshots[0]|
    ensures ok ==> IsPrefix(Seen(snapshots, last), snapshots[|snapshots| - 1])
    ensures Servable(e, snapshots[|snapshots| - 1], true) ==> ok
  {
    ghost var final := snapshots[|snapshots| - 1];
    out := [];
    last := 0;
    var from, request := 0, 0;
    while true
      invariant last == request
      invariant |out| == from < |Seen(snapshots, request)|
      invariant AreBlocks(e, out, Seen(snapshots, request)[..from])
      decreases |final| - from
    {
      SeenGrows(snapshots, 0, request);
      SeenGrows(snapshots, request, request + 1);
      ghost var chain := Seen(snapshots, request);
      var limit := ClampLimit(1000, true);
      var page := ReadPage(e, Seen(snapshots, request), from, limit, true, None);
      if !page.Page? {
        ghost var end := if from + limit > |chain| then |chain| else from + limit;
        assert !Servable(e, chain[from..end], true);
        SliceServable(e, chain, final, from, end);
        ok := false;
        return;
      }
      ghost var end := from + |page.entries|;
      assert AreEntries(e, page.entries, chain[from..end], true);
      var blocks := BlocksOf(e, page.entries, chain[from..end]);
      JoinBlocks(e, out, blocks, chain, from, end);
      out := out + blocks;
      if page.next == None || page.next.value <= from {
        assert chain[..end] == chain;
        ok := true;
        return;
      }
      from := page.next.value;
      request := request + 1;
      last := request;
      assert Seen(snapshots, request)[..from] == chain[..from];
    }
  }

  method BlocksOf(e: Env, entries: seq<Entry>, ghost records: seq<BlockRecord>) returns (blocks: seq<Block>)
    requires AreEntries(e, entries, records, true)
    ensures AreBlocks(e, blocks, records)
  {
    blocks := [];
    for i := 0 to |entries|
      invariant |blocks| == i
      invariant forall k :: 0 <= k < i ==> EntryOf(e, records[k], true) == Some(BlockEntry(blocks[k]))
    {
      assert EntryOf(e, records[i], true) == Some(entries[i]);
      blocks := blocks + [entries[i].block];
    }
  }

  lemma JoinBlocks(e: Env, out: seq<Block>, blocks: seq<Block>, chain: seq<BlockRecord>, from: nat, end: nat)
    requires from <= end <= |chain|
    requires AreBlocks(e, out, chain[..from]) && AreBlocks(e, blocks, chain[from..end])
    ensures AreBlocks(e, out + blocks, chain[..end])
  {
    forall i | 0 <= i < end
      ensures EntryOf(e, chain[i], true) == Some(BlockEntry((out + blocks)[i]))
    {
      if i < from {
        assert chain[..from][i] == chain[i];
      } else {
        assert chain[from..end][i - from] == chain[i];
      }
    }
  }

  lemma SliceServable(e: Env, chain: seq<BlockRecord>, final: seq<BlockRecord>, from: nat, end: nat)
    requires IsPrefix(chain, final) && from <= end <= |chain|
    ensures Servable(e, final, true) ==> Servable(e, chain[from..end], true)
  {
    if Servable(e, final, true) {
      forall i | 0 <= i < end - from
        ensures EntryOf(e, chain[from..end][i], true).Some?
      {
        assert chain[from..end][i] == final[from + i];
      }
    }
  }
}
