/** The in-memory header store: headers by hash, with an index of hashes by height. */
module ChainStore {
  import opened ByteStrings
  import opened HeaderTree

  predicate NoDuplicates(s: seq<Bytes>) {
    forall i, j :: 0 <= i < j < |s| ==> s[i] != s[j]
  }

  /** The index lists every stored hash once, at its header's height, and nothing else. */
  ghost predicate Indexes(byHash: Headers, byHeight: map<nat, seq<Bytes>>) {
    && (forall h, k :: h in byHeight && k in byHeight[h] ==> k in byHash && byHash[k].height == h)
    && (forall k :: k in byHash ==> byHash[k].height in byHeight && k in byHeight[byHash[k].height])
    && (forall h :: h in byHeight ==> NoDuplicates(byHeight[h]))
  }

  /** A listing of the store: every stored header once, in some order. */
  ghost predicate Lists(out: seq<VerifiedHeader>, hs: Headers) {
    && (forall i :: 0 <= i < |out| ==> out[i].hash in hs && hs[out[i].hash] == out[i])
    && (forall k :: k in hs ==> exists i :: 0 <= i < |out| && out[i].hash == k)
    && (forall i, j :: 0 <= i < j < |out| ==> out[i].hash != out[j].hash)
  }

  function HashesAt(byHeight: map<nat, seq<Bytes>>, h: nat): seq<Bytes> {
    if h in byHeight then byHeight[h] else []
  }

  /** v is the first of the hashes' headers that is active, or the first of all when none is. */
  predicate IsFirstActive(byHash: Headers, hashes: seq<Bytes>, v: VerifiedHeader) {
    exists i :: 0 <= i < |hashes| && hashes[i] == v.hash && (v.status != Active ==> i == 0)
      && forall j :: 0 <= j < i ==> hashes[j] in byHash && byHash[hashes[j]].status != Active
  }

  lemma PutKeepsIndex(byHash: Headers, byHeight: map<nat, seq<Bytes>>, h: VerifiedHeader)
    requires Indexes(byHash, byHeight)
    requires h.hash in byHash ==> byHash[h.hash].height == h.height
    ensures var hashes := HashesAt(byHeight, h.height);
      Indexes(byHash[h.hash := h], if h.hash in hashes then byHeight else byHeight[h.height := hashes + [h.hash]])
  {
  }

  lemma RemoveKeepsIndex(byHash: Headers, byHeight: map<nat, seq<Bytes>>, k: Bytes, i: nat)
    requires Indexes(byHash, byHeight) && k in byHash
    requires i < |byHeight[byHash[k].height]| && byHeight[byHash[k].height][i] == k
    ensures var h := byHash[k].height;
      Indexes(byHash - {k}, byHeight[h := byHeight[h][..i] + byHeight[h][i + 1..]])
  {
    var h := byHash[k].height;
    var hashes := byHeight[h];
    var rest := hashes[..i] + hashes[i + 1..];
    forall x
      ensures x in rest <==> x in hashes && x != k
    {
      if x in hashes && x != k {
        var j :| 0 <= j < |hashes| && hashes[j] == x;
        assert j < i ==> rest[j] == x;
        assert j > i ==> rest[j - 1] == x;
      }
    }
  }

  class MemChainStore {
    const genesis: Bytes
    var byHash: Headers
    var byHeight: map<nat, seq<Bytes>>

    ghost predicate Valid()
      reads this
    {
      Keyed(byHash) && Indexes(byHash, byHeight)
    }

    constructor (genesis: Bytes)
      ensures Valid() && byHash == map[] && this.genesis == genesis
    {
      this.genesis := genesis;
      byHash := map[];
      byHeight := map[];
    }

    /** The first listed header at height h that is active, otherwise the first listed. */
    method GetByHeight(h: nat) returns (v: Option<VerifiedHeader>)
      requires Valid()
      ensures v == None <==> forall k :: k in byHash ==> byHash[k].height != h
      ensures v.Some? ==> v.value.hash in byHash && byHash[v.value.hash] == v.value && v.value.height == h
      ensures v.Some? && v.value.status != Active ==>
        forall k :: k in byHash && byHash[k].height == h ==> byHash[k].status != Active
      ensures v.Some? ==> h in byHeight && IsFirstActive(byHash, byHeight[h], v.value)
    {
      if h !in byHeight || |byHeight[h]| == 0 {
        return None;
      }
      var hashes := byHeight[h];
      assert hashes[0] in byHeight[h];
      for i := 0 to |hashes|
        invariant forall j :: 0 <= j < i ==> hashes[j] in byHash && byHash[hashes[j]].status != Active
      {
        assert hashes[i] in byHeight[h];
        if byHash[hashes[i]].status == Active {
          return Some(byHash[hashes[i]]);
        }
      }
      v := Some(byHash[hashes[0]]);
    }

    function GetByHash(hash: Bytes): Option<VerifiedHeader>
      reads this
    {
      if hash in byHash then Some(byHash[hash]) else None
    }

    method Put(h: VerifiedHeader)
      requires Valid()
      modifies this
      ensures byHash == old(byHash)[h.hash := h]
      ensures (h.hash in old(byHash) ==> old(byHash)[h.hash].height == h.height) ==> Valid()
      ensures var hashes := HashesAt(old(byHeight), h.height);
        byHeight == if h.hash in hashes then old(byHeight) else old(byHeight)[h.height := hashes + [h.hash]]
    {
      if h.hash in byHash ==> byHash[h.hash].height == h.height {
        PutKeepsIndex(byHash, byHeight, h);
      }
      var hashes := HashesAt(byHeight, h.height);
      byHash := byHash[h.hash := h];
      var found := false;
      for i := 0 to |hashes|
        invariant found <==> h.hash in hashes[..i]
      {
        if hashes[i] == h.hash {
          found := true;
          break;
        }
      }
      if !found {
        byHeight := byHeight[h.height := hashes + [h.hash]];
      }
    }

    method Remove(h: VerifiedHeader)
      requires Valid()
      modifies this
      ensures byHash == old(byHash) - {h.hash}
      ensures (h.hash in old(byHash) ==> old(byHash)[h.hash].height == h.height) ==> Valid()
    {
      var hashes := HashesAt(byHeight, h.height);
      byHash := byHash - {h.hash};
      for i := 0 to |hashes|
        invariant forall j :: 0 <= j < i ==> hashes[j] != h.hash
        invariant byHeight == old(byHeight) && byHash == old(byHash) - {h.hash}
      {
        if hashes[i] == h.hash {
          RemoveKeepsIndex(old(byHash), byHeight, h.hash, i);
          byHeight := byHeight[h.height := hashes[..i] + hashes[i + 1..]];
          return;
        }
      }
    }

    /** Every stored header, in the order the runtime happens to enumerate the map. */
    method All() returns (out: seq<VerifiedHeader>)
      requires Valid()
      ensures Lists(out, byHash)
    {
      hide Indexes;
      out := [];
      var left := byHash.Keys;
      while left != {}
        invariant left <= byHash.Keys
        invariant forall i :: 0 <= i < |out| ==>
          out[i].hash in byHash && byHash[out[i].hash] == out[i] && out[i].hash !in left
        invariant forall k :: k in byHash && k !in left ==> exists i :: 0 <= i < |out| && out[i].hash == k
        invariant forall i, j :: 0 <= i < j < |out| ==> out[i].hash != out[j].hash
        decreases left
      {
        var k :| k in left;
        left := left - {k};
        ghost var before := out;
        out := out + [byHash[k]];
        assert out[|before|].hash == k;
        assert forall i :: 0 <= i < |before| ==> out[i] == before[i];
      }
    }

    /** The highest active header. */
    method ActiveTip() returns (best: Option<VerifiedHeader>)
      requires Valid()
      ensures best == None <==> forall k :: k in byHash ==> byHash[k].status != Active
      ensures best.Some? ==> best.value.hash in byHash && byHash[best.value.hash] == best.value
      ensures best.Some? ==> best.value.status == Active
      ensures best.Some? ==>
        forall k :: k in byHash && byHash[k].status == Active ==> byHash[k].height <= best.value.height
    {
      hide Indexes;
      best := None;
      var all := All();
      for i := 0 to |all|
        invariant best == None <==> forall j :: 0 <= j < i ==> all[j].status != Active
        invariant best.Some? ==> best.value in all && best.value.status == Active
        invariant best.Some? ==>
          forall j :: 0 <= j < i && all[j].status == Active ==> all[j].height <= best.value.height
      {
        if all[i].status == Active && (best == None || all[i].height > best.value.height) {
          best := Some(all[i]);
        }
      }
    }
  }
}
