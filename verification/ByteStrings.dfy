/** Byte strings: digests, big-endian values, and concatenation. */
module ByteStrings {
  import opened Arith

  newtype Byte = b: int | 0 <= b < 256

  type Bytes = seq<Byte>

  /** A SHA-256 output. */
  type Digest = d: Bytes | |d| == 32 witness seq(32, _ => 0)

  datatype Option<+T> = None | Some(value: T)

  /**
   The domain separators under which the program hashes: the ASCII strings
   "snapnotes/mmr-leaf/v1", "snapnotes/mmr-node/v1", "snapnotes/mmr-peak-bag/v1",
   "snapnotes/block/v1", "snapnotes/txid/v1", "snapnotes/tx/v1".
   */
  datatype Domain = MmrLeaf | MmrNode | MmrPeakBag | BlockDomain | TxIdDomain | TxDomain

  datatype HashInput = HashInput(domain: Domain, data: Bytes)

  /**
   SHA-256 as the table of its values: the digest of (d, x) is SHA-256 of the separator of d
   followed by x. Nothing is assumed of the table, so every theorem holds of any function from
   inputs to 32-byte digests; an input without an entry reads as zeros.
   */
  type Hash = imap<HashInput, Digest>

  function Sha(h: Hash, domain: Domain, data: Bytes): Digest {
    var input := HashInput(domain, data);
    if input in h then h[input] else Zeros(32)
  }

  function Zeros(n: nat): (z: Bytes)
    ensures |z| == n
  {
    seq(n, _ => 0)
  }

  predicate AllZero(b: Bytes) {
    forall i :: 0 <= i < |b| ==> b[i] == 0
  }

  predicate AllDigests(s: seq<Bytes>) {
    forall i :: 0 <= i < |s| ==> |s[i]| == 32
  }

  /** The value of b read as an unsigned big-endian integer. */
  function Value(b: Bytes): nat {
    if |b| == 0 then 0 else Value(b[..|b| - 1]) * 256 + b[|b| - 1] as int
  }

  // ----- concatenation -----

  function Join(parts: seq<Bytes>): Bytes {
    if |parts| == 0 then [] else parts[0] + Join(parts[1..])
  }

  lemma {:induction false} JoinSplit(parts: seq<Bytes>, i: nat)
    requires i <= |parts|
    ensures Join(parts) == Join(parts[..i]) + Join(parts[i..])
  {
    if i == 0 {
      assert parts[i..] == parts;
    } else {
      JoinSplit(parts[1..], i - 1);
      assert parts[1..][..i - 1] == parts[..i][1..];
      assert parts[1..][i - 1..] == parts[i..];
    }
  }

  lemma {:induction false} JoinLength(parts: seq<Bytes>)
    requires AllDigests(parts)
    ensures |Join(parts)| == 32 * |parts|
  {
    if |parts| > 0 {
      JoinLength(parts[1..]);
    }
  }

  /** Lists of 32-byte strings are determined by their concatenation. */
  lemma {:induction false} JoinInjective(a: seq<Bytes>, b: seq<Bytes>)
    requires AllDigests(a) && AllDigests(b)
    requires Join(a) == Join(b)
    ensures a == b
  {
    JoinLength(a);
    JoinLength(b);
    if |a| > 0 {
      assert a[0] == Join(a)[..32] == Join(b)[..32] == b[0];
      assert Join(a[1..]) == Join(a)[32..] == Join(b)[32..] == Join(b[1..]);
      JoinInjective(a[1..], b[1..]);
      assert a == [a[0]] + a[1..];
      assert b == [b[0]] + b[1..];
    }
  }

  // ----- big-endian order -----

  lemma {:induction false} ValueFront(x: Byte, rest: Bytes)
    ensures Value([x] + rest) == x as int * Pow2(8 * |rest|) + Value(rest)
  {
    var b := [x] + rest;
    if |rest| == 0 {
      assert b[..0] == [];
    } else {
      var init := rest[..|rest| - 1];
      ValueFront(x, init);
      assert b[..|b| - 1] == [x] + init;
      Pow2Add(8, 8 * |init|);
      assert Pow2(8) == 256;
      assert x as int * (Pow2(8 * |init|) * 256) == x as int * Pow2(8 * |init|) * 256;
    }
  }

  lemma {:induction false} ValueBound(b: Bytes)
    ensures Value(b) < Pow2(8 * |b|)
  {
    if |b| > 0 {
      ValueBound(b[..|b| - 1]);
      Pow2Add(8, 8 * (|b| - 1));
      assert 8 + 8 * (|b| - 1) == 8 * |b|;
      assert Pow2(8) == 256;
      assert Pow2(8 * |b|) == 256 * Pow2(8 * (|b| - 1));
    }
  }
}
