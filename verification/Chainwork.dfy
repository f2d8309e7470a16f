/** Proof-of-work arithmetic and the fork-choice order. */
module Chainwork {
  import opened Arith
  import opened ByteStrings

  const TWO_256: int := 0x1_0000_0000_0000_0000_0000_0000_0000_0000_0000_0000_0000_0000_0000_0000_0000_0000

  /** The work of one block: floor((2^256 - 1) / (target + 1)). */
  function BlockWork(target: Bytes): nat {
    (TWO_256 - 1) / (Value(target) + 1)
  }

  function Sum(works: seq<nat>): nat {
    if |works| == 0 then 0 else Sum(works[..|works| - 1]) + works[|works| - 1]
  }

  method CumulativeChainwork(perBlockWork: seq<nat>) returns (total: nat)
    ensures total == Sum(perBlockWork)
  {
    total := 0;
    for i := 0 to |perBlockWork|
      invariant total == Sum(perBlockWork[..i])
    {
      assert perBlockWork[..i + 1][..i] == perBlockWork[..i];
      total := total + perBlockWork[i];
    }
    assert perBlockWork[..|perBlockWork|] == perBlockWork;
  }

  // ----- the fork-choice order -----

  /** Longer first, then the first differing byte decides. */
  predicate Greater(a: Bytes, b: Bytes) {
    if |a| != |b| then |a| > |b|
    else |a| > 0 && if a[0] != b[0] then a[0] > b[0] else Greater(a[1..], b[1..])
  }

  method BytesGreater(a: Bytes, b: Bytes) returns (r: bool)
    ensures r == Greater(a, b)
  {
    if |a| != |b| {
      return |a| > |b|;
    }
    for i := 0 to |a|
      invariant Greater(a, b) == Greater(a[i..], b[i..])
    {
      if a[i] != b[i] {
        return a[i] > b[i];
      }
      assert a[i..][1..] == a[i + 1..] && b[i..][1..] == b[i + 1..];
    }
    r := false;
  }

  /** Chain A is strictly better than chain B: more work, or equal work and a greater tip hash. */
  predicate SelectBest(aWork: nat, aTip: Bytes, bWork: nat, bTip: Bytes) {
    aWork > bWork || (aWork == bWork && Greater(aTip, bTip))
  }

  lemma {:induction false} GreaterTrichotomy(a: Bytes, b: Bytes)
    ensures !(Greater(a, b) && Greater(b, a))
    ensures a != b ==> Greater(a, b) || Greater(b, a)
    ensures !Greater(a, a)
    decreases |a|
  {
    if |a| == |b| && |a| > 0 {
      GreaterTrichotomy(a[1..], b[1..]);
      assert a == [a[0]] + a[1..] && b == [b[0]] + b[1..];
    }
    if |a| > 0 {
      GreaterTrichotomy(a[1..], a[1..]);
    }
  }

  lemma {:induction false} GreaterTransitive(a: Bytes, b: Bytes, c: Bytes)
    requires Greater(a, b) && Greater(b, c)
    ensures Greater(a, c)
    decreases |a|
  {
    if |a| == |b| == |c| && a[0] == b[0] == c[0] {
      GreaterTransitive(a[1..], b[1..], c[1..]);
    }
  }

  /** Fork choice is a strict total order on (work, hash) pairs, so a set of headers with different
      hashes has one best header. */
  lemma SelectBestIsStrictTotalOrder(aw: nat, a: Bytes, bw: nat, b: Bytes, cw: nat, c: Bytes)
    ensures !SelectBest(aw, a, aw, a)
    ensures !(SelectBest(aw, a, bw, b) && SelectBest(bw, b, aw, a))
    ensures a != b ==> SelectBest(aw, a, bw, b) || SelectBest(bw, b, aw, a)
    ensures SelectBest(aw, a, bw, b) && SelectBest(bw, b, cw, c) ==> SelectBest(aw, a, cw, c)
  {
    GreaterTrichotomy(a, b);
    if Greater(a, b) && Greater(b, c) {
      GreaterTransitive(a, b, c);
    }
  }

  /** On equally long strings the tie-break compares big-endian values. */
  lemma {:induction false} GreaterIsBigEndian(a: Bytes, b: Bytes)
    requires |a| == |b|
    ensures Greater(a, b) <==> Value(a) > Value(b)
    decreases |a|
  {
    if |a| > 0 {
      var x, y, r, s := a[0], b[0], a[1..], b[1..];
      assert a == [x] + r && b == [y] + s;
      ValueFront(x, r);
      ValueFront(y, s);
      ValueBound(r);
      ValueBound(s);
      var p := Pow2(8 * |r|);
      if x > y {
        LeadingDigit(x as int, y as int, p);
      } else if y > x {
        LeadingDigit(y as int, x as int, p);
      } else {
        GreaterIsBigEndian(r, s);
      }
    }
  }

  lemma LeadingDigit(x: nat, y: nat, p: nat)
    requires x > y
    ensures x * p >= y * p + p
  {
    var d := x - y - 1;
    assert x * p == y * p + p + d * p;
  }

  // ----- work and its documented formula -----

  lemma QuotientBounds(n: nat, d: nat)
    requires d > 0
    ensures n / d * d <= n < n / d * d + d
  {
  }

  lemma QuotientUnique(n: nat, d: nat, q: nat)
    requires d > 0 && q * d <= n < q * d + d
    ensures n / d == q
  {
    var q' := n / d;
    QuotientBounds(n, d);
    if q < q' {
      LeadingDigit(q', q, d);
    } else if q' < q {
      LeadingDigit(q, q', d);
    }
  }

  lemma QuotientAntitone(n: nat, d: nat, e: nat)
    requires 0 < d <= e
    ensures n / d >= n / e
  {
    var q, r := n / d, n / e;
    QuotientBounds(n, d);
    QuotientBounds(n, e);
    LeadingDigitOrEqual(r, e, d);
    if q < r {
      LeadingDigit(r, q, d);
    }
  }

  lemma LeadingDigitOrEqual(r: nat, e: nat, d: nat)
    requires d <= e
    ensures r * d <= r * e
  {
  }

  /** A harder target never counts for less work. */
  lemma WorkIsAntitone(easy: Bytes, hard: Bytes)
    requires Value(hard) <= Value(easy)
    ensures BlockWork(hard) >= BlockWork(easy)
  {
    QuotientAntitone(TWO_256 - 1, Value(hard) + 1, Value(easy) + 1);
  }

  const TWO_128: int := 0x1_0000_0000_0000_0000_0000_0000_0000_0000

  /** A harder target is documented to be worth strictly more. It is worth the same exactly when
      floor((2^256 - 1) / (hard + 1)) blocks of the easier target still fit into 2^256 - 1. */
  lemma WorkTiesExactly(easy: Bytes, hard: Bytes)
    requires Value(hard) < Value(easy)
    ensures BlockWork(easy) == BlockWork(hard) <==>
      (TWO_256 - 1) / (Value(hard) + 1) * (Value(easy) + 1) <= TWO_256 - 1
    ensures BlockWork(easy) != BlockWork(hard) ==> BlockWork(easy) < BlockWork(hard)
  {
    var n, d, c := TWO_256 - 1, Value(hard) + 1, Value(easy) + 1;
    var q := n / d;
    WorkIsAntitone(easy, hard);
    QuotientBounds(n, c);
    if q * c <= n {
      QuotientBounds(n, d);
      LeadingDigitOrEqual(1, c, d);
      assert n < q * d + d <= q * c + c by { LeadingDigitOrEqual(q, c, d); }
      QuotientUnique(n, c, q);
    }
  }

  /** The documented strictness holds for all targets below 2^128: there one step of the target is
      always worth at least one block's unit. */
  lemma WorkIsStrictBelow(easy: Bytes, hard: Bytes)
    requires Value(hard) < Value(easy) < TWO_128
    ensures BlockWork(easy) < BlockWork(hard)
  {
    hide BlockWork, Value;
    var n, d, c := TWO_256 - 1, Value(hard) + 1, Value(easy) + 1;
    QuotientAtLeast(n, d);
    OverflowsBy(n, d, c);
    WorkTiesExactly(easy, hard);
  }

  lemma OverflowsBy(n: nat, d: nat, c: nat)
    requires 0 < d < c && n / d >= d + 1
    ensures n / d * c > n
  {
    var q := n / d;
    QuotientBounds(n, d);
    LeadingDigitOrEqual(q, c, d + 1);
    assert q * (d + 1) == q * d + q;
  }

  /** A divisor below 2^128 goes into 2^256 - 1 at least as often as it is large, and once more. */
  lemma QuotientAtLeast(n: nat, d: nat)
    requires n == TWO_256 - 1 && 0 < d < TWO_128
    ensures n / d >= d + 1 && d + 1 <= TWO_128
  {
    assert TWO_128 * TWO_128 == TWO_256;
    assert (d + 1) * d <= n by {
      LeadingDigitOrEqual(d + 1, TWO_128 - 1, d);
      LeadingDigitOrEqual(TWO_128 - 1, TWO_128, d + 1);
      assert (d + 1) * (TWO_128 - 1) == (TWO_128 - 1) * (d + 1);
      assert (TWO_128 - 1) * TWO_128 == TWO_256 - TWO_128;
    }
    QuotientBounds(n, d);
    if n / d < d + 1 {
      LeadingDigit(d + 1, n / d, d);
    }
  }

  /** Ties at the easy end: every target from 2^255 up to 2^256 - 2 is worth one. */
  lemma UpperTargetsTie(easy: Bytes, hard: Bytes)
    requires TWO_256 / 2 <= Value(hard) < Value(easy) < TWO_256 - 1
    ensures BlockWork(easy) == BlockWork(hard) == 1
  {
    QuotientUnique(TWO_256 - 1, Value(hard) + 1, 1);
    QuotientUnique(TWO_256 - 1, Value(easy) + 1, 1);
  }

  /** Ties occur well below: the default target and the next easier one are worth the same. */
  lemma DefaultTargetTies(easy: Bytes)
    requires Value(easy) == TWO_240 + 1
    ensures BlockWork(easy) == BlockWork(DefaultGenesisTarget())
  {
    DefaultTargetValue();
    WorkTiesExactly(easy, DefaultGenesisTarget());
  }

  lemma TwoTo256()
    ensures Pow2(256) == TWO_256
  {
    Pow2At256();
  }

  /** Every divisor of a power of two is a power of two. */
  lemma {:induction false} DivisorOfPow2(d: nat, m: nat, k: nat)
    requires m * d == Pow2(k)
    ensures exists j: nat :: j <= k && d == Pow2(j)
    decreases k
  {
    if k == 0 {
      ProductIsOne(m, d);
      assert d == Pow2(0);
    } else if d % 2 == 0 {
      HalveFactor(m, d, Pow2(k - 1));
      DivisorOfPow2(d / 2, m, k - 1);
      var j: nat :| j <= k - 1 && d / 2 == Pow2(j);
      assert d == Pow2(j + 1);
    } else {
      OddTimesOdd(m, d);
      HalveFactor(d, m, Pow2(k - 1));
      DivisorOfPow2(d, m / 2, k - 1);
    }
  }

  lemma ProductIsOne(m: nat, d: nat)
    requires m * d == 1
    ensures d == 1
  {
    if m > 1 && d > 0 {
      LeadingDigit(m, 1, d);
    }
  }

  lemma HalveFactor(m: nat, d: nat, h: nat)
    requires d % 2 == 0 && (m * d == 2 * h || d * m == 2 * h)
    ensures m * (d / 2) == h && d / 2 * m == h
  {
    assert m * d == 2 * (m * (d / 2));
  }

  lemma OddTimesOdd(m: nat, d: nat)
    requires d % 2 == 1 && (m * d) % 2 == 0
    ensures m % 2 == 0
  {
    var h, e, x := m / 2, d / 2, m % 2;
    assert m * d == (2 * h + x) * d == 2 * (h * d) + x * d;
    assert x * d == 2 * (x * e) + x;
  }

  lemma QuotientOfPredecessor(n: nat, d: nat)
    requires n > 0 && d > 0
    ensures (n - 1) / d == if n / d * d == n then n / d - 1 else n / d
  {
    var q := n / d;
    QuotientBounds(n, d);
    if q * d == n {
      assert (q - 1) * d == q * d - d;
      QuotientUnique(n - 1, d, q - 1);
    } else {
      QuotientUnique(n - 1, d, q);
    }
  }

  lemma PowerDivides(j: nat, k: nat)
    requires j <= k
    ensures Pow2(k) / Pow2(j) * Pow2(j) == Pow2(k)
  {
    Pow2Add(k - j, j);
    QuotientUnique(Pow2(k), Pow2(j), Pow2(k - j));
  }

  /** The implemented work falls one short of the documented floor(2^256 / (target + 1)) exactly
      when target + 1 is a power of two up to 2^256, and equals it otherwise. */
  lemma WorkVersusDocumented(target: Bytes)
    ensures var d, documented := Value(target) + 1, TWO_256 / (Value(target) + 1);
      && BlockWork(target) == documented - (if TWO_256 / d * d == TWO_256 then 1 else 0)
      && (BlockWork(target) != documented <==> exists j: nat :: j <= 256 && d == Pow2(j))
  {
    var d, k := Value(target) + 1, 256;
    QuotientOfPredecessor(TWO_256, d);
    TwoTo256();
    if TWO_256 / d * d == TWO_256 {
      DivisorOfPow2(d, TWO_256 / d, k);
    }
    if j: nat :| j <= k && d == Pow2(j) {
      PowerDivides(j, k);
    }
  }

  /** The default genesis target: 2^240 as 32 bytes. */
  function DefaultGenesisTarget(): (t: Bytes)
    ensures |t| == 32
  {
    [0, 1] + Zeros(30)
  }

  lemma {:induction false} ValueOfTrailingZeros(b: Bytes, n: nat)
    ensures Value(b + Zeros(n)) == Value(b) * Pow2(8 * n)
  {
    var s := b + Zeros(n);
    if n == 0 {
      assert s == b;
    } else {
      assert s[..|s| - 1] == b + Zeros(n - 1);
      ValueOfTrailingZeros(b, n - 1);
      Pow2Add(8, 8 * (n - 1));
      assert Pow2(8) == 256;
      assert Value(b) * (256 * Pow2(8 * (n - 1))) == Value(b) * Pow2(8 * (n - 1)) * 256;
    }
  }

  const TWO_240: int := 0x1_0000_0000_0000_0000_0000_0000_0000_0000_0000_0000_0000_0000_0000_0000_0000

  lemma DefaultTargetValue()
    ensures Value(DefaultGenesisTarget()) == TWO_240
  {
    assert Value([0, 1]) == 1 by {
      assert [0 as Byte, 1][..1] == [0];
      assert [0 as Byte][..0] == [];
    }
    ValueOfTrailingZeros([0, 1], 30);
    TwoTo240();
  }

  lemma TwoTo240()
    ensures Pow2(240) == TWO_240
  {
    TwoTo256();
    Pow2Add(8, 8);
    assert Pow2(8) == 256;
    Pow2Add(16, 240);
  }

  lemma DefaultTargetWork()
    ensures BlockWork(DefaultGenesisTarget()) == 65535
  {
    DefaultTargetValue();
  }

  lemma {:induction false} SumOfEqual(works: seq<nat>, w: nat)
    requires forall i :: 0 <= i < |works| ==> works[i] == w
    ensures Sum(works) == w * |works|
  {
    if |works| > 0 {
      SumOfEqual(works[..|works| - 1], w);
      assert w * |works| == w * (|works| - 1) + w;
    }
  }

  /** At the default target no chain a uint64 height can number outgrows the 32-byte encoding. */
  lemma ChainworkFits(works: seq<nat>)
    requires |works| <= TWO_64
    requires forall i :: 0 <= i < |works| ==> works[i] == BlockWork(DefaultGenesisTarget())
    ensures Sum(works) < TWO_256
  {
    DefaultTargetWork();
    SumOfEqual(works, 65535);
  }

  // ----- the stored form -----

  /** The minimal big-endian bytes of w, empty for zero. */
  function MinimalBytes(w: nat): (b: Bytes)
    ensures Value(b) == w
  {
    if w == 0 then []
    else
      var b := MinimalBytes(w / 256) + [(w % 256) as Byte];
      assert b[..|b| - 1] == MinimalBytes(w / 256);
      b
  }

  lemma {:induction false} MinimalLength(w: nat, n: nat)
    requires w < Pow2(8 * n)
    ensures |MinimalBytes(w)| <= n
  {
    if w > 0 {
      assert n > 0;
      Pow2Add(8, 8 * (n - 1));
      assert Pow2(8) == 256;
      MinimalLength(w / 256, n - 1);
    }
  }

  lemma {:induction false} ValueOfLeadingZeros(n: nat, b: Bytes)
    ensures Value(Zeros(n) + b) == Value(b)
  {
    var s := Zeros(n) + b;
    if |b| > 0 {
      assert s[..|s| - 1] == Zeros(n) + b[..|b| - 1];
      ValueOfLeadingZeros(n, b[..|b| - 1]);
    } else if n > 0 {
      assert s[..|s| - 1] == Zeros(n - 1) + b;
      ValueOfLeadingZeros(n - 1, b);
    }
  }

  /** A fixed-width 32-byte big-endian blob; the copy is in range because w is below 2^256. */
  method EncodeChainwork(w: nat) returns (out: array<Byte>)
    requires w < TWO_256
    ensures fresh(out) && out.Length == 32
    ensures DecodeChainwork(out[..]) == w
  {
    TwoTo256();
    MinimalLength(w, 32);
    out := new Byte[32](_ => 0);
    var wb := MinimalBytes(w);
    var offset := 32 - |wb|;
    for i := 0 to |wb|
      invariant forall k :: 0 <= k < offset ==> out[k] == 0
      invariant forall k :: 0 <= k < i ==> out[offset + k] == wb[k]
    {
      out[offset + i] := wb[i];
    }
    assert out[..] == Zeros(offset) + wb;
    ValueOfLeadingZeros(offset, wb);
  }

  function DecodeChainwork(b: Bytes): nat {
    Value(b)
  }

  /** Distinct 32-byte blobs decode to distinct numbers, all below 2^256. */
  lemma DecodeIsInjective(a: Bytes, b: Bytes)
    requires |a| == |b| == 32
    ensures DecodeChainwork(a) < TWO_256
    ensures DecodeChainwork(a) == DecodeChainwork(b) ==> a == b
  {
    TwoTo256();
    ValueBound(a);
    GreaterIsBigEndian(a, b);
    GreaterIsBigEndian(b, a);
    GreaterTrichotomy(a, b);
  }
}
