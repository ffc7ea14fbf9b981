/** The 256-bit similarity fingerprint: every bit is a vote of the shingle digests. */
module Simhash {
  import opened Prelude

  type Byte = b: nat | b < 256

  type Digest = d: seq<Byte> | |d| == 32 witness seq(32, _ => 0)

  const BITS := 256

  /** The character that joins the tokens of a shingle. */
  const SEPARATOR := "\U{1f}"

  function Pow2(k: nat): nat
  {
    if k == 0 then 1 else 2 * Pow2(k - 1)
  }

  lemma Pow2Positive(k: nat)
    ensures Pow2(k) > 0
  {
  }

  /** Bit `b` of a digest, most significant bit of the first byte first. */
  predicate DigestBit(d: Digest, b: nat)
    requires b < BITS
  {
    Pow2Positive(7 - b % 8);
    d[b / 8] / Pow2(7 - b % 8) % 2 == 1
  }

  function Join(tokens: seq<string>): string
  {
    if tokens == [] then ""
    else if |tokens| == 1 then tokens[0]
    else Join(tokens[..|tokens| - 1]) + SEPARATOR + tokens[|tokens| - 1]
  }

  function ShingleCount(tokens: seq<string>, size: nat): int { |tokens| - size + 1 }

  /** The digests of all windows of `size` tokens, in order. */
  function Digests(sha: string -> Digest, tokens: seq<string>, size: nat): (ds: seq<Digest>)
    ensures |ds| == if ShingleCount(tokens, size) > 0 then ShingleCount(tokens, size) else 0
    ensures forall j :: 0 <= j < |ds| ==> ds[j] == sha(Join(tokens[j..j + size]))
  {
    if ShingleCount(tokens, size) <= 0 then []
    else seq<Digest>(ShingleCount(tokens, size), j requires 0 <= j < ShingleCount(tokens, size) =>
                                                   sha(Join(tokens[j..j + size])))
  }

  function Vote(d: Digest, b: nat): int
    requires b < BITS
  {
    if DigestBit(d, b) then 1 else -1
  }

  function Weight(ds: seq<Digest>, b: nat): int
    requires b < BITS
  {
    if ds == [] then 0 else Weight(ds[..|ds| - 1], b) + Vote(ds[|ds| - 1], b)
  }

  /** How many digests have bit `b` set. */
  function Ones(ds: seq<Digest>, b: nat): nat
    requires b < BITS
  {
    if ds == [] then 0 else Ones(ds[..|ds| - 1], b) + if DigestBit(ds[|ds| - 1], b) then 1 else 0
  }

  /** Bits read as a number, first bit most significant. */
  function Number(bits: seq<bool>): nat
  {
    if bits == [] then 0 else 2 * Number(bits[..|bits| - 1]) + if bits[|bits| - 1] then 1 else 0
  }

  function Signs(weights: seq<int>): (bits: seq<bool>)
    ensures |bits| == |weights|
    ensures forall b :: 0 <= b < |bits| ==> bits[b] == (weights[b] >= 0)
  {
    seq(|weights|, b requires 0 <= b < |weights| => weights[b] >= 0)
  }

  function Weights(ds: seq<Digest>): (w: seq<int>)
    ensures |w| == BITS
    ensures forall b :: 0 <= b < BITS ==> w[b] == Weight(ds, b)
  {
    seq(BITS, b requires 0 <= b < BITS => Weight(ds, b))
  }

  /** The fingerprint as a number. */
  function Fingerprint(ds: seq<Digest>): nat
  {
    Number(Signs(Weights(ds)))
  }

  // ------------------------------------------------------------------ hexadecimal

  const HEX_LENGTH := 64

  const HEX_DIGITS := "0123456789abcdef"

  /** The digit's value, if it is a lower-case hexadecimal digit. */
  function DigitValue(c: char): Option<nat>
  {
    if '0' <= c <= '9' then Some(c as int - '0' as int)
    else if 'a' <= c <= 'f' then Some(c as int - 'a' as int + 10)
    else None
  }

  predicate IsHex(s: string)
  {
    forall i :: 0 <= i < |s| ==> DigitValue(s[i]).Some?
  }

  /** The number a hexadecimal text denotes, most significant digit first. */
  function HexValue(s: string): nat
    requires IsHex(s)
  {
    if s == "" then 0 else 16 * HexValue(s[..|s| - 1]) + DigitValue(s[|s| - 1]).value
  }

  function Pow16(k: nat): nat
  {
    if k == 0 then 1 else 16 * Pow16(k - 1)
  }

  lemma {:induction false} Pow16IsPow2(k: nat)
    ensures Pow16(k) == Pow2(4 * k)
  {
    if k > 0 {
      Pow16IsPow2(k - 1);
      var n := 4 * k;
      assert Pow2(n) == 2 * Pow2(n - 1) && Pow2(n - 1) == 2 * Pow2(n - 2);
      assert Pow2(n - 2) == 2 * Pow2(n - 3) && Pow2(n - 3) == 2 * Pow2(n - 4);
    }
  }

  lemma HexLengthFits()
    ensures Pow16(HEX_LENGTH) == Pow2(BITS)
  {
    Pow16IsPow2(HEX_LENGTH);
  }

  lemma {:induction false} NumberFits(bits: seq<bool>)
    ensures Number(bits) < Pow2(|bits|)
  {
    if bits != [] {
      NumberFits(bits[..|bits| - 1]);
    }
  }

  lemma FingerprintFits(ds: seq<Digest>)
    ensures Fingerprint(ds) < Pow2(BITS)
  {
    NumberFits(Signs(Weights(ds)));
  }

  /** `to_bytes(...).hex()`: `length` digits, with leading zeros. */
  function WriteHex(v: nat, length: nat): (s: string)
    ensures |s| == length && IsHex(s)
    ensures v < Pow16(length) ==> HexValue(s) == v
  {
    if length == 0 then ""
    else
      var front, digit := WriteHex(v / 16, length - 1), HEX_DIGITS[v % 16];
      assert (front + [digit])[..length - 1] == front;
      front + [digit]
  }

  /** The inner loop: one digest votes on all bits. */
  method CastVotes(weights: array<int>, digest: Digest)
    requires weights.Length == BITS
    modifies weights
    ensures forall b :: 0 <= b < BITS ==> weights[b] == old(weights[b]) + Vote(digest, b)
  {
    for bit := 0 to BITS
      invariant forall b :: 0 <= b < bit ==> weights[b] == old(weights[b]) + Vote(digest, b)
      invariant forall b :: bit <= b < BITS ==> weights[b] == old(weights[b])
    {
      weights[bit] := weights[bit] + Vote(digest, bit);
    }
  }

  /** The last loop: the signs of the weights, shifted into a number. */
  method ReadSigns(weights: array<int>) returns (value: nat)
    ensures value == Number(Signs(weights[..]))
  {
    ghost var bits := Signs(weights[..]);
    value := 0;
    for bit := 0 to weights.Length
      invariant value == Number(bits[..bit])
    {
      assert bits[..bit + 1][..bit] == bits[..bit];
      value := 2 * value + if weights[bit] >= 0 then 1 else 0;
    }
    assert bits[..weights.Length] == bits;
  }

  /** The nested loops over shingles and bits, on one array of weights. */
  method Simhash(sha: string -> Digest, tokens: seq<string>, size: nat) returns (text: string, count: int)
    ensures |text| == HEX_LENGTH && IsHex(text) && HexValue(text) == Fingerprint(Digests(sha, tokens, size))
    ensures count == ShingleCount(tokens, size)
  {
    count := ShingleCount(tokens, size);
    var weights := new int[BITS](_ => 0);
    ghost var ds := Digests(sha, tokens, size);
    var index := 0;
    while index < count
      invariant 0 <= index <= |ds|
      invariant forall b :: 0 <= b < BITS ==> weights[b] == Weight(ds[..index], b)
    {
      CastVotes(weights, sha(Join(tokens[index..index + size])));
      assert ds[..index + 1][..index] == ds[..index];
      index := index + 1;
    }
    assert ds[..index] == ds;
    assert weights[..] == Weights(ds);
    var value := ReadSigns(weights);
    text := WriteHex(value, HEX_LENGTH);
    FingerprintFits(ds);
    HexLengthFits();
  }

  // ---------------------------------------------------------- what the bits say

  /** Bit `k` of a number, least significant first. */
  function NumberBit(v: nat, k: nat): bool
  {
    if k == 0 then v % 2 == 1 else NumberBit(v / 2, k - 1)
  }

  lemma Halved(v: nat, last: bool)
    ensures
      var w := 2 * v + if last then 1 else 0;
      w / 2 == v && (w % 2 == 1 <==> last)
  {
  }

  lemma {:induction false} NumberHasItsBits(bits: seq<bool>, b: nat)
    requires b < |bits|
    ensures NumberBit(Number(bits), |bits| - 1 - b) == bits[b]
  {
    var front := bits[..|bits| - 1];
    Halved(Number(front), bits[|bits| - 1]);
    if b < |front| {
      NumberHasItsBits(front, b);
    }
  }

  lemma {:induction false} WeightIsMajority(ds: seq<Digest>, b: nat)
    requires b < BITS
    ensures Weight(ds, b) == 2 * Ones(ds, b) - |ds|
  {
    if ds != [] {
      WeightIsMajority(ds[..|ds| - 1], b);
    }
  }

  /** Output bit `b` is set exactly when at least half of the shingle digests
      have bit `b` set. */
  lemma OutputBitIsMajority(ds: seq<Digest>, b: nat)
    requires b < BITS
    ensures NumberBit(Fingerprint(ds), BITS - 1 - b) <==> 2 * Ones(ds, b) >= |ds|
    ensures NumberBit(Fingerprint(ds), BITS - 1 - b) <==> Weight(ds, b) >= 0
  {
    NumberHasItsBits(Signs(Weights(ds)), b);
    WeightIsMajority(ds, b);
  }

  lemma {:induction false} UnanimousOnes(ds: seq<Digest>, d: Digest, b: nat)
    requires b < BITS && forall j :: 0 <= j < |ds| ==> ds[j] == d
    ensures Ones(ds, b) == if DigestBit(d, b) then |ds| else 0
  {
    if ds != [] {
      UnanimousOnes(ds[..|ds| - 1], d, b);
    }
  }

  /** When all shingles agree, the fingerprint is their digest, bit for bit. */
  lemma UnanimousFingerprint(ds: seq<Digest>, d: Digest, b: nat)
    requires ds != [] && b < BITS && forall j :: 0 <= j < |ds| ==> ds[j] == d
    ensures NumberBit(Fingerprint(ds), BITS - 1 - b) == DigestBit(d, b)
  {
    OutputBitIsMajority(ds, b);
    UnanimousOnes(ds, d, b);
  }

  /** Bytes as one number, first byte most significant. */
  function BigEndian(bytes: seq<Byte>): nat
  {
    if bytes == [] then 0 else 256 * BigEndian(bytes[..|bytes| - 1]) + bytes[|bytes| - 1]
  }

  function BitsOf(d: Digest): (bits: seq<bool>)
    ensures |bits| == BITS && forall b :: 0 <= b < BITS ==> bits[b] == DigestBit(d, b)
  {
    seq(BITS, b requires 0 <= b < BITS => DigestBit(d, b))
  }

  /** The lowest `n` bits of a number, most significant first. */
  function LowBits(x: nat, n: nat): (bits: seq<bool>)
    ensures |bits| == n
  {
    if n == 0 then [] else LowBits(x / 2, n - 1) + [x % 2 == 1]
  }

  lemma ProductIsOrdered(a: nat, b: nat, d: nat)
    requires a < b
    ensures a * d + d <= b * d
  {
    assert (a + 1) * d <= b * d;
  }

  lemma QuotientIs(x: nat, d: nat, q: nat)
    requires d > 0 && q * d <= x < q * d + d
    ensures x / d == q
  {
    var p := x / d;
    assert p * d <= x < p * d + d;
    if p < q { ProductIsOrdered(p, q, d); }
    if q < p { ProductIsOrdered(q, p, d); }
  }

  lemma HalfFirst(x: nat, m: nat)
    requires m > 0
    ensures x / 2 / m == x / (2 * m)
  {
    var q := x / 2 / m;
    assert q * m <= x / 2 < q * m + m;
    assert q * (2 * m) == 2 * (q * m);
    QuotientIs(x, 2 * m, q);
  }

  lemma {:induction false} LowBitIs(x: nat, n: nat, j: nat)
    requires j < n
    ensures Pow2(n - 1 - j) > 0 && LowBits(x, n)[j] == (x / Pow2(n - 1 - j) % 2 == 1)
    decreases n
  {
    Pow2Positive(n - 1 - j);
    if j < n - 1 {
      LowBitIs(x / 2, n - 1, j);
      HalfFirst(x, Pow2(n - 2 - j));
    }
  }

  /** A number shifted left. */
  function Shifted(v: nat, n: nat): nat { if n == 0 then v else 2 * Shifted(v, n - 1) }

  lemma {:induction false} NumberAppendLow(front: seq<bool>, x: nat, n: nat)
    requires x < Pow2(n)
    ensures Number(front + LowBits(x, n)) == Shifted(Number(front), n) + x
    decreases n
  {
    var bits := LowBits(x, n);
    if n == 0 {
      assert front + bits == front;
    } else {
      NumberAppendLow(front, x / 2, n - 1);
      assert (front + bits)[..|front| + n - 1] == front + LowBits(x / 2, n - 1);
    }
  }

  lemma ByteBitIs(d: Digest, k: nat, j: nat)
    requires k < 32 && j < 8
    ensures DigestBit(d, 8 * k + j) == LowBits(d[k], 8)[j]
  {
    assert (8 * k + j) / 8 == k && (8 * k + j) % 8 == j;
    LowBitIs(d[k], 8, j);
  }

  lemma EightBits(v: nat)
    ensures Pow2(8) == 256 && Shifted(v, 8) == 256 * v
  {
    assert Shifted(v, 1) == 2 * v && Shifted(v, 2) == 4 * v && Shifted(v, 3) == 8 * v && Shifted(v, 4) == 16 * v;
    assert Shifted(v, 5) == 32 * v && Shifted(v, 6) == 64 * v && Shifted(v, 7) == 128 * v;
  }

  lemma NextByte(d: Digest, k: nat)
    requires k < 32
    ensures BitsOf(d)[..8 * (k + 1)] == BitsOf(d)[..8 * k] + LowBits(d[k], 8)
  {
    var bits, n := BitsOf(d), 8 * k;
    forall i | n <= i < n + 8 ensures bits[i] == LowBits(d[k], 8)[i - n] { ByteBitIs(d, k, i - n); }
  }

  lemma BigEndianStep(d: Digest, k: nat)
    requires k < 32
    ensures BigEndian(d[..k + 1]) == 256 * BigEndian(d[..k]) + d[k]
  {
    assert d[..k + 1][..k] == d[..k];
  }

  lemma {:induction false} LeadingBytes(d: Digest, k: nat)
    requires k <= 32
    ensures Number(BitsOf(d)[..8 * k]) == BigEndian(d[..k])
  {
    if k > 0 {
      var front := BitsOf(d)[..8 * (k - 1)];
      LeadingBytes(d, k - 1);
      NextByte(d, k - 1);
      EightBits(Number(front));
      NumberAppendLow(front, d[k - 1], 8);
      BigEndianStep(d, k - 1);
    }
  }

  /** Then its number is that of the digest's bytes. */
  lemma UnanimousFingerprintIsDigest(ds: seq<Digest>, d: Digest)
    requires ds != [] && forall j :: 0 <= j < |ds| ==> ds[j] == d
    ensures Fingerprint(ds) == BigEndian(d)
  {
    forall b | 0 <= b < BITS ensures (Weight(ds, b) >= 0) == DigestBit(d, b) {
      WeightIsMajority(ds, b);
      UnanimousOnes(ds, d, b);
    }
    assert Signs(Weights(ds)) == BitsOf(d);
    LeadingBytes(d, 32);
    assert BitsOf(d)[..8 * 32] == BitsOf(d) && d[..32] == d;
  }

  lemma WeightAppend(ds: seq<Digest>, d: Digest, b: nat)
    requires b < BITS
    ensures Weight(ds + [d], b) == Weight(ds, b) + Vote(d, b)
  {
    assert (ds + [d])[..|ds|] == ds;
  }

  lemma {:induction false} WeightWithout(ds: seq<Digest>, i: nat, b: nat)
    requires b < BITS && i < |ds|
    ensures Weight(ds, b) == Weight(Without(ds, i), b) + Vote(ds[i], b)
  {
    var n := |ds| - 1;
    if i == n {
      assert Without(ds, i) == ds[..n];
    } else {
      WeightWithout(ds[..n], i, b);
      assert Without(ds, i) == Without(ds[..n], i) + [ds[n]];
      WeightAppend(Without(ds[..n], i), ds[n], b);
    }
  }

  lemma {:induction false} WeightIgnoresOrder(ds: seq<Digest>, es: seq<Digest>, b: nat)
    requires b < BITS && multiset(ds) == multiset(es)
    ensures Weight(ds, b) == Weight(es, b)
  {
    if ds == [] {
      assert |es| == |multiset(es)| == |multiset(ds)| == 0;
    } else {
      var i := PlaceOfLast(ds, es);
      WeightIgnoresOrder(ds[..|ds| - 1], Without(es, i), b);
      WeightWithout(es, i, b);
    }
  }

  /** The order of the shingles does not matter. */
  lemma FingerprintIgnoresOrder(ds: seq<Digest>, es: seq<Digest>)
    requires multiset(ds) == multiset(es)
    ensures Fingerprint(ds) == Fingerprint(es)
  {
    forall b | 0 <= b < BITS ensures Weight(ds, b) == Weight(es, b) {
      WeightIgnoresOrder(ds, es, b);
    }
    assert Weights(ds) == Weights(es);
  }

  // ----------------------------------------------------------- one token changed

  /** How many of the first `n` windows of `size` tokens contain position `i`. */
  function Touched(n: nat, i: nat, size: nat): nat
  {
    if n == 0 then 0 else Touched(n - 1, i, size) + if n - 1 <= i < n - 1 + size then 1 else 0
  }

  lemma {:induction false} TouchedAtMostSize(n: nat, i: nat, size: nat)
    ensures Touched(n, i, size) <= size
    ensures i + size >= n > i ==> Touched(n, i, size) <= size
    ensures n + size <= i + 1 ==> Touched(n, i, size) == 0
    ensures n + size > i + 1 && n <= i + 1 ==> Touched(n, i, size) <= n + size - i - 1
  {
    if n > 0 {
      TouchedAtMostSize(n - 1, i, size);
    }
  }

  lemma {:induction false} WeightMovesWithTouched(ds: seq<Digest>, es: seq<Digest>, i: nat, size: nat, b: nat)
    requires b < BITS && |ds| == |es|
    requires forall j :: 0 <= j < |ds| && !(j <= i < j + size) ==> ds[j] == es[j]
    ensures -2 * Touched(|ds|, i, size) <= Weight(ds, b) - Weight(es, b) <= 2 * Touched(|ds|, i, size)
  {
    if ds != [] {
      var n := |ds| - 1;
      WeightMovesWithTouched(ds[..n], es[..n], i, size, b);
      assert !(n <= i < n + size) ==> ds[n] == es[n];
    }
  }

  /** Replacing one token moves every weight by at most twice the shingle size,
      so a bit whose weight is at least that far from flipping stays as it is. */
  lemma OneTokenMovesWeightsLittle(sha: string -> Digest, tokens: seq<string>, size: nat, i: nat, token: string, b: nat)
    requires i < |tokens| && b < BITS
    ensures
      var ds, es := Digests(sha, tokens, size), Digests(sha, tokens[i := token], size);
      && -2 * size <= Weight(es, b) - Weight(ds, b) <= 2 * size
      && (Weight(ds, b) >= 2 * size || Weight(ds, b) < -2 * size ==>
            NumberBit(Fingerprint(es), BITS - 1 - b) == NumberBit(Fingerprint(ds), BITS - 1 - b))
  {
    var changed := tokens[i := token];
    var ds, es := Digests(sha, tokens, size), Digests(sha, changed, size);
    forall j | 0 <= j < |ds| && !(j <= i < j + size) ensures ds[j] == es[j] {
      assert tokens[j..j + size] == changed[j..j + size];
    }
    WeightMovesWithTouched(ds, es, i, size, b);
    TouchedAtMostSize(|ds|, i, size);
    OutputBitIsMajority(ds, b);
    OutputBitIsMajority(es, b);
  }
}
