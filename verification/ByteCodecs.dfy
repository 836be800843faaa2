/** Big-endian lengths and unpadded base64url, as Node's Buffer reads and writes them. */
module ByteCodecs {
  import opened Wrappers

  // ---------- A byte and its number ----------

  type Bits = seq<bool>

  function Number(bits: Bits): nat {
    if bits == [] then 0 else (if bits[0] then 1 else 0) + 2 * Number(bits[1..])
  }

  function Digits(n: nat, width: nat): (r: Bits)
    ensures |r| == width
  {
    if width == 0 then [] else [n % 2 == 1] + Digits(n / 2, width - 1)
  }

  function TwoTo(n: nat): nat {
    if n == 0 then 1 else 2 * TwoTo(n - 1)
  }

  lemma {:induction false} NumberDigits(n: nat, width: nat)
    requires n < TwoTo(width)
    ensures Number(Digits(n, width)) == n
  {
    if width > 0 { NumberDigits(n / 2, width - 1); }
  }

  lemma {:induction false} DigitsNumber(bits: Bits)
    ensures Digits(Number(bits), |bits|) == bits && Number(bits) < TwoTo(|bits|)
  {
    if bits != [] { DigitsNumber(bits[1..]); }
  }

  function Mask(bit: bool, weight: bv8): bv8 {
    if bit then weight else 0
  }

  function Pack(bits: Bits): bv8
    requires |bits| == 8
  {
    Mask(bits[0], 1) | Mask(bits[1], 2) | Mask(bits[2], 4) | Mask(bits[3], 8)
    | Mask(bits[4], 16) | Mask(bits[5], 32) | Mask(bits[6], 64) | Mask(bits[7], 128)
  }

  function Unpack(b: bv8): (r: Bits)
    ensures |r| == 8
  {
    [b & 1 != 0, b & 2 != 0, b & 4 != 0, b & 8 != 0, b & 16 != 0, b & 32 != 0, b & 64 != 0, b & 128 != 0]
  }

  lemma {:induction false} UnpackPack(bits: Bits)
    requires |bits| == 8
    ensures Unpack(Pack(bits)) == bits
  {
  }

  lemma {:induction false} PackUnpack(b: bv8)
    ensures Pack(Unpack(b)) == b
  {
  }

  function Octet(n: nat): bv8
    requires n < 256
  {
    Pack(Digits(n, 8))
  }

  function NumberOf(b: bv8): (n: nat)
    ensures n < 256
  {
    DigitsNumber(Unpack(b));
    assert TwoTo(4) == 16;
    Number(Unpack(b))
  }

  lemma {:induction false} NumberOfOctet(n: nat)
    requires n < 256
    ensures NumberOf(Octet(n)) == n
  {
    hide Pack, Unpack, Number, Digits;
    assert TwoTo(4) == 16;
    UnpackPack(Digits(n, 8));
    NumberDigits(n, 8);
  }

  lemma {:induction false} OctetOfNumber(b: bv8)
    ensures Octet(NumberOf(b)) == b
  {
    hide Pack, Unpack, Number, Digits;
    PackUnpack(b);
    DigitsNumber(Unpack(b));
  }

  // ---------- Big-endian ----------

  function Power(width: nat): (r: nat)
    ensures r >= 1
  {
    if width == 0 then 1 else 256 * Power(width - 1)
  }

  /** The low `width` bytes of `n`, most significant first. */
  function BigEndian(n: nat, width: nat): (r: Bytes)
    ensures |r| == width
  {
    if width == 0 then [] else BigEndian(n / 256, width - 1) + [Octet(n % 256)]
  }

  function FromBigEndian(bytes: Bytes): nat {
    if bytes == [] then 0 else 256 * FromBigEndian(bytes[..|bytes| - 1]) + NumberOf(bytes[|bytes| - 1])
  }

  /** Reading back what was written gives the number itself exactly below 256^width. */
  lemma {:induction false} BigEndianRoundTrip(n: nat, width: nat)
    ensures FromBigEndian(BigEndian(n, width)) == n <==> n < Power(width)
    ensures FromBigEndian(BigEndian(n, width)) == n % Power(width)
  {
    hide Octet, NumberOf;
    if width == 0 {
    } else {
      var bytes := BigEndian(n, width);
      assert bytes[..width - 1] == BigEndian(n / 256, width - 1);
      NumberOfOctet(n % 256);
      BigEndianRoundTrip(n / 256, width - 1);
      SplitRemainder(n, Power(width - 1));
      RemainderSame(n, Power(width));
    }
  }

  lemma {:induction false} RemainderSame(n: nat, p: nat)
    requires p >= 1
    ensures n % p == n <==> n < p
  {
    if n < p { SmallRemainder(n, p); }
  }

  lemma {:induction false} SmallRemainder(n: nat, p: nat)
    requires n < p
    ensures n % p == n
  {
  }

  lemma {:induction false} SplitRemainder(n: nat, p: nat)
    requires p >= 1
    ensures 256 * (n / 256 % p) + n % 256 == n % (256 * p)
  {
    var q, a, b := n / 256 / p, n / 256 % p, n % 256;
    assert n / 256 == q * p + a;
    assert n == 256 * (n / 256) + b;
    assert n == q * (256 * p) + (256 * a + b) by {
      assert 256 * (q * p) == q * (256 * p);
    }
    assert 256 * a + b < 256 * p;
    QuotientUnique(n, 256 * p, q, 256 * a + b);
  }

  lemma {:induction false} QuotientUnique(n: nat, p: nat, q: nat, r: nat)
    requires n == q * p + r && r < p
    ensures n % p == r
  {
    var d := n / p - q;
    assert n == (n / p) * p + n % p;
    assert (n / p) * p - q * p == d * p;
    if d >= 1 {
      Monotone(1, d, p);
    } else if d <= -1 {
      Monotone(d, -1, p);
    }
  }

  lemma {:induction false} Monotone(a: int, b: int, p: nat)
    requires a <= b
    ensures a * p <= b * p
  {
  }

  /** Two lengths below 256^width with the same bytes are equal. */
  lemma {:induction false} BigEndianInjective(m: nat, n: nat, width: nat)
    requires m < Power(width) && n < Power(width) && BigEndian(m, width) == BigEndian(n, width)
    ensures m == n
  {
    BigEndianRoundTrip(m, width);
    BigEndianRoundTrip(n, width);
  }

  lemma {:induction false} LastDigit(n: nat, d: nat)
    requires d < 256
    ensures (256 * n + d) / 256 == n && (256 * n + d) % 256 == d
  {
  }

  lemma {:induction false} BigEndianAppend(n: nat, last: bv8, width: nat)
    ensures BigEndian(256 * n + NumberOf(last), width + 1) == BigEndian(n, width) + [last]
  {
    hide Octet, NumberOf;
    OctetOfNumber(last);
    LastDigit(n, NumberOf(last));
  }

  lemma {:induction false} NoDigits(n: nat)
    ensures BigEndian(n, 0) == []
  {
  }

  lemma {:induction false} FromBigEndianRoundTrip(bytes: Bytes)
    ensures BigEndian(FromBigEndian(bytes), |bytes|) == bytes
  {
    hide BigEndian, NumberOf;
    if bytes == [] {
      NoDigits(0);
    } else {
      var before, last := bytes[..|bytes| - 1], bytes[|bytes| - 1];
      FromBigEndianRoundTrip(before);
      BigEndianAppend(FromBigEndian(before), last, |before|);
      assert bytes == before + [last];
    }
  }

  /** The four bytes of a length, the most significant first. */
  lemma {:induction false} MostSignificantFirst(n: nat)
    ensures var r := BigEndian(n, 4);
            && NumberOf(r[0]) == n / 0x100 / 0x100 / 0x100 % 0x100 && NumberOf(r[1]) == n / 0x100 / 0x100 % 0x100
            && NumberOf(r[2]) == n / 0x100 % 0x100 && NumberOf(r[3]) == n % 0x100
  {
    hide Octet, NumberOf;
    NumberOfOctet(n % 0x100);
    NumberOfOctet(n / 0x100 % 0x100);
    NumberOfOctet(n / 0x100 / 0x100 % 0x100);
    NumberOfOctet(n / 0x100 / 0x100 / 0x100 % 0x100);
    assert BigEndian(n, 4) == BigEndian(n / 0x100, 3) + [Octet(n % 0x100)];
    assert BigEndian(n / 0x100, 3) == BigEndian(n / 0x100 / 0x100, 2) + [Octet(n / 0x100 % 0x100)];
    assert BigEndian(n / 0x100 / 0x100, 2) == BigEndian(n / 0x100 / 0x100 / 0x100, 1) + [Octet(n / 0x100 / 0x100 % 0x100)];
    assert BigEndian(n / 0x100 / 0x100 / 0x100, 1) == [] + [Octet(n / 0x100 / 0x100 / 0x100 % 0x100)];
  }

  /** The number of a byte, by the weights of its bits. */
  lemma {:induction false} Weighted(b: bv8)
    ensures NumberOf(b) == BitValue(b & 1 != 0, 1) + BitValue(b & 2 != 0, 2) + BitValue(b & 4 != 0, 4) + BitValue(b & 8 != 0, 8)
                         + BitValue(b & 16 != 0, 16) + BitValue(b & 32 != 0, 32) + BitValue(b & 64 != 0, 64) + BitValue(b & 128 != 0, 128)
  {
    hide TwoTo, Digits;
    NumberFour(Unpack(b));
    NumberFour(Unpack(b)[4..]);
    assert Unpack(b)[4..][4..] == [];
  }

  lemma {:induction false} NumberFour(bits: Bits)
    requires |bits| >= 4
    ensures Number(bits) == BitValue(bits[0], 1) + BitValue(bits[1], 2) + BitValue(bits[2], 4) + BitValue(bits[3], 8) + 16 * Number(bits[4..])
  {
    assert bits[1..][1..] == bits[2..] && bits[2..][1..] == bits[3..] && bits[3..][1..] == bits[4..];
    assert Number(bits) == BitValue(bits[0], 1) + 2 * Number(bits[1..]);
    assert Number(bits[1..]) == BitValue(bits[1], 1) + 2 * Number(bits[2..]);
    assert Number(bits[2..]) == BitValue(bits[2], 1) + 2 * Number(bits[3..]);
    assert Number(bits[3..]) == BitValue(bits[3], 1) + 2 * Number(bits[4..]);
  }

  function BitValue(bit: bool, weight: nat): nat {
    if bit then weight else 0
  }

  // ---------- base64url ----------

  /** A character of the alphabet, by its value. */
  type Sextet = n: int | 0 <= n < 64

  // The four characters of three bytes, and the three bytes of four characters, by number.

  function S1(a: nat): Sextet
    requires a < 256
  {
    a / 4
  }

  function S2(a: nat, b: nat): Sextet
    requires a < 256 && b < 256
  {
    a % 4 * 16 + b / 16
  }

  function S3(b: nat, c: nat): Sextet
    requires b < 256 && c < 256
  {
    b % 16 * 4 + c / 64
  }

  function S4(c: nat): Sextet {
    c % 64
  }

  function B1(p: Sextet, q: Sextet): (n: nat)
    ensures n < 256
  {
    var x: int, y: int := p, q;
    x * 4 + y / 16
  }

  function B2(q: Sextet, r: Sextet): (n: nat)
    ensures n < 256
  {
    var x: int, y: int := q, r;
    x % 16 * 16 + y / 4
  }

  function B3(r: Sextet, s: Sextet): (n: nat)
    ensures n < 256
  {
    var x: int, y: int := r, s;
    x % 4 * 64 + y
  }

  lemma {:induction false} NumbersOfSextets(a: nat, b: nat, c: nat)
    requires a < 256 && b < 256 && c < 256
    ensures B1(S1(a), S2(a, b)) == a && B2(S2(a, b), S3(b, c)) == b && B3(S3(b, c), S4(c)) == c
  {
  }

  lemma {:induction false} SextetsOfNumbers(p: Sextet, q: Sextet, r: Sextet, s: Sextet)
    ensures S1(B1(p, q)) == p && S2(B1(p, q), B2(q, r)) == q && S3(B2(q, r), B3(r, s)) == r && S4(B3(r, s)) == s
  {
  }

  function Quad(a: bv8, b: bv8, c: bv8): (r: seq<Sextet>)
    ensures |r| == 4
  {
    [S1(NumberOf(a)), S2(NumberOf(a), NumberOf(b)), S3(NumberOf(b), NumberOf(c)), S4(NumberOf(c))]
  }

  function Triple(p: Sextet, q: Sextet, r: Sextet, s: Sextet): (t: Bytes)
    ensures |t| == 3
  {
    [Octet(B1(p, q)), Octet(B2(q, r)), Octet(B3(r, s))]
  }

  function Base64(bytes: Bytes): seq<Sextet> {
    if |bytes| == 0 then []
    else if |bytes| == 1 then Quad(bytes[0], Octet(0), Octet(0))[..2]
    else if |bytes| == 2 then Quad(bytes[0], bytes[1], Octet(0))[..3]
    else Quad(bytes[0], bytes[1], bytes[2]) + Base64(bytes[3..])
  }

  /** Lenient, as Buffer.from is: left-over bits, and a single left-over character, are dropped. */
  function FromBase64(text: seq<Sextet>): Bytes {
    if |text| < 2 then []
    else if |text| == 2 then Triple(text[0], text[1], 0, 0)[..1]
    else if |text| == 3 then Triple(text[0], text[1], text[2], 0)[..2]
    else Triple(text[0], text[1], text[2], text[3]) + FromBase64(text[4..])
  }

  lemma {:induction false} TripleOfQuad(a: bv8, b: bv8, c: bv8, r: Sextet, s: Sextet)
    ensures var q := Quad(a, b, c);
            && Triple(q[0], q[1], q[2], q[3]) == [a, b, c]
            && Triple(q[0], q[1], q[2], s)[..2] == [a, b]
            && Triple(q[0], q[1], r, s)[..1] == [a]
  {
    hide Octet, NumberOf, S1, S2, S3, S4, B1, B2, B3;
    NumbersOfSextets(NumberOf(a), NumberOf(b), NumberOf(c));
    OctetOfNumber(a);
    OctetOfNumber(b);
    OctetOfNumber(c);
  }

  lemma {:induction false} QuadOfTriple(p: Sextet, q: Sextet, r: Sextet, s: Sextet)
    ensures var t := Triple(p, q, r, s);
            Quad(t[0], t[1], t[2]) == [p, q, r, s]
  {
    hide Octet, NumberOf, S1, S2, S3, S4, B1, B2, B3;
    SextetsOfNumbers(p, q, r, s);
    NumberOfOctet(B1(p, q));
    NumberOfOctet(B2(q, r));
    NumberOfOctet(B3(r, s));
  }

  lemma {:induction false} Base64RoundTrip(bytes: Bytes)
    ensures FromBase64(Base64(bytes)) == bytes
    ensures bytes == [] <==> Base64(bytes) == []
    decreases |bytes|
  {
    hide Quad, Triple, Octet;
    var text := Base64(bytes);
    if |bytes| >= 3 {
      TripleOfQuad(bytes[0], bytes[1], bytes[2], 0, 0);
      Base64RoundTrip(bytes[3..]);
      assert text[4..] == Base64(bytes[3..]);
      assert bytes == [bytes[0], bytes[1], bytes[2]] + bytes[3..];
    } else if |bytes| == 2 {
      TripleOfQuad(bytes[0], bytes[1], Octet(0), 0, 0);
    } else if |bytes| == 1 {
      TripleOfQuad(bytes[0], Octet(0), Octet(0), 0, 0);
    }
  }

  lemma {:induction false} WholeTriplesLength(bytes: Bytes)
    requires |bytes| % 3 == 0
    ensures |Base64(bytes)| == |bytes| / 3 * 4
    decreases |bytes|
  {
    hide Quad;
    if bytes != [] { WholeTriplesLength(bytes[3..]); }
  }

  /** A whole number of groups of four characters has exactly one reading. */
  lemma {:induction false} WholeGroupsRoundTrip(text: seq<Sextet>)
    requires |text| % 4 == 0
    ensures Base64(FromBase64(text)) == text && |FromBase64(text)| == |text| / 4 * 3
    decreases |text|
  {
    hide Quad, Triple;
    if text != [] {
      WholeGroupsRoundTrip(text[4..]);
      QuadOfTriple(text[0], text[1], text[2], text[3]);
      var bytes := FromBase64(text);
      assert bytes[3..] == FromBase64(text[4..]);
      assert text == [text[0], text[1], text[2], text[3]] + text[4..];
    }
  }

  function InBase64(p: int, q: int, r: int, s: int): int {
    ((p * 64 + q) * 64 + r) * 64 + s
  }

  /** Three bytes are four characters of the same number; of one and two bytes the missing bits are zero. */
  lemma {:induction false} Base64Means(a: bv8, b: bv8, c: bv8, rest: Bytes)
    ensures var r := Base64([a, b, c] + rest);
            && |r| >= 4 && r[4..] == Base64(rest)
            && InBase64(r[0], r[1], r[2], r[3]) == (NumberOf(a) * 256 + NumberOf(b)) * 256 + NumberOf(c)
    ensures var r := Base64([a]); |r| == 2 && InBase64(0, 0, r[0], r[1]) == NumberOf(a) * 16
    ensures var r := Base64([a, b]); |r| == 3 && InBase64(0, r[0], r[1], r[2]) == (NumberOf(a) * 256 + NumberOf(b)) * 4
  {
    hide Octet, NumberOf, InBase64, S1, S2, S3, S4;
    NumberOfOctet(0);
    SextetSum(NumberOf(a), NumberOf(b), NumberOf(c));
    assert ([a, b, c] + rest)[3..] == rest;
  }

  lemma {:induction false} SextetSum(a: nat, b: nat, c: nat)
    requires a < 256 && b < 256 && c < 256
    ensures InBase64(S1(a), S2(a, b), S3(b, c), S4(c)) == (a * 256 + b) * 256 + c
    ensures InBase64(0, 0, S1(a), S2(a, 0)) == a * 16
    ensures InBase64(0, S1(a), S2(a, b), S3(b, 0)) == (a * 256 + b) * 4
  {
  }
}
