/**
  The 32-bit operators of JavaScript on integers: operands are taken modulo 2^32, and
  all results but those of `>>>` are signed.
*/
module Int32 {
  const MODULUS: nat := 0x1_0000_0000

  function ToUint32(n: int): (r: nat)
    ensures r < MODULUS
  {
    n % MODULUS
  }

  function ToInt32(n: int): (r: int)
    ensures -0x8000_0000 <= r < 0x8000_0000
  {
    if ToUint32(n) < 0x8000_0000 then ToUint32(n) else ToUint32(n) - MODULUS
  }

  function Double(n: nat, k: nat): nat
    decreases k
  {
    if k == 0 then n else Double(2 * n, k - 1)
  }

  /** Rounds down, below zero too. */
  function Halve(n: int, k: nat): (r: int)
    ensures n >= 0 ==> r >= 0
    decreases k
  {
    if k == 0 then n else Halve(n / 2, k - 1)
  }

  function AndBits(a: nat, b: nat): nat {
    if a == 0 || b == 0 then 0 else 2 * AndBits(a / 2, b / 2) + if a % 2 == 1 && b % 2 == 1 then 1 else 0
  }

  function OrBits(a: nat, b: nat): nat {
    if a == 0 && b == 0 then 0 else 2 * OrBits(a / 2, b / 2) + if a % 2 == 1 || b % 2 == 1 then 1 else 0
  }

  /** `a & b` */
  function And(a: int, b: int): int {
    ToInt32(AndBits(ToUint32(a), ToUint32(b)))
  }

  /** `a | b` */
  function Or(a: int, b: int): int {
    ToInt32(OrBits(ToUint32(a), ToUint32(b)))
  }

  /** `a << k` */
  function ShiftLeft(a: int, k: nat): int {
    ToInt32(Double(ToUint32(a), k))
  }

  /** `a >> k`, which keeps the sign. */
  function ShiftRight(a: int, k: nat): int {
    Halve(ToInt32(a), k)
  }

  /** `a >>> k`, which does not. */
  function ShiftRightZero(a: int, k: nat): nat {
    Halve(ToUint32(a), k)
  }

  // ---------- Bits ----------

  lemma {:induction false} SmallUnchanged(n: int)
    ensures 0 <= n < MODULUS ==> ToUint32(n) == n
    ensures 0 <= n < 0x8000_0000 ==> ToInt32(n) == n
  {
  }

  lemma {:induction false} Quotients(n: int)
    ensures n / 2 / 2 == n / 4 && n / 4 / 4 == n / 16 && n / 16 / 16 == n / 0x100
  {
  }

  lemma {:induction false} Words(n: int)
    ensures n / 0x100 / 0x100 == n / 0x1_0000
  {
  }

  lemma {:induction false} TwoDown(n: int, k: nat)
    ensures Halve(n, k + 2) == Halve(n / 4, k)
  {
    assert Halve(n, k + 2) == Halve(n / 2, k + 1) == Halve(n / 2 / 2, k);
    Quotients(n);
  }

  lemma {:induction false} ByteDown(n: int, k: nat)
    ensures Halve(n, k + 8) == Halve(n / 0x100, k)
  {
    hide Halve;
    TwoDown(n, k + 6);
    TwoDown(n / 4, k + 4);
    Quotients(n);
    TwoDown(n / 16, k + 2);
    TwoDown(n / 16 / 4, k);
    Quotients(n / 16);
  }

  lemma {:induction false} ByteUp(n: nat, k: nat)
    ensures Double(n, k + 8) == Double(0x100 * n, k)
  {
    assert Double(n, k + 8) == Double(2 * n, k + 7) == Double(4 * n, k + 6) == Double(8 * n, k + 5) == Double(16 * n, k + 4);
    assert Double(16 * n, k + 4) == Double(32 * n, k + 3) == Double(64 * n, k + 2) == Double(128 * n, k + 1);
  }

  lemma {:induction false} ShiftsUp(n: nat)
    ensures Double(n, 8) == 0x100 * n && Double(n, 16) == 0x1_0000 * n && Double(n, 24) == 0x100_0000 * n
  {
    assert Double(0x100 * n, 0) == 0x100 * n && Double(0x1_0000 * n, 0) == 0x1_0000 * n && Double(0x100_0000 * n, 0) == 0x100_0000 * n;
    hide Double;
    ByteUp(n, 0);
    ByteUp(n, 8);
    ByteUp(0x100 * n, 0);
    ByteUp(n, 16);
    ByteUp(0x100 * n, 8);
    ByteUp(0x1_0000 * n, 0);
  }

  lemma {:induction false} ShiftsDown(n: nat)
    ensures Halve(n, 0) == n && Halve(n, 8) == n / 0x100 && Halve(n, 16) == n / 0x1_0000
  {
    assert Halve(n, 0) == n && Halve(n / 0x100, 0) == n / 0x100 && Halve(n / 0x100 / 0x100, 0) == n / 0x100 / 0x100;
    hide Halve;
    ByteDown(n, 0);
    ByteDown(n, 8);
    ByteDown(n / 0x100, 0);
    Words(n);
  }

  /** The k lowest bits, and the number they are alone. */
  function Ones(k: nat): nat {
    if k == 0 then 0 else 2 * Ones(k - 1) + 1
  }

  function Low(a: nat, k: nat): nat
    decreases k
  {
    if k == 0 then 0 else 2 * Low(a / 2, k - 1) + a % 2
  }

  lemma {:induction false} AndOnes(a: nat, k: nat)
    ensures AndBits(a, Ones(k)) == Low(a, k)
    decreases k
  {
    if k > 0 {
      AndOnes(a / 2, k - 1);
      if a == 0 { LowNothing(k); }
    }
  }

  lemma {:induction false} LowNothing(k: nat)
    ensures Low(0, k) == 0
  {
    if k > 0 { LowNothing(k - 1); }
  }

  lemma {:induction false} Remainders(a: nat)
    ensures a % 4 == 2 * (a / 2 % 2) + a % 2
  {
  }

  lemma {:induction false} NibbleRemainder(a: nat)
    ensures a % 16 == 4 * (a / 4 % 4) + a % 4
  {
    var q := a / 4;
    assert a == 4 * q + a % 4 && q == 4 * (q / 4) + q % 4;
    assert a == 16 * (q / 4) + (4 * (q % 4) + a % 4);
  }

  lemma {:induction false} ByteRemainder(a: nat)
    ensures a % 0x100 == 16 * (a / 16 % 16) + a % 16
  {
    var q := a / 16;
    assert a == 16 * q + a % 16 && q == 16 * (q / 16) + q % 16;
    assert a == 0x100 * (q / 16) + (16 * (q % 16) + a % 16);
  }

  lemma {:induction false} WordRemainder(a: nat)
    ensures a % 0x1_0000 == 0x100 * (a / 0x100 % 0x100) + a % 0x100
  {
    var q := a / 0x100;
    assert a == 0x100 * q + a % 0x100 && q == 0x100 * (q / 0x100) + q % 0x100;
    assert a == 0x1_0000 * (q / 0x100) + (0x100 * (q % 0x100) + a % 0x100);
  }

  lemma {:induction false} LowTwo(a: nat, k: nat)
    ensures Low(a, k + 2) == 4 * Low(a / 4, k) + a % 4
  {
    assert Low(a, k + 2) == 2 * Low(a / 2, k + 1) + a % 2;
    assert Low(a / 2, k + 1) == 2 * Low(a / 2 / 2, k) + a / 2 % 2;
    Quotients(a);
    Remainders(a);
  }

  lemma {:induction false} LowFour(a: nat, k: nat)
    ensures Low(a, k + 4) == 16 * Low(a / 16, k) + a % 16
  {
    hide Low;
    LowTwo(a, k + 2);
    LowTwo(a / 4, k);
    Quotients(a);
    NibbleRemainder(a);
  }

  lemma {:induction false} LowByte(a: nat, k: nat)
    ensures Low(a, k + 8) == 0x100 * Low(a / 0x100, k) + a % 0x100
  {
    hide Low;
    LowFour(a, k + 4);
    LowFour(a / 16, k);
    Quotients(a);
    ByteRemainder(a);
  }

  lemma {:induction false} LowEight(a: nat)
    ensures Low(a, 8) == a % 0x100
  {
    LowByte(a, 0);
    LowEmpty(a / 0x100);
    hide Low;
  }

  lemma {:induction false} LowEmpty(a: nat)
    ensures Low(a, 0) == 0
  {
  }

  lemma {:induction false} LowSixteen(a: nat)
    ensures Low(a, 16) == a % 0x1_0000
  {
    hide Low;
    LowByte(a, 8);
    LowEight(a / 0x100);
    WordRemainder(a);
  }

  /** A mask of ones keeps a remainder. */
  lemma {:induction false} Masks(a: nat)
    ensures AndBits(a, 0xff) == a % 0x100 && AndBits(a, 0xffff) == a % 0x1_0000
  {
    assert Ones(8) == 0xff;
    assert Ones(16) == 0xffff;
    hide AndBits, Low, Ones;
    AndOnes(a, 8);
    AndOnes(a, 16);
    LowEight(a);
    LowSixteen(a);
  }

  lemma {:induction false} OrNothing(a: nat)
    ensures OrBits(a, 0) == a
  {
    if a > 0 { OrNothing(a / 2); }
  }

  /** Bits below the k-th do not meet those from the k-th on. */
  lemma {:induction false} OrApart(a: nat, b: nat, k: nat)
    requires Halve(b, k) == 0
    ensures OrBits(Double(a, k), b) == Double(a, k) + b
    decreases k
  {
    if k == 0 {
      OrNothing(a);
    } else {
      DoubleOut(a, k - 1);
      OrApart(a, b / 2, k - 1);
    }
  }

  lemma {:induction false} DoubleOut(a: nat, k: nat)
    ensures Double(2 * a, k) == 2 * Double(a, k)
    decreases k
  {
    if k > 0 { DoubleOut(2 * a, k - 1); }
  }

  // ---------- What the two parsers and the normal form compute ----------

  /** `(a << 8) | b` of two octets. */
  lemma {:induction false} OctetPair(a: nat, b: nat)
    requires a < 256 && b < 256
    ensures Or(ShiftLeft(a, 8), b) == a * 0x100 + b
  {
    hide ToUint32, ToInt32, Double, Halve, OrBits;
    ShiftsUp(a);
    ShiftsDown(b);
    OrApart(a, b, 8);
    SmallUnchanged(a);
    SmallUnchanged(b);
    SmallUnchanged(0x100 * a);
    SmallUnchanged(0x100 * a + b);
  }

  /** `((a << 24) >>> 0) + (b << 16) + (c << 8) + d`: the sign that the first shift may set is taken back. */
  lemma {:induction false} OctetNumber(a: nat, b: nat, c: nat)
    requires a < 256 && b < 256 && c < 256
    ensures ShiftRightZero(ShiftLeft(a, 24), 0) == a * 0x100_0000
    ensures ShiftLeft(b, 16) == b * 0x1_0000 && ShiftLeft(c, 8) == c * 0x100
  {
    hide ToUint32, ToInt32, Double, Halve;
    ShiftsUp(a);
    ShiftsUp(b);
    ShiftsUp(c);
    SmallUnchanged(a);
    SmallUnchanged(b);
    SmallUnchanged(c);
    SmallUnchanged(0x100_0000 * a);
    SmallUnchanged(0x1_0000 * b);
    SmallUnchanged(0x100 * c);
    SignTakenBack(0x100_0000 * a);
    ShiftsDown(0x100_0000 * a);
  }

  lemma {:induction false} SignTakenBack(n: nat)
    requires n < MODULUS
    ensures ToUint32(ToInt32(n)) == n
  {
  }

  /** It is set by a first octet of 128 or more, which would make the number negative. */
  lemma {:induction false} SignBit(a: nat)
    requires a < 256
    ensures ShiftLeft(a, 24) < 0 <==> a >= 128
  {
    ShiftsUp(a);
    SmallUnchanged(a);
    SmallUnchanged(0x100_0000 * a);
    hide Double;
  }

  /** `n & 0xffff` and `(n >>> 16) & 0xffff` of a number of 32 bits. */
  lemma {:induction false} HalfWords(n: nat)
    requires n < MODULUS
    ensures And(n, 0xffff) == n % 0x1_0000 && And(ShiftRightZero(n, 16), 0xffff) == n / 0x1_0000
  {
    hide ToUint32, ToInt32, AndBits, Halve;
    ShiftsDown(n);
    Masks(n);
    Masks(n / 0x1_0000);
    SmallUnchanged(n);
    SmallUnchanged(0xffff);
    SmallUnchanged(n % 0x1_0000);
    SmallUnchanged(n / 0x1_0000);
  }

  /** `g >> 8` and `g & 0xff` of a group. */
  lemma {:induction false} GroupOctets(g: nat)
    requires g < 0x1_0000
    ensures ShiftRight(g, 8) == g / 0x100 && And(g, 0xff) == g % 0x100
  {
    hide ToUint32, ToInt32, AndBits, Halve;
    ShiftsDown(g);
    Masks(g);
    SmallUnchanged(g);
    SmallUnchanged(0xff);
    SmallUnchanged(g % 0x100);
  }
}
