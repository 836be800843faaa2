/**
  Text of IP addresses: splitting, joining, digits, and the forms of section 2.2 of
  RFC 4291, each with the address it denotes.
*/
module IpText {
  import opened Wrappers

  // ---------- Splitting and joining ----------

  /** `text.split(c)`. */
  function Split(s: string, c: char): (r: seq<string>)
    ensures |r| >= 1
  {
    if s == "" then [""]
    else
      var rest := Split(s[1..], c);
      if s[0] == c then [""] + rest else [[s[0]] + rest[0]] + rest[1..]
  }

  function Join(parts: seq<string>, c: char): string {
    if parts == [] then ""
    else if |parts| == 1 then parts[0]
    else parts[0] + [c] + Join(parts[1..], c)
  }

  /** `text.split("::")`. */
  function SplitPair(s: string): (r: seq<string>)
    ensures |r| >= 1
  {
    if s == "" then [""]
    else if |s| >= 2 && s[0] == ':' && s[1] == ':' then [""] + SplitPair(s[2..])
    else
      var rest := SplitPair(s[1..]);
      [[s[0]] + rest[0]] + rest[1..]
  }

  /** `text.lastIndexOf(":") + 1`, where the last field begins. */
  function LastField(s: string): (n: nat)
    ensures n <= |s|
  {
    if s == "" || s[|s| - 1] == ':' then |s| else LastField(s[..|s| - 1])
  }

  lemma {:induction false} SplitHead(a: string, b: string, c: char)
    requires c !in a
    ensures Split(a + [c] + b, c) == [a] + Split(b, c)
  {
    if a == "" {
      assert ("" + [c] + b)[1..] == b;
    } else {
      SplitHead(a[1..], b, c);
      assert (a + [c] + b)[1..] == a[1..] + [c] + b;
      assert [a[0]] + a[1..] == a;
    }
  }

  lemma {:induction false} SplitNone(a: string, c: char)
    requires c !in a
    ensures Split(a, c) == [a]
  {
    if a != "" {
      SplitNone(a[1..], c);
      assert [a[0]] + a[1..] == a;
    }
  }

  predicate Free(parts: seq<string>, c: char) {
    forall p | p in parts :: c !in p
  }

  /** Fields without the separator come back from their text. */
  lemma {:induction false} SplitJoin(parts: seq<string>, c: char)
    requires parts != [] && Free(parts, c)
    ensures Split(Join(parts, c), c) == parts
  {
    assert parts[0] in parts;
    if |parts| == 1 {
      SplitNone(parts[0], c);
    } else {
      assert Free(parts[1..], c);
      SplitJoin(parts[1..], c);
      SplitHead(parts[0], Join(parts[1..], c), c);
    }
  }

  lemma {:induction false} LastFieldAfter(a: string, b: string)
    requires ':' !in b
    ensures LastField(a + ":" + b) == |a| + 1
  {
    var s := a + ":" + b;
    if b == "" {
      assert s[|s| - 1] == ':';
    } else {
      assert s[..|s| - 1] == a + ":" + b[..|b| - 1];
      LastFieldAfter(a, b[..|b| - 1]);
    }
  }

  /** No two colons in a row, and none at either end. */
  predicate Solid(s: string) {
    && (forall i | 0 <= i < |s| - 1 :: !(s[i] == ':' && s[i + 1] == ':'))
    && (s != "" ==> s[0] != ':' && s[|s| - 1] != ':')
  }

  predicate PairFree(s: string) {
    forall i | 0 <= i < |s| - 1 :: !(s[i] == ':' && s[i + 1] == ':')
  }

  lemma {:induction false} SplitPairNone(s: string)
    requires PairFree(s)
    ensures SplitPair(s) == [s]
  {
    if s != "" {
      assert PairFree(s[1..]) by {
        forall i | 0 <= i < |s[1..]| - 1 ensures !(s[1..][i] == ':' && s[1..][i + 1] == ':') {
          assert s[1..][i] == s[i + 1] && s[1..][i + 1] == s[i + 2];
        }
      }
      SplitPairNone(s[1..]);
      assert |s| >= 2 ==> !(s[0] == ':' && s[0 + 1] == ':');
      assert [s[0]] + s[1..] == s;
    }
  }

  lemma {:induction false} SplitPairHead(a: string, b: string)
    requires PairFree(a) && (a != "" ==> a[|a| - 1] != ':')
    ensures SplitPair(a + "::" + b) == [a] + SplitPair(b)
  {
    var s := a + "::" + b;
    if a == "" {
      assert s[2..] == b;
    } else {
      assert s[1..] == a[1..] + "::" + b;
      assert PairFree(a[1..]) by {
        forall i | 0 <= i < |a[1..]| - 1 ensures !(a[1..][i] == ':' && a[1..][i + 1] == ':') {
          assert a[1..][i] == a[i + 1] && a[1..][i + 1] == a[i + 2];
        }
      }
      SplitPairHead(a[1..], b);
      assert !(s[0] == ':' && s[1] == ':') by {
        if |a| >= 2 { assert s[0] == a[0] && s[1] == a[0 + 1]; }
      }
      assert [a[0]] + a[1..] == a;
    }
  }

  lemma {:induction false} JoinSolid(parts: seq<string>)
    requires Free(parts, ':') && forall p | p in parts :: p != ""
    ensures Solid(Join(parts, ':')) && (parts != [] ==> Join(parts, ':') != "")
  {
    if parts != [] {
      assert parts[0] in parts;
      if |parts| > 1 {
        var rest := Join(parts[1..], ':');
        assert parts[1] in parts && parts[1..] != [];
        assert forall p | p in parts[1..] :: p in parts;
        JoinSolid(parts[1..]);
        var s := parts[0] + [':'] + rest;
        forall i | 0 <= i < |s| - 1 ensures !(s[i] == ':' && s[i + 1] == ':') {
          var n := |parts[0]|;
          if i < n {
            assert s[i] == parts[0][i] && s[i] in parts[0];
          } else if i == n {
            assert s[i + 1] == rest[0];
          } else {
            assert s[i] == rest[i - n - 1] && s[i + 1] == rest[i - n - 1 + 1];
          }
        }
      } else {
        forall i | 0 <= i < |parts[0]| ensures parts[0][i] != ':' { assert parts[0][i] in parts[0]; }
      }
    }
  }

  lemma {:induction false} JoinAppend(a: seq<string>, b: seq<string>, c: char)
    requires a != [] && b != []
    ensures Join(a + b, c) == Join(a, c) + [c] + Join(b, c)
  {
    if |a| == 1 {
      assert (a + b)[1..] == b;
    } else {
      assert (a + b)[1..] == a[1..] + b;
      JoinAppend(a[1..], b, c);
    }
  }

  // ---------- Digits ----------

  function DigitValue(c: char): Option<nat> {
    if '0' <= c <= '9' then Some(c as nat - 0x30)
    else if 'a' <= c <= 'f' then Some(c as nat - 0x61 + 10)
    else if 'A' <= c <= 'F' then Some(c as nat - 0x41 + 10)
    else None
  }

  function Digit(n: nat): char
    requires n < 16
  {
    if n < 10 then (0x30 + n) as char else (0x61 + n - 10) as char
  }

  lemma {:induction false} DigitRoundTrip(n: nat)
    requires n < 16
    ensures DigitValue(Digit(n)) == Some(n) && Digit(n) != ':' && Digit(n) != '.' && Digit(n) != '%'
  {
  }

  predicate AllHex(s: string) {
    forall c | c in s :: DigitValue(c).Some?
  }

  /** The value of a string of digits in a base of at most 16. */
  function Value(s: string, base: nat): nat {
    if s == "" then 0
    else
      var d := DigitValue(s[|s| - 1]);
      base * Value(s[..|s| - 1], base) + if d.Some? then d.value else 0
  }

  /** `n.toString(base)`. */
  function Numeral(n: nat, base: nat): (r: string)
    requires 2 <= base <= 16
    ensures |r| >= 1
    decreases n
  {
    if n < base then [Digit(n)]
    else
      Smaller(n, base);
      Numeral(n / base, base) + [Digit(n % base)]
  }

  lemma {:induction false} SmallQuotient(n: nat, base: nat)
    requires base >= 1 && n / base == 0
    ensures n < base
  {
  }

  lemma {:induction false} Smaller(n: nat, base: nat)
    requires 2 <= base <= n
    ensures 0 < n / base < n
  {
    var q := n / base;
    assert n == base * q + n % base;
    assert (base - 2) * q >= 0;
    assert n >= 2 * q;
    if q == 0 { SmallQuotient(n, base); }
  }

  lemma {:induction false} ValueAppend(s: string, d: nat, base: nat)
    requires d < 16
    ensures Value(s + [Digit(d)], base) == base * Value(s, base) + d
    ensures AllHex(s) ==> AllHex(s + [Digit(d)])
  {
    DigitRoundTrip(d);
    assert (s + [Digit(d)])[..|s|] == s;
  }

  lemma {:induction false} NumeralValue(n: nat, base: nat)
    requires 2 <= base <= 16
    ensures Value(Numeral(n, base), base) == n && AllHex(Numeral(n, base))
    decreases n
  {
    hide Value, Digit, AllHex;
    if n < base {
      ValueAppend("", n, base);
      OneDigit(base);
      assert [] + [Digit(n)] == [Digit(n)];
    } else {
      Smaller(n, base);
      NumeralValue(n / base, base);
      ValueAppend(Numeral(n / base, base), n % base, base);
    }
  }

  lemma {:induction false} OneDigit(base: nat)
    ensures Value("", base) == 0 && base * 0 == 0 && AllHex("")
  {
  }

  lemma {:induction false} HexBelow(s: string)
    requires AllHex(s)
    ensures Value(s, 16) < Power16(|s|)
  {
    if s != "" {
      var last := s[|s| - 1];
      assert last in s && forall c | c in s[..|s| - 1] :: c in s;
      HexBelow(s[..|s| - 1]);
    }
  }

  function Power16(n: nat): nat {
    if n == 0 then 1 else 16 * Power16(n - 1)
  }

  lemma {:induction false} NumeralLength(n: nat, width: nat)
    requires n < Power16(width) && width >= 1
    ensures |Numeral(n, 16)| <= width
    decreases width
  {
    if n >= 16 {
      assert width > 1;
      assert n / 16 < Power16(width - 1);
      NumeralLength(n / 16, width - 1);
    }
  }

  // ---------- The forms ----------

  predicate Octets(o: seq<nat>) {
    |o| == 4 && forall i | 0 <= i < 4 :: o[i] < 256
  }

  predicate Groups(g: seq<nat>) {
    |g| == 8 && forall i | 0 <= i < 8 :: g[i] < 0x10000
  }

  /** The one text of an IPv4 address: decimal without leading zeros. */
  function Dotted(o: seq<nat>): string
    requires Octets(o)
  {
    Join([Numeral(o[0], 10), Numeral(o[1], 10), Numeral(o[2], 10), Numeral(o[3], 10)], '.')
  }

  /** One to four hexadecimal digits of either case. */
  predicate Field(s: string) {
    1 <= |s| <= 4 && AllHex(s)
  }

  predicate Fields(parts: seq<string>) {
    forall p | p in parts :: Field(p)
  }

  /** A legal IPv6 text: fields, possibly one "::" between `left` and `right`, possibly a dotted quad at the end. */
  datatype Form = Form(left: seq<string>, elided: bool, right: seq<string>, tail: Option<seq<nat>>)
  {
    function Width(): nat {
      |left| + |right| + if tail.Some? then 2 else 0
    }

    predicate Legal() {
      && Fields(left) && Fields(right) && (tail.Some? ==> Octets(tail.value))
      && (if elided then Width() <= 7 else Width() == 8 && right == [])
    }

    /** The fields after the last "::", or all of them, the dotted quad included. */
    function Last(): seq<string>
      requires Legal()
    {
      (if elided then right else left) + (if tail.Some? then [Dotted(tail.value)] else [])
    }

    function Text(): string
      requires Legal()
    {
      (if elided then Join(left, ':') + "::" else "") + Join(Last(), ':')
    }

    function Address(): (r: seq<nat>)
      requires Legal()
      ensures |r| == 8
    {
      Values(left) + (if elided then Zeros(8 - Width()) else []) + Values(right)
      + (if tail.Some? then [tail.value[0] * 256 + tail.value[1], tail.value[2] * 256 + tail.value[3]] else [])
    }
  }

  function Zeros(n: nat): seq<nat> {
    seq(n, _ => 0)
  }

  function Values(parts: seq<string>): (r: seq<nat>)
    ensures |r| == |parts| && forall i | 0 <= i < |r| :: r[i] == Value(parts[i], 16)
  {
    seq(|parts|, i requires 0 <= i < |parts| => Value(parts[i], 16))
  }

  lemma {:induction false} FieldFacts(p: string)
    requires Field(p)
    ensures Value(p, 16) < 0x10000 && ':' !in p && '.' !in p && '%' !in p && p != ""
  {
    HexBelow(p);
    assert Power16(1) == 16 && Power16(2) == 256 && Power16(3) == 4096 && Power16(4) == 65536;
    forall c | c in p ensures c != ':' && c != '.' && c != '%' { assert DigitValue(c).Some?; }
  }

  lemma {:induction false} AddressGroups(f: Form)
    requires f.Legal()
    ensures Groups(f.Address())
  {
    forall p | p in f.left + f.right ensures Value(p, 16) < 0x10000 { FieldFacts(p); }
    forall i | 0 <= i < |f.left| ensures Values(f.left)[i] < 0x10000 { assert f.left[i] in f.left + f.right; }
    forall i | 0 <= i < |f.right| ensures Values(f.right)[i] < 0x10000 { assert f.right[i] in f.left + f.right; }
  }
}
