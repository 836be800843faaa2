/**
  The two IP parsers and the normal form (artifacts/server/src/auth-page.ts and
  artifacts/server/src/client-registration.ts).

  `isIp` is Node's net.isIP.  That it accepts exactly the texts of section 2.2 of
  RFC 4291, apart from zone suffixes, is the hypothesis `Judges`.
*/
module IpAddress {
  import opened Wrappers
  import opened IpText
  import Int32

  type IsIp = string -> nat

  ghost predicate Judges(isIp: IsIp) {
    && (forall t :: isIp(t) == 4 <==> IsDotted(t))
    && (forall t :: '%' !in t ==> (isIp(t) == 6 <==> IsForm(t)))
  }

  ghost predicate IsDotted(t: string) {
    exists o :: Octets(o) && t == Dotted(o)
  }

  ghost predicate IsForm(t: string) {
    exists f: Form :: f.Legal() && t == f.Text()
  }

  // ---------- The parsers ----------

  function Decimals(parts: seq<string>): (r: seq<nat>)
    ensures |r| == |parts| && forall i | 0 <= i < |r| :: r[i] == Value(parts[i], 10)
  {
    seq(|parts|, i requires 0 <= i < |parts| => Value(parts[i], 10))
  }

  /** `ipv4Octets`. */
  function Ipv4Octets(isIp: IsIp, t: string): Option<seq<nat>> {
    if isIp(t) != 4 then None
    else
      var parts := Split(t, '.');
      if |parts| == 4 then Some(Decimals(parts)) else None
  }

  /** `ipv4Number`. */
  function Ipv4Number(isIp: IsIp, t: string): Option<int> {
    if isIp(t) != 4 then None
    else
      var parts := Split(t, '.');
      if |parts| != 4 then None
      else
        var o := Decimals(parts);
        Some(Int32.ShiftRightZero(Int32.ShiftLeft(o[0], 24), 0) + Int32.ShiftLeft(o[1], 16) + Int32.ShiftLeft(o[2], 8) + o[3])
  }

  /** `n.toString(base)`, of negative numbers too. */
  function Signed(n: int, base: nat): string
    requires 2 <= base <= 16
  {
    if n < 0 then "-" + Numeral(-n, base) else Numeral(n, base)
  }

  function Hex(n: int): string {
    Signed(n, 16)
  }

  /** `a << 8 | b` */
  function Pair(a: nat, b: nat): int {
    Int32.Or(Int32.ShiftLeft(a, 8), b)
  }

  function LowerChar(c: char): char {
    if 'A' <= c <= 'Z' then (c as int + 0x20) as char else c
  }

  function Lower(s: string): (r: string)
    ensures |r| == |s| && forall i | 0 <= i < |s| :: r[i] == LowerChar(s[i])
  {
    seq(|s|, i requires 0 <= i < |s| => LowerChar(s[i]))
  }

  function HexPrefix(s: string): (n: nat)
    ensures n <= |s|
  {
    if s == "" || DigitValue(s[0]).None? then 0 else 1 + HexPrefix(s[1..])
  }

  /** `Number.parseInt(part, 16)` of text that isIP let through, None for NaN. */
  function ParseGroup(part: string): Option<nat> {
    var n := HexPrefix(part);
    if n == 0 then None else Some(Value(part[..n], 16))
  }

  function ParseGroups(parts: seq<string>): Option<seq<nat>> {
    if parts == [] then Some([])
    else
      var first, rest := ParseGroup(parts[0]), ParseGroups(parts[1..]);
      if first.None? || first.value > 0xffff || rest.None? then None else Some([first.value] + rest.value)
  }

  /** The second half of both parsers, which is the same text in both: halves, missing groups, numbers. */
  function Expand(expanded: string): Option<seq<nat>> {
    var halves := SplitPair(expanded);
    if |halves| > 2 then None
    else
      var left := if halves[0] == "" then [] else Split(halves[0], ':');
      var right := if |halves| == 1 || halves[1] == "" then [] else Split(halves[1], ':');
      var missing := 8 - |left| - |right|;
      if (|halves| == 1 && missing != 0) || (|halves| == 2 && missing < 1) then None
      else
        var groups := ParseGroups(left + seq(missing, _ => "0") + right);
        if groups.Some? && |groups.value| == 8 then groups else None
  }

  /** `ipv6Groups` of auth-page.ts: an embedded quad is rewritten from its octets. */
  function GroupsFromOctets(isIp: IsIp, value: string): Option<seq<nat>> {
    if '%' in value || isIp(value) != 6 then None
    else
      var text := Lower(value);
      var n := LastField(text);
      var embedded := Ipv4Octets(isIp, text[n..]);
      if embedded.None? then Expand(text)
      else if n == 0 then None
      else
        var o := embedded.value;
        if |o| != 4 then None else Expand(text[..n - 1] + ":" + Hex(Pair(o[0], o[1])) + ":" + Hex(Pair(o[2], o[3])))
  }

  /** `ipv6Groups` of client-registration.ts: it is rewritten from its 32-bit number. */
  function GroupsFromNumber(isIp: IsIp, value: string): Option<seq<nat>> {
    if '%' in value || isIp(value) != 6 then None
    else
      var text := Lower(value);
      var n := LastField(text);
      var embedded := Ipv4Number(isIp, text[n..]);
      if embedded.None? then Expand(text)
      else if n == 0 then None
      else
        var number := embedded.value;
        Expand(text[..n - 1] + ":" + Hex(Int32.And(Int32.ShiftRightZero(number, 16), 0xffff)) + ":" + Hex(Int32.And(number, 0xffff)))
  }

  // ---------- They agree ----------

  lemma {:induction false} DecimalFree(o: seq<nat>)
    requires Octets(o)
    ensures Free([Numeral(o[0], 10), Numeral(o[1], 10), Numeral(o[2], 10), Numeral(o[3], 10)], '.')
  {
    forall i | 0 <= i < 4 ensures '.' !in Numeral(o[i], 10) {
      NumeralValue(o[i], 10);
      forall c | c in Numeral(o[i], 10) ensures c != '.' { assert DigitValue(c).Some?; }
    }
  }

  /** The text of an address in four octets reads back as those octets. */
  lemma {:induction false} OctetsOfDotted(isIp: IsIp, o: seq<nat>)
    requires Octets(o) && isIp(Dotted(o)) == 4
    ensures Ipv4Octets(isIp, Dotted(o)) == Some(o)
    ensures Split(Dotted(o), '.') == [Numeral(o[0], 10), Numeral(o[1], 10), Numeral(o[2], 10), Numeral(o[3], 10)]
  {
    hide Numeral, Value;
    DecimalFree(o);
    var parts := [Numeral(o[0], 10), Numeral(o[1], 10), Numeral(o[2], 10), Numeral(o[3], 10)];
    SplitJoin(parts, '.');
    forall i | 0 <= i < 4 ensures Decimals(parts)[i] == o[i] { NumeralValue(o[i], 10); }
    assert Decimals(parts) == o;
  }

  /** The number of four octets, and its halves, are what the operators make of them. */
  lemma {:induction false} NumberHalves(o: seq<nat>)
    requires Octets(o)
    ensures var n := Int32.ShiftRightZero(Int32.ShiftLeft(o[0], 24), 0) + Int32.ShiftLeft(o[1], 16) + Int32.ShiftLeft(o[2], 8) + o[3];
            && n == o[0] * 0x1000000 + o[1] * 0x10000 + o[2] * 0x100 + o[3]
            && Int32.And(Int32.ShiftRightZero(n, 16), 0xffff) == o[0] * 0x100 + o[1]
            && Int32.And(n, 0xffff) == o[2] * 0x100 + o[3]
  {
    hide Int32.ShiftLeft, Int32.ShiftRightZero, Int32.And;
    Int32.OctetNumber(o[0], o[1], o[2]);
    Int32.HalfWords(o[0] * 0x1000000 + o[1] * 0x10000 + o[2] * 0x100 + o[3]);
  }

  lemma {:induction false} PairIs(o: seq<nat>)
    requires Octets(o)
    ensures Pair(o[0], o[1]) == o[0] * 0x100 + o[1] && Pair(o[2], o[3]) == o[2] * 0x100 + o[3]
  {
    Int32.OctetPair(o[0], o[1]);
    Int32.OctetPair(o[2], o[3]);
  }

  lemma {:induction false} EmbeddedAgree(isIp: IsIp, field: string)
    requires Judges(isIp)
    ensures var octets, number := Ipv4Octets(isIp, field), Ipv4Number(isIp, field);
            && (octets.Some? <==> number.Some?)
            && (octets.Some? ==>
                  && |octets.value| == 4
                  && Int32.And(Int32.ShiftRightZero(number.value, 16), 0xffff) == Pair(octets.value[0], octets.value[1])
                  && Int32.And(number.value, 0xffff) == Pair(octets.value[2], octets.value[3]))
  {
    hide Dotted, Numeral, Value, Split, Pair, Int32.ShiftLeft, Int32.ShiftRightZero, Int32.And;
    if isIp(field) == 4 {
      assert IsDotted(field);
      var o :| Octets(o) && field == Dotted(o);
      OctetsOfDotted(isIp, o);
      NumberHalves(o);
      PairIs(o);
    }
  }

  /** The two copies of the IPv6 parser agree on every input. */
  lemma {:induction false} ParsersAgree(isIp: IsIp, value: string)
    requires Judges(isIp)
    ensures GroupsFromOctets(isIp, value) == GroupsFromNumber(isIp, value)
  {
    hide Expand, Hex, Pair, Int32.ShiftRightZero, Int32.And, Judges, Ipv4Octets, Ipv4Number, Lower, LastField;
    EmbeddedAgree(isIp, Lower(value)[LastField(Lower(value))..]);
  }

  // ---------- What the parser reads ----------

  function LowerAll(parts: seq<string>): (r: seq<string>)
    ensures |r| == |parts| && forall i | 0 <= i < |r| :: r[i] == Lower(parts[i])
  {
    seq(|parts|, i requires 0 <= i < |parts| => Lower(parts[i]))
  }

  lemma {:induction false} LowerAppend(a: string, b: string)
    ensures Lower(a + b) == Lower(a) + Lower(b)
  {
  }

  lemma {:induction false} LowerJoin(parts: seq<string>, c: char)
    requires LowerChar(c) == c
    ensures Lower(Join(parts, c)) == Join(LowerAll(parts), c)
  {
    if parts == [] {
      assert Lower("") == "";
    } else if |parts| == 1 {
    } else {
      LowerJoin(parts[1..], c);
      assert LowerAll(parts)[1..] == LowerAll(parts[1..]);
      LowerAppend(parts[0] + [c], Join(parts[1..], c));
      LowerAppend(parts[0], [c]);
      assert Lower([c]) == [c];
    }
  }

  lemma {:induction false} LowerDigit(c: char)
    ensures DigitValue(LowerChar(c)) == DigitValue(c)
  {
  }

  lemma {:induction false} LowerHex(s: string)
    requires AllHex(s)
    ensures AllHex(Lower(s))
  {
    forall c | c in Lower(s) ensures DigitValue(c).Some? {
      var i :| 0 <= i < |s| && Lower(s)[i] == c;
      assert s[i] in s;
      LowerDigit(s[i]);
    }
  }

  lemma {:induction false} LowerValue(s: string)
    ensures Value(Lower(s), 16) == Value(s, 16)
  {
    if s != "" {
      var n := |s| - 1;
      hide DigitValue, LowerChar;
      LowerValue(s[..n]);
      assert Lower(s)[..n] == Lower(s[..n]);
      LowerDigit(s[n]);
    }
  }

  lemma {:induction false} LowerDotted(o: seq<nat>)
    requires Octets(o)
    ensures Lower(Dotted(o)) == Dotted(o)
  {
    var parts := [Numeral(o[0], 10), Numeral(o[1], 10), Numeral(o[2], 10), Numeral(o[3], 10)];
    LowerJoin(parts, '.');
    forall i | 0 <= i < 4 ensures LowerAll(parts)[i] == parts[i] { LowerNumeral(o[i], 10); }
    assert LowerAll(parts) == parts;
  }

  lemma {:induction false} LowerNumeral(n: nat, base: nat)
    requires 2 <= base <= 16
    ensures Lower(Numeral(n, base)) == Numeral(n, base)
    decreases n
  {
    if n >= base {
      Smaller(n, base);
      LowerNumeral(n / base, base);
      LowerAppend(Numeral(n / base, base), [Digit(n % base)]);
      assert Lower([Digit(n % base)]) == [Digit(n % base)];
    }
  }

  function LowerForm(f: Form): Form {
    f.(left := LowerAll(f.left), right := LowerAll(f.right))
  }

  lemma {:induction false} LowerFields(parts: seq<string>)
    requires Fields(parts)
    ensures Fields(LowerAll(parts)) && Values(LowerAll(parts)) == Values(parts)
  {
    forall i | 0 <= i < |parts| ensures Field(LowerAll(parts)[i]) && Value(LowerAll(parts)[i], 16) == Value(parts[i], 16) {
      assert parts[i] in parts;
      LowerHex(parts[i]);
      LowerValue(parts[i]);
    }
  }

  lemma {:induction false} LowerLegal(f: Form)
    requires f.Legal()
    ensures var g := LowerForm(f);
            g.Legal() && g.Address() == f.Address() && g.Last() == LowerAll(f.Last())
  {
    hide Fields, Octets, Dotted, Value, Lower;
    LowerFields(f.left);
    LowerFields(f.right);
    if f.tail.Some? { LowerDotted(f.tail.value); }
  }

  /** Lower case changes no address. */
  lemma {:induction false} LowerText(f: Form)
    requires f.Legal()
    ensures var g := LowerForm(f);
            g.Legal() && Lower(f.Text()) == g.Text() && g.Address() == f.Address()
  {
    hide Form.Legal, Form.Last, Form.Address, Join, Lower;
    LowerLegal(f);
    LowerJoin(f.left, ':');
    LowerJoin(f.Last(), ':');
    if f.elided {
      LowerAppend(Join(f.left, ':') + "::", Join(f.Last(), ':'));
      LowerAppend(Join(f.left, ':'), "::");
      assert Lower("::") == "::";
    } else {
      assert "" + Join(f.Last(), ':') == Join(f.Last(), ':');
      assert "" + Join(LowerForm(f).Last(), ':') == Join(LowerForm(f).Last(), ':');
    }
  }

  // A dotted quad at the end stands for two fields.

  function Unquad(f: Form): Form
    requires f.tail.Some? && |f.tail.value| == 4
  {
    var o := f.tail.value;
    var fields := [Numeral(o[0] * 0x100 + o[1], 16), Numeral(o[2] * 0x100 + o[3], 16)];
    if f.elided then Form(f.left, true, f.right + fields, None) else Form(f.left + fields, false, [], None)
  }

  lemma {:induction false} NumeralField(n: nat)
    requires n < 0x10000
    ensures Field(Numeral(n, 16)) && Value(Numeral(n, 16), 16) == n
  {
    NumeralValue(n, 16);
    assert Power16(1) == 16 && Power16(2) == 256 && Power16(3) == 4096 && Power16(4) == 65536;
    NumeralLength(n, 4);
  }

  lemma {:induction false} UnquadSame(f: Form)
    requires f.Legal() && f.tail.Some?
    ensures var h := Unquad(f);
            h.Legal() && h.Address() == f.Address()
  {
    var o := f.tail.value;
    var a, b := o[0] * 0x100 + o[1], o[2] * 0x100 + o[3];
    hide Field, Numeral, Value, Values;
    TwoFields(a, b);
    ValuesAppend(f.left, [Numeral(a, 16), Numeral(b, 16)]);
    ValuesAppend(f.right, [Numeral(a, 16), Numeral(b, 16)]);
    NoValues();
  }

  lemma {:induction false} TwoFields(a: nat, b: nat)
    requires a < 0x10000 && b < 0x10000
    ensures Fields([Numeral(a, 16), Numeral(b, 16)]) && Values([Numeral(a, 16), Numeral(b, 16)]) == [a, b]
  {
    NumeralField(a);
    NumeralField(b);
  }

  lemma {:induction false} ValuesAppend(x: seq<string>, y: seq<string>)
    ensures Values(x + y) == Values(x) + Values(y)
  {
  }

  lemma {:induction false} JoinedTail(prefix: string, base: seq<string>, dotted: string, x: string, y: string)
    requires base != []
    ensures prefix + Join(base + [dotted], ':') == prefix + Join(base, ':') + ":" + dotted
    ensures prefix + Join(base + [x, y], ':') == prefix + Join(base, ':') + ":" + x + ":" + y
  {
    JoinAppend(base, [dotted], ':');
    JoinAppend(base, [x, y], ':');
    TwoJoined(x, y);
    var joined := Join(base, ':');
    assert prefix + (joined + [':'] + dotted) == prefix + joined + ":" + dotted;
    assert prefix + (joined + [':'] + (x + ":" + y)) == prefix + joined + ":" + x + ":" + y;
  }

  lemma {:induction false} TwoJoined(x: string, y: string)
    ensures Join([x, y], ':') == x + ":" + y && Join([x], ':') == x
  {
    assert [x, y][1..] == [y] && Join([y], ':') == y;
  }

  lemma {:induction false} LoneTail(l: string, dotted: string, x: string, y: string)
    ensures l + "::" + dotted == (l + ":") + ":" + dotted
    ensures l + "::" + (x + ":" + y) == (l + ":") + ":" + x + ":" + y
  {
  }

  /** What stands before the last field of the text. */
  lemma {:induction false} QuadLast(f: Form) returns (before: string)
    requires f.Legal() && f.tail.Some?
    ensures f.Text() == before + ":" + Dotted(f.tail.value)
    ensures Unquad(f).Legal()
    ensures var o := f.tail.value;
            Unquad(f).Text() == before + ":" + Numeral(o[0] * 0x100 + o[1], 16) + ":" + Numeral(o[2] * 0x100 + o[3], 16)
  {
    UnquadSame(f);
    var o := f.tail.value;
    var dotted, x, y := Dotted(o), Numeral(o[0] * 0x100 + o[1], 16), Numeral(o[2] * 0x100 + o[3], 16);
    hide Numeral, Field, Dotted, Octets, Join;
    var base := if f.elided then f.right else f.left;
    var prefix := if f.elided then Join(f.left, ':') + "::" else "";
    assert f.Last() == base + [dotted] && Unquad(f).Last() == base + [x, y];
    if base == [] {
      assert base + [dotted] == [dotted] && base + [x, y] == [x, y];
      TwoJoined(dotted, "");
      TwoJoined(x, y);
      LoneTail(Join(f.left, ':'), dotted, x, y);
      before := Join(f.left, ':') + ":";
    } else {
      JoinedTail(prefix, base, dotted, x, y);
      before := prefix + Join(base, ':');
    }
  }

  // ---------- Texts without a quad ----------

  lemma {:induction false} HexPrefixAll(s: string)
    requires AllHex(s)
    ensures HexPrefix(s) == |s|
  {
    if s != "" {
      assert s[0] in s && forall c | c in s[1..] :: c in s;
      HexPrefixAll(s[1..]);
    }
  }

  lemma {:induction false} ParsesFields(parts: seq<string>)
    requires Fields(parts)
    ensures ParseGroups(parts) == Some(Values(parts))
  {
    hide Field, Value, HexPrefix;
    if parts != [] {
      assert parts[0] in parts && forall p | p in parts[1..] :: p in parts;
      ParsesField(parts[0]);
      ParsesFields(parts[1..]);
      assert Values(parts) == [Value(parts[0], 16)] + Values(parts[1..]);
    } else {
      assert Values(parts) == [];
    }
  }

  lemma {:induction false} ParsesField(p: string)
    requires Field(p)
    ensures ParseGroup(p) == Some(Value(p, 16)) && Value(p, 16) <= 0xffff
  {
    FieldFacts(p);
    HexPrefixAll(p);
    assert p[..|p|] == p;
  }

  lemma {:induction false} FieldsApart(parts: seq<string>)
    requires Fields(parts)
    ensures Free(parts, ':') && Free(parts, '.') && forall p | p in parts :: p != ""
  {
    forall p | p in parts ensures ':' !in p && '.' !in p && p != "" { FieldFacts(p); }
  }

  /** Splitting the text of some fields gives the fields, none giving none. */
  lemma {:induction false} FieldsSplit(parts: seq<string>)
    requires Fields(parts)
    ensures var text := Join(parts, ':');
            && Solid(text) && (text == "" <==> parts == [])
            && (parts != [] ==> Split(text, ':') == parts)
  {
    FieldsApart(parts);
    JoinSolid(parts);
    if parts != [] { SplitJoin(parts, ':'); }
  }

  lemma {:induction false} ZeroFields(n: nat)
    ensures Fields(seq(n, _ => "0")) && Values(seq(n, _ => "0")) == Zeros(n)
  {
    assert Value("0", 16) == 0 by { assert "0"[..0] == ""; }
    assert Field("0");
  }

  lemma {:induction false} ExpandsTo(expanded: string, halves: seq<string>, left: seq<string>, right: seq<string>, groups: seq<nat>)
    requires SplitPair(expanded) == halves && 1 <= |halves| <= 2
    requires left == if halves[0] == "" then [] else Split(halves[0], ':')
    requires right == if |halves| == 1 || halves[1] == "" then [] else Split(halves[1], ':')
    requires if |halves| == 1 then |left| + |right| == 8 else |left| + |right| <= 7
    requires ParseGroups(left + seq(8 - |left| - |right|, _ => "0") + right) == Some(groups) && |groups| == 8
    ensures Expand(expanded) == Some(groups)
  {
    hide ParseGroups, SplitPair, Split;
  }

  lemma {:induction false} ParsesAround(left: seq<string>, right: seq<string>)
    requires Fields(left) && Fields(right) && |left| + |right| <= 8
    ensures var n := 8 - |left| - |right|;
            ParseGroups(left + seq(n, _ => "0") + right) == Some(Values(left) + Zeros(n) + Values(right))
  {
    hide Field, Value, ParseGroups;
    var n := 8 - |left| - |right|;
    var zeros := seq(n, _ => "0");
    ZeroFields(n);
    ParsesFields(left + zeros + right);
    assert Values(left + zeros + right) == Values(left) + Zeros(n) + Values(right);
  }

  /** Two halves around "::". */
  lemma {:induction false} ExpandsHalves(left: seq<string>, right: seq<string>)
    requires Fields(left) && Fields(right) && |left| + |right| <= 7
    ensures Expand(Join(left, ':') + "::" + Join(right, ':')) == Some(Values(left) + Zeros(8 - |left| - |right|) + Values(right))
  {
    FieldsSplit(left);
    FieldsSplit(right);
    SolidPairFree(Join(left, ':'));
    SolidPairFree(Join(right, ':'));
    SplitPairHead(Join(left, ':'), Join(right, ':'));
    SplitPairNone(Join(right, ':'));
    ParsesAround(left, right);
    hide Fields, Values, Zeros, Solid, ParseGroups, SplitPair, Split, Join, PairFree, Expand;
    var groups := Values(left) + Zeros(8 - |left| - |right|) + Values(right);
    assert |groups| == 8 by { ZerosLength(8 - |left| - |right|); }
    ExpandsTo(Join(left, ':') + "::" + Join(right, ':'), [Join(left, ':'), Join(right, ':')], left, right, groups);
  }

  lemma {:induction false} ZerosLength(n: nat)
    ensures |Zeros(n)| == n
  {
  }

  /** Eight fields and no "::". */
  lemma {:induction false} ExpandsWhole(left: seq<string>)
    requires Fields(left) && |left| == 8
    ensures Expand(Join(left, ':')) == Some(Values(left))
  {
    hide Field, Value, Solid, ParseGroups, SplitPair, Split, Join, PairFree, Expand;
    FieldsSplit(left);
    SolidPairFree(Join(left, ':'));
    SplitPairNone(Join(left, ':'));
    ParsesAround(left, []);
    assert Values(left) + Zeros(0) + Values([]) == Values(left);
    hide Values, Zeros;
    ExpandsTo(Join(left, ':'), [Join(left, ':')], left, [], Values(left));
  }

  /** A legal text without a quad expands to the groups it denotes. */
  lemma {:induction false} ExpandsForm(f: Form)
    requires f.Legal() && f.tail.None?
    ensures Expand(f.Text()) == Some(f.Address())
  {
    hide Field, Expand, Join;
    assert f.left + [] == f.left && f.right + [] == f.right;
    if f.elided {
      ExpandsHalves(f.left, f.right);
      assert f.Address() == Values(f.left) + Zeros(8 - |f.left| - |f.right|) + Values(f.right);
    } else {
      ExpandsWhole(f.left);
      assert f.Text() == Join(f.left, ':');
      assert f.Address() == Values(f.left);
    }
  }

  lemma {:induction false} SolidPairFree(s: string)
    requires Solid(s)
    ensures PairFree(s) && (s != "" ==> s[|s| - 1] != ':')
  {
  }

  // ---------- The parser is correct ----------

  lemma {:induction false} DottedHasDot(o: seq<nat>)
    requires Octets(o)
    ensures '.' in Dotted(o) && ':' !in Dotted(o) && '%' !in Dotted(o)
  {
    var parts := [Numeral(o[0], 10), Numeral(o[1], 10), Numeral(o[2], 10), Numeral(o[3], 10)];
    forall i | 0 <= i < 4 ensures ':' !in parts[i] && '%' !in parts[i] {
      NumeralValue(o[i], 10);
      forall c | c in parts[i] ensures c != ':' && c != '%' { assert DigitValue(c).Some?; }
    }
    hide Numeral;
    assert parts[1..] != [];
    assert Dotted(o)[|parts[0]|] == '.';
    JoinChars(parts, '.', ':');
    JoinChars(parts, '.', '%');
  }

  lemma {:induction false} JoinChars(parts: seq<string>, c: char, d: char)
    requires c != d && forall p | p in parts :: d !in p
    ensures d !in Join(parts, c)
  {
    if parts != [] {
      assert parts[0] in parts && forall p | p in parts[1..] :: p in parts;
      JoinChars(parts[1..], c, d);
    }
  }

  /** The last field of a text without a quad is no IPv4 text. */
  lemma {:induction false} NoQuadAtEnd(isIp: IsIp, f: Form)
    requires Judges(isIp) && f.Legal() && f.tail.None?
    ensures isIp(f.Text()[LastField(f.Text())..]) != 4
  {
    var text := f.Text();
    FieldsApart(f.left);
    FieldsApart(f.right);
    JoinChars(f.left, ':', '.');
    JoinChars(f.right, ':', '.');
    assert f.left + [] == f.left && f.right + [] == f.right;
    assert '.' !in text;
    var field := text[LastField(text)..];
    if IsDotted(field) {
      var o :| Octets(o) && field == Dotted(o);
      DottedHasDot(o);
    }
  }

  /** For every legal text in either case, with or without "::" and a quad, the parser returns the address. */
  lemma {:induction false} ParsesForm(isIp: IsIp, f: Form)
    requires Judges(isIp) && f.Legal()
    ensures GroupsFromOctets(isIp, f.Text()) == Some(f.Address())
  {
    hide Form.Legal, Form.Text, Form.Address, Expand, Lower, Hex, Pair, Field, Dotted, Ipv4Octets, LastField, Judges, LowerForm;
    LowerText(f);
    FormAccepted(isIp, f);
    LowerParses(isIp, LowerForm(f));
  }

  lemma {:induction false} FormAccepted(isIp: IsIp, f: Form)
    requires Judges(isIp) && f.Legal()
    ensures isIp(f.Text()) == 6 && '%' !in f.Text()
  {
    FormClean(f);
    hide Form.Legal, Form.Text;
    assert IsForm(f.Text());
  }

  /** The parser's work on the lower-case text. */
  lemma {:induction false} LowerParses(isIp: IsIp, g: Form)
    requires Judges(isIp) && g.Legal()
    ensures var text := g.Text();
            var n := LastField(text);
            var embedded := Ipv4Octets(isIp, text[n..]);
            if embedded.None? then Expand(text) == Some(g.Address())
            else
              && n >= 1 && |embedded.value| == 4
              && var o := embedded.value;
              Expand(text[..n - 1] + ":" + Hex(Pair(o[0], o[1])) + ":" + Hex(Pair(o[2], o[3]))) == Some(g.Address())
  {
    hide Form.Text, Form.Address, Expand, Hex, Pair, Field, Dotted, LastField, Form.Legal;
    if g.tail.Some? {
      QuadParses(isIp, g);
    } else {
      NoQuadAtEnd(isIp, g);
      ExpandsForm(g);
    }
  }

  lemma {:induction false} QuadParses(isIp: IsIp, g: Form)
    requires Judges(isIp) && g.Legal() && g.tail.Some?
    ensures var text := g.Text();
            var n := LastField(text);
            var embedded := Ipv4Octets(isIp, text[n..]);
            && embedded == Some(g.tail.value) && Octets(g.tail.value) && n >= 1
            && var o := g.tail.value;
            Expand(text[..n - 1] + ":" + Hex(Pair(o[0], o[1])) + ":" + Hex(Pair(o[2], o[3]))) == Some(g.Address())
  {
    hide Form.Text, Form.Address, Expand, Numeral, Field, Fields, Dotted, Pair, LastField, Split;
    var o := g.tail.value;
    var before := QuadLast(g);
    QuadEmbedded(isIp, o, before);
    var text := g.Text();
    assert text[..|before|] == before;
    HexPairs(o);
    UnquadSame(g);
    ExpandsForm(Unquad(g));
  }

  /** The quad at the end of a text is found and read. */
  lemma {:induction false} QuadEmbedded(isIp: IsIp, o: seq<nat>, before: string)
    requires Judges(isIp) && Octets(o)
    ensures var text := before + ":" + Dotted(o);
            LastField(text) == |before| + 1 && Ipv4Octets(isIp, text[LastField(text)..]) == Some(o)
  {
    hide Dotted, LastField, Ipv4Octets;
    DottedHasDot(o);
    LastFieldAfter(before, Dotted(o));
    assert IsDotted(Dotted(o));
    OctetsOfDotted(isIp, o);
    assert (before + ":" + Dotted(o))[|before| + 1..] == Dotted(o);
  }

  lemma {:induction false} HexPairs(o: seq<nat>)
    requires Octets(o)
    ensures Hex(Pair(o[0], o[1])) == Numeral(o[0] * 0x100 + o[1], 16) && Hex(Pair(o[2], o[3])) == Numeral(o[2] * 0x100 + o[3], 16)
  {
    PairIs(o);
    hide Pair, Numeral;
  }

  /** No zone mark, so isIP judges the text by its form. */
  lemma {:induction false} FormClean(f: Form)
    requires f.Legal()
    ensures '%' !in f.Text()
  {
    forall p | p in f.left + f.right ensures '%' !in p { FieldFacts(p); }
    forall p | p in f.Last() ensures '%' !in p {
      if p in f.left || p in f.right { assert p in f.left + f.right; } else { DottedHasDot(f.tail.value); }
    }
    forall p | p in f.left ensures '%' !in p { assert p in f.left + f.right; }
    JoinChars(f.left, ':', '%');
    JoinChars(f.Last(), ':', '%');
  }

  // ---------- The normal form ----------

  /** An address, an IPv4-mapped IPv6 one being its IPv4 address. */
  datatype Address = V4(octets: seq<nat>) | V6(groups: seq<nat>)

  predicate Mapped(g: seq<nat>)
    requires |g| == 8
  {
    g[0] == g[1] == g[2] == g[3] == g[4] == 0 && g[5] == 0xffff
  }

  function AddressOf(g: seq<nat>): Address
    requires |g| == 8
  {
    if Mapped(g) then V4([g[6] / 0x100, g[6] % 0x100, g[7] / 0x100, g[7] % 0x100]) else V6(g)
  }

  predicate Proper(a: Address) {
    match a
    case V4(o) => Octets(o)
    case V6(g) => Groups(g) && !Mapped(g)
  }

  /** `padStart(width, "0")`. */
  function Pad(s: string, width: nat): string
    decreases width - |s|
  {
    if |s| >= width then s else Pad("0" + s, width)
  }

  function PaddedGroups(g: seq<nat>): (r: seq<string>)
    ensures |r| == |g| && forall i | 0 <= i < |g| :: r[i] == Pad(Numeral(g[i], 16), 4)
  {
    seq(|g|, i requires 0 <= i < |g| => Pad(Numeral(g[i], 16), 4))
  }

  function DecimalTexts(o: seq<nat>): (r: seq<string>)
    ensures |r| == |o| && forall i | 0 <= i < |o| :: r[i] == Numeral(o[i], 10)
  {
    seq(|o|, i requires 0 <= i < |o| => Numeral(o[i], 10))
  }

  /** `normalizedIp`. */
  function NormalizedIp(isIp: IsIp, value: string): Option<string> {
    if value == "" then None
    else
      var octets := Ipv4Octets(isIp, value);
      if octets.Some? then Some(Join(DecimalTexts(octets.value), '.'))
      else
        var groups := GroupsFromOctets(isIp, value);
        if groups.None? || |groups.value| != 8 then None
        else if Mapped(groups.value) then
          var g := groups.value;
          Some(Join([Signed(Int32.ShiftRight(g[6], 8), 10), Signed(Int32.And(g[6], 0xff), 10),
                     Signed(Int32.ShiftRight(g[7], 8), 10), Signed(Int32.And(g[7], 0xff), 10)], '.'))
        else Some(Join(PaddedGroups(groups.value), ':'))
  }

  /** What a text denotes, by the forms alone. */
  ghost predicate Denotes(t: string, a: Address) {
    || (exists o :: Octets(o) && t == Dotted(o) && a == V4(o))
    || (exists f: Form :: f.Legal() && t == f.Text() && a == AddressOf(f.Address()))
  }

  function Normal(a: Address): string
    requires Proper(a)
  {
    match a
    case V4(o) => Dotted(o)
    case V6(g) => Join(PaddedGroups(g), ':')
  }

  lemma {:induction false} AddressProper(g: seq<nat>)
    requires Groups(g)
    ensures Proper(AddressOf(g))
  {
  }

  lemma {:induction false} DottedTexts(o: seq<nat>)
    requires Octets(o)
    ensures Join(DecimalTexts(o), '.') == Dotted(o)
  {
    hide Numeral, Join;
    assert DecimalTexts(o) == [Numeral(o[0], 10), Numeral(o[1], 10), Numeral(o[2], 10), Numeral(o[3], 10)];
  }

  /** Every denoted address is proper and normalises to its normal text. */
  lemma {:induction false} NormalizesDenoted(isIp: IsIp, t: string, a: Address)
    requires Judges(isIp) && Denotes(t, a)
    ensures Proper(a) && NormalizedIp(isIp, t) == Some(Normal(a))
  {
    if o :| Octets(o) && t == Dotted(o) && a == V4(o) {
      QuadNormalizes(isIp, o);
    } else {
      var f: Form :| f.Legal() && t == f.Text() && a == AddressOf(f.Address());
      FormNormalizes(isIp, f);
    }
  }

  lemma {:induction false} QuadNormalizes(isIp: IsIp, o: seq<nat>)
    requires Judges(isIp) && Octets(o)
    ensures NormalizedIp(isIp, Dotted(o)) == Some(Dotted(o))
  {
    assert IsDotted(Dotted(o));
    DottedHasDot(o);
    OctetsOfDotted(isIp, o);
    DottedTexts(o);
  }

  lemma {:induction false} FormNormalizes(isIp: IsIp, f: Form)
    requires Judges(isIp) && f.Legal()
    ensures Proper(AddressOf(f.Address())) && NormalizedIp(isIp, f.Text()) == Some(Normal(AddressOf(f.Address())))
  {
    hide Form.Legal, Form.Text, Form.Address, GroupsFromOctets, NormalizedIp, Normal, Judges, AddressOf;
    FormAccepted(isIp, f);
    FormNonempty(f);
    ParsesForm(isIp, f);
    AddressGroups(f);
    GroupsNormalize(isIp, f.Text(), f.Address());
  }

  lemma {:induction false} GroupsNormalize(isIp: IsIp, t: string, g: seq<nat>)
    requires t != "" && isIp(t) != 4 && GroupsFromOctets(isIp, t) == Some(g) && Groups(g)
    ensures Proper(AddressOf(g)) && NormalizedIp(isIp, t) == Some(Normal(AddressOf(g)))
  {
    hide GroupsFromOctets, Numeral, Join, Int32.ShiftRight, Int32.And;
    AddressProper(g);
    if Mapped(g) {
      Int32.GroupOctets(g[6]);
      Int32.GroupOctets(g[7]);
    }
  }

  lemma {:induction false} FormNonempty(f: Form)
    requires f.Legal()
    ensures f.Text() != ""
  {
    if !f.elided {
      if f.tail.Some? {
        var before := QuadLast(f);
      } else {
        FieldsApart(f.left);
        JoinSolid(f.left);
        assert f.left + [] == f.left;
      }
    }
  }

  lemma {:induction false} PadField(s: string, width: nat)
    requires AllHex(s) && |s| <= width
    ensures AllHex(Pad(s, width)) && |Pad(s, width)| == width && Value(Pad(s, width), 16) == Value(s, 16)
    decreases width - |s|
  {
    if |s| < width {
      LeadingZero(s);
      PadField("0" + s, width);
    }
  }

  lemma {:induction false} LeadingZero(s: string)
    requires AllHex(s)
    ensures AllHex("0" + s) && Value("0" + s, 16) == Value(s, 16)
  {
    if s == "" {
      assert ("0" + s)[..0] == "" && ("0" + s)[0] == '0';
    } else {
      var n := |s| - 1;
      assert forall c | c in s[..n] :: c in s;
      LeadingZero(s[..n]);
      assert ("0" + s)[..n + 1] == "0" + s[..n] && ("0" + s)[n + 1] == s[n];
    }
    assert DigitValue('0') == Some(0);
  }

  lemma {:induction false} PaddedFields(g: seq<nat>)
    requires Groups(g)
    ensures Fields(PaddedGroups(g)) && Values(PaddedGroups(g)) == g
  {
    forall i | 0 <= i < 8 ensures Field(PaddedGroups(g)[i]) && Value(PaddedGroups(g)[i], 16) == g[i] {
      NumeralField(g[i]);
      PadField(Numeral(g[i], 16), 4);
    }
    hide Field, Value;
    assert Values(PaddedGroups(g)) == g;
  }

  /** The normal text denotes its own address. */
  lemma {:induction false} NormalDenotes(a: Address)
    requires Proper(a)
    ensures Denotes(Normal(a), a)
  {
    match a
    case V4(o) =>
    case V6(g) =>
      PaddedFields(g);
      hide Field, Value, Join, PaddedGroups, Values;
      var f := Form(PaddedGroups(g), false, [], None);
      assert f.Legal();
      assert f.left + [] == f.left && "" + Join(f.left, ':') == Join(f.left, ':');
      assert Values([]) == [] by { NoValues(); }
      assert f.Address() == g;
  }

  lemma {:induction false} NoValues()
    ensures Values([]) == []
  {
  }

  /** A text denotes at most one address. */
  lemma {:induction false} DenotesOne(isIp: IsIp, t: string, a: Address, b: Address)
    requires Judges(isIp) && Denotes(t, a) && Denotes(t, b)
    ensures a == b
  {
    hide Dotted, Form.Legal, Form.Text, Form.Address, AddressOf, GroupsFromOctets, Ipv4Octets;
    if o :| Octets(o) && t == Dotted(o) && a == V4(o) {
      QuadDenotes(isIp, o, b);
    } else {
      var f: Form :| f.Legal() && t == f.Text() && a == AddressOf(f.Address());
      FormDenotes(isIp, f, b);
    }
  }

  lemma {:induction false} QuadDenotes(isIp: IsIp, o: seq<nat>, b: Address)
    requires Judges(isIp) && Octets(o) && Denotes(Dotted(o), b)
    ensures b == V4(o)
  {
    hide Dotted, Form.Legal, Form.Text, Form.Address, AddressOf, GroupsFromOctets, Ipv4Octets;
    assert IsDotted(Dotted(o));
    OctetsOfDotted(isIp, o);
    if p :| Octets(p) && Dotted(o) == Dotted(p) && b == V4(p) {
      OctetsOfDotted(isIp, p);
    } else {
      var f: Form :| f.Legal() && Dotted(o) == f.Text() && b == AddressOf(f.Address());
      FormAccepted(isIp, f);
    }
  }

  lemma {:induction false} FormDenotes(isIp: IsIp, f: Form, b: Address)
    requires Judges(isIp) && f.Legal() && Denotes(f.Text(), b)
    ensures b == AddressOf(f.Address())
  {
    hide Dotted, Form.Legal, Form.Text, Form.Address, AddressOf, GroupsFromOctets, Ipv4Octets;
    FormAccepted(isIp, f);
    ParsesForm(isIp, f);
    forall p | Octets(p) ensures f.Text() != Dotted(p) { assert IsDotted(Dotted(p)); }
    var h: Form :| h.Legal() && f.Text() == h.Text() && b == AddressOf(h.Address());
    ParsesForm(isIp, h);
  }

  /** A text has a normal form iff it denotes an address. */
  lemma {:induction false} AcceptedIff(isIp: IsIp, t: string)
    requires Judges(isIp)
    ensures NormalizedIp(isIp, t).Some? <==> exists a :: Denotes(t, a)
  {
    if NormalizedIp(isIp, t).Some? {
      if isIp(t) == 4 {
        assert IsDotted(t);
        var o :| Octets(o) && t == Dotted(o);
        assert Denotes(t, V4(o));
      } else {
        assert '%' !in t && isIp(t) == 6 && IsForm(t);
        var f: Form :| f.Legal() && t == f.Text();
        AddressGroups(f);
        assert Denotes(t, AddressOf(f.Address()));
      }
    }
    if a :| Denotes(t, a) { NormalizesDenoted(isIp, t, a); }
  }

  /**
    The normal form: two accepted texts normalise to the same string if and only if they
    denote the same address, an IPv4-mapped IPv6 address being its IPv4 address.
  */
  lemma {:induction false} SameNormalFormIff(isIp: IsIp, s: string, t: string, a: Address, b: Address)
    requires Judges(isIp) && Denotes(s, a) && Denotes(t, b)
    ensures NormalizedIp(isIp, s) == NormalizedIp(isIp, t) <==> a == b
  {
    NormalizesDenoted(isIp, s, a);
    NormalizesDenoted(isIp, t, b);
    hide Denotes, Judges, NormalizedIp, Normal;
    if NormalizedIp(isIp, s) == NormalizedIp(isIp, t) {
      NormalDenotes(a);
      NormalDenotes(b);
      DenotesOne(isIp, Normal(a), a, b);
    }
  }

  /** Normalising again changes nothing. */
  lemma {:induction false} NormalizingTwice(isIp: IsIp, t: string)
    requires Judges(isIp) && NormalizedIp(isIp, t).Some?
    ensures NormalizedIp(isIp, NormalizedIp(isIp, t).value) == NormalizedIp(isIp, t)
  {
    AcceptedIff(isIp, t);
    hide Denotes, Judges, NormalizedIp, Normal;
    var a :| Denotes(t, a);
    NormalizesDenoted(isIp, t, a);
    NormalDenotes(a);
    NormalizesDenoted(isIp, Normal(a), a);
  }
}
