/**
  The text of a JSON value and what the read projections charge for it.

  `Render` is the text itself, byte by byte: `Spaced` as PostgreSQL prints jsonb,
  `Compact` as JSON.stringify does.  A character is a Unicode scalar value.
*/
module JsonSize {
  type Byte = b: int | 0 <= b < 256

  datatype Json =
    | Null
    | Bool(value: bool)
    | Number(digits: string)
    | Str(text: string)
    | Arr(items: seq<Json>)
    | Obj(members: seq<Member>)

  datatype Member = Member(key: string, value: Json)

  datatype Style = Spaced | Compact

  // ---------- Text ----------

  function CharUtf8(c: char): (r: seq<Byte>)
    ensures 1 <= |r| <= 4
  {
    var n := c as int;
    if n < 0x80 then [n]
    else if n < 0x800 then [0xC0 + n / 0x40, 0x80 + n % 0x40]
    else if n < 0x10000 then [0xE0 + n / 0x1000, 0x80 + n / 0x40 % 0x40, 0x80 + n % 0x40]
    else [0xF0 + n / 0x40000, 0x80 + n / 0x1000 % 0x40, 0x80 + n / 0x40 % 0x40, 0x80 + n % 0x40]
  }

  function Utf8(s: string): seq<Byte> {
    if s == "" then [] else CharUtf8(s[0]) + Utf8(s[1..])
  }

  function HexDigit(n: nat): Byte
    requires n < 16
  {
    if n < 10 then 0x30 + n else 0x61 + n - 10
  }

  /** Section 7 of RFC 8259: two-byte escapes where there are any, otherwise \u00XX below U+0020. */
  function Escape(c: char): (r: seq<Byte>)
    ensures |r| <= 6 * |CharUtf8(c)|
  {
    var n := c as int;
    if n == 0x22 || n == 0x5C then [0x5C, n]
    else if n == 0x08 then [0x5C, 0x62]
    else if n == 0x09 then [0x5C, 0x74]
    else if n == 0x0A then [0x5C, 0x6E]
    else if n == 0x0C then [0x5C, 0x66]
    else if n == 0x0D then [0x5C, 0x72]
    else if n < 0x20 then [0x5C, 0x75, 0x30, 0x30, HexDigit(n / 16), HexDigit(n % 16)]
    else CharUtf8(c)
  }

  function Escaped(s: string): seq<Byte> {
    if s == "" then [] else Escape(s[0]) + Escaped(s[1..])
  }

  function Quote(s: string): seq<Byte> {
    [0x22] + Escaped(s) + [0x22]
  }

  function Comma(style: Style): seq<Byte> {
    if style.Spaced? then [0x2C, 0x20] else [0x2C]
  }

  function Colon(style: Style): seq<Byte> {
    if style.Spaced? then [0x3A, 0x20] else [0x3A]
  }

  function Render(j: Json, style: Style): seq<Byte> {
    match j
    case Null => Utf8("null")
    case Bool(b) => Utf8(if b then "true" else "false")
    case Number(digits) => Utf8(digits)
    case Str(text) => Quote(text)
    case Arr(items) => [0x5B] + RenderItems(items, style) + [0x5D]
    case Obj(members) => [0x7B] + RenderMembers(members, style) + [0x7D]
  }

  function RenderItems(items: seq<Json>, style: Style): seq<Byte> {
    if items == [] then []
    else Render(items[0], style) + (if |items| == 1 then [] else Comma(style)) + RenderItems(items[1..], style)
  }

  function RenderMembers(members: seq<Member>, style: Style): seq<Byte> {
    if members == [] then []
    else Quote(members[0].key) + Colon(style) + Render(members[0].value, style)
         + (if |members| == 1 then [] else Comma(style)) + RenderMembers(members[1..], style)
  }

  // ---------- Counts ----------

  function Properties(j: Json): nat {
    match j
    case Arr(items) => ItemProperties(items)
    case Obj(members) => MemberProperties(members)
    case _ => 0
  }

  function ItemProperties(items: seq<Json>): nat {
    if items == [] then 0 else Properties(items[0]) + ItemProperties(items[1..])
  }

  function MemberProperties(members: seq<Member>): nat {
    if members == [] then 0 else 1 + Properties(members[0].value) + MemberProperties(members[1..])
  }

  function Containers(j: Json): nat {
    match j
    case Arr(items) => 1 + ItemContainers(items)
    case Obj(members) => 1 + MemberContainers(members)
    case _ => 0
  }

  function ItemContainers(items: seq<Json>): nat {
    if items == [] then 0 else Containers(items[0]) + ItemContainers(items[1..])
  }

  function MemberContainers(members: seq<Member>): nat {
    if members == [] then 0 else Containers(members[0].value) + MemberContainers(members[1..])
  }

  // ---------- Bounds ----------

  lemma {:induction false} EscapedBound(s: string)
    ensures |Escaped(s)| <= 6 * |Utf8(s)|
  {
    if s != "" { EscapedBound(s[1..]); }
  }

  /** Nothing to escape and one byte a character. */
  predicate Plain(s: string) {
    forall c | c in s :: 0x20 <= c as int < 0x7F && c != '"' && c != '\\'
  }

  lemma {:induction false} PlainQuote(s: string)
    requires Plain(s)
    ensures |Quote(s)| == |s| + 2
  {
    if s != "" {
      assert forall c | c in s[1..] :: c in s;
      PlainQuote(s[1..]);
      assert s[0] in s && |Escape(s[0])| == 1;
    }
  }

  predicate Scalar(j: Json) {
    !j.Arr? && !j.Obj?
  }

  predicate AllScalar(values: seq<Json>) {
    forall v | v in values :: Scalar(v)
  }

  /** A scalar of more than 24 digits is refused as too large. */
  predicate Countable(n: nat) {
    n < 1_000_000_000_000_000_000_000_000
  }

  /** octet_length of the scalar's text, null counting for nothing. */
  function ScalarUtf8(j: Json): nat
    requires Scalar(j)
  {
    match j
    case Null => 0
    case Bool(b) => if b then 4 else 5
    case Number(digits) => |Utf8(digits)|
    case Str(text) => |Utf8(text)|
  }

  lemma {:induction false} LiteralSizes()
    ensures |Utf8("null")| == 4 && |Utf8("true")| == 4 && |Utf8("false")| == 5
  {
    assert "null"[1..] == "ull" && "ull"[1..] == "ll" && "ll"[1..] == "l" && "l"[1..] == "";
    assert "true"[1..] == "rue" && "rue"[1..] == "ue" && "ue"[1..] == "e" && "e"[1..] == "";
    assert "false"[1..] == "alse" && "alse"[1..] == "lse" && "lse"[1..] == "se" && "se"[1..] == "e";
  }

  lemma {:induction false} ScalarBound(j: Json, style: Style)
    requires Scalar(j)
    ensures |Render(j, style)| <= 4 + 6 * ScalarUtf8(j)
  {
    LiteralSizes();
    if j.Str? { EscapedBound(j.text); }
  }

  /** Compact text is never longer. */
  lemma {:induction false} CompactNotLonger(j: Json)
    ensures |Render(j, Compact)| <= |Render(j, Spaced)|
    decreases j
  {
    match j
    case Arr(items) => ItemsNotLonger(items);
    case Obj(members) => MembersNotLonger(members);
    case _ =>
  }

  lemma {:induction false} ItemsNotLonger(items: seq<Json>)
    ensures |RenderItems(items, Compact)| <= |RenderItems(items, Spaced)|
    decreases items
  {
    if items != [] {
      CompactNotLonger(items[0]);
      ItemsNotLonger(items[1..]);
    }
  }

  lemma {:induction false} MembersNotLonger(members: seq<Member>)
    ensures |RenderMembers(members, Compact)| <= |RenderMembers(members, Spaced)|
    decreases members
  {
    if members != [] {
      CompactNotLonger(members[0].value);
      MembersNotLonger(members[1..]);
    }
  }

  // ---------- Allowances ----------

  /** `fixedObject` less its braces: quotes, separators and a null for every key. */
  function KeyCost(keys: seq<string>): nat {
    if keys == [] then 0 else |keys[0]| + 10 + KeyCost(keys[1..])
  }

  function FixedObject(keys: seq<string>): nat {
    2 + KeyCost(keys)
  }

  predicate PlainKeys(keys: seq<string>) {
    forall k | k in keys :: Plain(k)
  }

  function Utf8Sum(values: seq<Json>): nat
    requires forall v | v in values :: Scalar(v)
  {
    if values == [] then 0 else ScalarUtf8(values[0]) + Utf8Sum(values[1..])
  }

  function Fields(keys: seq<string>, values: seq<Json>): (r: seq<Member>)
    requires |keys| == |values|
    ensures |r| == |keys|
  {
    if keys == [] then [] else [Member(keys[0], values[0])] + Fields(keys[1..], values[1..])
  }

  lemma {:induction false} MembersHead(members: seq<Member>)
    requires members != [] && Plain(members[0].key)
    ensures |RenderMembers(members, Spaced)|
         <= |members[0].key| + 6 + |Render(members[0].value, Spaced)| + |RenderMembers(members[1..], Spaced)|
    ensures MemberProperties(members) == 1 + Properties(members[0].value) + MemberProperties(members[1..])
    ensures MemberContainers(members) == Containers(members[0].value) + MemberContainers(members[1..])
  {
    PlainQuote(members[0].key);
  }

  /** Flat fields followed by `rest` cost their keys, six bytes a UTF-8 byte, and the rest. */
  lemma {:induction false} FieldsBound(keys: seq<string>, values: seq<Json>, rest: seq<Member>)
    requires |keys| == |values| && PlainKeys(keys) && forall v | v in values :: Scalar(v)
    ensures var members := Fields(keys, values) + rest;
            && |RenderMembers(members, Spaced)| <= KeyCost(keys) + 6 * Utf8Sum(values) + |RenderMembers(rest, Spaced)|
            && MemberProperties(members) == |keys| + MemberProperties(rest)
            && MemberContainers(members) == MemberContainers(rest)
    decreases |keys|
  {
    var members := Fields(keys, values) + rest;
    if keys == [] {
      assert members == rest;
    } else {
      assert members[1..] == Fields(keys[1..], values[1..]) + rest;
      assert values[0] in values && keys[0] in keys;
      ScalarBound(values[0], Spaced);
      FieldsBound(keys[1..], values[1..], rest);
      MembersHead(members);
    }
  }

  /** Flat fields and one more member, in one object. */
  lemma {:induction false} FieldsAndOne(keys: seq<string>, values: seq<Json>, last: Member)
    requires |keys| == |values| && PlainKeys(keys) && AllScalar(values) && Plain(last.key)
    ensures var j := Obj(Fields(keys, values) + [last]);
            && |Render(j, Spaced)| <= 8 + KeyCost(keys) + 6 * Utf8Sum(values) + |last.key| + |Render(last.value, Spaced)|
            && Properties(j) == |keys| + 1 + Properties(last.value)
            && Containers(j) == 1 + Containers(last.value)
  {
    hide Plain, KeyCost;
    FieldsBound(keys, values, [last]);
    MembersHead([last]);
  }

  /** The flat object bound: `fixedObject` of the keys and six bytes for every UTF-8 byte of a value. */
  lemma {:induction false} FlatObjectBound(keys: seq<string>, values: seq<Json>)
    requires |keys| == |values| && PlainKeys(keys) && forall v | v in values :: Scalar(v)
    ensures var j := Obj(Fields(keys, values));
            |Render(j, Spaced)| <= FixedObject(keys) + 6 * Utf8Sum(values) && Properties(j) == |keys| && Containers(j) == 1
  {
    FieldsBound(keys, values, []);
    assert Fields(keys, values) + [] == Fields(keys, values);
  }

  /** A list whose i-th item costs at most bytes[i], with two bytes of separator each. */
  lemma {:induction false} ItemsBound(items: seq<Json>, bytes: seq<nat>)
    requires |items| == |bytes| && forall i | 0 <= i < |items| :: |Render(items[i], Spaced)| <= bytes[i]
    ensures |RenderItems(items, Spaced)| <= Sum(bytes) + 2 * |items|
    decreases |items|
  {
    if items != [] { ItemsBound(items[1..], bytes[1..]); }
  }

  lemma {:induction false} ItemsCount(items: seq<Json>, properties: seq<nat>, containers: seq<nat>)
    requires |items| == |properties| == |containers|
    requires forall i | 0 <= i < |items| :: Properties(items[i]) <= properties[i] && Containers(items[i]) <= containers[i]
    ensures ItemProperties(items) <= Sum(properties) && ItemContainers(items) <= Sum(containers)
    decreases |items|
  {
    if items != [] { ItemsCount(items[1..], properties[1..], containers[1..]); }
  }

  function Sum(s: seq<nat>): nat {
    if s == [] then 0 else s[0] + Sum(s[1..])
  }

  lemma {:induction false} SumAppend(a: seq<nat>, b: seq<nat>)
    ensures Sum(a + b) == Sum(a) + Sum(b)
  {
    if a == [] {
      assert a + b == b;
    } else {
      assert (a + b)[1..] == a[1..] + b;
      SumAppend(a[1..], b);
    }
  }

  lemma {:induction false} AffineStep(a: nat, b: nat, n: nat, first: nat, rest: nat)
    ensures a + b * first + (a * n + b * rest) == a * (n + 1) + b * (first + rest)
  {
  }

  /** a + b·n summed over a list of n's. */
  lemma {:induction false} SumAffine(s: seq<nat>, t: seq<nat>, a: nat, b: nat)
    requires |s| == |t| && forall i | 0 <= i < |s| :: t[i] == a + b * s[i]
    ensures Sum(t) == a * |s| + b * Sum(s)
    decreases |s|
  {
    if s != [] {
      SumAffine(s[1..], t[1..], a, b);
      AffineStep(a, b, |s| - 1, s[0], Sum(s[1..]));
    }
  }

  /** Items of `cost` less the separator, and six bytes a measured byte, in one list. */
  lemma {:induction false} ListBytes(items: seq<Json>, scalars: seq<nat>, cost: nat)
    requires |items| == |scalars| && cost >= 2
    requires forall i | 0 <= i < |items| :: |Render(items[i], Spaced)| <= cost - 2 + 6 * scalars[i]
    ensures |RenderItems(items, Spaced)| <= cost * |items| + 6 * Sum(scalars)
  {
    hide Render, RenderItems, Sum;
    var bytes := seq(|items|, i requires 0 <= i < |items| => cost - 2 + 6 * scalars[i]);
    ItemsBound(items, bytes);
    SumAffine(scalars, bytes, cost - 2, 6);
    Distribute(cost, |items|);
  }

  lemma {:induction false} Distribute(a: nat, n: nat)
    requires a >= 2
    ensures (a - 2) * n + 2 * n == a * n
  {
  }

  // ---------- Row drift ----------

  predicate Unique<K(==)>(keys: seq<K>) {
    forall i, j | 0 <= i < j < |keys| :: keys[i] != keys[j]
  }

  predicate Covered<K(==)>(key: K, charge: nat, admitted: seq<K>, bound: seq<nat>)
    requires |admitted| == |bound|
  {
    exists k :: 0 <= k < |admitted| && admitted[k] == key && charge <= bound[k]
  }

  /** Distinct current keys, each found among the admitted with no smaller charge, total no more. */
  lemma {:induction false} DriftBound<K>(current: seq<K>, now: seq<nat>, admitted: seq<K>, bound: seq<nat>)
    requires |current| == |now| && |admitted| == |bound| && Unique(current)
    requires forall i | 0 <= i < |current| :: Covered(current[i], now[i], admitted, bound)
    ensures |current| <= |admitted| && Sum(now) <= Sum(bound)
    decreases |current|
  {
    if current != [] {
      assert Covered(current[0], now[0], admitted, bound);
      var k :| 0 <= k < |admitted| && admitted[k] == current[0] && now[0] <= bound[k];
      var fewer, less := admitted[..k] + admitted[k + 1..], bound[..k] + bound[k + 1..];
      forall i | 0 <= i < |current[1..]|
        ensures Covered(current[1..][i], now[1..][i], fewer, less)
      {
        assert Covered(current[i + 1], now[i + 1], admitted, bound);
        var y :| 0 <= y < |admitted| && admitted[y] == current[i + 1] && now[i + 1] <= bound[y];
        assert y != k;
        var x := if y < k then y else y - 1;
        assert fewer[x] == admitted[y] && less[x] == bound[y];
      }
      DriftBound(current[1..], now[1..], fewer, less);
      SumAppend(bound[..k], bound[k + 1..]);
      SumAppend(bound[..k], bound[k..]);
      assert bound == bound[..k] + bound[k..] && bound[k..][1..] == bound[k + 1..];
    }
  }
}
