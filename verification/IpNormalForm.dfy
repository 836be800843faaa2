/**
  The normal form letter by letter (artifacts/server/src/auth-page.ts, normalizedIp).
*/
module IpNormalForm {
  import opened Wrappers
  import opened IpText
  import opened IpAddress

  predicate InHex(s: string) {
    forall c | c in s :: '0' <= c <= '9' || 'a' <= c <= 'f'
  }

  /** Eight groups of four lower-case hexadecimal digits, with colons between them, and their values. */
  predicate Spelled(n: string, g: seq<nat>)
    requires |g| == 8
  {
    && |n| == 39
    && (forall k | 0 <= k < 7 :: n[5 * k + 4] == ':')
    && (forall k | 0 <= k < 8 :: InHex(n[5 * k..5 * k + 4]) && Value(n[5 * k..5 * k + 4], 16) == g[k])
  }

  lemma {:induction false} DigitsLower(n: nat)
    ensures InHex(Numeral(n, 16))
    decreases n
  {
    if n >= 16 { DigitsLower(n / 16); }
  }

  lemma {:induction false} PadLower(s: string, width: nat)
    requires InHex(s)
    ensures InHex(Pad(s, width))
    decreases width - |s|
  {
    if |s| < width { PadLower("0" + s, width); }
  }

  lemma {:induction false} AfterField(head: string, rest: string, x: nat)
    requires |head| == 4 && x < |rest|
    ensures (head + [':'] + rest)[5 + x] == rest[x]
  {
  }

  /** Fields of four characters each stand at every fifth. */
  lemma {:induction false} JoinedFours(parts: seq<string>)
    requires parts != [] && forall p | p in parts :: |p| == 4
    ensures |Join(parts, ':')| == 5 * |parts| - 1
    ensures forall k, x | 0 <= k < |parts| && 0 <= x < 4 :: Join(parts, ':')[5 * k + x] == parts[k][x]
    ensures forall k | 0 <= k < |parts| - 1 :: Join(parts, ':')[5 * k + 4] == ':'
  {
    assert parts[0] in parts;
    var n := Join(parts, ':');
    if |parts| > 1 {
      var tail := parts[1..];
      var rest := Join(tail, ':');
      assert n == parts[0] + [':'] + rest;
      hide Join;
      assert forall p | p in tail :: p in parts;
      JoinedFours(tail);
      forall k, x | 0 <= k < |parts| && 0 <= x < 4 ensures n[5 * k + x] == parts[k][x] {
        assert parts[k] in parts;
        if k > 0 { AfterField(parts[0], rest, 5 * (k - 1) + x); }
      }
      forall k | 0 <= k < |parts| - 1 ensures n[5 * k + 4] == ':' {
        if k > 0 { AfterField(parts[0], rest, 5 * (k - 1) + 4); }
      }
    }
  }

  lemma {:induction false} GroupsSpelled(g: seq<nat>)
    requires Groups(g)
    ensures Spelled(Join(PaddedGroups(g), ':'), g)
  {
    hide Numeral, Pad, Join, Value, InHex;
    var parts := PaddedGroups(g);
    forall k | 0 <= k < 8
      ensures |parts[k]| == 4 && Value(parts[k], 16) == g[k] && InHex(parts[k])
    {
      NumeralField(g[k]);
      PadField(Numeral(g[k], 16), 4);
      DigitsLower(g[k]);
      PadLower(Numeral(g[k], 16), 4);
    }
    JoinedFours(parts);
    var n := Join(parts, ':');
    assert |parts| == 8;
    forall k | 0 <= k < 8 ensures InHex(n[5 * k..5 * k + 4]) && Value(n[5 * k..5 * k + 4], 16) == g[k] {
      assert n[5 * k + 0] == parts[k][0] && n[5 * k + 1] == parts[k][1] && n[5 * k + 2] == parts[k][2] && n[5 * k + 3] == parts[k][3];
      assert n[5 * k..5 * k + 4] == parts[k];
    }
  }

  /** The text of eight groups: the dotted quad if the first six are those of a mapped address, else all of them in full. */
  ghost predicate NormalOf(g: seq<nat>, n: string) {
    && |g| == 8
    && if g[0] == 0 && g[1] == 0 && g[2] == 0 && g[3] == 0 && g[4] == 0 && g[5] == 65535
       then exists o :: Octets(o) && n == Dotted(o) && o[0] * 256 + o[1] == g[6] && o[2] * 256 + o[3] == g[7]
       else Spelled(n, g)
  }

  lemma {:induction false} NormalIs(g: seq<nat>)
    requires Groups(g)
    ensures Proper(AddressOf(g)) && NormalOf(g, Normal(AddressOf(g)))
  {
    hide Join, PaddedGroups, Dotted, Spelled;
    AddressProper(g);
    if Mapped(g) {
      var o := [g[6] / 256, g[6] % 256, g[7] / 256, g[7] % 256];
      assert Octets(o) && Normal(AddressOf(g)) == Dotted(o);
    } else {
      GroupsSpelled(g);
    }
  }

  /** The normal form of every IPv6 text, letter by letter. */
  lemma {:induction false} NormalText(isIp: IsIp, f: Form)
    requires Judges(isIp) && f.Legal()
    ensures var n := NormalizedIp(isIp, f.Text()); n.Some? && NormalOf(f.Address(), n.value)
  {
    hide Form.Legal, Form.Text, Form.Address, NormalizedIp, Judges, NormalOf, Normal, AddressOf, Proper;
    AddressGroups(f);
    FormNormalizes(isIp, f);
    NormalIs(f.Address());
  }

  /** The mapped text of an IPv4 address, in either case, and its own text have one normal form. */
  lemma {:induction false} MappedText(isIp: IsIp, o: seq<nat>)
    requires Judges(isIp) && Octets(o)
    ensures NormalizedIp(isIp, Dotted(o)) == Some(Dotted(o))
    ensures NormalizedIp(isIp, "::ffff:" + Dotted(o)) == Some(Dotted(o)) && NormalizedIp(isIp, "::FFFF:" + Dotted(o)) == Some(Dotted(o))
  {
    hide NormalizedIp, Judges, Dotted;
    QuadNormalizes(isIp, o);
    MappedForm(isIp, o, 'f');
    MappedForm(isIp, o, 'F');
    assert "::" + ['f', 'f', 'f', 'f'] + ":" == "::ffff:" && "::" + ['F', 'F', 'F', 'F'] + ":" == "::FFFF:";
  }

  lemma {:induction false} MappedForm(isIp: IsIp, o: seq<nat>, c: char)
    requires Judges(isIp) && Octets(o) && (c == 'f' || c == 'F')
    ensures NormalizedIp(isIp, "::" + [c, c, c, c] + ":" + Dotted(o)) == Some(Dotted(o))
  {
    hide NormalizedIp, Judges, Dotted, Value, Spelled;
    var field := [c, c, c, c];
    var f := Form([], true, [field], Some(o));
    FieldValue(c);
    assert f.Legal();
    MappedTextIs(field, Dotted(o));
    assert f.Last() == [field, Dotted(o)];
    assert f.Text() == "::" + field + ":" + Dotted(o);
    assert f.Address() == [0, 0, 0, 0, 0, 65535, o[0] * 256 + o[1], o[2] * 256 + o[3]];
    NormalText(isIp, f);
    var q :| Octets(q) && NormalizedIp(isIp, f.Text()) == Some(Dotted(q)) && q[0] * 256 + q[1] == o[0] * 256 + o[1] && q[2] * 256 + q[3] == o[2] * 256 + o[3];
    assert q == o;
  }

  lemma {:induction false} MappedTextIs(field: string, quad: string)
    ensures Join([], ':') + "::" + Join([field, quad], ':') == "::" + field + ":" + quad
  {
    assert [field, quad][1..] == [quad];
  }

  lemma {:induction false} FieldValue(c: char)
    requires c == 'f' || c == 'F'
    ensures Field([c, c, c, c]) && Value([c, c, c, c], 16) == 65535
  {
    hide Value;
    ValueOfLast([], c);
    ValueOfLast([c], c);
    ValueOfLast([c, c], c);
    ValueOfLast([c, c, c], c);
    NoValue();
    assert [] + [c] == [c] && [c] + [c] == [c, c] && [c, c] + [c] == [c, c, c] && [c, c, c] + [c] == [c, c, c, c];
  }

  lemma {:induction false} NoValue()
    ensures Value([], 16) == 0
  {
  }

  lemma {:induction false} ValueOfLast(s: string, c: char)
    requires c == 'f' || c == 'F'
    ensures Value(s + [c], 16) == 16 * Value(s, 16) + 15
  {
    assert (s + [c])[..|s|] == s;
  }
}
