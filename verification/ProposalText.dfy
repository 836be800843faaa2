/**
  The raw text of a proposal payload (artifacts/server/src/proposal-payload-inspection.ts,
  rawDepth and inspectProposalPayload): its nesting is measured before it is parsed, so
  branches under a repeated name count although JSON.parse drops them.
*/
module ProposalText {
  import opened Wrappers
  import opened JsonSize
  import opened ProposalInspection

  // ---------- The scan ----------

  datatype Scan = Scan(depth: int, maximum: nat, quoted: bool, escaped: bool)

  const START := Scan(0, 0, false, false)

  /** One character; None when the text nests too deep. */
  function ScanChar(s: Scan, ch: char): Option<Scan> {
    if s.quoted then Some(s.(quoted := s.escaped || ch != '"', escaped := !s.escaped && ch == '\\'))
    else if ch == '"' then Some(s.(quoted := true))
    else if ch == '[' || ch == '{' then
      if s.depth + 1 > MAX_DEPTH then None
      else Some(s.(depth := s.depth + 1, maximum := if s.depth + 1 > s.maximum then (s.depth + 1) as nat else s.maximum))
    else if ch == ']' || ch == '}' then Some(s.(depth := s.depth - 1))
    else Some(s)
  }

  function ScanText(s: Scan, text: string): Option<Scan>
    decreases |text|
  {
    if text == "" then Some(s)
    else
      match ScanChar(s, text[0])
      case None => None
      case Some(next) => ScanText(next, text[1..])
  }

  /** `rawDepth`. */
  method RawDepth(source: string) returns (r: Option<nat>)
    ensures r == match ScanText(START, source)
                 case None => None
                 case Some(s) => Some(s.maximum)
  {
    var s := START;
    for i := 0 to |source|
      invariant ScanText(s, source[i..]) == ScanText(START, source)
    {
      var next := ScanChar(s, source[i]);
      assert source[i..][1..] == source[i + 1..];
      if next.None? { return None; }
      s := next.value;
    }
    r := Some(s.maximum);
  }

  // ---------- What it measures ----------

  /**
    A text as the brackets structure it.  `Loose` holds what is neither string nor
    bracket: numbers, literals, separators and blanks.
  */
  datatype Raw = Loose(text: string) | Quoted(body: string) | Nest(curly: bool, parts: seq<Raw>)

  predicate Bracket(ch: char) {
    ch == '[' || ch == ']' || ch == '{' || ch == '}'
  }

  /** No quote but escaped ones, and no escape left open. */
  predicate Closed(body: string, escaped: bool) {
    if body == "" then !escaped
    else (escaped || body[0] != '"') && Closed(body[1..], !escaped && body[0] == '\\')
  }

  predicate WellFormed(raw: Raw) {
    match raw
    case Loose(text) => forall ch | ch in text :: ch != '"' && !Bracket(ch)
    case Quoted(body) => Closed(body, false)
    case Nest(_, parts) => AllWellFormed(parts)
  }

  predicate AllWellFormed(parts: seq<Raw>) {
    parts != [] ==> WellFormed(parts[0]) && AllWellFormed(parts[1..])
  }

  function Text(raw: Raw): string {
    match raw
    case Loose(text) => text
    case Quoted(body) => "\"" + body + "\""
    case Nest(curly, parts) => [if curly then '{' else '['] + TextOf(parts) + [if curly then '}' else ']']
  }

  function TextOf(parts: seq<Raw>): string {
    if parts == [] then "" else Text(parts[0]) + TextOf(parts[1..])
  }

  function Nesting(raw: Raw): nat {
    if raw.Nest? then 1 + NestingOf(raw.parts) else 0
  }

  function NestingOf(parts: seq<Raw>): nat {
    if parts == [] then 0 else Max(Nesting(parts[0]), NestingOf(parts[1..]))
  }

  lemma {:induction false} ScanOn(s: Scan, a: string, b: string)
    ensures ScanText(s, a + b) == match ScanText(s, a)
                                  case None => None
                                  case Some(next) => ScanText(next, b)
    decreases |a|
  {
    if a == "" {
      assert a + b == b;
    } else {
      assert (a + b)[1..] == a[1..] + b && (a + b)[0] == a[0];
      var next := ScanChar(s, a[0]);
      if next.Some? { ScanOn(next.value, a[1..], b); }
    }
  }

  lemma {:induction false} ScanOne(s: Scan, ch: char)
    ensures ScanText(s, [ch]) == ScanChar(s, ch)
  {
  }

  /** Between tokens, below `depth` containers. */
  predicate Between(s: Scan) {
    !s.quoted && !s.escaped && 0 <= s.depth <= s.maximum && s.depth <= MAX_DEPTH
  }

  function Deepened(s: Scan, nesting: nat): (r: Option<Scan>)
    requires Between(s)
  {
    if s.depth + nesting > MAX_DEPTH then None else Some(s.(maximum := Max(s.maximum, (s.depth + nesting) as nat)))
  }

  lemma {:induction false} ScanLoose(s: Scan, text: string)
    requires Between(s) && forall ch | ch in text :: ch != '"' && !Bracket(ch)
    ensures ScanText(s, text) == Some(s)
  {
    if text != "" {
      assert text[0] in text && forall ch | ch in text[1..] :: ch in text;
      ScanLoose(s, text[1..]);
    }
  }

  lemma {:induction false} ScanBody(s: Scan, body: string)
    requires s.quoted && Closed(body, s.escaped)
    ensures ScanText(s, body) == Some(s.(escaped := false))
    decreases |body|
  {
    if body != "" { ScanBody(ScanChar(s, body[0]).value, body[1..]); }
  }

  /** The scan of a text raises the maximum to its nesting, or refuses it for its nesting. */
  lemma {:induction false} ScanMeasures(s: Scan, raw: Raw)
    requires Between(s) && WellFormed(raw)
    ensures ScanText(s, Text(raw)) == Deepened(s, Nesting(raw))
    decreases raw
  {
    match raw
    case Loose(text) => ScanLoose(s, text);
    case Quoted(body) =>
      ScanOn(s, "\"" + body, "\"");
      ScanOn(s, "\"", body);
      ScanOne(s, '"');
      ScanBody(s.(quoted := true), body);
      ScanOne(s.(quoted := true), '"');
    case Nest(curly, parts) =>
      var open, close := if curly then '{' else '[', if curly then '}' else ']';
      ScanOn(s, [open] + TextOf(parts), [close]);
      ScanOn(s, [open], TextOf(parts));
      ScanOne(s, open);
      if s.depth < MAX_DEPTH {
        var inside := ScanChar(s, open).value;
        ScanAllMeasures(inside, parts);
        var end := Deepened(inside, NestingOf(parts));
        if end.Some? { ScanOne(end.value, close); }
      }
  }

  lemma {:induction false} ScanAllMeasures(s: Scan, parts: seq<Raw>)
    requires Between(s) && AllWellFormed(parts)
    ensures ScanText(s, TextOf(parts)) == Deepened(s, NestingOf(parts))
    decreases parts
  {
    if parts != [] {
      ScanOn(s, Text(parts[0]), TextOf(parts[1..]));
      ScanMeasures(s, parts[0]);
      var next := Deepened(s, Nesting(parts[0]));
      if next.Some? { ScanAllMeasures(next.value, parts[1..]); }
    }
  }

  // ---------- Inspection of a text ----------

  /** JSON.parse: it accepts only texts with balanced brackets, and a value nests no deeper than its text. */
  ghost predicate Parser(parse: string -> Option<Json>) {
    forall source | parse(source).Some? ::
      exists raw :: WellFormed(raw) && Text(raw) == source && Depth(parse(source).value) <= Nesting(raw)
  }

  datatype Inspection = Inspection(value: Json, tally: Tally, maxDepth: nat)

  /** `inspectProposalPayload` from the decoded text on: depth, then syntax, then measure. */
  function Inspect(nfc: string -> bool, parse: string -> Option<Json>, source: string): (r: Option<Inspection>)
    ensures r.Some? ==> Measure(nfc, r.value.value, 0) == Some(r.value.tally)
  {
    match ScanText(START, source)
    case None => None
    case Some(s) =>
      match parse(source)
      case None => None
      case Some(value) =>
        match Measure(nfc, value, 0)
        case None => None
        case Some(tally) => Some(Inspection(value, tally, s.maximum))
  }

  method InspectText(nfc: string -> bool, parse: string -> Option<Json>, source: string) returns (r: Option<Inspection>)
    ensures r == Inspect(nfc, parse, source)
  {
    var depth := RawDepth(source);
    if depth.None? { return None; }
    var value := parse(source);
    if value.None? { return None; }
    var tally := MeasurePayload(nfc, value.value);
    if tally.None? { return None; }
    r := Some(Inspection(value.value, tally.value, depth.value));
  }

  /**
    A raw text is accepted if and only if it is JSON, its strings are ASCII or in normal
    form and its numbers finite, and the text itself, dropped branches included, nests at
    most 512 containers; `maxDepth` is then its nesting.
  */
  lemma {:induction false} RawTextAcceptedIff(nfc: string -> bool, parse: string -> Option<Json>, raw: Raw)
    requires Parser(parse) && WellFormed(raw)
    ensures var source := Text(raw);
            Inspect(nfc, parse, source).Some? <==>
              parse(source).Some? && Clean(nfc, parse(source).value) && Nesting(raw) <= 512
    ensures var r := Inspect(nfc, parse, Text(raw)); r.Some? ==> r.value.maxDepth == Nesting(raw)
  {
    var source := Text(raw);
    ScanMeasures(START, raw);
    if parse(source).Some? {
      var other :| WellFormed(other) && Text(other) == source && Depth(parse(source).value) <= Nesting(other);
      ScanMeasures(START, other);
      AcceptedIff(nfc, parse(source).value, 0);
    }
  }

  /** A branch that the value does not keep still counts: any such text over the limit is refused, however shallow its value. */
  lemma {:induction false} DroppedBranchRefused(branch: Raw, key: string)
    requires WellFormed(branch) && Nesting(branch) >= 512 && Closed(key, false)
    ensures var name := Quoted(key);
            var raw := Nest(true, [name, Loose(":"), branch, Loose(","), name, Loose(":null")]);
            WellFormed(raw) && ScanText(START, Text(raw)) == None
  {
    var name := Quoted(key);
    Prepended(Loose(":null"), []);
    Prepended(name, [Loose(":null")]);
    Prepended(Loose(","), [name, Loose(":null")]);
    Prepended(branch, [Loose(","), name, Loose(":null")]);
    Prepended(Loose(":"), [branch, Loose(","), name, Loose(":null")]);
    Prepended(name, [Loose(":"), branch, Loose(","), name, Loose(":null")]);
    ScanMeasures(START, Nest(true, [name, Loose(":"), branch, Loose(","), name, Loose(":null")]));
  }

  lemma {:induction false} Prepended(part: Raw, rest: seq<Raw>)
    ensures AllWellFormed([part] + rest) <==> WellFormed(part) && AllWellFormed(rest)
    ensures NestingOf([part] + rest) == Max(Nesting(part), NestingOf(rest))
  {
    assert ([part] + rest)[1..] == rest;
  }
}
