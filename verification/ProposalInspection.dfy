/**
  The payload measurement of artifacts/server/src/proposal-payload-inspection.ts: an
  iterative walk with an explicit stack, proved against the recursive measure, and that
  measure proved against the text JSON.stringify produces.
*/
module ProposalInspection {
  import opened Wrappers
  import opened JsonSize

  const MAX_DEPTH: nat := 512

  datatype Tally = Tally(bytes: nat, properties: nat, containers: nat)

  /** A total, or None once anything was refused. */
  function Plus(a: Option<Tally>, b: Option<Tally>): Option<Tally> {
    if a.None? || b.None? then None
    else Some(Tally(a.value.bytes + b.value.bytes, a.value.properties + b.value.properties, a.value.containers + b.value.containers))
  }

  predicate IsAscii(s: string) {
    forall c | c in s :: c as int < 0x80
  }

  /** The text of a finite number; an infinite one has none. */
  predicate Numeral(digits: string) {
    forall c | c in digits :: c in "0123456789+-.e"
  }

  /** `stringBytesUpper`; `nfc` is Unicode normal form C. */
  function StringUpper(nfc: string -> bool, s: string): Option<nat> {
    if !IsAscii(s) && !nfc(s) then None else Some(2 + 6 * |Utf8(s)|)
  }

  function Leaf(nfc: string -> bool, j: Json): Option<Tally>
    requires Scalar(j)
  {
    match j
    case Str(text) =>
      var upper := StringUpper(nfc, text);
      if upper.None? then None else Some(Tally(upper.value, 0, 0))
    case Number(digits) => if Numeral(digits) then Some(Tally(|digits|, 0, 0)) else None
    case Bool(b) => Some(Tally(if b then 4 else 5, 0, 0))
    case Null => Some(Tally(4, 0, 0))
  }

  function Separator(first: bool): nat {
    if first then 0 else 1
  }

  /** The measure of a value below `depth` containers. */
  function Measure(nfc: string -> bool, j: Json, depth: nat): Option<Tally>
    decreases j
  {
    match j
    case Arr(items) =>
      if depth >= MAX_DEPTH then None
      else Plus(Some(Tally(2, 0, 1)), MeasureItems(nfc, items, depth + 1, true))
    case Obj(members) =>
      if depth >= MAX_DEPTH then None
      else Plus(Some(Tally(2, 0, 1)), MeasureMembers(nfc, members, depth + 1, true))
    case _ => Leaf(nfc, j)
  }

  function MeasureItems(nfc: string -> bool, items: seq<Json>, depth: nat, first: bool): Option<Tally>
    decreases items
  {
    if items == [] then Some(Tally(0, 0, 0))
    else Plus(Plus(Some(Tally(Separator(first), 0, 0)), Measure(nfc, items[0], depth)), MeasureItems(nfc, items[1..], depth, false))
  }

  /** Separator, key and colon of one member. */
  function MemberHead(nfc: string -> bool, key: string, first: bool): Option<Tally> {
    var upper := StringUpper(nfc, key);
    if upper.None? then None else Some(Tally(Separator(first) + upper.value + 1, 1, 0))
  }

  function MeasureMembers(nfc: string -> bool, members: seq<Member>, depth: nat, first: bool): Option<Tally>
    decreases members
  {
    if members == [] then Some(Tally(0, 0, 0))
    else Plus(Plus(MemberHead(nfc, members[0].key, first), Measure(nfc, members[0].value, depth)),
              MeasureMembers(nfc, members[1..], depth, false))
  }

  // ---------- The measure bounds the text ----------

  lemma {:induction false} AsciiLength(s: string)
    requires IsAscii(s)
    ensures |Utf8(s)| == |s|
  {
    if s != "" {
      assert s[0] in s && forall c | c in s[1..] :: c in s;
      AsciiLength(s[1..]);
    }
  }

  lemma {:induction false} NumeralLength(s: string)
    requires Numeral(s)
    ensures |Utf8(s)| == |s|
  {
    forall c | c in s ensures c as int < 0x80 {
      assert c in "0123456789+-.e";
    }
    AsciiLength(s);
  }

  /** What the allowance of six bytes for a UTF-8 byte leaves over in a string. */
  function StringSlack(s: string): nat {
    if s == "" then 0 else 6 * |CharUtf8(s[0])| - |Escape(s[0])| + StringSlack(s[1..])
  }

  /** The same of all strings and keys of a value. */
  function Slack(j: Json): nat {
    match j
    case Str(text) => StringSlack(text)
    case Arr(items) => ItemsSlack(items)
    case Obj(members) => MembersSlack(members)
    case _ => 0
  }

  function ItemsSlack(items: seq<Json>): nat {
    if items == [] then 0 else Slack(items[0]) + ItemsSlack(items[1..])
  }

  function MembersSlack(members: seq<Member>): nat {
    if members == [] then 0 else StringSlack(members[0].key) + Slack(members[0].value) + MembersSlack(members[1..])
  }

  lemma {:induction false} EscapedExact(s: string)
    ensures |Escaped(s)| + StringSlack(s) == 6 * |Utf8(s)|
  {
    if s != "" { EscapedExact(s[1..]); }
  }

  lemma {:induction false} LeafExact(nfc: string -> bool, j: Json, depth: nat)
    requires Scalar(j) && Measure(nfc, j, depth).Some?
    ensures var t := Measure(nfc, j, depth).value;
            |Render(j, Compact)| + Slack(j) == t.bytes && t.properties == 0 && t.containers == 0
  {
    LiteralSizes();
    hide Numeral, Utf8;
    match j
    case Str(text) => EscapedExact(text);
    case Number(digits) => NumeralLength(digits);
    case _ =>
  }

  /** What is accepted is measured exactly in members and containers, and in bytes but for the slack of its strings. */
  lemma {:induction false} MeasureBounds(nfc: string -> bool, j: Json, depth: nat)
    requires Measure(nfc, j, depth).Some?
    ensures var t := Measure(nfc, j, depth).value;
            |Render(j, Compact)| + Slack(j) == t.bytes && t.properties == Properties(j) && t.containers == Containers(j)
    decreases j
  {
    if Scalar(j) { LeafExact(nfc, j, depth); }
    match j
    case Arr(items) => ItemsBounds(nfc, items, depth + 1, true);
    case Obj(members) => MembersBounds(nfc, members, depth + 1, true);
    case _ =>
  }

  lemma {:induction false} ItemsBounds(nfc: string -> bool, items: seq<Json>, depth: nat, first: bool)
    requires MeasureItems(nfc, items, depth, first).Some?
    ensures var t := MeasureItems(nfc, items, depth, first).value;
            && |RenderItems(items, Compact)| + (if items == [] || first then 0 else 1) + ItemsSlack(items) == t.bytes
            && t.properties == ItemProperties(items) && t.containers == ItemContainers(items)
    decreases items
  {
    if items != [] {
      MeasureBounds(nfc, items[0], depth);
      ItemsBounds(nfc, items[1..], depth, false);
    }
  }

  lemma {:induction false} MembersBounds(nfc: string -> bool, members: seq<Member>, depth: nat, first: bool)
    requires MeasureMembers(nfc, members, depth, first).Some?
    ensures var t := MeasureMembers(nfc, members, depth, first).value;
            && |RenderMembers(members, Compact)| + (if members == [] || first then 0 else 1) + MembersSlack(members) == t.bytes
            && t.properties == MemberProperties(members) && t.containers == MemberContainers(members)
    decreases members
  {
    if members != [] {
      EscapedExact(members[0].key);
      MeasureBounds(nfc, members[0].value, depth);
      MembersBounds(nfc, members[1..], depth, false);
    }
  }

  // ---------- What is accepted ----------

  function Max(a: nat, b: nat): nat {
    if a >= b then a else b
  }

  /** Nesting depth in containers. */
  function Depth(j: Json): nat {
    match j
    case Arr(items) => 1 + ItemsDepth(items)
    case Obj(members) => 1 + MembersDepth(members)
    case _ => 0
  }

  function ItemsDepth(items: seq<Json>): nat {
    if items == [] then 0 else Max(Depth(items[0]), ItemsDepth(items[1..]))
  }

  function MembersDepth(members: seq<Member>): nat {
    if members == [] then 0 else Max(Depth(members[0].value), MembersDepth(members[1..]))
  }

  /** Every string and key is ASCII or in normal form, every number finite. */
  predicate Clean(nfc: string -> bool, j: Json) {
    match j
    case Str(text) => IsAscii(text) || nfc(text)
    case Number(digits) => Numeral(digits)
    case Arr(items) => ItemsClean(nfc, items)
    case Obj(members) => MembersClean(nfc, members)
    case _ => true
  }

  predicate ItemsClean(nfc: string -> bool, items: seq<Json>) {
    items != [] ==> Clean(nfc, items[0]) && ItemsClean(nfc, items[1..])
  }

  predicate MembersClean(nfc: string -> bool, members: seq<Member>) {
    members != [] ==>
      (IsAscii(members[0].key) || nfc(members[0].key)) && Clean(nfc, members[0].value) && MembersClean(nfc, members[1..])
  }

  /** A value is accepted iff it is clean and nested no deeper than 512 containers. */
  lemma {:induction false} AcceptedIff(nfc: string -> bool, j: Json, depth: nat)
    requires depth <= MAX_DEPTH
    ensures Measure(nfc, j, depth).Some? <==> Clean(nfc, j) && depth + Depth(j) <= 512
    decreases j
  {
    match j
    case Arr(items) => if depth < MAX_DEPTH { ItemsAcceptedIff(nfc, items, depth + 1, true); }
    case Obj(members) => if depth < MAX_DEPTH { MembersAcceptedIff(nfc, members, depth + 1, true); }
    case _ =>
  }

  lemma {:induction false} ItemsAcceptedIff(nfc: string -> bool, items: seq<Json>, depth: nat, first: bool)
    requires depth <= MAX_DEPTH
    ensures MeasureItems(nfc, items, depth, first).Some? <==> ItemsClean(nfc, items) && depth + ItemsDepth(items) <= MAX_DEPTH
    decreases items
  {
    if items != [] {
      AcceptedIff(nfc, items[0], depth);
      ItemsAcceptedIff(nfc, items[1..], depth, false);
    }
  }

  lemma {:induction false} MembersAcceptedIff(nfc: string -> bool, members: seq<Member>, depth: nat, first: bool)
    requires depth <= MAX_DEPTH
    ensures MeasureMembers(nfc, members, depth, first).Some? <==> MembersClean(nfc, members) && depth + MembersDepth(members) <= MAX_DEPTH
    decreases members
  {
    if members != [] {
      AcceptedIff(nfc, members[0].value, depth);
      MembersAcceptedIff(nfc, members[1..], depth, false);
    }
  }

  // ---------- The walk ----------

  datatype Frame = ItemFrame(items: seq<Json>, first: bool) | MemberFrame(members: seq<Member>, first: bool)
  {
    predicate Done() {
      match this
      case ItemFrame(items, _) => items == []
      case MemberFrame(members, _) => members == []
    }
  }

  /** What is left of the frames, the innermost last; the entries of frame i lie below i + 1 containers. */
  function Pending(nfc: string -> bool, stack: seq<Frame>): Option<Tally> {
    if stack == [] then Some(Tally(0, 0, 0))
    else Plus(FramePending(nfc, stack[|stack| - 1], |stack|), Pending(nfc, stack[..|stack| - 1]))
  }

  function FramePending(nfc: string -> bool, frame: Frame, depth: nat): Option<Tally> {
    match frame
    case ItemFrame(items, first) => MeasureItems(nfc, items, depth, first)
    case MemberFrame(members, first) => MeasureMembers(nfc, members, depth, first)
  }

  function Nodes(j: Json): (n: nat)
    ensures n >= 1
  {
    match j
    case Arr(items) => 1 + ItemNodes(items)
    case Obj(members) => 1 + MemberNodes(members)
    case _ => 1
  }

  function ItemNodes(items: seq<Json>): nat {
    if items == [] then 0 else Nodes(items[0]) + ItemNodes(items[1..])
  }

  function MemberNodes(members: seq<Member>): nat {
    if members == [] then 0 else Nodes(members[0].value) + MemberNodes(members[1..])
  }

  function StackNodes(stack: seq<Frame>): nat {
    if stack == [] then 0
    else
      var frame := stack[|stack| - 1];
      (match frame case ItemFrame(items, _) => ItemNodes(items) case MemberFrame(members, _) => MemberNodes(members))
      + StackNodes(stack[..|stack| - 1])
  }

  lemma {:induction false} Pushed(nfc: string -> bool, stack: seq<Frame>, frame: Frame)
    ensures Pending(nfc, stack + [frame]) == Plus(FramePending(nfc, frame, |stack| + 1), Pending(nfc, stack))
    ensures StackNodes(stack + [frame]) == (match frame case ItemFrame(items, _) => ItemNodes(items) case MemberFrame(members, _) => MemberNodes(members)) + StackNodes(stack)
  {
    assert (stack + [frame])[..|stack|] == stack;
  }

  lemma {:induction false} NothingPending(nfc: string -> bool, root: Json)
    ensures Plus(Plus(Some(Tally(0, 0, 0)), Measure(nfc, root, 0)), Pending(nfc, [])) == Measure(nfc, root, 0)
  {
    hide Measure;
  }

  lemma {:induction false} NothingLeft(nfc: string -> bool, total: Tally)
    ensures Plus(Some(total), Pending(nfc, [])) == Some(total)
  {
  }

  lemma {:induction false} PoppedDone(nfc: string -> bool, stack: seq<Frame>)
    requires stack != [] && stack[|stack| - 1].Done()
    ensures Pending(nfc, stack) == Pending(nfc, stack[..|stack| - 1]) && StackNodes(stack) == StackNodes(stack[..|stack| - 1])
  {
  }

  /** What a container's own braces and its entries come to. */
  lemma {:induction false} EnteredContainer(nfc: string -> bool, total: Tally, current: Json, stack: seq<Frame>, frame: Frame)
    requires current.Arr? || current.Obj?
    requires frame == if current.Arr? then ItemFrame(current.items, true) else MemberFrame(current.members, true)
    requires |stack| < MAX_DEPTH
    ensures Plus(Some(total.(bytes := total.bytes + 2, containers := total.containers + 1)), Pending(nfc, stack + [frame]))
         == Plus(Plus(Some(total), Measure(nfc, current, |stack|)), Pending(nfc, stack))
    ensures StackNodes(stack + [frame]) < Nodes(current) + StackNodes(stack)
  {
    Pushed(nfc, stack, frame);
    hide Pending, MeasureItems, MeasureMembers, StackNodes;
  }

  /** Count one value; a container's entries go on the stack. */
  method Enter(nfc: string -> bool, total: Tally, current: Json, stack: seq<Frame>) returns (r: Option<(Tally, seq<Frame>)>)
    ensures var work := Plus(Plus(Some(total), Measure(nfc, current, |stack|)), Pending(nfc, stack));
            match r
            case None => work == None
            case Some((t, s)) => Plus(Some(t), Pending(nfc, s)) == work && StackNodes(s) < Nodes(current) + StackNodes(stack)
  {
    hide Pending, MeasureItems, MeasureMembers, StackNodes, Nodes;
    if current.Arr? || current.Obj? {
      if |stack| >= MAX_DEPTH { return None; }
      var frame := if current.Arr? then ItemFrame(current.items, true) else MemberFrame(current.members, true);
      EnteredContainer(nfc, total, current, stack, frame);
      return Some((total.(bytes := total.bytes + 2, containers := total.containers + 1), stack + [frame]));
    }
    var leaf := Leaf(nfc, current);
    if leaf.None? { return None; }
    r := Some((total.(bytes := total.bytes + leaf.value.bytes), stack));
  }

  /** The work left is the same with the entry taken out of its frame, whatever its head costs. */
  lemma {:induction false} Advanced(nfc: string -> bool, total: Tally, below: seq<Frame>, frame: Frame, head: Tally, value: Json, rest: Frame)
    requires FramePending(nfc, frame, |below| + 1)
          == Plus(Plus(Some(head), Measure(nfc, value, |below| + 1)), FramePending(nfc, rest, |below| + 1))
    ensures Plus(Plus(Plus(Some(total), Some(head)), Measure(nfc, value, |below| + 1)), Pending(nfc, below + [rest]))
         == Plus(Some(total), Pending(nfc, below + [frame]))
  {
    Pushed(nfc, below, frame);
    Pushed(nfc, below, rest);
    hide Measure, Pending, FramePending;
  }

  lemma {:induction false} FewerNodes(nfc: string -> bool, below: seq<Frame>, frame: Frame, value: Json, rest: Frame)
    requires match frame
             case ItemFrame(items, _) => items != [] && value == items[0] && rest == ItemFrame(items[1..], false)
             case MemberFrame(members, _) => members != [] && value == members[0].value && rest == MemberFrame(members[1..], false)
    ensures Nodes(value) + StackNodes(below + [rest]) == StackNodes(below + [frame])
  {
    Pushed(nfc, below, frame);
    Pushed(nfc, below, rest);
    hide Pending, FramePending, Nodes, StackNodes;
  }

  /** Take the next entry of the innermost frame. */
  method Advance(nfc: string -> bool, total: Tally, below: seq<Frame>, frame: Frame) returns (r: Option<(Tally, Json, seq<Frame>)>)
    requires !frame.Done()
    ensures var work := Plus(Some(total), Pending(nfc, below + [frame]));
            match r
            case None => work == None
            case Some((t, j, s)) =>
              && Plus(Plus(Some(t), Measure(nfc, j, |s|)), Pending(nfc, s)) == work
              && Nodes(j) + StackNodes(s) == StackNodes(below + [frame])
  {
    hide Measure, Pending, Nodes, StackNodes;
    match frame {
      case ItemFrame(items, first) =>
        var rest := ItemFrame(items[1..], false);
        Advanced(nfc, total, below, frame, Tally(Separator(first), 0, 0), items[0], rest);
        FewerNodes(nfc, below, frame, items[0], rest);
        r := Some((total.(bytes := total.bytes + Separator(first)), items[0], below + [rest]));
      case MemberFrame(members, first) =>
        var head := MemberHead(nfc, members[0].key, first);
        if head.None? {
          Pushed(nfc, below, frame);
          return None;
        }
        var rest := MemberFrame(members[1..], false);
        Advanced(nfc, total, below, frame, head.value, members[0].value, rest);
        FewerNodes(nfc, below, frame, members[0].value, rest);
        r := Some((total.(bytes := total.bytes + head.value.bytes, properties := total.properties + 1), members[0].value, below + [rest]));
    }
  }

  /** `measure`: refused iff the recursive measure refuses, otherwise exactly its totals. */
  method MeasurePayload(nfc: string -> bool, root: Json) returns (r: Option<Tally>)
    ensures r == Measure(nfc, root, 0)
  {
    hide Measure, Nodes, Pending, StackNodes, Plus;
    NothingPending(nfc, root);
    var total, current, stack: seq<Frame> := Tally(0, 0, 0), root, [];
    while true
      invariant Plus(Plus(Some(total), Measure(nfc, current, |stack|)), Pending(nfc, stack)) == Measure(nfc, root, 0)
      decreases Nodes(current) + StackNodes(stack)
    {
      ghost var work := Nodes(current) + StackNodes(stack);
      var entered := Enter(nfc, total, current, stack);
      if entered.None? { return None; }
      total, stack := entered.value.0, entered.value.1;
      while stack != [] && stack[|stack| - 1].Done()
        invariant Plus(Some(total), Pending(nfc, stack)) == Measure(nfc, root, 0)
        invariant StackNodes(stack) < work
        decreases |stack|
      {
        PoppedDone(nfc, stack);
        stack := stack[..|stack| - 1];
      }
      NothingLeft(nfc, total);
      if stack == [] { return Some(total); }
      var below, frame := stack[..|stack| - 1], stack[|stack| - 1];
      assert stack == below + [frame];
      var next := Advance(nfc, total, below, frame);
      if next.None? { return None; }
      total, current, stack := next.value.0, next.value.1, next.value.2;
    }
  }
}
