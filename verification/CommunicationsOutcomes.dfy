/**
  Exactly when an admitted communications list is returned
  (artifacts/server/src/communications-list-read.ts), told from the rows of the three
  snapshots alone.
*/
module CommunicationsOutcomes {
  import opened Wrappers
  import opened JsonSize
  import opened CommunicationsRows
  import opened ProposalInspection
  import opened CommunicationsAdmission
  import ProposalText

  // ---------- Rows ----------

  /** At most 256 objects of exactly two string members, uri and sha256. */
  predicate References(column: Json) {
    && column.Arr? && |column.items| <= 256
    && forall i | 0 <= i < |column.items| ::
         column.items[i].Obj? && |column.items[i].members| == 2
         && column.items[i].members[0].value.Str? && column.items[i].members[1].value.Str?
         && {column.items[i].members[0].key, column.items[i].members[1].key} == {"uri", "sha256"}
  }

  predicate Supported(row: ListRow) {
    match row.content
    case RequestContent(r) => forall i | 0 <= i < |r.turns| :: References(r.turns[i].references)
    case ProposalContent(p) => References(p.references)
  }

  /** Of each entry of a list of at most 256: 33 bytes, six a byte of a reference's texts, two members, one object. */
  function ReferenceCosts(items: seq<Json>): Cost {
    if items == [] then Cost(0, 0, 0)
    else
      var text := if IsReference(items[0]) then |Utf8(items[0].members[0].value.text)| + |Utf8(items[0].members[1].value.text)| else 0;
      var rest := ReferenceCosts(items[1..]);
      Cost(33 + 6 * text + rest.bytes, 2 + rest.properties, 1 + rest.containers)
  }

  function ListedCosts(column: Json): Cost {
    if column.Arr? && |column.items| <= 256 then ReferenceCosts(column.items) else Cost(0, 0, 0)
  }

  function TurnCosts(turns: seq<Turn>): Cost
    requires Turns(turns)
  {
    if turns == [] then Cost(0, 0, 0)
    else
      assert turns[0] in turns;
      var refs, rest := ListedCosts(turns[0].references), TurnCosts(turns[1..]);
      Cost(195 + 6 * Utf8Sum(turns[0].values) + refs.bytes + rest.bytes, 9 + refs.properties + rest.properties, 2 + refs.containers + rest.containers)
  }

  /** What the metadata query charges for a row, in its own numbers. */
  function MeteredOf(kind: Kind, row: ListRow): Cost
    requires row.Valid(kind)
  {
    match row.content
    case RequestContent(r) =>
      var turns := TurnCosts(r.turns);
      Cost(201 + 6 * Utf8Sum(r.values) + turns.bytes, 10 + turns.properties, 2 + turns.containers)
    case ProposalContent(p) =>
      var refs := ListedCosts(p.references);
      var disposed := if p.disposition.Some? then Cost(136 + 6 * Utf8Sum(p.disposition.value), 6, 1) else Cost(0, 0, 0);
      Cost(271 + 6 * Utf8Sum(p.values) + refs.bytes + disposed.bytes, 13 + refs.properties + disposed.properties, 2 + refs.containers + disposed.containers)
  }

  lemma {:induction false} ReferenceCostsAre(items: seq<Json>)
    ensures ReferenceCosts(items) == Cost(33 * |items| + 6 * ReferenceUtf8(items), 2 * |items|, |items|)
  {
    hide IsReference, Utf8;
    if items != [] { ReferenceCostsAre(items[1..]); }
  }

  lemma {:induction false} ListedCostsAre(column: Json)
    ensures var m := MeasureReferences(column); ListedCosts(column) == Cost(33 * m.count + 6 * m.utf8, 2 * m.count, m.count)
  {
    hide IsReference;
    if column.Arr? { ReferenceCostsAre(column.items); }
  }

  lemma {:induction false} TurnCostsAre(turns: seq<Turn>)
    requires Turns(turns)
    ensures var m, n := MeasureTurns(turns), |turns|;
            TurnCosts(turns) == Cost(195 * n + 6 * m.utf8 + 33 * m.references + 6 * m.referenceUtf8, 9 * n + 2 * m.references, 2 * n + m.references)
  {
    hide MeasureReferences, ListedCosts, Utf8Sum, Turn.Valid;
    if turns != [] {
      assert turns[0] in turns;
      ListedCostsAre(turns[0].references);
      TurnCostsAre(turns[1..]);
    }
  }

  lemma {:induction false} RequestMetered(r: Request)
    requires r.Valid()
    ensures var turns := TurnCosts(r.turns);
            r.Metered() == Cost(201 + 6 * Utf8Sum(r.values) + turns.bytes, 10 + turns.properties, 2 + turns.containers)
  {
    hide MeasureTurns, Utf8Sum;
    TurnCostsAre(r.turns);
  }

  lemma {:induction false} ProposalMetered(p: Proposal)
    requires p.Valid()
    ensures var refs := ListedCosts(p.references);
            var disposed := if p.disposition.Some? then Cost(136 + 6 * Utf8Sum(p.disposition.value), 6, 1) else Cost(0, 0, 0);
            p.Metered() == Cost(271 + 6 * Utf8Sum(p.values) + refs.bytes + disposed.bytes, 13 + refs.properties + disposed.properties, 2 + refs.containers + disposed.containers)
  {
    hide MeasureReferences, Utf8Sum;
    ListedCostsAre(p.references);
  }

  lemma {:induction false} ReferencesIff(column: Json)
    ensures MeasureReferences(column).supported <==> References(column)
  {
    assert "uri" != "sha256" by { assert |"uri"| != |"sha256"|; }
    if column.Arr? {
      forall i | 0 <= i < |column.items|
        ensures IsReference(column.items[i]) <==>
                  column.items[i].Obj? && |column.items[i].members| == 2
                  && column.items[i].members[0].value.Str? && column.items[i].members[1].value.Str?
                  && {column.items[i].members[0].key, column.items[i].members[1].key} == {"uri", "sha256"}
      {
        ReferenceIff(column.items[i]);
      }
    }
  }

  lemma {:induction false} TwoKeys(a: string, b: string, x: string, y: string)
    requires x != y
    ensures {a, b} == {x, y} <==> (a == x && b == y) || (a == y && b == x)
  {
    if {a, b} == {x, y} { assert x in {a, b} && y in {a, b}; }
  }

  lemma {:induction false} ReferenceIff(j: Json)
    ensures IsReference(j) <==>
              && j.Obj? && |j.members| == 2 && j.members[0].value.Str? && j.members[1].value.Str?
              && {j.members[0].key, j.members[1].key} == {"uri", "sha256"}
  {
    assert "uri" != "sha256" by { assert |"uri"| != |"sha256"|; }
    if j.Obj? && |j.members| == 2 {
      TwoKeys(j.members[0].key, j.members[1].key, "uri", "sha256");
    }
  }

  lemma {:induction false} TurnsSupportedIff(turns: seq<Turn>)
    requires Turns(turns)
    ensures MeasureTurns(turns).supported <==> forall i | 0 <= i < |turns| :: References(turns[i].references)
  {
    hide References, MeasureReferences, Turn.Valid;
    if turns != [] {
      assert turns[0] in turns;
      ReferencesIff(turns[0].references);
      TurnsSupportedIff(turns[1..]);
      assert forall i | 0 < i < |turns| :: turns[i] == turns[1..][i - 1];
    }
  }

  /** What the metadata query says of a row. */
  lemma {:induction false} MeasuredIs(kind: Kind, row: ListRow)
    requires row.Valid(kind)
    ensures Measured(kind, row) == Metadata(row.id, row.rowVersion, row.cursorAt, |row.raw|, row.sha256, Supported(row), MeteredOf(kind, row))
  {
    hide References, MeasureReferences, MeasureTurns, Request.Metered, Proposal.Metered, Utf8Sum, TurnCosts, ListedCosts;
    match row.content
    case RequestContent(r) =>
      TurnsSupportedIff(r.turns);
      RequestMetered(r);
    case ProposalContent(p) =>
      ReferencesIff(p.references);
      ProposalMetered(p);
  }

  /** The allowances of `fixed` are those of the key lists, nested values included. */
  lemma {:induction false} FixedAllowances()
    ensures FIXED_REQUEST == FixedObject(REQUEST_KEYS) + KeyCost(["turns"])
    ensures FIXED_TURN == FixedObject(TURN_KEYS) + KeyCost(["resource_references"])
    ensures FIXED_PROPOSAL == FixedObject(PROPOSAL_KEYS) + KeyCost(["payload"]) + KeyCost(["references"]) + KeyCost(["disposition"])
    ensures FIXED_DISPOSITION == FixedObject(DISPOSITION_KEYS)
    ensures FIXED_REFERENCE == 2 + KeyCost(["uri"]) + KeyCost(["sha256"])
  {
    RequestKeys();
    TurnKeys();
    ProposalKeys();
    DispositionKeys();
    hide REQUEST_KEYS, TURN_KEYS, PROPOSAL_KEYS, DISPOSITION_KEYS;
    OneKey("turns");
    OneKey("resource_references");
    OneKey("payload");
    OneKey("references");
    OneKey("disposition");
    OneKey("uri");
    OneKey("sha256");
    hide KeyCost;
  }

  lemma {:induction false} OneKey(key: string)
    ensures KeyCost([key]) == |key| + 10
  {
    assert [key][1..] == [];
  }

  // ---------- Gates ----------

  /** The later row is the earlier one in id, version, payload length and digest, is supported, and costs no more. */
  predicate RowRetained(kind: Kind, was: ListRow, now: ListRow)
    requires was.Valid(kind) && now.Valid(kind)
  {
    && now.id == was.id && now.rowVersion == was.rowVersion && |now.raw| == |was.raw| && now.sha256 == was.sha256
    && Supported(now) && Within(MeteredOf(kind, now), MeteredOf(kind, was))
  }

  predicate RetainedFrom(kind: Kind, first: seq<ListRow>, ids: set<string>, now: ListRow)
    requires (forall row | row in first :: row.Valid(kind)) && now.Valid(kind)
  {
    exists k :: 0 <= k < |first| && first[k] in first && first[k].id in ids && RowRetained(kind, first[k], now)
  }

  /** Every later row is an earlier one of these ids. */
  predicate AllRetained(kind: Kind, first: seq<ListRow>, ids: set<string>, later: seq<ListRow>)
    requires (forall row | row in first :: row.Valid(kind)) && (forall row | row in later :: row.Valid(kind))
  {
    forall i | 0 <= i < |later| :: later[i] in later && RetainedFrom(kind, first, ids, later[i])
  }

  lemma {:induction false} FitsIff(kind: Kind, was: ListRow, now: ListRow)
    requires was.Valid(kind) && now.Valid(kind)
    ensures Fits(Measured(kind, was), Measured(kind, now)) <==> RowRetained(kind, was, now)
  {
    MeasuredIs(kind, was);
    MeasuredIs(kind, now);
    hide Measured, Supported, MeteredOf, Within;
  }

  lemma {:induction false} InRemaining(frontier: seq<Metadata>, ids: set<string>, m: Metadata)
    ensures m in Remaining(frontier, ids) <==> m in frontier && m.id in ids
  {
    if frontier != [] { InRemaining(frontier[1..], ids, m); }
  }

  lemma {:induction false} ExpectedIff(kind: Kind, first: seq<ListRow>, ids: set<string>, now: ListRow)
    requires (forall row | row in first :: row.Valid(kind)) && now.Valid(kind)
    ensures Expected(Remaining(Frontier(kind, first), ids), Measured(kind, now)) <==> RetainedFrom(kind, first, ids, now)
  {
    hide Measured, Fits, RowRetained, Remaining, ListRow.Valid;
    var frontier := Frontier(kind, first);
    var expected := Remaining(frontier, ids);
    if k :| 0 <= k < |expected| && Fits(expected[k], Measured(kind, now)) {
      assert expected[k] in expected;
      var x :| 0 <= x < |frontier| && frontier[x] == expected[k];
      MeasuredId(kind, first[x]);
      FitsIff(kind, first[x], now);
    }
    if RetainedFrom(kind, first, ids, now) {
      var x :| 0 <= x < |first| && first[x] in first && first[x].id in ids && RowRetained(kind, first[x], now);
      MeasuredId(kind, first[x]);
      FitsIff(kind, first[x], now);
      InRemaining(frontier, ids, frontier[x]);
      var k :| 0 <= k < |expected| && expected[k] == frontier[x];
    }
  }

  lemma {:induction false} GateIff(kind: Kind, first: seq<ListRow>, ids: set<string>, later: seq<ListRow>)
    requires (forall row | row in first :: row.Valid(kind)) && (forall row | row in later :: row.Valid(kind))
    ensures Gate(Remaining(Frontier(kind, first), ids), Frontier(kind, later)) <==> AllRetained(kind, first, ids, later)
  {
    hide Measured, Expected, RetainedFrom, Remaining, ListRow.Valid;
    forall i | 0 <= i < |later|
      ensures later[i] in later && (Expected(Remaining(Frontier(kind, first), ids), Frontier(kind, later)[i]) <==> RetainedFrom(kind, first, ids, later[i]))
    {
      ExpectedIff(kind, first, ids, later[i]);
    }
  }

  // ---------- Inspection and items ----------

  /** The row's payload has the length and digest that the first snapshot holds for its id, and its text is accepted. */
  predicate PayloadFine(c: Setting, first: seq<ListRow>, row: ListRow) {
    && c.decode(row.raw).Some? && ProposalText.Inspect(c.nfc, c.parse, c.decode(row.raw).value).Some?
    && exists k :: 0 <= k < |first| && first[k].id == row.id && |first[k].raw| == |row.raw| && first[k].sha256 == Some(c.hash(row.raw))
  }

  /** The item names its row, and the digest and version that the first snapshot holds for its id. */
  predicate ItemFine(c: Setting, first: seq<ListRow>, row: ListRow) {
    && row.content.ProposalContent?
    && exists k :: 0 <= k < |first| && first[k].id == row.id && first[k].sha256.Some? && Named(c, first[k], row.id, row.content.proposal.values)
  }

  predicate Named(c: Setting, was: ListRow, id: string, values: seq<Json>)
    requires was.sha256.Some?
  {
    && |values| == 10 && PROPOSAL_KEYS[0] == "proposal_id" && PROPOSAL_KEYS[6] == "payload_sha256" && PROPOSAL_KEYS[8] == "row_version"
    && values[0] == Str(id) && values[6] == Str(c.hex(was.sha256.value)) && values[8] == Str(c.decimal(was.rowVersion))
  }

  /** The frontier row that is found is that of the one row of its id. */
  lemma {:induction false} FoundIs(kind: Kind, first: seq<ListRow>, k: nat)
    requires (forall row | row in first :: row.Valid(kind)) && DistinctIds(first) && k < |first|
    ensures Find(Frontier(kind, first), first[k].id) == Some(Measured(kind, first[k]))
  {
    hide Measured, Find, ListRow.Valid;
    var frontier := Frontier(kind, first);
    var found := Find(frontier, first[k].id);
    MeasuredId(kind, first[k]);
    assert frontier[k].id == first[k].id;
    var x :| 0 <= x < |frontier| && frontier[x] == found.value && frontier[x].id == first[k].id;
    MeasuredId(kind, first[x]);
  }

  lemma {:induction false} FoundSome(kind: Kind, first: seq<ListRow>, id: string) returns (k: nat)
    requires (forall row | row in first :: row.Valid(kind)) && DistinctIds(first) && Find(Frontier(kind, first), id).Some?
    ensures k < |first| && first[k].id == id
  {
    hide Measured, Find, ListRow.Valid;
    var frontier := Frontier(kind, first);
    k :| 0 <= k < |frontier| && frontier[k].id == id;
    MeasuredId(kind, first[k]);
  }

  lemma {:induction false} InspectableIff(c: Setting, kind: Kind, first: seq<ListRow>, row: ListRow)
    requires (forall r | r in first :: r.Valid(kind)) && DistinctIds(first)
    ensures Inspectable(c, Frontier(kind, first), row) <==> PayloadFine(c, first, row)
  {
    hide Measured, Find, ListRow.Valid, ProposalText.Inspect, DistinctIds;
    if Inspectable(c, Frontier(kind, first), row) {
      var k := FoundSome(kind, first, row.id);
      FoundIs(kind, first, k);
      MeasuredIs(kind, first[k]);
    }
    if PayloadFine(c, first, row) {
      var k :| 0 <= k < |first| && first[k].id == row.id && |first[k].raw| == |row.raw| && first[k].sha256 == Some(c.hash(row.raw));
      FoundIs(kind, first, k);
      MeasuredIs(kind, first[k]);
    }
  }

  lemma {:induction false} ProposalFields()
    ensures |PROPOSAL_KEYS| == 10 && PROPOSAL_KEYS[0] == "proposal_id" && PROPOSAL_KEYS[6] == "payload_sha256" && PROPOSAL_KEYS[8] == "row_version"
  {
  }

  lemma {:induction false} OwnItemIff(c: Setting, kind: Kind, first: seq<ListRow>, row: ListRow)
    requires (forall r | r in first :: r.Valid(kind)) && DistinctIds(first)
    ensures OwnItem(c, Frontier(kind, first), row) <==> ItemFine(c, first, row)
  {
    ProposalFields();
    hide Measured, Find, ListRow.Valid, DistinctIds, PROPOSAL_KEYS;
    if OwnItem(c, Frontier(kind, first), row) {
      var k := FoundSome(kind, first, row.id);
      FoundIs(kind, first, k);
      MeasuredIs(kind, first[k]);
    }
    if ItemFine(c, first, row) {
      var k :| 0 <= k < |first| && first[k].id == row.id && first[k].sha256.Some? && Named(c, first[k], row.id, row.content.proposal.values);
      FoundIs(kind, first, k);
      MeasuredIs(kind, first[k]);
    }
  }

  // ---------- The whole read ----------

  function RawTotal(rows: seq<ListRow>): nat {
    if rows == [] then 0 else RawTotal(rows[..|rows| - 1]) + |rows[|rows| - 1].raw|
  }

  function MeteredTotal(kind: Kind, rows: seq<ListRow>): Cost
    requires forall row | row in rows :: row.Valid(kind)
  {
    if rows == [] then Cost(0, 0, 0)
    else
      assert rows[|rows| - 1] in rows;
      var rest, last := MeteredTotal(kind, rows[..|rows| - 1]), MeteredOf(kind, rows[|rows| - 1]);
      Cost(rest.bytes + last.bytes, rest.properties + last.properties, rest.containers + last.containers)
  }

  /** What inspection measures of the payload of a row. */
  function PayloadCostOf(c: Setting, row: ListRow): Cost {
    var text := c.decode(row.raw);
    if text.None? then Cost(0, 0, 0)
    else
      var found := ProposalText.Inspect(c.nfc, c.parse, text.value);
      if found.None? then Cost(0, 0, 0)
      else Cost(found.value.tally.bytes, found.value.tally.properties, found.value.tally.containers)
  }

  function PayloadTotal(c: Setting, rows: seq<ListRow>): Cost {
    if rows == [] then Cost(0, 0, 0)
    else
      var rest, last := PayloadTotal(c, rows[..|rows| - 1]), PayloadCostOf(c, rows[|rows| - 1]);
      Cost(rest.bytes + last.bytes, rest.properties + last.properties, rest.containers + last.containers)
  }

  lemma {:induction false} TotalsAre(kind: Kind, rows: seq<ListRow>)
    requires forall row | row in rows :: row.Valid(kind)
    ensures CanonicalTotal(Frontier(kind, rows)) == RawTotal(rows) && Total(Costs(Frontier(kind, rows))) == MeteredTotal(kind, rows)
    decreases |rows|
  {
    hide Measured, ListRow.Valid, MeteredOf;
    if rows != [] {
      var n := |rows| - 1;
      var frontier := Frontier(kind, rows);
      assert rows[n] in rows;
      MeasuredIs(kind, rows[n]);
      assert frontier[..n] == Frontier(kind, rows[..n]);
      assert Costs(frontier)[..n] == Costs(frontier[..n]);
      TotalsAre(kind, rows[..n]);
    }
  }

  lemma {:induction false} PayloadCostIs(c: Setting, kind: Kind, first: seq<ListRow>, row: ListRow)
    requires (forall r | r in first :: r.Valid(kind)) && DistinctIds(first) && PayloadFine(c, first, row)
    ensures InspectedCost(c, Frontier(kind, first), row) == PayloadCostOf(c, row)
  {
    hide Measured, ListRow.Valid, ProposalText.Inspect, Find, DistinctIds;
    var k :| 0 <= k < |first| && first[k].id == row.id && |first[k].raw| == |row.raw| && first[k].sha256 == Some(c.hash(row.raw));
    FoundIs(kind, first, k);
    MeasuredIs(kind, first[k]);
  }

  lemma {:induction false} PayloadTotalIs(c: Setting, kind: Kind, first: seq<ListRow>, rows: seq<ListRow>)
    requires (forall row | row in first :: row.Valid(kind)) && DistinctIds(first)
    requires forall row | row in rows :: PayloadFine(c, first, row)
    ensures InspectedTotal(c, Frontier(kind, first), rows) == PayloadTotal(c, rows)
    decreases |rows|
  {
    hide ListRow.Valid, DistinctIds, PayloadFine, InspectedCost, PayloadCostOf;
    if rows != [] {
      var n := |rows| - 1;
      assert rows[n] in rows && forall r | r in rows[..n] :: r in rows;
      PayloadTotalIs(c, kind, first, rows[..n]);
      PayloadCostIs(c, kind, first, rows[n]);
    }
  }

  predicate Countables(cost: Cost, raw: nat) {
    && raw < 1_000_000_000_000_000_000_000_000 && cost.bytes < 1_000_000_000_000_000_000_000_000
    && cost.properties < 1_000_000_000_000_000_000_000_000 && cost.containers < 1_000_000_000_000_000_000_000_000
  }

  predicate RowsFine(kind: Kind, rows: seq<ListRow>)
    requires forall row | row in rows :: row.Valid(kind)
  {
    forall i | 0 <= i < |rows| :: rows[i] in rows && Supported(rows[i]) && Countables(MeteredOf(kind, rows[i]), |rows[i].raw|)
  }

  lemma {:induction false} RowsFineIff(kind: Kind, rows: seq<ListRow>)
    requires forall row | row in rows :: row.Valid(kind)
    ensures RowsFine(kind, rows) <==> forall m | m in Frontier(kind, rows) :: Acceptable(m)
  {
    hide Measured, ListRow.Valid, MeteredOf, Supported;
    var frontier := Frontier(kind, rows);
    forall i | 0 <= i < |rows|
      ensures rows[i] in rows && (Acceptable(frontier[i]) <==> Supported(rows[i]) && Countables(MeteredOf(kind, rows[i]), |rows[i].raw|))
    {
      MeasuredIs(kind, rows[i]);
    }
    hide Acceptable, Countables;
    if RowsFine(kind, rows) {
      forall m | m in frontier ensures Acceptable(m) {
        var i :| 0 <= i < |frontier| && frontier[i] == m;
      }
    }
    assert forall i | 0 <= i < |rows| :: frontier[i] in frontier;
  }

  /** A proposals list: metered, inspected, and delivered from the inspected rows alone. */
  ghost predicate ProposalsReturn(c: Setting, limit: nat, first: seq<ListRow>, second: seq<ListRow>, third: seq<ListRow>, grants: Cost -> bool)
    requires (forall row | row in first :: row.Valid(Proposals)) && (forall row | row in second :: row.Valid(Proposals)) && (forall row | row in third :: row.Valid(Proposals))
  {
    var metered, payloads := MeteredTotal(Proposals, first), PayloadTotal(c, second);
    && 1 <= limit <= 500 && RowsFine(Proposals, first) && RawTotal(first) <= 9_007_199_254_740_991
    && grants(metered)
    && AllRetained(Proposals, first, IdsOf(first), second) && (forall row | row in second :: PayloadFine(c, first, row))
    && grants(Cost(metered.bytes + payloads.bytes, metered.properties + payloads.properties, metered.containers + payloads.containers))
    && AllRetained(Proposals, first, IdsOf(second), third) && (forall row | row in third :: ItemFine(c, first, row))
  }

  /** A secretariat list: metered and delivered. */
  ghost predicate RequestsReturn(limit: nat, first: seq<ListRow>, third: seq<ListRow>, grants: Cost -> bool)
    requires (forall row | row in first :: row.Valid(Secretariat)) && (forall row | row in third :: row.Valid(Secretariat))
  {
    && 1 <= limit <= 500 && RowsFine(Secretariat, first)
    && grants(MeteredTotal(Secretariat, first))
    && AllRetained(Secretariat, first, IdsOf(first), third)
  }

  lemma {:induction false} AllRemain(kind: Kind, first: seq<ListRow>)
    requires forall row | row in first :: row.Valid(kind)
    ensures Remaining(Frontier(kind, first), IdsOf(first)) == Frontier(kind, first)
  {
    SameExpected(kind, first);
  }

  lemma {:induction false} NothingRaw(rows: seq<ListRow>)
    requires forall row | row in rows :: row.Valid(Secretariat)
    ensures RawTotal(rows) == 0
    decreases |rows|
  {
    if rows != [] {
      assert rows[|rows| - 1] in rows;
      NothingRaw(rows[..|rows| - 1]);
    }
  }

  lemma {:induction false} RequestsOutcome(c: Setting, limit: nat, first: seq<ListRow>, second: seq<ListRow>, third: seq<ListRow>, grants: Cost -> bool)
    requires Snapshot(Secretariat, limit, first) && Snapshot(Secretariat, limit, second) && Snapshot(Secretariat, limit, third)
    ensures ListLoads(c, Secretariat, limit, first, second, third, grants) <==> RequestsReturn(limit, first, third, grants)
  {
    hide Total, Costs, MeteredTotal, Gate, AllRetained, Acceptable, RowsFine, ListRow.Valid, Frontier, CanonicalTotal, RawTotal, Remaining, IdsOf, Inspectable, OwnItem;
    TotalsAre(Secretariat, first);
    NothingRaw(first);
    RowsFineIff(Secretariat, first);
    AllRemain(Secretariat, first);
    GateIff(Secretariat, first, IdsOf(first), third);
  }

  /** A list is returned exactly under these conditions on its three snapshots. */
  lemma {:induction false} ProposalsOutcome(c: Setting, limit: nat, first: seq<ListRow>, second: seq<ListRow>, third: seq<ListRow>, grants: Cost -> bool)
    requires Snapshot(Proposals, limit, first) && Snapshot(Proposals, limit, second) && Snapshot(Proposals, limit, third)
    ensures ListLoads(c, Proposals, limit, first, second, third, grants) <==> ProposalsReturn(c, limit, first, second, third, grants)
  {
    hide Total, Costs, MeteredTotal, Gate, AllRetained, Acceptable, RowsFine, ListRow.Valid, Frontier, CanonicalTotal, RawTotal, Remaining, IdsOf, Inspectable, OwnItem, InspectedTotal, PayloadTotal, PayloadFine, ItemFine;
    SnapshotDistinct(Proposals, limit, first);
    TotalsAre(Proposals, first);
    RowsFineIff(Proposals, first);
    AllRemain(Proposals, first);
    GateIff(Proposals, first, IdsOf(first), second);
    GateIff(Proposals, first, IdsOf(second), third);
    forall row | row in second ensures Inspectable(c, Frontier(Proposals, first), row) <==> PayloadFine(c, first, row) {
      InspectableIff(c, Proposals, first, row);
    }
    forall row | row in third ensures OwnItem(c, Frontier(Proposals, first), row) <==> ItemFine(c, first, row) {
      OwnItemIff(c, Proposals, first, row);
    }
    if forall row | row in second :: PayloadFine(c, first, row) {
      PayloadTotalIs(c, Proposals, first, second);
    }
  }
}
