/**
  Three-snapshot admission of the communications lists
  (artifacts/server/src/communications-list-read.ts, loadAdmittedCommunicationsList).

  The preflight, inspection and content queries each see a snapshot of their own.
  SHA-256, UTF-8, the JSON parser, normal form C and the texts of digests and versions are
  function values.
*/
module CommunicationsAdmission {
  import opened Wrappers
  import opened JsonSize
  import opened CommunicationsRows
  import opened ProposalInspection
  import ProposalText

  datatype Failure = Unavailable | Invalid

  datatype Kind = Secretariat | Proposals

  datatype Content = RequestContent(request: Request) | ProposalContent(proposal: Proposal)

  /** A selected row; `raw` and `sha256` are the canonical payload and its stored digest, of proposals only. */
  datatype ListRow = ListRow(id: string, rowVersion: nat, cursorAt: string, raw: Bytes, sha256: Option<Bytes>, content: Content)
  {
    predicate Valid(kind: Kind) {
      && content.RequestContent? == kind.Secretariat?
      && match content
         case RequestContent(r) => r.Valid() && raw == [] && sha256.None?
         case ProposalContent(p) => p.Valid() && sha256.Some?
    }
  }

  datatype Metadata = Metadata(id: string, rowVersion: nat, cursorAt: string, canonicalBytes: nat, sha256: Option<Bytes>, supported: bool, cost: Cost)

  /** A page of rows with distinct primary keys. */
  predicate Snapshot(kind: Kind, limit: nat, rows: seq<ListRow>) {
    && |rows| <= limit + 1
    && (forall row | row in rows :: row.Valid(kind))
    && (forall i, j | 0 <= i < j < |rows| :: rows[i].id != rows[j].id)
  }

  function Measured(kind: Kind, row: ListRow): Metadata
    requires row.Valid(kind)
  {
    match row.content
    case RequestContent(r) =>
      Metadata(row.id, row.rowVersion, row.cursorAt, |row.raw|, row.sha256, MeasureTurns(r.turns).supported, r.Metered())
    case ProposalContent(p) =>
      Metadata(row.id, row.rowVersion, row.cursorAt, |row.raw|, row.sha256, MeasureReferences(p.references).supported, p.Metered())
  }

  function Frontier(kind: Kind, rows: seq<ListRow>): (r: seq<Metadata>)
    requires forall row | row in rows :: row.Valid(kind)
    ensures |r| == |rows| && forall i | 0 <= i < |rows| :: rows[i] in rows && r[i] == Measured(kind, rows[i])
  {
    seq(|rows|, i requires 0 <= i < |rows| && rows[i] in rows => Measured(kind, rows[i]))
  }

  // ---------- Costs ----------

  predicate Within(a: Cost, b: Cost) {
    a.bytes <= b.bytes && a.properties <= b.properties && a.containers <= b.containers
  }

  function Add(a: Cost, b: Cost): Cost {
    Cost(a.bytes + b.bytes, a.properties + b.properties, a.containers + b.containers)
  }

  function Total(costs: seq<Cost>): Cost {
    if costs == [] then Cost(0, 0, 0) else Add(Total(costs[..|costs| - 1]), costs[|costs| - 1])
  }

  lemma {:induction false} TotalAppend(costs: seq<Cost>, last: Cost)
    ensures Total(costs + [last]) == Add(Total(costs), last)
  {
    assert (costs + [last])[..|costs|] == costs;
  }

  lemma {:induction false} TotalWithin(now: seq<Cost>, a: seq<Cost>, b: seq<Cost>)
    requires |now| == |a| == |b| && forall i | 0 <= i < |now| :: Within(now[i], Add(a[i], b[i]))
    ensures Within(Total(now), Add(Total(a), Total(b)))
    decreases |now|
  {
    if now != [] {
      var n := |now| - 1;
      TotalWithin(now[..n], a[..n], b[..n]);
    }
  }

  predicate Charged(key: string, cost: Cost, keys: seq<string>, bounds: seq<Cost>)
    requires |keys| == |bounds|
  {
    exists k :: 0 <= k < |keys| && keys[k] == key && Within(cost, bounds[k])
  }

  function Columns(costs: seq<Cost>): (r: (seq<nat>, seq<nat>, seq<nat>))
    ensures |r.0| == |r.1| == |r.2| == |costs|
    ensures forall i | 0 <= i < |costs| :: r.0[i] == costs[i].bytes && r.1[i] == costs[i].properties && r.2[i] == costs[i].containers
    ensures Total(costs) == Cost(Sum(r.0), Sum(r.1), Sum(r.2))
  {
    if costs == [] then ([], [], [])
    else
      var last := costs[|costs| - 1];
      var rest := Columns(costs[..|costs| - 1]);
      SumAppend(rest.0, [last.bytes]);
      SumAppend(rest.1, [last.properties]);
      SumAppend(rest.2, [last.containers]);
      (rest.0 + [last.bytes], rest.1 + [last.properties], rest.2 + [last.containers])
  }

  /** Distinct keys, each charged no more than a bound under the same key, cost no more in all. */
  lemma {:induction false} DriftCosts(keys: seq<string>, costs: seq<Cost>, admitted: seq<string>, bounds: seq<Cost>)
    requires |keys| == |costs| && |admitted| == |bounds| && Unique(keys)
    requires forall i | 0 <= i < |keys| :: Charged(keys[i], costs[i], admitted, bounds)
    ensures Within(Total(costs), Total(bounds))
  {
    hide Total, Columns, Sum;
    var a, b := Columns(costs), Columns(bounds);
    forall i | 0 <= i < |keys|
      ensures Covered(keys[i], a.0[i], admitted, b.0) && Covered(keys[i], a.1[i], admitted, b.1) && Covered(keys[i], a.2[i], admitted, b.2)
    {
      var k :| 0 <= k < |admitted| && admitted[k] == keys[i] && Within(costs[i], bounds[k]);
      assert a.0[i] <= b.0[k] && a.1[i] <= b.1[k] && a.2[i] <= b.2[k];
    }
    DriftBound(keys, a.0, admitted, b.0);
    DriftBound(keys, a.1, admitted, b.1);
    DriftBound(keys, a.2, admitted, b.2);
  }

  // ---------- The gate ----------

  predicate Fits(bound: Metadata, now: Metadata) {
    && bound.id == now.id && bound.rowVersion == now.rowVersion && bound.canonicalBytes == now.canonicalBytes && bound.sha256 == now.sha256
    && now.supported && Within(now.cost, bound.cost)
  }

  predicate Expected(expected: seq<Metadata>, now: Metadata) {
    exists k :: 0 <= k < |expected| && Fits(expected[k], now)
  }

  /** The global gate: every row of the later snapshot fits an expected one. */
  predicate Gate(expected: seq<Metadata>, now: seq<Metadata>) {
    forall i | 0 <= i < |now| :: Expected(expected, now[i])
  }

  // ---------- Inspection ----------

  datatype Setting = Setting(
    hash: Bytes -> Bytes, decode: Bytes -> Option<string>, parse: string -> Option<Json>, nfc: string -> bool,
    hex: Bytes -> string, decimal: nat -> string)

  /** `inspectProposalPayload`: the exact bytes, decoded, scanned, parsed and measured. */
  function Inspect(c: Setting, raw: Bytes, canonicalBytes: nat, sha256: Bytes): Result<(Json, Tally), Failure> {
    if |raw| != canonicalBytes || c.hash(raw) != sha256 then Err(Invalid)
    else
      match c.decode(raw)
      case None => Err(Unavailable)
      case Some(source) =>
        match ProposalText.Inspect(c.nfc, c.parse, source)
        case None => Err(Unavailable)
        case Some(found) => Ok((found.value, found.tally))
  }

  function TallyCost(t: Tally): Cost {
    Cost(t.bytes, t.properties, t.containers)
  }

  /** The payload was inspected in the second snapshot under the length and digest its frontier row binds. */
  predicate Inspected(c: Setting, bound: Metadata, row: ListRow, payload: Json, tally: Tally) {
    && row.id == bound.id && bound.sha256.Some?
    && Inspect(c, row.raw, bound.canonicalBytes, bound.sha256.value) == Ok((payload, tally))
  }

  ghost predicate Bound(c: Setting, frontier: seq<Metadata>, second: seq<ListRow>, id: string, payload: Json, tally: Tally) {
    exists k, m :: 0 <= k < |frontier| && 0 <= m < |second| && frontier[k].id == id && Inspected(c, frontier[k], second[m], payload, tally)
  }

  // ---------- The loader ----------

  datatype PageRow = PageRow(id: string, cursorAt: string, item: Json)

  /** A returned row of the content snapshot, its inspected payload spliced in if it is a proposal. */
  ghost predicate Delivered(c: Setting, frontier: seq<Metadata>, second: seq<ListRow>, row: ListRow, page: PageRow) {
    && page.id == row.id && page.cursorAt == row.cursorAt
    && match row.content
       case RequestContent(r) => r.Valid() && page.item == r.Item()
       case ProposalContent(p) =>
         p.Valid() && exists payload, tally :: Bound(c, frontier, second, row.id, payload, tally) && page.item == p.Item(payload)
  }

  function Size(j: Json): Cost {
    Cost(|Render(j, Compact)|, Properties(j), Containers(j))
  }

  function Sizes(rows: seq<PageRow>): (r: seq<Cost>)
    ensures |r| == |rows| && forall i | 0 <= i < |rows| :: r[i] == Size(rows[i].item)
  {
    seq(|rows|, i requires 0 <= i < |rows| => Size(rows[i].item))
  }

  function Costs(metadata: seq<Metadata>): (r: seq<Cost>)
    ensures |r| == |metadata| && forall i | 0 <= i < |metadata| :: r[i] == metadata[i].cost
  {
    seq(|metadata|, i requires 0 <= i < |metadata| => metadata[i].cost)
  }

  const NOTHING := Cost(0, 0, 0)

  /** A row costs its metered cost, and its payload what inspection measured. */
  lemma {:induction false} ItemCost(c: Setting, kind: Kind, frontier: seq<Metadata>, second: seq<ListRow>, row: ListRow, page: PageRow, payload: Json, tally: Tally)
    requires row.Valid(kind) && Measured(kind, row).supported
    requires row.content.RequestContent? ==> page.item == row.content.request.Item()
    requires row.content.ProposalContent? ==>
               Bound(c, frontier, second, row.id, payload, tally) && page.item == row.content.proposal.Item(payload)
    ensures Within(Size(page.item), Add(Measured(kind, row).cost, if kind.Proposals? then TallyCost(tally) else NOTHING))
  {
    hide Render, Properties, Containers, Bound, Proposal.Item, Proposal.Metered, Request.Item, Request.Metered, MeasureReferences, MeasureTurns;
    match row.content
    case RequestContent(r) =>
      RequestBound(r);
      CompactNotLonger(r.Item());
    case ProposalContent(p) =>
      BoundMeasured(c, frontier, second, row.id, payload, tally);
      PayloadCost(p, payload);
  }

  /** A bound payload is within what inspection measured of it. */
  lemma {:induction false} BoundMeasured(c: Setting, frontier: seq<Metadata>, second: seq<ListRow>, id: string, payload: Json, tally: Tally)
    requires Bound(c, frontier, second, id, payload, tally)
    ensures |Render(payload, Compact)| <= tally.bytes && Properties(payload) == tally.properties && Containers(payload) == tally.containers
  {
    hide Render, Properties, Containers, Measure;
    MeasureBounds(c.nfc, payload, 0);
  }

  lemma {:induction false} PayloadCost(p: Proposal, payload: Json)
    requires p.Valid() && MeasureReferences(p.references).supported
    ensures |Render(p.Item(payload), Compact)| <= p.Metered().bytes + |Render(payload, Compact)|
    ensures Properties(p.Item(payload)) == p.Metered().properties + Properties(payload)
    ensures Containers(p.Item(payload)) == p.Metered().containers + Containers(payload)
  {
    ProposalBound(p, payload);
    ProposalBound(p, Null);
    CompactNotLonger(p.Item(Null));
    SpliceLength(p, payload);
  }

  /** Replacing the null placeholder changes the compact text by the difference of the two values. */
  lemma {:induction false} SpliceLength(p: Proposal, payload: Json)
    requires p.Valid()
    ensures |Render(p.Item(payload), Compact)| == |Render(p.Item(Null), Compact)| - 4 + |Render(payload, Compact)|
  {
    LiteralSizes();
    hide RenderMembers, Fields, Proposal.Disposition, Utf8, PROPOSAL_KEYS;
    var before := Fields(PROPOSAL_KEYS, p.values);
    var refs, disposition := Member("references", p.references), Member("disposition", p.Disposition());
    SpliceTail(before, payload, [refs, disposition]);
    var one, other := Member("payload", payload), Member("payload", Null);
    assert before + [one, refs, disposition] == before + [one] + [refs, disposition];
    assert before + [other, refs, disposition] == before + [other] + [refs, disposition];
  }

  lemma {:induction false} SpliceTail(before: seq<Member>, payload: Json, after: seq<Member>)
    ensures |RenderMembers(before + [Member("payload", payload)] + after, Compact)| + |Render(Null, Compact)|
         == |RenderMembers(before + [Member("payload", Null)] + after, Compact)| + |Render(payload, Compact)|
    decreases |before|
  {
    var one, other := before + [Member("payload", payload)] + after, before + [Member("payload", Null)] + after;
    if before == [] {
      assert one[1..] == after && other[1..] == after;
    } else {
      assert one[1..] == before[1..] + [Member("payload", payload)] + after;
      assert other[1..] == before[1..] + [Member("payload", Null)] + after;
      SpliceTail(before[1..], payload, after);
    }
  }

  /** The rows whose payload was inspected, which alone the content query may construct. */
  function Remaining(frontier: seq<Metadata>, inspected: set<string>): (r: seq<Metadata>)
    ensures forall m | m in r :: m in frontier && m.id in inspected
  {
    if frontier == [] then []
    else (if frontier[0].id in inspected then [frontier[0]] else []) + Remaining(frontier[1..], inspected)
  }

  function IdsOf(rows: seq<ListRow>): set<string> {
    set i | 0 <= i < |rows| :: rows[i].id
  }

  function Find(frontier: seq<Metadata>, id: string): (r: Option<Metadata>)
    ensures r.Some? ==> exists k :: 0 <= k < |frontier| && frontier[k] == r.value && frontier[k].id == id
    ensures r.None? ==> forall k | 0 <= k < |frontier| :: frontier[k].id != id
  {
    if frontier == [] then None
    else if frontier[0].id == id then Some(frontier[0])
    else
      var rest := Find(frontier[1..], id);
      assert rest.Some? ==> exists k :: 0 <= k < |frontier[1..]| && frontier[1..][k] == rest.value && frontier[k + 1] == rest.value;
      rest
  }

  /** The item of a proposal names the row, and the digest and version the frontier holds for it. */
  predicate OwnItem(c: Setting, frontier: seq<Metadata>, row: ListRow) {
    && row.content.ProposalContent? && |row.content.proposal.values| == |PROPOSAL_KEYS|
    && var values := row.content.proposal.values;
    && var bound := Find(frontier, row.id);
    && bound.Some? && bound.value.sha256.Some?
    && values[0] == Str(row.id) && values[6] == Str(c.hex(bound.value.sha256.value)) && values[8] == Str(c.decimal(bound.value.rowVersion))
  }

  predicate Acceptable(m: Metadata) {
    m.supported && Countable(m.canonicalBytes) && Countable(m.cost.bytes) && Countable(m.cost.properties) && Countable(m.cost.containers)
  }

  function CanonicalTotal(frontier: seq<Metadata>): nat {
    if frontier == [] then 0 else CanonicalTotal(frontier[..|frontier| - 1]) + frontier[|frontier| - 1].canonicalBytes
  }

  lemma {:induction false} NothingCharged()
    ensures Total(Costs([])) == NOTHING && CanonicalTotal([]) == 0
  {
  }

  lemma {:induction false} ChargeGrows(frontier: seq<Metadata>, i: nat)
    requires i < |frontier|
    ensures Total(Costs(frontier[..i + 1])) == Add(Total(Costs(frontier[..i])), frontier[i].cost)
    ensures CanonicalTotal(frontier[..i + 1]) == CanonicalTotal(frontier[..i]) + frontier[i].canonicalBytes
  {
    hide Total;
    assert frontier[..i + 1][..i] == frontier[..i];
    assert Costs(frontier[..i + 1]) == Costs(frontier[..i]) + [frontier[i].cost];
    TotalAppend(Costs(frontier[..i]), frontier[i].cost);
  }

  /** The preflight loop: what the frontier is charged. */
  method ChargeFrontier(frontier: seq<Metadata>) returns (r: Result<Cost, Failure>)
    ensures r.Ok? <==> (forall m | m in frontier :: Acceptable(m)) && CanonicalTotal(frontier) <= MAX_SAFE_INTEGER
    ensures r.Ok? ==> r.value == Total(Costs(frontier))
    ensures r.Err? ==> r.error == Unavailable
  {
    hide Acceptable, Total, Costs, CanonicalTotal;
    NothingCharged();
    assert frontier[..0] == [];
    var canonicalBytes, cost := 0, NOTHING;
    for i := 0 to |frontier|
      invariant cost == Total(Costs(frontier[..i])) && canonicalBytes == CanonicalTotal(frontier[..i])
      invariant forall k | 0 <= k < i :: Acceptable(frontier[k])
    {
      var row := frontier[i];
      assert row in frontier;
      if !Acceptable(row) { return Err(Unavailable); }
      ChargeGrows(frontier, i);
      canonicalBytes, cost := canonicalBytes + row.canonicalBytes, Add(cost, row.cost);
    }
    assert frontier[..|frontier|] == frontier && frontier[..0] == [];
    if canonicalBytes > MAX_SAFE_INTEGER { return Err(Unavailable); }
    r := Ok(cost);
  }

  predicate InspectedFor(c: Setting, frontier: seq<Metadata>, row: ListRow, payload: Json, tally: Tally) {
    exists k :: 0 <= k < |frontier| && Inspected(c, frontier[k], row, payload, tally)
  }

  /** Every inspected row's payload is under its id, with the tally inspection gave it. */
  ghost predicate Gathered(c: Setting, frontier: seq<Metadata>, second: seq<ListRow>, n: nat, payloads: map<string, Json>, tallies: seq<Tally>) {
    && n <= |second| && |tallies| == n
    && (forall id | id in payloads :: exists m :: 0 <= m < n && second[m].id == id)
    && (forall m | 0 <= m < n :: second[m].id in payloads && InspectedFor(c, frontier, second[m], payloads[second[m].id], tallies[m]))
  }

  lemma {:induction false} GatheredNothing(c: Setting, frontier: seq<Metadata>, second: seq<ListRow>)
    ensures Gathered(c, frontier, second, 0, map[], []) && Total(TallyCosts([])) == NOTHING
  {
  }

  lemma {:induction false} GatheredStep(c: Setting, frontier: seq<Metadata>, second: seq<ListRow>, n: nat, payloads: map<string, Json>, tallies: seq<Tally>, value: Json, tally: Tally)
    requires n < |second| && second[n].id !in payloads && Gathered(c, frontier, second, n, payloads, tallies) && InspectedFor(c, frontier, second[n], value, tally)
    ensures Gathered(c, frontier, second, n + 1, payloads[second[n].id := value], tallies + [tally])
  {
    hide InspectedFor;
    var grown := payloads[second[n].id := value];
    forall id | id in grown ensures exists m :: 0 <= m < n + 1 && second[m].id == id {
      if id == second[n].id { assert 0 <= n < n + 1; }
    }
  }

  function TallyCosts(tallies: seq<Tally>): (r: seq<Cost>)
    ensures |r| == |tallies| && forall i | 0 <= i < |r| :: r[i] == TallyCost(tallies[i])
  {
    seq(|tallies|, i requires 0 <= i < |tallies| => TallyCost(tallies[i]))
  }

  predicate DistinctIds(rows: seq<ListRow>) {
    forall i, j | 0 <= i < j < |rows| :: rows[i].id != rows[j].id
  }

  lemma {:induction false} NoneDistinct()
    ensures DistinctIds([])
  {
  }

  lemma {:induction false} GatheredTwice(c: Setting, frontier: seq<Metadata>, second: seq<ListRow>, n: nat, payloads: map<string, Json>, tallies: seq<Tally>)
    requires n < |second| && Gathered(c, frontier, second, n, payloads, tallies) && second[n].id in payloads
    ensures !DistinctIds(second)
  {
    var m :| 0 <= m < n && second[m].id == second[n].id;
  }

  lemma {:induction false} GatheredDistinct(c: Setting, frontier: seq<Metadata>, second: seq<ListRow>, n: nat, payloads: map<string, Json>, tallies: seq<Tally>)
    requires n < |second| && Gathered(c, frontier, second, n, payloads, tallies) && second[n].id !in payloads
    ensures DistinctIds(second[..n]) ==> DistinctIds(second[..n + 1])
  {
  }

  predicate Inspectable(c: Setting, frontier: seq<Metadata>, row: ListRow) {
    var bound := Find(frontier, row.id);
    && bound.Some? && bound.value.sha256.Some?
    && Inspect(c, row.raw, bound.value.canonicalBytes, bound.value.sha256.value).Ok?
  }

  /** What inspection measures of a row, nothing if it refuses it. */
  function InspectedCost(c: Setting, frontier: seq<Metadata>, row: ListRow): Cost {
    var bound := Find(frontier, row.id);
    if bound.None? || bound.value.sha256.None? then NOTHING
    else
      match Inspect(c, row.raw, bound.value.canonicalBytes, bound.value.sha256.value)
      case Err(_) => NOTHING
      case Ok((_, tally)) => TallyCost(tally)
  }

  function InspectedTotal(c: Setting, frontier: seq<Metadata>, second: seq<ListRow>): Cost {
    if second == [] then NOTHING
    else Add(InspectedTotal(c, frontier, second[..|second| - 1]), InspectedCost(c, frontier, second[|second| - 1]))
  }

  lemma {:induction false} InspectedGrows(c: Setting, frontier: seq<Metadata>, second: seq<ListRow>, i: nat)
    requires i < |second|
    ensures InspectedTotal(c, frontier, second[..i + 1]) == Add(InspectedTotal(c, frontier, second[..i]), InspectedCost(c, frontier, second[i]))
    ensures InspectedTotal(c, frontier, []) == NOTHING
  {
    hide InspectedCost;
    assert second[..i + 1][..i] == second[..i];
  }

  lemma {:induction false} InspectedNothing(c: Setting, frontier: seq<Metadata>)
    ensures InspectedTotal(c, frontier, []) == NOTHING
  {
  }

  /** The inspection loop over the second snapshot, behind its gate. */
  method InspectPayloads(c: Setting, frontier: seq<Metadata>, second: seq<ListRow>) returns (r: Result<(map<string, Json>, Cost), Failure>, ghost tallies: seq<Tally>)
    ensures r.Ok? <==> DistinctIds(second) && forall row | row in second :: Inspectable(c, frontier, row)
    ensures r.Ok? ==>
              && Gathered(c, frontier, second, |second|, r.value.0, tallies)
              && r.value.1 == Total(TallyCosts(tallies)) && r.value.1 == InspectedTotal(c, frontier, second)
  {
    hide Gathered, Inspect, Total, Find, DistinctIds, InspectedTotal;
    InspectedNothing(c, frontier);
    assert second[..0] == [];
    var payloads: map<string, Json> := map[];
    var cost := NOTHING;
    tallies := [];
    GatheredNothing(c, frontier, second);
    assert DistinctIds(second[..0]) by { NoneDistinct(); }
    for i := 0 to |second|
      invariant Gathered(c, frontier, second, i, payloads, tallies)
      invariant cost == Total(TallyCosts(tallies)) && cost == InspectedTotal(c, frontier, second[..i])
      invariant DistinctIds(second[..i]) && forall k | 0 <= k < i :: Inspectable(c, frontier, second[k])
    {
      var row := second[i];
      assert row in second;
      var expected := Find(frontier, row.id);
      if expected.None? || expected.value.sha256.None? { return Err(Unavailable), tallies; }
      if row.id in payloads {
        GatheredTwice(c, frontier, second, i, payloads, tallies);
        return Err(Invalid), tallies;
      }
      GatheredDistinct(c, frontier, second, i, payloads, tallies);
      var bound := expected.value;
      var inspected := Inspect(c, row.raw, bound.canonicalBytes, bound.sha256.value);
      if inspected.Err? { return Err(inspected.error), tallies; }
      var (value, tally) := inspected.value;
      assert Inspected(c, bound, row, value, tally);
      GatheredStep(c, frontier, second, i, payloads, tallies, value, tally);
      payloads := payloads[row.id := value];
      assert TallyCosts(tallies + [tally]) == TallyCosts(tallies) + [TallyCost(tally)];
      TotalAppend(TallyCosts(tallies), TallyCost(tally));
      tallies := tallies + [tally];
      InspectedGrows(c, frontier, second, i);
      cost := Add(cost, TallyCost(tally));
    }
    assert second[..|second|] == second;
    r := Ok((payloads, cost));
  }

  // ---------- The whole read ----------

  function Ids(rows: seq<ListRow>): (r: seq<string>)
    ensures |r| == |rows| && forall i | 0 <= i < |rows| :: r[i] == rows[i].id
  {
    seq(|rows|, i requires 0 <= i < |rows| => rows[i].id)
  }

  function Names(metadata: seq<Metadata>): (r: seq<string>)
    ensures |r| == |metadata| && forall i | 0 <= i < |metadata| :: r[i] == metadata[i].id
  {
    seq(|metadata|, i requires 0 <= i < |metadata| => metadata[i].id)
  }

  lemma {:induction false} TotalNothing(costs: seq<Cost>)
    requires forall cost | cost in costs :: cost == NOTHING
    ensures Total(costs) == NOTHING
    decreases |costs|
  {
    if costs == [] {
    } else {
      var fewer := costs[..|costs| - 1];
      assert costs[|costs| - 1] in costs;
      assert forall cost | cost in fewer :: cost in costs;
      TotalNothing(fewer);
    }
  }

  /** Behind the final gate the metered costs of the third snapshot total no more than the frontier's. */
  lemma {:induction false} ContentWithinFrontier(kind: Kind, frontier: seq<Metadata>, expected: seq<Metadata>, third: seq<ListRow>)
    requires (forall row | row in third :: row.Valid(kind)) && (forall i, j | 0 <= i < j < |third| :: third[i].id != third[j].id)
    requires (forall m | m in expected :: m in frontier) && Gate(expected, Frontier(kind, third))
    ensures Within(Total(Costs(Frontier(kind, third))), Total(Costs(frontier)))
  {
    hide Total, Measured, Frontier, ListRow.Valid;
    var now := Frontier(kind, third);
    forall i | 0 <= i < |now| ensures Charged(Ids(third)[i], Costs(now)[i], Names(frontier), Costs(frontier)) {
      assert Expected(expected, now[i]);
      var k :| 0 <= k < |expected| && Fits(expected[k], now[i]);
      assert expected[k] in expected && expected[k] in frontier;
      var x :| 0 <= x < |frontier| && frontier[x] == expected[k];
      MeasuredId(kind, third[i]);
      assert Names(frontier)[x] == third[i].id;
    }
    DriftCosts(Ids(third), Costs(now), Names(frontier), Costs(frontier));
  }

  lemma {:induction false} MeasuredId(kind: Kind, row: ListRow)
    requires row.Valid(kind)
    ensures Measured(kind, row).id == row.id
  {
  }

  predicate UsesTally(second: seq<ListRow>, tallies: seq<Tally>, id: string, used: Cost)
    requires |second| == |tallies|
  {
    exists m :: 0 <= m < |second| && second[m].id == id && used == TallyCost(tallies[m])
  }

  /** One inspected payload for each delivered proposal, so their tallies total no more than the inspected ones. */
  lemma {:induction false} PayloadsWithinInspected(second: seq<ListRow>, tallies: seq<Tally>, third: seq<ListRow>, used: seq<Cost>)
    requires |second| == |tallies| && |third| == |used| && forall i, j | 0 <= i < j < |third| :: third[i].id != third[j].id
    requires forall i | 0 <= i < |third| :: UsesTally(second, tallies, third[i].id, used[i])
    ensures Within(Total(used), Total(TallyCosts(tallies)))
  {
    hide Total;
    forall i | 0 <= i < |third| ensures Charged(Ids(third)[i], used[i], Ids(second), TallyCosts(tallies)) {
      var m :| 0 <= m < |second| && second[m].id == third[i].id && used[i] == TallyCost(tallies[m]);
      assert Ids(second)[m] == Ids(third)[i];
    }
    DriftCosts(Ids(third), used, Ids(second), TallyCosts(tallies));
  }

  /** A delivered row within its metered cost and the cost of the payload spliced into it. */
  ghost predicate Priced(c: Setting, kind: Kind, frontier: seq<Metadata>, second: seq<ListRow>, tallies: seq<Tally>, row: ListRow, page: PageRow, used: Cost)
    requires row.Valid(kind) && (kind.Proposals? ==> |tallies| == |second|)
  {
    && Delivered(c, frontier, second, row, page)
    && Within(Size(page.item), Add(Measured(kind, row).cost, used))
    && (kind.Secretariat? ==> used == NOTHING)
    && (kind.Proposals? ==> UsesTally(second, tallies, row.id, used))
  }

  lemma {:induction false} DeliveredProposal(c: Setting, frontier: seq<Metadata>, second: seq<ListRow>, payloads: map<string, Json>, tallies: seq<Tally>, row: ListRow, page: PageRow)
      returns (used: Cost)
    requires Gathered(c, frontier, second, |second|, payloads, tallies) && row.id in payloads
    requires row.Valid(Proposals) && Measured(Proposals, row).supported
    requires page == PageRow(row.id, row.cursorAt, row.content.proposal.Item(payloads[row.id]))
    ensures Priced(c, Proposals, frontier, second, tallies, row, page, used)
  {
    hide Render, Properties, Containers, Inspect, Proposal.Item, Proposal.Metered, Proposal.Valid;
    var m :| 0 <= m < |second| && second[m].id == row.id;
    assert InspectedFor(c, frontier, second[m], payloads[row.id], tallies[m]);
    assert Bound(c, frontier, second, row.id, payloads[row.id], tallies[m]);
    ItemCost(c, Proposals, frontier, second, row, page, payloads[row.id], tallies[m]);
    used := TallyCost(tallies[m]);
  }

  lemma {:induction false} DeliveredRequest(c: Setting, frontier: seq<Metadata>, second: seq<ListRow>, tallies: seq<Tally>, row: ListRow, page: PageRow)
    requires row.Valid(Secretariat) && Measured(Secretariat, row).supported
    requires page == PageRow(row.id, row.cursorAt, row.content.request.Item())
    ensures Priced(c, Secretariat, frontier, second, tallies, row, page, NOTHING)
  {
    ItemCost(c, Secretariat, frontier, second, row, page, Null, Tally(0, 0, 0));
  }

  /** The page costs no more than the frontier and the inspected payloads were charged. */
  lemma {:induction false} PageWithin(c: Setting, kind: Kind, frontier: seq<Metadata>, expected: seq<Metadata>, second: seq<ListRow>, tallies: seq<Tally>, third: seq<ListRow>, pages: seq<PageRow>, used: seq<Cost>)
    requires (forall row | row in third :: row.Valid(kind)) && (forall i, j | 0 <= i < j < |third| :: third[i].id != third[j].id)
    requires (forall m | m in expected :: m in frontier) && Gate(expected, Frontier(kind, third))
    requires kind.Proposals? ==> |tallies| == |second|
    requires |pages| == |used| == |third|
    requires forall i | 0 <= i < |third| :: third[i] in third && Priced(c, kind, frontier, second, tallies, third[i], pages[i], used[i])
    ensures Within(Total(Sizes(pages)), Add(Total(Costs(frontier)), if kind.Proposals? then Total(TallyCosts(tallies)) else NOTHING))
  {
    hide Total, Measured, ListRow.Valid, Delivered, Gate, Size;
    ContentWithinFrontier(kind, frontier, expected, third);
    if kind.Proposals? {
      PayloadsWithinInspected(second, tallies, third, used);
    } else {
      TotalNothing(used);
    }
    TotalWithin(Sizes(pages), Costs(Frontier(kind, third)), used);
  }

  /** The last loop: one row of the page for each row of the content snapshot. */
  method DeliverPage(c: Setting, kind: Kind, frontier: seq<Metadata>, expected: seq<Metadata>, payloads: map<string, Json>, ghost second: seq<ListRow>, ghost tallies: seq<Tally>, third: seq<ListRow>)
      returns (r: Result<seq<PageRow>, Failure>, ghost used: seq<Cost>)
    requires (forall row | row in third :: row.Valid(kind)) && Gate(expected, Frontier(kind, third))
    requires kind.Proposals? ==> Gathered(c, frontier, second, |second|, payloads, tallies) && |tallies| == |second|
    ensures r.Ok? <==> DistinctIds(third) && forall row | row in third :: Listed(frontier, row.id) && (kind.Proposals? ==> row.id in payloads && OwnItem(c, frontier, row))
    ensures r.Ok? ==>
              && |r.value| == |used| == |third|
              && (forall k | 0 <= k < |third| :: r.value[k].id == third[k].id && Listed(frontier, third[k].id))
              && (forall k | 0 <= k < |third| :: third[k] in third && Priced(c, kind, frontier, second, tallies, third[k], r.value[k], used[k]))
  {
    hide Total, Measured, ListRow.Valid, Gate, Size, Gathered, Priced, Measure, Frontier, Listed, Find, OwnItem;
    var result: seq<PageRow> := [];
    var seen: set<string> := {};
    used := [];
    for i := 0 to |third|
      invariant |result| == |used| == i
      invariant seen == set k | 0 <= k < i :: third[k].id
      invariant DistinctIds(third[..i]) && forall k | 0 <= k < i :: kind.Proposals? ==> third[k].id in payloads && OwnItem(c, frontier, third[k])
      invariant forall k | 0 <= k < i :: result[k].id == third[k].id && Listed(frontier, third[k].id)
      invariant forall k | 0 <= k < i :: third[k] in third && Priced(c, kind, frontier, second, tallies, third[k], result[k], used[k])
    {
      var row := third[i];
      var bound := Find(frontier, row.id);
      assert row in third;
      FoundListed(frontier, row.id);
      if bound.None? || row.id in seen { return Err(Invalid), used; }
      seen := seen + {row.id};
      GatedSupported(kind, expected, third, i);
      var page;
      ghost var cost;
      if kind.Proposals? && row.id !in payloads { return Err(Unavailable), used; }
      if kind.Proposals? && !OwnItem(c, frontier, row) { return Err(Invalid), used; }
      page, cost := PriceRow(c, kind, frontier, payloads, second, tallies, row);
      result, used := result + [page], used + [cost];
    }
    assert third[..|third|] == third;
    r := Ok(result);
  }

  /** The row as it is returned: a proposal with its inspected payload spliced in. */
  method PriceRow(c: Setting, kind: Kind, ghost frontier: seq<Metadata>, payloads: map<string, Json>, ghost second: seq<ListRow>, ghost tallies: seq<Tally>, row: ListRow)
      returns (page: PageRow, ghost used: Cost)
    requires row.Valid(kind) && Measured(kind, row).supported
    requires kind.Proposals? ==> Gathered(c, frontier, second, |second|, payloads, tallies) && |tallies| == |second| && row.id in payloads
    ensures page.id == row.id && Priced(c, kind, frontier, second, tallies, row, page, used)
  {
    hide Priced, Gathered, Measured;
    if kind.Proposals? {
      page := PageRow(row.id, row.cursorAt, ProposalItem(row, payloads[row.id]));
      used := DeliveredProposal(c, frontier, second, payloads, tallies, row, page);
    } else {
      page := PageRow(row.id, row.cursorAt, RequestItem(row));
      DeliveredRequest(c, frontier, second, tallies, row, page);
      used := NOTHING;
    }
  }

  predicate Listed(frontier: seq<Metadata>, id: string) {
    exists k :: 0 <= k < |frontier| && frontier[k].id == id
  }

  /** One row of the page for each row of the content snapshot, each delivered, of the original frontier, and none twice. */
  ghost predicate FromFrontier(c: Setting, first: seq<ListRow>, frontier: seq<Metadata>, second: seq<ListRow>, third: seq<ListRow>, pages: seq<PageRow>) {
    && |pages| == |third|
    && (forall i | 0 <= i < |third| :: Delivered(c, frontier, second, third[i], pages[i]))
    && (forall i | 0 <= i < |third| :: exists k :: 0 <= k < |first| && first[k].id == pages[i].id)
    && (forall i, j | 0 <= i < j < |third| :: pages[i].id != pages[j].id)
  }

  lemma {:induction false} WholePage(c: Setting, kind: Kind, first: seq<ListRow>, second: seq<ListRow>, tallies: seq<Tally>, third: seq<ListRow>, pages: seq<PageRow>, used: seq<Cost>)
    requires (forall row | row in first :: row.Valid(kind)) && (forall row | row in third :: row.Valid(kind))
    requires (kind.Proposals? ==> |tallies| == |second|) && DistinctIds(third) && |pages| == |used| == |third|
    requires forall k | 0 <= k < |third| :: pages[k].id == third[k].id && Listed(Frontier(kind, first), third[k].id)
    requires forall i | 0 <= i < |third| :: third[i] in third && Priced(c, kind, Frontier(kind, first), second, tallies, third[i], pages[i], used[i])
    ensures FromFrontier(c, first, Frontier(kind, first), second, third, pages)
  {
    hide Delivered, Priced, Listed, Frontier, ListRow.Valid;
    PricedDelivered(c, kind, Frontier(kind, first), second, tallies, third, pages, used);
    forall i | 0 <= i < |third| ensures exists k :: 0 <= k < |first| && first[k].id == pages[i].id {
      FrontierIds(kind, first, pages[i].id);
    }
  }

  lemma {:induction false} WithinAny()
    ensures forall a, b :: Within(a, Add(a, b))
    ensures forall a :: Add(a, NOTHING) == a
  {
  }

  lemma {:induction false} FoundListed(frontier: seq<Metadata>, id: string)
    ensures Find(frontier, id).Some? <==> Listed(frontier, id)
  {
  }

  /** Nothing changed between the snapshots, and nothing in them has to be refused. */
  ghost predicate Undisturbed(c: Setting, kind: Kind, limit: nat, first: seq<ListRow>, second: seq<ListRow>, third: seq<ListRow>, grants: Cost -> bool)
    requires forall row | row in first :: row.Valid(kind)
  {
    var frontier := Frontier(kind, first);
    && 1 <= limit <= 500 && second == first && third == first
    && (forall m | m in frontier :: Acceptable(m)) && CanonicalTotal(frontier) <= MAX_SAFE_INTEGER
    && (forall cost :: grants(cost))
    && (kind.Proposals? ==> forall row | row in first :: Inspectable(c, frontier, row) && OwnItem(c, frontier, row))
  }

  lemma {:induction false} UndisturbedMeans(c: Setting, kind: Kind, limit: nat, first: seq<ListRow>, second: seq<ListRow>, third: seq<ListRow>, grants: Cost -> bool)
    requires Snapshot(kind, limit, first)
    ensures DistinctIds(first)
    ensures Undisturbed(c, kind, limit, first, second, third, grants) ==>
              var frontier := Frontier(kind, first);
              && 1 <= limit <= 500 && second == first && third == first
              && (forall m | m in frontier :: Acceptable(m)) && CanonicalTotal(frontier) <= MAX_SAFE_INTEGER
              && (forall cost :: grants(cost))
              && Gate(frontier, frontier)
              && (kind.Proposals? ==> forall row | row in first :: Inspectable(c, frontier, row) && OwnItem(c, frontier, row))
  {
    hide Inspectable, OwnItem, CanonicalTotal, ListRow.Valid;
    if Undisturbed(c, kind, limit, first, second, third, grants) { GateItself(Frontier(kind, first)); }
  }

  lemma {:induction false} SnapshotDistinct(kind: Kind, limit: nat, rows: seq<ListRow>)
    requires Snapshot(kind, limit, rows)
    ensures DistinctIds(rows)
  {
  }

  lemma {:induction false} GateItself(frontier: seq<Metadata>)
    requires forall m | m in frontier :: Acceptable(m)
    ensures Gate(frontier, frontier)
  {
    forall i | 0 <= i < |frontier| ensures Expected(frontier, frontier[i]) {
      assert frontier[i] in frontier && Fits(frontier[i], frontier[i]);
    }
  }

  lemma {:induction false} RemainingAll(frontier: seq<Metadata>, inspected: set<string>)
    requires forall k | 0 <= k < |frontier| :: frontier[k].id in inspected
    ensures Remaining(frontier, inspected) == frontier
  {
    if frontier != [] { RemainingAll(frontier[1..], inspected); }
  }

  lemma {:induction false} SameExpected(kind: Kind, first: seq<ListRow>)
    requires forall row | row in first :: row.Valid(kind)
    ensures Remaining(Frontier(kind, first), IdsOf(first)) == Frontier(kind, first)
  {
    hide Measured, Frontier;
    forall k | 0 <= k < |first| ensures Frontier(kind, first)[k].id in IdsOf(first) {
      MeasuredId(kind, first[k]);
    }
    RemainingAll(Frontier(kind, first), IdsOf(first));
  }

  lemma {:induction false} GatheredIds(c: Setting, frontier: seq<Metadata>, second: seq<ListRow>, payloads: map<string, Json>, tallies: seq<Tally>)
    requires Gathered(c, frontier, second, |second|, payloads, tallies)
    ensures |tallies| == |second| && payloads.Keys == IdsOf(second)
  {
    hide InspectedFor;
    forall id ensures id in payloads.Keys <==> id in IdsOf(second) {
      if id in IdsOf(second) {
        var i :| 0 <= i < |second| && second[i].id == id;
      }
    }
  }

  /** Whatever passed the gate was expected, so the last loop's own checks cannot fail. */
  lemma {:induction false} GatedListed(kind: Kind, frontier: seq<Metadata>, expected: seq<Metadata>, third: seq<ListRow>)
    requires (forall row | row in third :: row.Valid(kind)) && Gate(expected, Frontier(kind, third))
    requires (forall m | m in expected :: m in frontier)
    ensures forall row | row in third :: Listed(frontier, row.id) && exists m :: m in expected && m.id == row.id
  {
    hide Measured, Frontier, ListRow.Valid;
    forall row | row in third ensures Listed(frontier, row.id) && exists m :: m in expected && m.id == row.id {
      var i :| 0 <= i < |third| && third[i] == row;
      var now := Frontier(kind, third)[i];
      MeasuredId(kind, row);
      assert Expected(expected, now);
      var k :| 0 <= k < |expected| && Fits(expected[k], now);
      assert expected[k] in expected;
    }
  }

  /** The reservation after inspection. */
  function FinalCost(c: Setting, kind: Kind, frontier: seq<Metadata>, second: seq<ListRow>): Cost {
    Add(Total(Costs(frontier)), if kind.Proposals? then InspectedTotal(c, frontier, second) else NOTHING)
  }

  /** The frontier rows that the content query may construct. */
  function MayConstruct(kind: Kind, frontier: seq<Metadata>, second: seq<ListRow>): seq<Metadata> {
    if kind.Proposals? then Remaining(frontier, IdsOf(second)) else frontier
  }

  /** The frontier is charged and granted, the proposals of the second snapshot are all expected and inspectable, and the third is as constructed. */
  ghost predicate ListLoads(c: Setting, kind: Kind, limit: nat, first: seq<ListRow>, second: seq<ListRow>, third: seq<ListRow>, grants: Cost -> bool)
    requires (forall row | row in first :: row.Valid(kind)) && (forall row | row in second :: row.Valid(kind)) && (forall row | row in third :: row.Valid(kind))
  {
    var frontier := Frontier(kind, first);
    && 1 <= limit <= 500
    && (forall m | m in frontier :: Acceptable(m)) && CanonicalTotal(frontier) <= MAX_SAFE_INTEGER
    && grants(Total(Costs(frontier)))
    && (kind.Proposals? ==> Gate(frontier, Frontier(kind, second)) && forall row | row in second :: Inspectable(c, frontier, row))
    && grants(FinalCost(c, kind, frontier, second))
    && Gate(MayConstruct(kind, frontier, second), Frontier(kind, third))
    && (kind.Proposals? ==> forall row | row in third :: OwnItem(c, frontier, row))
  }

  /**
    `loadAdmittedCommunicationsList` over whatever three snapshots its queries see.  A
    normal return holds one row for each row of the content snapshot, all of the
    original frontier and none twice; every proposal carries the payload that was
    inspected under the frontier's length and digest; and the whole page costs no more
    than the final reservation, which is no less than the first.
  */
  method LoadAdmittedList(c: Setting, kind: Kind, limit: nat, first: seq<ListRow>, second: seq<ListRow>, third: seq<ListRow>, grants: Cost -> bool)
      returns (r: Result<seq<PageRow>, Failure>, reserved: Cost, final: Cost)
    requires Snapshot(kind, limit, first) && Snapshot(kind, limit, second) && Snapshot(kind, limit, third)
    ensures r.Ok? ==>
              var frontier := Frontier(kind, first);
              && reserved == Total(Costs(frontier)) && grants(reserved) && grants(final) && Within(reserved, final)
              && FromFrontier(c, first, frontier, second, third, r.value)
              && Within(Total(Sizes(r.value)), final)
              && (kind.Proposals? ==> forall row | row in third :: OwnItem(c, frontier, row))
    ensures r.Ok? <==> ListLoads(c, kind, limit, first, second, third, grants)
    ensures r.Ok? ==> final == FinalCost(c, kind, Frontier(kind, first), second)
    ensures Undisturbed(c, kind, limit, first, second, third, grants) ==> r.Ok?
  {
    hide InspectedTotal, IdsOf, Total, Measured, ListRow.Valid, Delivered, DistinctIds, Inspectable, OwnItem, Find, Undisturbed, Gate, Size, Gathered, Priced, Measure, Frontier, Remaining, Listed, CanonicalTotal, Acceptable, Sizes, Costs, TallyCosts, Within, Add, FromFrontier;
    WithinAny();
    reserved, final := NOTHING, NOTHING;
    var frontier := Frontier(kind, first);
    UndisturbedMeans(c, kind, limit, first, second, third, grants);
    if limit < 1 || limit > 500 { return Err(Invalid), reserved, final; }
    var charged := ChargeFrontier(frontier);
    if charged.Err? { return Err(charged.error), reserved, final; }
    reserved, final := charged.value, charged.value;
    assert Add(reserved, NOTHING) == reserved;
    if !grants(reserved) { return Err(Unavailable), reserved, final; }
    var payloads: map<string, Json> := map[];
    ghost var tallies: seq<Tally> := [];
    var expected := frontier;
    if kind.Proposals? {
      if !Gate(frontier, Frontier(kind, second)) { return Err(Unavailable), reserved, final; }
      var inspected;
      SnapshotDistinct(kind, limit, second);
      inspected, tallies := InspectPayloads(c, frontier, second);
      if inspected.Err? { return Err(inspected.error), reserved, final; }
      payloads := inspected.value.0;
      final := Add(reserved, inspected.value.1);
      expected := Remaining(frontier, payloads.Keys);
      GatheredIds(c, frontier, second, payloads, tallies);
      if second == first { SameExpected(kind, first); }
    }
    if !grants(final) { return Err(Unavailable), reserved, final; }
    if !Gate(expected, Frontier(kind, third)) { return Err(Unavailable), reserved, final; }
    var page;
    ghost var used;
    page, used := DeliverPage(c, kind, frontier, expected, payloads, second, tallies, third);
    GatedListed(kind, frontier, expected, third);
    SnapshotDistinct(kind, limit, third);
    if page.Err? { return Err(page.error), reserved, final; }
    PageWithin(c, kind, frontier, expected, second, tallies, third, page.value, used);
    WholePage(c, kind, first, second, tallies, third, page.value, used);
    r := page;
  }

  function ProposalItem(row: ListRow, payload: Json): Json
    requires row.Valid(Proposals)
  {
    row.content.proposal.Item(payload)
  }

  function RequestItem(row: ListRow): Json
    requires row.Valid(Secretariat)
  {
    row.content.request.Item()
  }

  lemma {:induction false} FrontierIds(kind: Kind, first: seq<ListRow>, id: string)
    requires (forall row | row in first :: row.Valid(kind)) && Listed(Frontier(kind, first), id)
    ensures exists x :: 0 <= x < |first| && first[x].id == id
  {
    var x :| 0 <= x < |first| && Frontier(kind, first)[x].id == id;
    MeasuredId(kind, first[x]);
  }

  lemma {:induction false} GatedSupported(kind: Kind, expected: seq<Metadata>, third: seq<ListRow>, i: nat)
    requires (forall row | row in third :: row.Valid(kind)) && i < |third| && Gate(expected, Frontier(kind, third))
    ensures third[i].Valid(kind) && Measured(kind, third[i]).supported
  {
    assert Frontier(kind, third)[i] == Measured(kind, third[i]);
    assert Expected(expected, Frontier(kind, third)[i]);
  }

  lemma {:induction false} PricedDelivered(c: Setting, kind: Kind, frontier: seq<Metadata>, second: seq<ListRow>, tallies: seq<Tally>, third: seq<ListRow>, pages: seq<PageRow>, used: seq<Cost>)
    requires (forall row | row in third :: row.Valid(kind)) && (kind.Proposals? ==> |tallies| == |second|)
    requires |pages| == |used| == |third|
    requires forall i | 0 <= i < |third| :: third[i] in third && Priced(c, kind, frontier, second, tallies, third[i], pages[i], used[i])
    ensures forall i | 0 <= i < |third| :: Delivered(c, frontier, second, third[i], pages[i])
  {
    hide Delivered;
    forall i | 0 <= i < |third| ensures Delivered(c, frontier, second, third[i], pages[i]) {
      assert Priced(c, kind, frontier, second, tallies, third[i], pages[i], used[i]);
    }
  }
}
