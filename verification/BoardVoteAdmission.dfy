/**
  Admission of the board and vote reads by size
  (artifacts/server/src/board-vote-read-projection.ts).

  A read measures the scalars of one snapshot, reserves bytes for what it measured, and
  renders a later snapshot behind a gate.  A snapshot is the sequence of selected rows;
  `observe` is the SHA-256 that the query takes over a row.
*/
module BoardVoteAdmission {
  import opened Wrappers
  import opened JsonSize
  import opened KeyNames

  type Digest = seq<Byte>

  datatype Charge = Charge(bytes: nat, properties: nat, containers: nat)

  /** `Unavailable` is ResponseAllocationUnavailable, `Invalid` a TypeError. */
  datatype Failure = Unavailable | Invalid

  // ---------- Board and vote pages ----------

  datatype Kind = Boards | Votes

  const BOARD_KEYS: seq<string> := ["board_id", "slug", "name", "timezone", "state", "row_version", "seat_role", "is_chair", "is_secretary", "voting_weight", "entitlement_generation"]

  const VOTE_KEYS: seq<string> := ["vote_id", "board_id", "title", "state", "resolution_version_id", "decision_package_id", "package_sha256", "close_mode", "deadline_at", "row_version", "opened_at", "closed_outcome"]

  function Keys(kind: Kind): seq<string> {
    if kind.Boards? then BOARD_KEYS else VOTE_KEYS
  }

  /** A joined row; `values` are the projected fields in the order of `Keys`, the first being the row's id. */
  datatype Row = Row(id: string, joinId: Option<string>, outcomeId: Option<string>, rawAt: string, cursorAt: Option<string>, values: seq<Json>)
  {
    function Key(): (string, Option<string>, Option<string>) { (id, joinId, outcomeId) }
  }

  datatype Metadata = Metadata(id: string, joinId: Option<string>, outcomeId: Option<string>, rawAt: string, cursorAt: Option<string>, scalarUtf8: nat, observation: Digest)
  {
    function Key(): (string, Option<string>, Option<string>) { (id, joinId, outcomeId) }
  }

  function Nullable(text: Option<string>): (r: Json)
    ensures Scalar(r)
  {
    if text.Some? then Str(text.value) else Null
  }

  predicate WellFormed(kind: Kind, row: Row) {
    && |row.values| == |Keys(kind)|
    && (forall v | v in row.values :: Scalar(v))
    && row.values[0] == Str(row.id)
    && (kind.Boards? ==> row.joinId.Some? && row.outcomeId.None?)
  }

  /** What the query returns: rows of a join of primary keys, at most `take` of them. */
  predicate Selection(kind: Kind, take: nat, rows: seq<Row>) {
    && |rows| <= take
    && (forall row | row in rows :: WellFormed(kind, row))
    && (forall i, j | 0 <= i < j < |rows| :: rows[i].Key() != rows[j].Key())
  }

  function Measure(observe: Row -> Digest, kind: Kind, row: Row): Metadata
    requires WellFormed(kind, row)
  {
    Metadata(row.id, row.joinId, row.outcomeId, row.rawAt, row.cursorAt,
             Utf8Sum(row.values) + ScalarUtf8(Nullable(row.cursorAt)) + |Utf8(row.id)|, observe(row))
  }

  function Preflight(observe: Row -> Digest, kind: Kind, rows: seq<Row>): (r: seq<Metadata>)
    requires forall row | row in rows :: WellFormed(kind, row)
    ensures |r| == |rows| && forall i | 0 <= i < |rows| :: rows[i] in rows && r[i] == Measure(observe, kind, rows[i])
  {
    seq(|rows|, i requires 0 <= i < |rows| && rows[i] in rows => Measure(observe, kind, rows[i]))
  }

  function Scalars(metadata: seq<Metadata>): (r: seq<nat>)
    ensures |r| == |metadata| && forall i | 0 <= i < |r| :: r[i] == metadata[i].scalarUtf8
  {
    seq(|metadata|, i requires 0 <= i < |metadata| => metadata[i].scalarUtf8)
  }

  /** `boardVotePageCost`. */
  function PageCost(kind: Kind, metadata: seq<Metadata>): Charge {
    var r, s := |metadata|, Sum(Scalars(metadata));
    match kind
    case Boards => Charge(2 + 286 * r + 6 * s, 25 + 15 * r, 7 + 2 * r)
    case Votes => Charge(2 + 326 * r + 6 * s, 25 + 16 * r, 7 + 2 * r)
  }

  /** `pageMetadata` from row `i` on: the first row that is not acceptable decides. */
  function CheckMetadata(kind: Kind, rows: seq<Metadata>, i: nat): Option<Failure>
    requires i <= |rows|
    decreases |rows| - i
  {
    if i == |rows| then None
    else if !Countable(rows[i].scalarUtf8) then Some(Unavailable)
    else if kind.Boards? && (rows[i].joinId.None? || rows[i].outcomeId.Some?) then Some(Invalid)
    else if exists k :: 0 <= k < i && rows[k].Key() == rows[i].Key() then Some(Invalid)
    else CheckMetadata(kind, rows, i + 1)
  }

  predicate Matches(bound: Metadata, now: Metadata) {
    && bound.Key() == now.Key() && bound.rawAt == now.rawAt && bound.cursorAt == now.cursorAt
    && bound.observation == now.observation && now.scalarUtf8 <= bound.scalarUtf8
  }

  predicate Admits(admitted: seq<Metadata>, now: Metadata) {
    exists k :: 0 <= k < |admitted| && Matches(admitted[k], now)
  }

  /** The gate of the content query. */
  predicate Gate(admitted: seq<Metadata>, now: seq<Metadata>) {
    && |now| <= |admitted|
    && forall m | m in now :: Admits(admitted, m)
  }

  function Item(kind: Kind, row: Row): Json
    requires WellFormed(kind, row)
  {
    Obj(Fields(Keys(kind), row.values))
  }

  /** One element of the aggregated page. */
  function Wrapped(kind: Kind, row: Row): Json
    requires WellFormed(kind, row)
  {
    Obj([Member("fits", Bool(true)), Member("item", Item(kind, row)),
         Member("cursor_at", Nullable(row.cursorAt)), Member("cursor_id", Str(row.id))])
  }

  function Elements(kind: Kind, rows: seq<Row>): (r: seq<Json>)
    requires forall row | row in rows :: WellFormed(kind, row)
    ensures |r| == |rows| && forall i | 0 <= i < |rows| :: rows[i] in rows && r[i] == Wrapped(kind, rows[i])
  {
    seq(|rows|, i requires 0 <= i < |rows| && rows[i] in rows => Wrapped(kind, rows[i]))
  }

  function Page(kind: Kind, rows: seq<Row>): Json
    requires forall row | row in rows :: WellFormed(kind, row)
  {
    Arr(Elements(kind, rows))
  }

  /** The identity checks on one loaded row. */
  predicate Identified(admitted: seq<Metadata>, row: Row) {
    && |row.values| > 0 && row.values[0] == Str(row.id)
    && exists k :: 0 <= k < |admitted| && admitted[k].id == row.id && admitted[k].cursorAt == row.cursorAt
  }

  /** `loadAdmittedBoardVotePage` over the snapshots its two queries see; `grants` says what the allocator reserves. */
  function LoadPage(observe: Row -> Digest, kind: Kind, take: nat, first: seq<Row>, second: seq<Row>, grants: Charge -> bool): Result<seq<Row>, Failure>
    requires forall row | row in first + second :: WellFormed(kind, row)
  {
    assert forall row :: row in first || row in second ==> row in first + second;
    var metadata := Preflight(observe, kind, first);
    if take < 1 || take > 501 || |metadata| > take then Err(Invalid)
    else if CheckMetadata(kind, metadata, 0).Some? then Err(CheckMetadata(kind, metadata, 0).value)
    else if !grants(PageCost(kind, metadata)) then Err(Unavailable)
    else if !Gate(metadata, Preflight(observe, kind, second)) then Err(Unavailable)
    else if |second| > |metadata| || exists i :: 0 <= i < |second| && !Identified(metadata, second[i]) then Err(Invalid)
    else Ok(second)
  }

  // ---------- The bound ----------

  function RowCost(kind: Kind): nat {
    if kind.Boards? then 286 else 326
  }

  lemma {:induction false} BoardKeyCost()
    ensures KeyCost(BOARD_KEYS) == 214
  {
  }

  lemma {:induction false} BoardKeysPlain()
    ensures PlainKeys(BOARD_KEYS)
  {
    PlainBoardNames();
    PlainSeatNames();
    PlainEntitlementNames();
    hide Plain;
  }

  lemma {:induction false} VoteKeyCost()
    ensures KeyCost(VOTE_KEYS) == 254
  {
  }

  lemma {:induction false} VoteKeysPlain()
    ensures PlainKeys(VOTE_KEYS)
  {
    PlainBoardNames();
    PlainSeatNames();
    PlainEntitlementNames();
    PlainResolutionNames();
    PlainDeadlineNames();
    hide Plain;
  }

  lemma {:induction false} WrapperKeysPlain()
    ensures Plain("fits") && Plain("item") && Plain("cursor_at") && Plain("cursor_id")
  {
    PlainItemNames();
    PlainCursorNames();
    hide Plain;
  }

  lemma {:induction false} FourMembers(m1: Member, m2: Member, m3: Member, m4: Member)
    requires Plain(m1.key) && Plain(m2.key) && Plain(m3.key) && Plain(m4.key)
    ensures var j := Obj([m1, m2, m3, m4]);
            && |Render(j, Spaced)| <= 26 + |m1.key| + |m2.key| + |m3.key| + |m4.key|
               + |Render(m1.value, Spaced)| + |Render(m2.value, Spaced)| + |Render(m3.value, Spaced)| + |Render(m4.value, Spaced)|
            && Properties(j) == 4 + Properties(m1.value) + Properties(m2.value) + Properties(m3.value) + Properties(m4.value)
            && Containers(j) == 1 + Containers(m1.value) + Containers(m2.value) + Containers(m3.value) + Containers(m4.value)
  {
    hide Plain, Quote;
    var c, b, a := [m3, m4], [m2, m3, m4], [m1, m2, m3, m4];
    assert c[1..] == [m4] && b[1..] == c && a[1..] == b;
    MembersHead([m4]);
    MembersHead(c);
    MembersHead(b);
    MembersHead(a);
  }

  lemma {:induction false} WrapperBytes(item: Json, at: Json, id: string)
    requires Scalar(at)
    ensures var j := Obj([Member("fits", Bool(true)), Member("item", item), Member("cursor_at", at), Member("cursor_id", Str(id))]);
            && |Render(j, Spaced)| <= 66 + |Render(item, Spaced)| + 6 * (ScalarUtf8(at) + |Utf8(id)|)
            && Properties(j) == 4 + Properties(item) && Containers(j) == 1 + Containers(item)
  {
    WrapperKeysPlain();
    ScalarBound(at, Spaced);
    EscapedBound(id);
    LiteralSizes();
    hide Plain, Utf8, RenderMembers;
    FourMembers(Member("fits", Bool(true)), Member("item", item), Member("cursor_at", at), Member("cursor_id", Str(id)));
  }

  lemma {:induction false} ItemBound(kind: Kind, row: Row)
    requires WellFormed(kind, row)
    ensures |Render(Item(kind, row), Spaced)| <= RowCost(kind) - 70 + 6 * Utf8Sum(row.values)
    ensures Properties(Item(kind, row)) == |Keys(kind)| && Containers(Item(kind, row)) == 1
  {
    BoardKeyCost();
    VoteKeyCost();
    BoardKeysPlain();
    VoteKeysPlain();
    hide KeyCost, PlainKeys, BOARD_KEYS;
    FlatObjectBound(Keys(kind), row.values);
  }

  /** What one row costs, its list separator included, is 286 (or 326) and six bytes a measured byte. */
  lemma {:induction false} RowBound(observe: Row -> Digest, kind: Kind, row: Row)
    requires WellFormed(kind, row)
    ensures |Render(Wrapped(kind, row), Spaced)| <= RowCost(kind) - 2 + 6 * Measure(observe, kind, row).scalarUtf8
    ensures Properties(Wrapped(kind, row)) == 4 + |Keys(kind)| && Containers(Wrapped(kind, row)) == 2
  {
    ItemBound(kind, row);
    hide Render, Keys;
    WrapperBytes(Item(kind, row), Nullable(row.cursorAt), row.id);
  }

  lemma {:induction false} Constants(n: nat, value: nat)
    ensures Sum(seq(n, _ => value)) == value * n
  {
    SumAffine(seq(n, _ => 0), seq(n, _ => value), value, 0);
  }

  lemma {:induction false} ElementsBytes(observe: Row -> Digest, kind: Kind, rows: seq<Row>)
    requires forall row | row in rows :: WellFormed(kind, row)
    ensures |RenderItems(Elements(kind, rows), Spaced)| <= RowCost(kind) * |rows| + 6 * Sum(Scalars(Preflight(observe, kind, rows)))
  {
    hide WellFormed, Wrapped, Render, RenderItems, Measure, Preflight, Elements;
    var scalars := Scalars(Preflight(observe, kind, rows));
    forall i | 0 <= i < |rows| ensures |Render(Elements(kind, rows)[i], Spaced)| <= RowCost(kind) - 2 + 6 * scalars[i] {
      RowBound(observe, kind, rows[i]);
    }
    ListBytes(Elements(kind, rows), scalars, RowCost(kind));
  }

  lemma {:induction false} ElementsCounts(kind: Kind, rows: seq<Row>)
    requires forall row | row in rows :: WellFormed(kind, row)
    ensures ItemProperties(Elements(kind, rows)) <= (4 + |Keys(kind)|) * |rows|
    ensures ItemContainers(Elements(kind, rows)) <= 2 * |rows|
  {
    hide WellFormed, Wrapped, Render, Keys, Elements;
    var n, each := |rows|, 4 + |Keys(kind)|;
    forall i | 0 <= i < n ensures Properties(Elements(kind, rows)[i]) <= each && Containers(Elements(kind, rows)[i]) <= 2 {
      RowBound(_ => [], kind, rows[i]);
    }
    ItemsCount(Elements(kind, rows), seq(n, _ => each), seq(n, _ => 2));
    Constants(n, each);
    Constants(n, 2);
  }

  /** The page of a snapshot costs no more than what the snapshot itself measures. */
  lemma {:induction false} PageBound(observe: Row -> Digest, kind: Kind, rows: seq<Row>)
    requires forall row | row in rows :: WellFormed(kind, row)
    ensures var cost := PageCost(kind, Preflight(observe, kind, rows));
            && |Render(Page(kind, rows), Spaced)| <= cost.bytes
            && Properties(Page(kind, rows)) <= cost.properties && Containers(Page(kind, rows)) <= cost.containers
  {
    hide WellFormed, Elements, Measure, Preflight, Wrapped, RenderItems, Sum, Scalars;
    ElementsBytes(observe, kind, rows);
    ElementsCounts(kind, rows);
    KeyCounts();
  }

  lemma {:induction false} KeyCounts()
    ensures |BOARD_KEYS| == 11 && |VOTE_KEYS| == 12
  {
  }

  /** Behind the gate a later snapshot charges no more than the admitted one: an injection of its rows. */
  lemma {:induction false} GateNeverCostsMore(observe: Row -> Digest, kind: Kind, take: nat, admitted: seq<Metadata>, second: seq<Row>)
    requires Selection(kind, take, second) && Gate(admitted, Preflight(observe, kind, second))
    ensures var now, was := PageCost(kind, Preflight(observe, kind, second)), PageCost(kind, admitted);
            now.bytes <= was.bytes && now.properties <= was.properties && now.containers <= was.containers
  {
    hide Measure, WellFormed, Sum, Scalars, Preflight;
    var now := Preflight(observe, kind, second);
    var nowKeys := seq(|now|, i requires 0 <= i < |now| => now[i].Key());
    var keys := seq(|admitted|, i requires 0 <= i < |admitted| => admitted[i].Key());
    forall i | 0 <= i < |now| ensures Covered(nowKeys[i], Scalars(now)[i], keys, Scalars(admitted)) {
      assert now[i] in now;
      var k :| 0 <= k < |admitted| && Matches(admitted[k], now[i]);
      assert keys[k] == nowKeys[i];
    }
    forall i | 0 <= i < |now| ensures nowKeys[i] == second[i].Key() { MeasureKeeps(observe, kind, second[i]); }
    DriftBound(nowKeys, Scalars(now), keys, Scalars(admitted));
  }

  lemma {:induction false} MeasureKeeps(observe: Row -> Digest, kind: Kind, row: Row)
    requires WellFormed(kind, row)
    ensures var m := Measure(observe, kind, row);
            && m.Key() == row.Key() && m.observation == observe(row) && m.cursorAt == row.cursorAt
            && (kind.Boards? ==> m.joinId.Some? && m.outcomeId.None?)
  {
  }

  /**
    The reservation is a true bound.  Whatever two snapshots a page read sees, with any
    text, nulls, booleans and numbers in any field: a page it returns renders to no more
    bytes, members and containers than were reserved before any of it was selected, and
    it is the whole of the second snapshot, every row of it admitted in the first.
  */
  lemma {:induction false} ReservationBoundsPage(observe: Row -> Digest, kind: Kind, take: nat, first: seq<Row>, second: seq<Row>, grants: Charge -> bool, style: Style)
    requires Selection(kind, take, first) && Selection(kind, take, second)
    requires forall row | row in first + second :: WellFormed(kind, row)
    requires LoadPage(observe, kind, take, first, second, grants).Ok?
    ensures var rows := LoadPage(observe, kind, take, first, second, grants).value;
            var reserved := PageCost(kind, Preflight(observe, kind, first));
            && grants(reserved) && rows == second
            && |Render(Page(kind, rows), style)| <= reserved.bytes
            && Properties(Page(kind, rows)) <= reserved.properties && Containers(Page(kind, rows)) <= reserved.containers
            && forall row | row in rows :: Observed(observe, first, row)
  {
    hide PageCost, Page, Measure, Preflight, CheckMetadata, WellFormed, Identified, Render, Properties, Containers;
    var admitted, now := Preflight(observe, kind, first), Preflight(observe, kind, second);
    PageBound(observe, kind, second);
    GateNeverCostsMore(observe, kind, take, admitted, second);
    CompactNotLonger(Page(kind, second));
    forall row | row in second ensures Observed(observe, first, row) {
      var i :| 0 <= i < |second| && second[i] == row;
      assert now[i] in now;
      var k :| 0 <= k < |admitted| && Matches(admitted[k], now[i]);
      MeasureKeeps(observe, kind, first[k]);
      MeasureKeeps(observe, kind, second[i]);
    }
  }

  predicate Observed(observe: Row -> Digest, first: seq<Row>, row: Row) {
    exists k :: 0 <= k < |first| && observe(first[k]) == observe(row) && first[k].Key() == row.Key()
  }

  lemma {:induction false} MetadataPasses(kind: Kind, rows: seq<Metadata>, i: nat)
    requires i <= |rows| && forall x, y | 0 <= x < y < |rows| :: rows[x].Key() != rows[y].Key()
    requires forall x | 0 <= x < |rows| :: Countable(rows[x].scalarUtf8) && (kind.Boards? ==> rows[x].joinId.Some? && rows[x].outcomeId.None?)
    ensures CheckMetadata(kind, rows, i).None?
    decreases |rows| - i
  {
    if i < |rows| { MetadataPasses(kind, rows, i + 1); }
  }

  /**
    And it refuses nothing else: over well-formed snapshots, with countable scalars and
    a granted reservation, the read succeeds if and only if the gate holds; in
    particular it does when nothing changed.
  */
  lemma {:induction false} PageLoadsIff(observe: Row -> Digest, kind: Kind, take: nat, first: seq<Row>, second: seq<Row>, grants: Charge -> bool)
    requires 1 <= take <= 501 && Selection(kind, take, first) && Selection(kind, take, second)
    requires forall row | row in first + second :: WellFormed(kind, row)
    requires forall m | m in Preflight(observe, kind, first) :: Countable(m.scalarUtf8)
    requires grants(PageCost(kind, Preflight(observe, kind, first)))
    ensures var r := LoadPage(observe, kind, take, first, second, grants);
            && (r.Ok? <==> Gate(Preflight(observe, kind, first), Preflight(observe, kind, second)))
            && (r.Err? ==> r.error == Unavailable)
            && (second == first ==> r == Ok(first))
  {
    hide PageCost, Measure, Preflight, CheckMetadata, Identified, WellFormed;
    var admitted, now := Preflight(observe, kind, first), Preflight(observe, kind, second);
    forall i | 0 <= i < |admitted|
      ensures admitted[i].Key() == first[i].Key() && Countable(admitted[i].scalarUtf8)
      ensures kind.Boards? ==> admitted[i].joinId.Some? && admitted[i].outcomeId.None?
    {
      assert admitted[i] in admitted;
      MeasureKeeps(observe, kind, first[i]);
    }
    MetadataPasses(kind, admitted, 0);
    if second == first {
      forall m | m in now ensures Admits(admitted, m) {
        var i :| 0 <= i < |now| && now[i] == m;
        assert Matches(admitted[i], m);
      }
      assert Gate(admitted, now);
    }
    if Gate(admitted, now) {
      forall i | 0 <= i < |second| ensures Identified(admitted, second[i]) {
        assert now[i] in now;
        GatedRowIdentified(observe, kind, admitted, second[i]);
      }
    }
  }

  lemma {:induction false} GatedRowIdentified(observe: Row -> Digest, kind: Kind, admitted: seq<Metadata>, row: Row)
    requires WellFormed(kind, row) && Admits(admitted, Measure(observe, kind, row))
    ensures Identified(admitted, row)
  {
  }

  // ---------- The loader's loops ----------

  /** `pageMetadata`: copies the rows, refusing the first unacceptable one; `seen` holds the keys so far. */
  method PageMetadata(kind: Kind, take: nat, rows: seq<Metadata>) returns (r: Result<seq<Metadata>, Failure>)
    ensures |rows| > take ==> r == Err(Invalid)
    ensures |rows| <= take ==>
              match CheckMetadata(kind, rows, 0)
              case Some(e) => r == Err(e)
              case None => r == Ok(rows)
  {
    if |rows| > take { return Err(Invalid); }
    var seen: set<(string, Option<string>, Option<string>)> := {};
    var copied := [];
    for i := 0 to |rows|
      invariant copied == rows[..i]
      invariant forall key :: key in seen <==> exists k :: 0 <= k < i && rows[k].Key() == key
      invariant CheckMetadata(kind, rows, i) == CheckMetadata(kind, rows, 0)
    {
      if !Countable(rows[i].scalarUtf8) { return Err(Unavailable); }
      if kind.Boards? && (rows[i].joinId.None? || rows[i].outcomeId.Some?) { return Err(Invalid); }
      if rows[i].Key() in seen { return Err(Invalid); }
      seen := seen + {rows[i].Key()};
      copied := copied + [rows[i]];
    }
    assert rows[..|rows|] == rows;
    r := Ok(copied);
  }

  /** `loadAdmittedBoardVotePage`: reservation first, the content behind the gate, then the identity checks. */
  method LoadAdmittedPage(observe: Row -> Digest, kind: Kind, take: nat, first: seq<Row>, second: seq<Row>, grants: Charge -> bool)
      returns (r: Result<seq<Row>, Failure>)
    requires forall row | row in first + second :: WellFormed(kind, row)
    ensures r == LoadPage(observe, kind, take, first, second, grants)
  {
    hide PageCost, Measure, Preflight, CheckMetadata, Gate, Identified;
    assert forall row :: row in first || row in second ==> row in first + second;
    if take < 1 || take > 501 { return Err(Invalid); }
    var selected := Preflight(observe, kind, first);
    var metadata := PageMetadata(kind, take, selected);
    if metadata.Err? { return Err(metadata.error); }
    if !grants(PageCost(kind, metadata.value)) { return Err(Unavailable); }
    if !Gate(metadata.value, Preflight(observe, kind, second)) { return Err(Unavailable); }
    if |second| > |metadata.value| { return Err(Invalid); }
    for i := 0 to |second|
      invariant forall k | 0 <= k < i :: Identified(metadata.value, second[k])
    {
      if !Identified(metadata.value, second[i]) { return Err(Invalid); }
    }
    r := Ok(second);
  }
}
