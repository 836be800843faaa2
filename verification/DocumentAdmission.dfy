/**
  Admission by size of the document metadata reads
  (artifacts/server/src/document-metadata-projection.ts) and of the certificate tool
  (artifacts/server/src/certificate-tool-projection.ts).
*/
module DocumentAdmission {
  import opened Wrappers
  import opened JsonSize
  import opened KeyNames
  import BoardVoteAdmission

  type Digest = BoardVoteAdmission.Digest
  type Charge = BoardVoteAdmission.Charge
  type Failure = BoardVoteAdmission.Failure

  // ---------- Document metadata ----------

  datatype Kind = HashOf | Validation | Versions | Documents
  {
    predicate Listed() { Versions? || Documents? }
  }

  const HASH_KEYS: seq<string> := ["document_id", "version_id", "version", "media_type", "document_schema", "byte_length", "sha256"]

  const VALIDATION_KEYS: seq<string> := ["validation_attempt_id", "board_id", "offered_media_type", "offered_name", "offered_length", "offered_sha256", "result", "result_code", "remediation", "accepted_document_version_id", "attempted_at"]

  const VERSION_KEYS: seq<string> := ["document_id", "version_id", "version", "media_type", "document_schema", "byte_length", "sha256", "created_by", "created_at"]

  const DOCUMENT_KEYS: seq<string> := ["document_id", "board_id", "title", "state", "version_id", "version", "media_type", "document_schema", "byte_length", "sha256", "row_version", "resource_uri", "created_at"]

  function Keys(kind: Kind): seq<string> {
    match kind
    case HashOf => HASH_KEYS
    case Validation => VALIDATION_KEYS
    case Versions => VERSION_KEYS
    case Documents => DOCUMENT_KEYS
  }

  /** `coefficients`. */
  function RowBytes(kind: Kind): nat {
    match kind
    case HashOf => 212
    case Validation => 337
    case Versions => 252
    case Documents => 323
  }

  function RowProperties(kind: Kind): nat {
    match kind
    case HashOf => 11
    case Validation => 15
    case Versions => 13
    case Documents => 17
  }

  datatype Row = Row(id: string, createdAt: Option<string>, cursorAt: Option<string>, values: seq<Json>)
  {
    predicate Valid(kind: Kind) {
      |values| == |Keys(kind)| && (forall v | v in values :: Scalar(v)) && (createdAt.Some? <==> kind.Listed()) && (cursorAt.Some? ==> kind.Listed())
    }
  }

  /** What a query may return: rows by primary key, at most one of the point kinds and one more than the limit of the lists. */
  predicate Selection(kind: Kind, limit: nat, rows: seq<Row>) {
    && |rows| <= (if kind.Listed() then limit + 1 else 1)
    && (forall row | row in rows :: row.Valid(kind))
    && (forall i, j | 0 <= i < j < |rows| :: rows[i].id != rows[j].id)
  }

  datatype Observation = Observation(id: string, createdAt: Option<string>, cursorAt: Option<string>, digest: Digest, scalarUtf8: nat)

  function Observe(hash: Row -> Digest, kind: Kind, row: Row): Observation
    requires row.Valid(kind)
  {
    Observation(row.id, row.createdAt, row.cursorAt, hash(row),
                Utf8Sum(row.values) + ScalarUtf8(BoardVoteAdmission.Nullable(row.cursorAt)) + |Utf8(row.id)|)
  }

  function Preflight(hash: Row -> Digest, kind: Kind, rows: seq<Row>): (r: seq<Observation>)
    requires forall row | row in rows :: row.Valid(kind)
    ensures |r| == |rows| && forall i | 0 <= i < |rows| :: rows[i] in rows && r[i] == Observe(hash, kind, rows[i])
  {
    seq(|rows|, i requires 0 <= i < |rows| && rows[i] in rows => Observe(hash, kind, rows[i]))
  }

  function Scalars(rows: seq<Observation>): (r: seq<nat>)
    ensures |r| == |rows| && forall i | 0 <= i < |r| :: r[i] == rows[i].scalarUtf8
  {
    seq(|rows|, i requires 0 <= i < |rows| => rows[i].scalarUtf8)
  }

  function Ids(rows: seq<Observation>): (r: seq<string>)
    ensures |r| == |rows| && forall i | 0 <= i < |r| :: r[i] == rows[i].id
  {
    seq(|rows|, i requires 0 <= i < |rows| => rows[i].id)
  }

  /** `documentMetadataProjectionCost`. */
  function Cost(kind: Kind, rows: nat, scalars: nat): Charge {
    BoardVoteAdmission.Charge(2 + RowBytes(kind) * rows + 6 * scalars, 25 + RowProperties(kind) * rows, 7 + 2 * rows)
  }

  predicate Fits(bound: Observation, now: Observation) {
    && bound.id == now.id && bound.createdAt == now.createdAt && bound.digest == now.digest
    && bound.cursorAt == now.cursorAt && now.scalarUtf8 <= bound.scalarUtf8
  }

  predicate Admitted(expected: seq<Observation>, now: Observation) {
    exists k :: 0 <= k < |expected| && Fits(expected[k], now)
  }

  /** The global gate; unlike that of the board pages it compares no counts. */
  predicate Gate(expected: seq<Observation>, now: seq<Observation>) {
    forall i | 0 <= i < |now| :: Admitted(expected, now[i])
  }

  /** The identity of one observed row is acceptable; its id being new is checked with the others. */
  predicate Acceptable(kind: Kind, row: Observation) {
    if kind.Listed() then row.createdAt.Some? else row.createdAt.None? && row.cursorAt.None?
  }

  /** `observation`: the loop that gathers the ids and the total. */
  method ObserveRows(kind: Kind, limit: nat, rows: seq<Observation>) returns (r: Result<nat, Failure>)
    ensures r.Ok? <==>
              && 1 <= limit <= 500 && (!kind.Listed() ==> limit == 1) && |rows| <= (if kind.Listed() then limit + 1 else 1)
              && Unique(Ids(rows)) && forall row | row in rows :: Acceptable(kind, row) && Countable(row.scalarUtf8)
    ensures r.Ok? ==> r.value == Sum(Scalars(rows))
    ensures !(1 <= limit <= 500 && (!kind.Listed() ==> limit == 1) && |rows| <= (if kind.Listed() then limit + 1 else 1)) ==> r == Err(BoardVoteAdmission.Invalid)
    ensures r == Err(BoardVoteAdmission.Invalid) ==>
              || !(1 <= limit <= 500 && (!kind.Listed() ==> limit == 1) && |rows| <= (if kind.Listed() then limit + 1 else 1))
              || !Unique(Ids(rows)) || exists row | row in rows :: !Acceptable(kind, row)
  {
    if limit < 1 || limit > 500 || (!kind.Listed() && limit != 1) || |rows| > (if kind.Listed() then limit + 1 else 1) {
      return Err(BoardVoteAdmission.Invalid);
    }
    var ids: set<string> := {};
    var total := 0;
    for i := 0 to |rows|
      invariant ids == set k | 0 <= k < i :: rows[k].id
      invariant forall j, k | 0 <= j < k < i :: rows[j].id != rows[k].id
      invariant forall k | 0 <= k < i :: Acceptable(kind, rows[k]) && Countable(rows[k].scalarUtf8)
      invariant total == Sum(Scalars(rows[..i]))
    {
      var row := rows[i];
      assert row in rows;
      if row.id in ids {
        ghost var k :| 0 <= k < i && rows[k].id == row.id;
        assert Ids(rows)[k] == Ids(rows)[i];
        return Err(BoardVoteAdmission.Invalid);
      }
      if !Acceptable(kind, row) { return Err(BoardVoteAdmission.Invalid); }
      if !Countable(row.scalarUtf8) { return Err(BoardVoteAdmission.Unavailable); }
      ids := ids + {row.id};
      assert Scalars(rows[..i + 1]) == Scalars(rows[..i]) + [row.scalarUtf8];
      SumAppend(Scalars(rows[..i]), [row.scalarUtf8]);
      assert Sum([row.scalarUtf8]) == row.scalarUtf8;
      total := total + row.scalarUtf8;
    }
    assert rows[..|rows|] == rows;
    r := Ok(total);
  }

  /** `findIndex`, -1 when there is none. */
  function IndexOf(ids: seq<string>, id: string): (r: int)
    ensures -1 <= r < |ids|
    ensures r >= 0 ==> ids[r] == id
    ensures r == -1 ==> id !in ids
  {
    if ids == [] then -1
    else if ids[0] == id then 0
    else
      var rest := IndexOf(ids[1..], id);
      if rest == -1 then -1 else rest + 1
  }

  predicate RisesAt(ids: seq<string>, rows: seq<Row>, i: nat)
    requires i < |rows|
  {
    IndexOf(ids, rows[i].id) > if i == 0 then -1 else IndexOf(ids, rows[i - 1].id)
  }

  /** Every row is among the observed ones, after the row before it. */
  predicate Rising(ids: seq<string>, rows: seq<Row>) {
    forall i | 0 <= i < |rows| :: RisesAt(ids, rows, i)
  }

  /** What was asked for; a hash names a version too. */
  datatype Selector = Selector(id: string, versionId: Option<string>)

  /** The item names the row and what the selector asked for. */
  predicate Own(kind: Kind, selector: Selector, row: Row) {
    && |row.values| == |Keys(kind)|
    && match kind
       case HashOf => row.values[1] == Str(row.id) && row.values[0] == Str(selector.id) && selector.versionId == Some(row.id)
       case Validation => row.values[0] == Str(row.id) && row.id == selector.id
       case Versions => row.values[1] == Str(row.id) && row.values[0] == Str(selector.id)
       case Documents => row.values[0] == Str(row.id) && row.values[1] == Str(selector.id)
  }

  /** The checks on one returned row: an observed tuple, after that of the row before, with its cursor, and the item's own identity. */
  predicate MatchesAt(kind: Kind, selector: Selector, observed: seq<Observation>, row: Row, index: int, previous: int)
    requires -1 <= index < |observed| && previous >= -1
  {
    index > previous && row.cursorAt == observed[index].cursorAt && Own(kind, selector, row)
  }

  /** Where the row before was found, -1 for the first. */
  function Before(observed: seq<Observation>, rows: seq<Row>, i: nat): (r: int)
    requires i <= |rows|
    ensures -1 <= r < |observed|
  {
    if i == 0 then -1 else IndexOf(Ids(observed), rows[i - 1].id)
  }

  predicate Matches(kind: Kind, selector: Selector, observed: seq<Observation>, rows: seq<Row>, i: nat)
    requires i < |rows|
  {
    MatchesAt(kind, selector, observed, rows[i], IndexOf(Ids(observed), rows[i].id), Before(observed, rows, i))
  }

  predicate AllMatch(kind: Kind, selector: Selector, observed: seq<Observation>, rows: seq<Row>) {
    forall i | 0 <= i < |rows| :: Matches(kind, selector, observed, rows, i)
  }

  /** Behind the gate, over rows the query selected, only the order is left to check. */
  lemma {:induction false} SelectedMatch(hash: Row -> Digest, kind: Kind, selector: Selector, observed: seq<Observation>, rows: seq<Row>)
    requires forall row | row in rows :: row.Valid(kind) && Own(kind, selector, row)
    requires Unique(Ids(observed)) && Gate(observed, Preflight(hash, kind, rows))
    ensures AllMatch(kind, selector, observed, rows) <==> Rising(Ids(observed), rows)
  {
    hide Row.Valid, Own, IndexOf;
    forall i: nat | i < |rows| ensures Matches(kind, selector, observed, rows, i) <==> RisesAt(Ids(observed), rows, i) {
      assert rows[i] in rows;
      SelectedFound(hash, kind, observed, rows, i);
    }
  }

  lemma {:induction false} SelectedFound(hash: Row -> Digest, kind: Kind, observed: seq<Observation>, rows: seq<Row>, i: nat)
    requires i < |rows| && forall row | row in rows :: row.Valid(kind)
    requires Unique(Ids(observed)) && Gate(observed, Preflight(hash, kind, rows))
    ensures var index := IndexOf(Ids(observed), rows[i].id); index >= 0 && rows[i].cursorAt == observed[index].cursorAt
  {
    hide Row.Valid, IndexOf;
    var now := Preflight(hash, kind, rows);
    assert Admitted(observed, now[i]);
    var k :| 0 <= k < |observed| && Fits(observed[k], now[i]);
    assert Ids(observed)[k] == rows[i].id;
    assert IndexOf(Ids(observed), rows[i].id) == k;
  }

  /** What the caller holds for one row. */
  function Held(kind: Kind, row: Row): Json
    requires row.Valid(kind)
  {
    Obj([Member("fits", Bool(true)), Member("item", Obj(Fields(Keys(kind), row.values))),
         Member("cursor_at", BoardVoteAdmission.Nullable(row.cursorAt)), Member("cursor_id", Str(row.id))])
  }

  function HeldRows(kind: Kind, rows: seq<Row>): (r: seq<Json>)
    requires forall row | row in rows :: row.Valid(kind)
    ensures |r| == |rows| && forall i | 0 <= i < |rows| :: rows[i] in rows && r[i] == Held(kind, rows[i])
  {
    seq(|rows|, i requires 0 <= i < |rows| && rows[i] in rows => Held(kind, rows[i]))
  }

  lemma {:induction false} HashKeys()
    ensures KeyCost(HASH_KEYS) == 140
  {
  }

  lemma {:induction false} HashKeysPlain()
    ensures PlainKeys(HASH_KEYS)
  {
    PlainCreationNames();
    PlainVersionNames();
    PlainContentNames();
    hide Plain;
  }

  lemma {:induction false} ValidationKeyCost()
    ensures KeyCost(VALIDATION_KEYS) == 265
  {
  }

  lemma {:induction false} ValidationKeysPlain()
    ensures PlainKeys(VALIDATION_KEYS)
  {
    PlainBoardNames();
    PlainContentNames();
    PlainOfferNames();
    PlainResultNames();
    hide Plain;
  }

  lemma {:induction false} VersionKeys()
    ensures KeyCost(VERSION_KEYS) == 180
  {
  }

  lemma {:induction false} VersionKeysPlain()
    ensures PlainKeys(VERSION_KEYS)
  {
    PlainCreationNames();
    PlainVersionNames();
    PlainContentNames();
    PlainOriginNames();
    hide Plain;
  }

  lemma {:induction false} DocumentKeyCost()
    ensures KeyCost(DOCUMENT_KEYS) == 251
  {
  }

  lemma {:induction false} DocumentKeysPlain()
    ensures PlainKeys(DOCUMENT_KEYS)
  {
    PlainBoardNames();
    PlainSeatNames();
    PlainResolutionNames();
    PlainCreationNames();
    PlainVersionNames();
    PlainContentNames();
    PlainOriginNames();
    hide Plain;
  }

  lemma {:induction false} KindKeys(kind: Kind)
    ensures KeyCost(Keys(kind)) + 72 == RowBytes(kind) && PlainKeys(Keys(kind)) && |Keys(kind)| + 4 == RowProperties(kind)
  {
    match kind
    case HashOf =>
      HashKeys();
      HashKeysPlain();
    case Validation =>
      ValidationKeyCost();
      ValidationKeysPlain();
    case Versions =>
      VersionKeys();
      VersionKeysPlain();
    case Documents =>
      DocumentKeyCost();
      DocumentKeysPlain();
  }

  lemma {:induction false} RowBound(hash: Row -> Digest, kind: Kind, row: Row)
    requires row.Valid(kind)
    ensures |Render(Held(kind, row), Spaced)| <= RowBytes(kind) - 2 + 6 * Observe(hash, kind, row).scalarUtf8
    ensures Properties(Held(kind, row)) == RowProperties(kind) && Containers(Held(kind, row)) == 2
  {
    KindKeys(kind);
    hide Render, Keys, Plain, PlainKeys, KeyCost;
    FlatObjectBound(Keys(kind), row.values);
    BoardVoteAdmission.WrapperBytes(Obj(Fields(Keys(kind), row.values)), BoardVoteAdmission.Nullable(row.cursorAt), row.id);
  }

  lemma {:induction false} PageBytes(hash: Row -> Digest, kind: Kind, rows: seq<Row>)
    requires forall row | row in rows :: row.Valid(kind)
    ensures |RenderItems(HeldRows(kind, rows), Spaced)| <= RowBytes(kind) * |rows| + 6 * Sum(Scalars(Preflight(hash, kind, rows)))
  {
    hide Render, RenderItems, Row.Valid, Held, HeldRows, Observe, Preflight;
    forall i | 0 <= i < |rows| ensures |Render(HeldRows(kind, rows)[i], Spaced)| <= RowBytes(kind) - 2 + 6 * Scalars(Preflight(hash, kind, rows))[i] {
      RowBound(hash, kind, rows[i]);
    }
    ListBytes(HeldRows(kind, rows), Scalars(Preflight(hash, kind, rows)), RowBytes(kind));
  }

  lemma {:induction false} PageCounts(kind: Kind, rows: seq<Row>)
    requires forall row | row in rows :: row.Valid(kind)
    ensures ItemProperties(HeldRows(kind, rows)) <= RowProperties(kind) * |rows| && ItemContainers(HeldRows(kind, rows)) <= 2 * |rows|
  {
    hide Render, Row.Valid, Held, HeldRows, Properties, Containers;
    var n, each := |rows|, RowProperties(kind);
    forall i | 0 <= i < n ensures Properties(HeldRows(kind, rows)[i]) <= each && Containers(HeldRows(kind, rows)[i]) <= 2 {
      RowBound(_ => [], kind, rows[i]);
    }
    ItemsCount(HeldRows(kind, rows), seq(n, _ => each), seq(n, _ => 2));
    BoardVoteAdmission.Constants(n, each);
    BoardVoteAdmission.Constants(n, 2);
  }

  /** Behind the gate a later snapshot has no more rows and no more bytes than were admitted. */
  lemma {:induction false} GateShrinks(hash: Row -> Digest, kind: Kind, limit: nat, expected: seq<Observation>, second: seq<Row>)
    requires Selection(kind, limit, second) && Gate(expected, Preflight(hash, kind, second))
    ensures |second| <= |expected| && Sum(Scalars(Preflight(hash, kind, second))) <= Sum(Scalars(expected))
  {
    hide Row.Valid, Sum;
    var now := Preflight(hash, kind, second);
    forall i | 0 <= i < |now| ensures Covered(Ids(now)[i], Scalars(now)[i], Ids(expected), Scalars(expected)) {
      assert Admitted(expected, now[i]);
      var k :| 0 <= k < |expected| && Fits(expected[k], now[i]);
      assert Ids(expected)[k] == Ids(now)[i];
    }
    DriftBound(Ids(now), Scalars(now), Ids(expected), Scalars(expected));
  }

  /**
    `loadAdmittedDocumentMetadata`: for any two snapshots, what is returned is the whole
    second one, and its text, members and containers are within what was reserved for
    the first; it succeeds exactly when the first is acceptable, the reservation granted,
    and every later row admitted, in the order of the first, with the tuple's cursor and
    an item that names the row and the selector.
  */
  method LoadDocuments(hash: Row -> Digest, kind: Kind, selector: Selector, limit: nat, first: seq<Row>, second: seq<Row>, grants: Charge -> bool)
      returns (r: Result<seq<Row>, Failure>, reserved: Charge)
    requires Selection(kind, limit, first) && Selection(kind, limit, second)
    ensures r.Ok? ==>
              && r.value == second && reserved == Cost(kind, |first|, Sum(Scalars(Preflight(hash, kind, first)))) && grants(reserved)
              && var page := Arr(HeldRows(kind, second));
              |Render(page, Spaced)| <= reserved.bytes && Properties(page) <= reserved.properties && Containers(page) <= reserved.containers
    ensures r.Ok? <==>
              && 1 <= limit <= 500 && (!kind.Listed() ==> limit == 1)
              && (forall o | o in Preflight(hash, kind, first) :: Countable(o.scalarUtf8))
              && grants(Cost(kind, |first|, Sum(Scalars(Preflight(hash, kind, first)))))
              && Gate(Preflight(hash, kind, first), Preflight(hash, kind, second))
              && AllMatch(kind, selector, Preflight(hash, kind, first), second)
    ensures r.Err? ==>
              (r.error == BoardVoteAdmission.Invalid <==>
                || !(1 <= limit <= 500 && (!kind.Listed() ==> limit == 1))
                || ((forall o | o in Preflight(hash, kind, first) :: Countable(o.scalarUtf8))
                    && grants(Cost(kind, |first|, Sum(Scalars(Preflight(hash, kind, first)))))
                    && Gate(Preflight(hash, kind, first), Preflight(hash, kind, second))))
  {
    hide Gate, Row.Valid, Own, Matches, Observe, Sum, Held, HeldRows, Preflight, Keys, IndexOf;
    reserved := BoardVoteAdmission.Charge(0, 0, 0);
    var observed := Preflight(hash, kind, first);
    SelectionObserved(hash, kind, limit, first);
    var total := ObserveRows(kind, limit, observed);
    if total.Err? { return Err(total.error), reserved; }
    reserved := Cost(kind, |observed|, total.value);
    if !grants(reserved) { return Err(BoardVoteAdmission.Unavailable), reserved; }
    if !Gate(observed, Preflight(hash, kind, second)) { return Err(BoardVoteAdmission.Unavailable), reserved; }
    var matching := CheckTuples(kind, selector, observed, second);
    if !matching { return Err(BoardVoteAdmission.Invalid), reserved; }
    GateShrinks(hash, kind, limit, observed, second);
    PageFits(hash, kind, second, |first|, Sum(Scalars(observed)));
    r := Ok(second);
  }

  /** The loop over `previous` and the identity checks. */
  method CheckTuples(kind: Kind, selector: Selector, observed: seq<Observation>, rows: seq<Row>) returns (matching: bool)
    ensures matching <==> AllMatch(kind, selector, observed, rows)
  {
    hide IndexOf, Ids, MatchesAt;
    var previous := -1;
    for i := 0 to |rows|
      invariant previous == Before(observed, rows, i)
      invariant forall k | 0 <= k < i :: Matches(kind, selector, observed, rows, k)
    {
      var index := IndexOf(Ids(observed), rows[i].id);
      if !MatchesAt(kind, selector, observed, rows[i], index, previous) {
        assert !Matches(kind, selector, observed, rows, i);
        return false;
      }
      previous := index;
    }
    matching := true;
  }

  /** Rows no more in number and no longer in total than was admitted fit its reservation. */
  lemma {:induction false} PageFits(hash: Row -> Digest, kind: Kind, rows: seq<Row>, count: nat, total: nat)
    requires forall row | row in rows :: row.Valid(kind)
    requires |rows| <= count && Sum(Scalars(Preflight(hash, kind, rows))) <= total
    ensures var page, reserved := Arr(HeldRows(kind, rows)), Cost(kind, count, total);
            |Render(page, Spaced)| <= reserved.bytes && Properties(page) <= reserved.properties && Containers(page) <= reserved.containers
  {
    hide Row.Valid, Sum, Scalars, Preflight, HeldRows, RenderItems, ItemProperties, ItemContainers;
    PageBytes(hash, kind, rows);
    PageCounts(kind, rows);
    Fewer(RowBytes(kind), |rows|, count);
    Fewer(RowProperties(kind), |rows|, count);
  }

  lemma {:induction false} Fewer(each: nat, n: nat, m: nat)
    requires n <= m
    ensures each * n <= each * m
  {
  }

  lemma {:induction false} SelectionObserved(hash: Row -> Digest, kind: Kind, limit: nat, rows: seq<Row>)
    requires Selection(kind, limit, rows)
    ensures var observed := Preflight(hash, kind, rows);
            Unique(Ids(observed)) && forall o | o in observed :: Acceptable(kind, o)
  {
    var observed := Preflight(hash, kind, rows);
    forall o | o in observed ensures Acceptable(kind, o) {
      var i :| 0 <= i < |observed| && observed[i] == o;
      assert rows[i].Valid(kind);
    }
  }

  // ---------- The certificate tool ----------

  const CERTIFICATE_KEYS: seq<string> := ["certificate_id", "vote_id", "outcome_id", "public_id", "schema_version", "payload_sha256", "signature_base64url", "signing_key_id", "state", "supersedes_id", "issued_at"]

  /** A certificate with its stored payload, any JSON. */
  datatype Certificate = Certificate(id: string, boardId: string, rawPayloadBytes: nat, values: seq<Json>, payload: Json)
  {
    predicate Valid() {
      |values| == |CERTIFICATE_KEYS| && forall v | v in values :: Scalar(v)
    }

    function View(): Json
      requires Valid()
    {
      Obj(Fields(CERTIFICATE_KEYS, values) + [Member("canonical_payload", payload)])
    }
  }

  datatype CertificateMetadata = CertificateMetadata(id: string, boardId: string, digest: Digest, rawPayloadBytes: nat, scalarUtf8: nat, jsonUtf8: nat, jsonProperties: nat, jsonContainers: nat)

  function MeasureCertificate(hash: Certificate -> Digest, c: Certificate): CertificateMetadata
    requires c.Valid()
  {
    CertificateMetadata(c.id, c.boardId, hash(c), c.rawPayloadBytes, Utf8Sum(c.values), |Render(c.payload, Spaced)|, Properties(c.payload), Containers(c.payload))
  }

  function CertificateCost(m: CertificateMetadata): Charge {
    BoardVoteAdmission.Charge(267 + 6 * m.scalarUtf8 + m.jsonUtf8, 35 + m.jsonProperties, 6 + m.jsonContainers)
  }

  predicate CertificateGate(admitted: CertificateMetadata, now: CertificateMetadata) {
    && now.id == admitted.id && now.boardId == admitted.boardId && now.digest == admitted.digest && now.rawPayloadBytes == admitted.rawPayloadBytes
    && now.scalarUtf8 <= admitted.scalarUtf8 && now.jsonUtf8 <= admitted.jsonUtf8
    && now.jsonProperties <= admitted.jsonProperties && now.jsonContainers <= admitted.jsonContainers
  }

  lemma {:induction false} CertificateKeyCost()
    ensures KeyCost(CERTIFICATE_KEYS) == 238
  {
  }

  lemma {:induction false} CertificateKeysPlain()
    ensures PlainKeys(CERTIFICATE_KEYS) && Plain("canonical_payload")
  {
    PlainSeatNames();
    PlainEntitlementNames();
    PlainOriginNames();
    PlainSignatureNames();
    PlainIssueNames();
    PlainPayloadNames();
    hide Plain;
  }

  /** The reservation bounds the view of whatever certificate the later snapshot holds behind the gate, nested payload included. */
  lemma {:induction false} ReservationBoundsCertificate(hash: Certificate -> Digest, first: Certificate, second: Certificate, style: Style)
    requires first.Valid() && second.Valid() && CertificateGate(MeasureCertificate(hash, first), MeasureCertificate(hash, second))
    ensures var reserved := CertificateCost(MeasureCertificate(hash, first));
            && |Render(second.View(), style)| <= reserved.bytes
            && Properties(second.View()) <= reserved.properties && Containers(second.View()) <= reserved.containers
  {
    CertificateKeyCost();
    CertificateKeysPlain();
    hide Plain, PlainKeys, KeyCost, CERTIFICATE_KEYS;
    CertificateParts(second);
    CompactNotLonger(second.View());
  }

  lemma {:induction false} CertificateParts(c: Certificate)
    requires c.Valid() && PlainKeys(CERTIFICATE_KEYS) && Plain("canonical_payload") && KeyCost(CERTIFICATE_KEYS) == 238
    ensures |Render(c.View(), Spaced)| <= 267 + 6 * Utf8Sum(c.values) + |Render(c.payload, Spaced)|
    ensures Properties(c.View()) == 12 + Properties(c.payload) && Containers(c.View()) == 1 + Containers(c.payload)
  {
    hide Plain, PlainKeys, KeyCost, RenderMembers;
    var last := Member("canonical_payload", c.payload);
    FieldsBound(CERTIFICATE_KEYS, c.values, [last]);
    MembersHead([last]);
    assert [last][1..] == [];
    NoMembers();
  }

  lemma {:induction false} NoMembers()
    ensures |RenderMembers([], Spaced)| == 0 && MemberProperties([]) == 0 && MemberContainers([]) == 0
  {
  }
}
