/**
  Exactly when the admitted document reads succeed
  (artifacts/server/src/document-metadata-projection.ts), told from the rows of the two
  snapshots alone.
*/
module DocumentOutcomes {
  import opened Wrappers
  import opened JsonSize
  import opened DocumentAdmission
  import BoardVoteAdmission
  import opened BoardVoteOutcomes

  // ---------- Reservation and gate ----------

  function DocumentBytes(row: Row): nat
    requires AllScalar(row.values)
  {
    Utf8Sum(row.values) + (if row.cursorAt.Some? then |Utf8(row.cursorAt.value)| else 0) + |Utf8(row.id)|
  }

  function DocumentTotal(rows: seq<Row>): nat
    requires forall row | row in rows :: AllScalar(row.values)
  {
    if rows == [] then 0
    else
      assert rows[0] in rows;
      DocumentBytes(rows[0]) + DocumentTotal(rows[1..])
  }

  /** What is reserved for these rows. */
  function DocumentsReserved(kind: Kind, rows: seq<Row>): Charge
    requires forall row | row in rows :: AllScalar(row.values)
  {
    var n, s := |rows|, DocumentTotal(rows);
    match kind
    case HashOf => BoardVoteAdmission.Charge(2 + 212 * n + 6 * s, 25 + 11 * n, 7 + 2 * n)
    case Validation => BoardVoteAdmission.Charge(2 + 337 * n + 6 * s, 25 + 15 * n, 7 + 2 * n)
    case Versions => BoardVoteAdmission.Charge(2 + 252 * n + 6 * s, 25 + 13 * n, 7 + 2 * n)
    case Documents => BoardVoteAdmission.Charge(2 + 323 * n + 6 * s, 25 + 17 * n, 7 + 2 * n)
  }

  lemma {:induction false} DocumentTotalIs(hash: Row -> Digest, kind: Kind, rows: seq<Row>)
    requires forall row | row in rows :: row.Valid(kind)
    ensures (forall row | row in rows :: AllScalar(row.values)) && Sum(Scalars(Preflight(hash, kind, rows))) == DocumentTotal(rows)
  {
    hide Utf8Sum, Utf8;
    if rows != [] {
      assert rows[0] in rows;
      var m := Preflight(hash, kind, rows);
      assert m[1..] == Preflight(hash, kind, rows[1..]);
      assert Scalars(m)[1..] == Scalars(m[1..]);
      DocumentTotalIs(hash, kind, rows[1..]);
    }
  }

  /** The later row is the earlier one in id, times and observed fields, and no longer. */
  predicate DocumentRetained(hash: Row -> Digest, was: Row, now: Row) {
    && now.id == was.id && now.createdAt == was.createdAt && now.cursorAt == was.cursorAt && hash(now) == hash(was)
    && AllScalar(was.values) && AllScalar(now.values) && DocumentBytes(now) <= DocumentBytes(was)
  }

  predicate DocumentRetainedOf(hash: Row -> Digest, first: seq<Row>, now: Row) {
    exists k :: 0 <= k < |first| && DocumentRetained(hash, first[k], now)
  }

  predicate DocumentsRetained(hash: Row -> Digest, first: seq<Row>, second: seq<Row>) {
    forall i | 0 <= i < |second| :: DocumentRetainedOf(hash, first, second[i])
  }

  lemma {:induction false} FitsIff(hash: Row -> Digest, kind: Kind, was: Row, now: Row)
    requires was.Valid(kind) && now.Valid(kind)
    ensures Fits(Observe(hash, kind, was), Observe(hash, kind, now)) <==> DocumentRetained(hash, was, now)
  {
    hide Utf8Sum, Utf8;
  }

  lemma {:induction false} AdmittedIff(hash: Row -> Digest, kind: Kind, first: seq<Row>, row: Row)
    requires (forall r | r in first :: r.Valid(kind)) && row.Valid(kind)
    ensures Admitted(Preflight(hash, kind, first), Observe(hash, kind, row)) <==> DocumentRetainedOf(hash, first, row)
  {
    var observed := Preflight(hash, kind, first);
    hide Observe, Row.Valid, Fits, DocumentRetained;
    forall k | 0 <= k < |first| ensures Fits(observed[k], Observe(hash, kind, row)) <==> DocumentRetained(hash, first[k], row) {
      assert first[k] in first;
      FitsIff(hash, kind, first[k], row);
    }
  }

  lemma {:induction false} DocumentGateIff(hash: Row -> Digest, kind: Kind, first: seq<Row>, second: seq<Row>)
    requires (forall row | row in first :: row.Valid(kind)) && (forall row | row in second :: row.Valid(kind))
    ensures Gate(Preflight(hash, kind, first), Preflight(hash, kind, second)) <==> DocumentsRetained(hash, first, second)
  {
    hide Observe, Row.Valid, Admitted, DocumentRetainedOf;
    var observed, now := Preflight(hash, kind, first), Preflight(hash, kind, second);
    forall i | 0 <= i < |second| ensures Admitted(observed, now[i]) <==> DocumentRetainedOf(hash, first, second[i]) {
      AdmittedIff(hash, kind, first, second[i]);
    }
  }

  // ---------- Order and identity ----------

  /** The item names the row, and the document, board and version that were asked for. */
  predicate Names(kind: Kind, selector: Selector, row: Row) {
    match kind
    case HashOf =>
      && Says(HASH_KEYS, row.values, 1, "version_id", Str(row.id)) && Says(HASH_KEYS, row.values, 0, "document_id", Str(selector.id))
      && selector.versionId == Some(row.id)
    case Validation => Says(VALIDATION_KEYS, row.values, 0, "validation_attempt_id", Str(row.id)) && row.id == selector.id
    case Versions => Says(VERSION_KEYS, row.values, 1, "version_id", Str(row.id)) && Says(VERSION_KEYS, row.values, 0, "document_id", Str(selector.id))
    case Documents => Says(DOCUMENT_KEYS, row.values, 0, "document_id", Str(row.id)) && Says(DOCUMENT_KEYS, row.values, 1, "board_id", Str(selector.id))
  }

  lemma {:induction false} NamesIff(kind: Kind, selector: Selector, row: Row)
    ensures Own(kind, selector, row) <==> Names(kind, selector, row)
  {
    match kind
    case HashOf => HashFields();
    case Validation => ValidationFields();
    case Versions => VersionFields();
    case Documents => DocumentFields();
  }

  lemma {:induction false} HashFields()
    ensures |HASH_KEYS| == 7 && HASH_KEYS[0] == "document_id" && HASH_KEYS[1] == "version_id"
  {
  }

  lemma {:induction false} ValidationFields()
    ensures |VALIDATION_KEYS| == 11 && VALIDATION_KEYS[0] == "validation_attempt_id"
  {
  }

  lemma {:induction false} VersionFields()
    ensures |VERSION_KEYS| == 9 && VERSION_KEYS[0] == "document_id" && VERSION_KEYS[1] == "version_id"
  {
  }

  lemma {:induction false} DocumentFields()
    ensures |DOCUMENT_KEYS| == 13 && DOCUMENT_KEYS[0] == "document_id" && DOCUMENT_KEYS[1] == "board_id"
  {
  }

  /** The rows stand among the observed ones at these places, in order, each with its place's cursor and named as asked for. */
  predicate StandsAt(kind: Kind, selector: Selector, observed: seq<Observation>, rows: seq<Row>, places: seq<nat>) {
    && |places| == |rows| && (forall i, j | 0 <= i < j < |rows| :: places[i] < places[j])
    && forall i | 0 <= i < |rows| ::
         && places[i] < |observed| && observed[places[i]].id == rows[i].id && observed[places[i]].cursorAt == rows[i].cursorAt
         && Names(kind, selector, rows[i])
  }

  lemma {:induction false} IndexOfId(ids: seq<string>, k: nat)
    requires k < |ids| && Unique(ids)
    ensures IndexOf(ids, ids[k]) == k
    decreases |ids|
  {
    if k > 0 {
      assert ids[0] != ids[k];
      assert Unique(ids[1..]);
      IndexOfId(ids[1..], k - 1);
    }
  }

  function Places(observed: seq<Observation>, rows: seq<Row>): (r: seq<int>)
    ensures |r| == |rows| && forall i | 0 <= i < |rows| :: r[i] == IndexOf(Ids(observed), rows[i].id)
  {
    seq(|rows|, i requires 0 <= i < |rows| => IndexOf(Ids(observed), rows[i].id))
  }

  lemma {:induction false} PlacesRise(kind: Kind, selector: Selector, observed: seq<Observation>, rows: seq<Row>, i: nat, j: nat)
    requires AllMatch(kind, selector, observed, rows) && i < j < |rows|
    ensures 0 <= Places(observed, rows)[i] < Places(observed, rows)[j]
    decreases j - i
  {
    hide IndexOf, Own;
    assert Matches(kind, selector, observed, rows, j);
    if i + 1 == j {
      assert Matches(kind, selector, observed, rows, i);
    } else {
      PlacesRise(kind, selector, observed, rows, i, j - 1);
    }
  }

  /** The checks on the returned rows pass iff they are a subsequence of the observed ones, by id and cursor, each named as asked for. */
  lemma {:induction false} SubsequenceIff(kind: Kind, selector: Selector, observed: seq<Observation>, rows: seq<Row>)
    requires Unique(Ids(observed))
    ensures AllMatch(kind, selector, observed, rows) <==> exists places :: StandsAt(kind, selector, observed, rows, places)
  {
    hide IndexOf, Own, Names;
    if AllMatch(kind, selector, observed, rows) { MatchesStand(kind, selector, observed, rows); }
    if places :| StandsAt(kind, selector, observed, rows, places) {
      forall i: nat | i < |rows| ensures Matches(kind, selector, observed, rows, i) {
        IndexOfId(Ids(observed), places[i]);
        if i > 0 { IndexOfId(Ids(observed), places[i - 1]); }
        NamesIff(kind, selector, rows[i]);
      }
    }
  }

  lemma {:induction false} MatchesStand(kind: Kind, selector: Selector, observed: seq<Observation>, rows: seq<Row>)
    requires AllMatch(kind, selector, observed, rows)
    ensures exists places :: StandsAt(kind, selector, observed, rows, places)
  {
    hide IndexOf, Own, Names;
    var found := Places(observed, rows);
    forall i: nat | i < |rows|
      ensures found[i] >= 0 && observed[found[i]].id == rows[i].id && observed[found[i]].cursorAt == rows[i].cursorAt && Names(kind, selector, rows[i])
    {
      assert Matches(kind, selector, observed, rows, i);
      NamesIff(kind, selector, rows[i]);
    }
    forall i: nat, j: nat | i < j < |rows| ensures found[i] < found[j] {
      PlacesRise(kind, selector, observed, rows, i, j);
    }
    var places: seq<nat> := seq(|rows|, i requires 0 <= i < |rows| => found[i] as nat);
    assert StandsAt(kind, selector, observed, rows, places);
  }

  /** The same, of the two snapshots. */
  predicate SubsequenceAt(kind: Kind, selector: Selector, first: seq<Row>, second: seq<Row>, places: seq<nat>) {
    && |places| == |second| && (forall i, j | 0 <= i < j < |second| :: places[i] < places[j])
    && forall i | 0 <= i < |second| ::
         && places[i] < |first| && first[places[i]].id == second[i].id && first[places[i]].cursorAt == second[i].cursorAt
         && Names(kind, selector, second[i])
  }

  ghost predicate Subsequence(kind: Kind, selector: Selector, first: seq<Row>, second: seq<Row>) {
    exists places :: SubsequenceAt(kind, selector, first, second, places)
  }

  lemma {:induction false} SubsequenceOfSnapshots(hash: Row -> Digest, kind: Kind, selector: Selector, first: seq<Row>, second: seq<Row>)
    requires forall row | row in first :: row.Valid(kind)
    requires forall i, j | 0 <= i < j < |first| :: first[i].id != first[j].id
    ensures AllMatch(kind, selector, Preflight(hash, kind, first), second) <==> Subsequence(kind, selector, first, second)
  {
    hide Names, Row.Valid;
    var observed := Preflight(hash, kind, first);
    SubsequenceIff(kind, selector, observed, second);
    forall places ensures StandsAt(kind, selector, observed, second, places) <==> SubsequenceAt(kind, selector, first, second, places) {
    }
  }

  // ---------- The read ----------

  ghost predicate DocumentsLoad(hash: Row -> Digest, kind: Kind, selector: Selector, limit: nat, first: seq<Row>, second: seq<Row>, grants: Charge -> bool)
    requires forall row | row in first :: AllScalar(row.values)
  {
    && 1 <= limit <= 500 && (kind.HashOf? || kind.Validation? ==> limit == 1)
    && (forall row | row in first :: DocumentBytes(row) < 1_000_000_000_000_000_000_000_000)
    && grants(DocumentsReserved(kind, first))
    && DocumentsRetained(hash, first, second)
    && Subsequence(kind, selector, first, second)
  }

  /** The conditions under which documents are returned, on the rows alone. */
  lemma {:induction false} DocumentOutcome(hash: Row -> Digest, kind: Kind, selector: Selector, limit: nat, first: seq<Row>, second: seq<Row>, grants: Charge -> bool)
    requires Selection(kind, limit, first) && Selection(kind, limit, second)
    ensures forall row | row in first :: AllScalar(row.values)
    ensures DocumentsLoad(hash, kind, selector, limit, first, second, grants) <==>
              && 1 <= limit <= 500 && (!kind.Listed() ==> limit == 1)
              && (forall o | o in Preflight(hash, kind, first) :: Countable(o.scalarUtf8))
              && grants(Cost(kind, |first|, Sum(Scalars(Preflight(hash, kind, first)))))
              && Gate(Preflight(hash, kind, first), Preflight(hash, kind, second))
              && AllMatch(kind, selector, Preflight(hash, kind, first), second)
  {
    hide Preflight, Sum, Scalars, DocumentTotal, Gate, DocumentsRetained, AllMatch, Subsequence, DocumentBytes, Row.Valid;
    DocumentTotalIs(hash, kind, first);
    DocumentGateIff(hash, kind, first, second);
    SubsequenceOfSnapshots(hash, kind, selector, first, second);
    AllCountable(hash, kind, first);
  }

  lemma {:induction false} AllCountable(hash: Row -> Digest, kind: Kind, rows: seq<Row>)
    requires forall row | row in rows :: row.Valid(kind)
    ensures forall row | row in rows :: AllScalar(row.values)
    ensures (forall o | o in Preflight(hash, kind, rows) :: Countable(o.scalarUtf8)) <==>
              forall row | row in rows :: DocumentBytes(row) < 1_000_000_000_000_000_000_000_000
  {
    hide Utf8Sum, Utf8;
    var observed := Preflight(hash, kind, rows);
    forall row | row in rows ensures Observe(hash, kind, row) in observed {
      var i :| 0 <= i < |rows| && rows[i] == row;
      assert observed[i] in observed;
    }
    forall o | o in observed ensures exists row :: row in rows && row.Valid(kind) && o == Observe(hash, kind, row) {
      var i :| 0 <= i < |observed| && observed[i] == o;
      assert rows[i] in rows;
    }
  }

  // ---------- The certificate tool ----------

  /** The later certificate is the earlier one in id, board, digest and stored length, and no larger in any measure. */
  predicate CertificateRetained(hash: Certificate -> Digest, was: Certificate, now: Certificate) {
    && now.id == was.id && now.boardId == was.boardId && hash(now) == hash(was) && now.rawPayloadBytes == was.rawPayloadBytes
    && AllScalar(was.values) && AllScalar(now.values) && Utf8Sum(now.values) <= Utf8Sum(was.values)
    && |Render(now.payload, Spaced)| <= |Render(was.payload, Spaced)|
    && Properties(now.payload) <= Properties(was.payload) && Containers(now.payload) <= Containers(was.payload)
  }

  lemma {:induction false} CertificateGateIff(hash: Certificate -> Digest, first: Certificate, second: Certificate)
    requires first.Valid() && second.Valid()
    ensures AllScalar(first.values)
    ensures CertificateGate(MeasureCertificate(hash, first), MeasureCertificate(hash, second)) <==> CertificateRetained(hash, first, second)
    ensures CertificateCost(MeasureCertificate(hash, first)) ==
              BoardVoteAdmission.Charge(267 + 6 * Utf8Sum(first.values) + |Render(first.payload, Spaced)|, 35 + Properties(first.payload), 6 + Containers(first.payload))
  {
    hide Utf8Sum, Render, Properties, Containers;
  }
}
