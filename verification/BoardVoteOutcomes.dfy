/**
  Exactly when the admitted board, vote, proxy and lineage reads succeed
  (artifacts/server/src/board-vote-read-projection.ts), told from the rows of the two
  snapshots alone.
*/
module BoardVoteOutcomes {
  import opened Wrappers
  import opened JsonSize
  import opened BoardVoteAdmission
  import opened VoteViewAdmission

  /** The field `name`, at place `i`, holds `v`. */
  predicate Says(keys: seq<string>, values: seq<Json>, i: nat, name: string, v: Json) {
    i < |keys| == |values| && keys[i] == name && values[i] == v
  }

  // ---------- Board and vote pages ----------

  /** The bytes of a row that its preflight counts: every field, the cursor and the id. */
  function TextBytes(row: Row): nat
    requires AllScalar(row.values)
  {
    Utf8Sum(row.values) + (if row.cursorAt.Some? then |Utf8(row.cursorAt.value)| else 0) + |Utf8(row.id)|
  }

  function TextTotal(rows: seq<Row>): nat
    requires forall row | row in rows :: AllScalar(row.values)
  {
    if rows == [] then 0
    else
      assert rows[0] in rows;
      TextBytes(rows[0]) + TextTotal(rows[1..])
  }

  /** What is reserved for a page of these rows. */
  function Reserved(kind: Kind, rows: seq<Row>): Charge
    requires forall row | row in rows :: AllScalar(row.values)
  {
    match kind
    case Boards => Charge(2 + 286 * |rows| + 6 * TextTotal(rows), 25 + 15 * |rows|, 7 + 2 * |rows|)
    case Votes => Charge(2 + 326 * |rows| + 6 * TextTotal(rows), 25 + 16 * |rows|, 7 + 2 * |rows|)
  }

  /** The metadata of row `i` is of the right joins and names no row before it. */
  predicate Fresh(kind: Kind, rows: seq<Metadata>, i: nat)
    requires i < |rows|
  {
    && (kind.Boards? ==> rows[i].joinId.Some? && rows[i].outcomeId.None?)
    && forall k | 0 <= k < i :: !(rows[k].id == rows[i].id && rows[k].joinId == rows[i].joinId && rows[k].outcomeId == rows[i].outcomeId)
  }

  predicate RowFine(kind: Kind, rows: seq<Metadata>, i: nat)
    requires i < |rows|
  {
    rows[i].scalarUtf8 < 1_000_000_000_000_000_000_000_000 && Fresh(kind, rows, i)
  }

  /** The metadata passes iff every row is fine, and else the first that is not decides how it is refused. */
  lemma {:induction false} MetadataPassesIff(kind: Kind, rows: seq<Metadata>, i: nat)
    requires i <= |rows|
    ensures CheckMetadata(kind, rows, i).None? <==> forall k | i <= k < |rows| :: RowFine(kind, rows, k)
    ensures forall bad | i <= bad < |rows| && !RowFine(kind, rows, bad) && (forall k | i <= k < bad :: RowFine(kind, rows, k)) ::
              CheckMetadata(kind, rows, i) == Some(if rows[bad].scalarUtf8 >= 1_000_000_000_000_000_000_000_000 then Unavailable else Invalid)
    decreases |rows| - i
  {
    if i < |rows| {
      FineIff(kind, rows, i);
      MetadataStep(kind, rows, i);
      hide RowFine, CheckMetadata;
      MetadataPassesIff(kind, rows, i + 1);
    }
  }

  lemma {:induction false} MetadataStep(kind: Kind, rows: seq<Metadata>, i: nat)
    requires i < |rows|
    ensures CheckMetadata(kind, rows, i) ==
              if RowFine(kind, rows, i) then CheckMetadata(kind, rows, i + 1)
              else Some(if rows[i].scalarUtf8 >= 1_000_000_000_000_000_000_000_000 then Unavailable else Invalid)
  {
    FineIff(kind, rows, i);
    hide RowFine;
  }

  lemma {:induction false} FineIff(kind: Kind, rows: seq<Metadata>, i: nat)
    requires i < |rows|
    ensures RowFine(kind, rows, i) <==>
              && Countable(rows[i].scalarUtf8) && !(kind.Boards? && (rows[i].joinId.None? || rows[i].outcomeId.Some?))
              && !exists k :: 0 <= k < i && rows[k].Key() == rows[i].Key()
  {
  }

  /** The later row is the earlier one in its keys, times and observed fields, and no longer. */
  predicate Retained(observe: Row -> Digest, was: Row, now: Row) {
    && now.id == was.id && now.joinId == was.joinId && now.outcomeId == was.outcomeId
    && now.rawAt == was.rawAt && now.cursorAt == was.cursorAt && observe(now) == observe(was)
    && AllScalar(was.values) && AllScalar(now.values) && TextBytes(now) <= TextBytes(was)
  }

  predicate RetainedOf(observe: Row -> Digest, first: seq<Row>, now: Row) {
    exists k :: 0 <= k < |first| && Retained(observe, first[k], now)
  }

  lemma {:induction false} GateByIndex(admitted: seq<Metadata>, now: seq<Metadata>)
    ensures Gate(admitted, now) <==> |now| <= |admitted| && forall i | 0 <= i < |now| :: Admits(admitted, now[i])
  {
    hide Admits;
    if forall i | 0 <= i < |now| :: Admits(admitted, now[i]) {
      forall m | m in now ensures Admits(admitted, m) {
        var i :| 0 <= i < |now| && now[i] == m;
      }
    }
  }

  predicate AllRetained(observe: Row -> Digest, first: seq<Row>, second: seq<Row>) {
    |second| <= |first| && forall i | 0 <= i < |second| :: RetainedOf(observe, first, second[i])
  }

  lemma {:induction false} GateIff(observe: Row -> Digest, kind: Kind, first: seq<Row>, second: seq<Row>)
    requires (forall row | row in first :: WellFormed(kind, row)) && (forall row | row in second :: WellFormed(kind, row))
    ensures Gate(Preflight(observe, kind, first), Preflight(observe, kind, second)) <==> AllRetained(observe, first, second)
  {
    hide Measure, WellFormed, Admits, RetainedOf, Gate;
    var admitted, now := Preflight(observe, kind, first), Preflight(observe, kind, second);
    GateByIndex(admitted, now);
    forall i | 0 <= i < |second| ensures Admits(admitted, now[i]) <==> RetainedOf(observe, first, second[i]) {
      AdmitsIff(observe, kind, first, second[i]);
    }
  }

  lemma {:induction false} AdmitsIff(observe: Row -> Digest, kind: Kind, first: seq<Row>, row: Row)
    requires (forall r | r in first :: WellFormed(kind, r)) && WellFormed(kind, row)
    ensures Admits(Preflight(observe, kind, first), Measure(observe, kind, row)) <==> RetainedOf(observe, first, row)
  {
    var admitted := Preflight(observe, kind, first);
    hide Measure, WellFormed, Preflight, Matches, Retained;
    forall k | 0 <= k < |first| ensures Matches(admitted[k], Measure(observe, kind, row)) <==> Retained(observe, first[k], row) {
      assert first[k] in first;
      MatchesIff(observe, kind, first[k], row);
    }
  }

  lemma {:induction false} MatchesIff(observe: Row -> Digest, kind: Kind, was: Row, now: Row)
    requires WellFormed(kind, was) && WellFormed(kind, now)
    ensures Matches(Measure(observe, kind, was), Measure(observe, kind, now)) <==> Retained(observe, was, now)
  {
    hide Utf8Sum, Utf8;
  }

  lemma {:induction false} TotalIs(observe: Row -> Digest, kind: Kind, rows: seq<Row>)
    requires forall row | row in rows :: WellFormed(kind, row)
    ensures (forall row | row in rows :: AllScalar(row.values)) && Sum(Scalars(Preflight(observe, kind, rows))) == TextTotal(rows)
  {
    hide Utf8Sum, Utf8;
    if rows != [] {
      assert rows[0] in rows;
      var m := Preflight(observe, kind, rows);
      assert m[1..] == Preflight(observe, kind, rows[1..]);
      assert Scalars(m)[1..] == Scalars(m[1..]);
      TotalIs(observe, kind, rows[1..]);
    }
  }

  predicate AllFine(kind: Kind, rows: seq<Metadata>) {
    forall i | 0 <= i < |rows| :: RowFine(kind, rows, i)
  }

  /** The first row that is not fine names a row before it, or has the wrong joins. */
  predicate FirstStale(kind: Kind, rows: seq<Metadata>) {
    exists bad :: 0 <= bad < |rows| && !Fresh(kind, rows, bad) && rows[bad].scalarUtf8 < 1_000_000_000_000_000_000_000_000
                  && forall k | 0 <= k < bad :: RowFine(kind, rows, k)
  }

  lemma {:induction false} CheckIs(kind: Kind, rows: seq<Metadata>)
    ensures CheckMetadata(kind, rows, 0) == if AllFine(kind, rows) then None else Some(if FirstStale(kind, rows) then Invalid else Unavailable)
  {
    MetadataPassesIff(kind, rows, 0);
    if !AllFine(kind, rows) {
      var bad := FirstBad(kind, rows, 0);
      hide CheckMetadata, Fresh;
      if FirstStale(kind, rows) {
        var stale :| 0 <= stale < |rows| && !Fresh(kind, rows, stale) && rows[stale].scalarUtf8 < 1_000_000_000_000_000_000_000_000
                     && forall k | 0 <= k < stale :: RowFine(kind, rows, k);
        assert !RowFine(kind, rows, stale);
        assert bad == stale;
      }
    }
  }

  /** Both snapshots are taken in, and the read comes down to these conditions on their rows. */
  ghost predicate PageLoads(observe: Row -> Digest, kind: Kind, take: nat, first: seq<Row>, second: seq<Row>, grants: Charge -> bool)
    requires forall row | row in first :: WellFormed(kind, row)
  {
    && 1 <= take <= 501 && |first| <= take
    && AllFine(kind, Preflight(observe, kind, first))
    && (forall row | row in first :: AllScalar(row.values)) && grants(Reserved(kind, first))
    && AllRetained(observe, first, second)
  }

  /** A page is returned exactly then, and is the later snapshot; of what is refused, a bad request or a stale row is Invalid. */
  lemma {:induction false} PageOutcome(observe: Row -> Digest, kind: Kind, take: nat, first: seq<Row>, second: seq<Row>, grants: Charge -> bool)
    requires forall row | row in first + second :: WellFormed(kind, row)
    ensures forall row | row in first :: WellFormed(kind, row)
    ensures LoadPage(observe, kind, take, first, second, grants) ==
              if PageLoads(observe, kind, take, first, second, grants) then Ok(second)
              else if !(1 <= take <= 501 && |first| <= take) || FirstStale(kind, Preflight(observe, kind, first)) then Err(Invalid)
              else Err(Unavailable)
  {
    assert forall row :: row in first || row in second ==> row in first + second;
    hide WellFormed, Measure, Gate, AllRetained, CheckMetadata, Identified, TextTotal, Preflight, AllFine, FirstStale, PageCost, Sum;
    var m := Preflight(observe, kind, first);
    GateIff(observe, kind, first, second);
    CheckIs(kind, m);
    ReservedIs(observe, kind, first);
    StaleNotFine(kind, m);
    forall i | 0 <= i < |second| && Gate(m, Preflight(observe, kind, second)) ensures Identified(m, second[i]) {
      GatedIdentified(observe, kind, m, second, i);
    }
  }

  lemma {:induction false} StaleNotFine(kind: Kind, rows: seq<Metadata>)
    ensures FirstStale(kind, rows) ==> !AllFine(kind, rows)
  {
    hide Fresh;
    if FirstStale(kind, rows) {
      var stale :| 0 <= stale < |rows| && !Fresh(kind, rows, stale) && rows[stale].scalarUtf8 < 1_000_000_000_000_000_000_000_000;
      assert !RowFine(kind, rows, stale);
    }
  }

  lemma {:induction false} ReservedIs(observe: Row -> Digest, kind: Kind, rows: seq<Row>)
    requires forall row | row in rows :: WellFormed(kind, row)
    ensures (forall row | row in rows :: AllScalar(row.values)) && PageCost(kind, Preflight(observe, kind, rows)) == Reserved(kind, rows)
  {
    TotalIs(observe, kind, rows);
  }

  lemma {:induction false} GatedIdentified(observe: Row -> Digest, kind: Kind, m: seq<Metadata>, second: seq<Row>, i: nat)
    requires (forall row | row in second :: WellFormed(kind, row)) && i < |second| && Gate(m, Preflight(observe, kind, second))
    ensures Identified(m, second[i])
  {
    var now := Preflight(observe, kind, second);
    assert now[i] in now;
    GatedRowIdentified(observe, kind, m, second[i]);
  }

  lemma {:induction false} FirstBad(kind: Kind, rows: seq<Metadata>, i: nat) returns (bad: nat)
    requires i <= |rows| && (forall k | 0 <= k < i :: RowFine(kind, rows, k)) && !(forall k | 0 <= k < |rows| :: RowFine(kind, rows, k))
    ensures bad < |rows| && !RowFine(kind, rows, bad) && forall k | 0 <= k < bad :: RowFine(kind, rows, k)
    decreases |rows| - i
  {
    hide RowFine;
    if RowFine(kind, rows, i) { bad := FirstBad(kind, rows, i + 1); } else { bad := i; }
  }

  // ---------- Proxy status ----------

  /** The grants that have a revocation. */
  function Revoked(grants: seq<Grant>): set<nat> {
    set i | 0 <= i < |grants| && grants[i].revocation.Some?
  }

  function One(g: Grant): nat {
    if g.revocation.Some? then 1 else 0
  }

  lemma {:induction false} RevocationsAppend(grants: seq<Grant>, g: Grant)
    ensures Revocations(grants + [g]) == Revocations(grants) + One(g)
  {
    if grants == [] {
      assert grants + [g] == [g] && [g][1..] == [];
    } else {
      assert (grants + [g])[1..] == grants[1..] + [g];
      RevocationsAppend(grants[1..], g);
    }
  }

  lemma {:induction false} RevocationsAre(grants: seq<Grant>)
    ensures Revocations(grants) == |Revoked(grants)|
    decreases |grants|
  {
    if grants == [] {
      NoGrants();
    } else {
      var n := |grants| - 1;
      var before, last := grants[..n], grants[n];
      assert before + [last] == grants;
      RevocationsAre(before);
      RevocationsAppend(before, last);
      RevokedGrows(before, last);
    }
  }

  lemma {:induction false} RevokedGrows(grants: seq<Grant>, g: Grant)
    ensures |Revoked(grants + [g])| == |Revoked(grants)| + One(g)
  {
    if g.revocation.Some? {
      assert Revoked(grants + [g]) == Revoked(grants) + {|grants|};
      assert |grants| !in Revoked(grants);
    } else {
      assert Revoked(grants + [g]) == Revoked(grants);
    }
  }

  /** The bytes a proxy preflight counts: both ids, and every field of every grant and revocation. */
  function ProxyBytes(voteId: string, memberId: string, grants: seq<Grant>): nat
    requires Grants(grants)
  {
    |Utf8(voteId)| + |Utf8(memberId)| + GrantTotal(grants)
  }

  function GrantTotal(grants: seq<Grant>): nat
    requires Grants(grants)
  {
    if grants == [] then 0
    else
      assert grants[0] in grants;
      Utf8Sum(grants[0].values) + (if grants[0].revocation.Some? then Utf8Sum(grants[0].revocation.value) else 0) + GrantTotal(grants[1..])
  }

  lemma {:induction false} GrantTotalIs(grants: seq<Grant>)
    requires Grants(grants)
    ensures GrantTotal(grants) == GrantBytes(grants)
  {
    hide Utf8Sum;
    if grants != [] { GrantTotalIs(grants[1..]); }
  }

  /** The counts and bytes are possible ones: two ids of 36 bytes at least, and no more than them without grants. */
  predicate Plausible(grants: nat, revoked: nat, bytes: nat) {
    && grants < 1_000_000_000_000_000_000_000_000 && revoked < 1_000_000_000_000_000_000_000_000 && bytes < 1_000_000_000_000_000_000_000_000
    && revoked <= grants && bytes >= 72 && (grants == 0 ==> bytes == 72)
  }

  /** A grant of the vote to or by the member, by the names of its fields. */
  ghost predicate GrantAskedFor(voteId: string, memberId: string, g: Grant) {
    && (exists id :: Says(GRANT_KEYS, g.values, 0, "grant_id", Str(id)))
    && Says(GRANT_KEYS, g.values, 1, "vote_id", Str(voteId))
    && (Says(GRANT_KEYS, g.values, 2, "principal_member_id", Str(memberId)) || Says(GRANT_KEYS, g.values, 3, "holder_member_id", Str(memberId)))
    && (g.revocation.Some? ==> exists id :: Says(REVOCATION_KEYS, g.revocation.value, 0, "revocation_id", Str(id)))
  }

  ghost predicate AskedFor(voteId: string, memberId: string, grants: seq<Grant>) {
    && (forall i | 0 <= i < |grants| :: GrantAskedFor(voteId, memberId, grants[i]))
    && forall i, j, id | 0 <= i < j < |grants| && Says(GRANT_KEYS, grants[i].values, 0, "grant_id", id) :: !Says(GRANT_KEYS, grants[j].values, 0, "grant_id", id)
  }

  lemma {:induction false} GrantAskedForIff(voteId: string, memberId: string, g: Grant)
    requires g.Valid()
    ensures OwnGrant(voteId, memberId, g) <==> GrantAskedFor(voteId, memberId, g)
    ensures |g.values| == 8 && Says(GRANT_KEYS, g.values, 0, "grant_id", g.values[0])
  {
    if g.values[0].Str? { assert Says(GRANT_KEYS, g.values, 0, "grant_id", Str(g.values[0].text)); }
    if g.revocation.Some? && g.revocation.value[0].Str? {
      assert Says(REVOCATION_KEYS, g.revocation.value, 0, "revocation_id", Str(g.revocation.value[0].text));
    }
  }

  lemma {:induction false} OwnIff(voteId: string, memberId: string, grants: seq<Grant>)
    requires Grants(grants)
    ensures OwnGrants(voteId, memberId, grants) <==> AskedFor(voteId, memberId, grants)
  {
    hide OwnGrant, GrantAskedFor, GRANT_KEYS;
    forall i | 0 <= i < |grants|
      ensures grants[i] in grants && (OwnGrant(voteId, memberId, grants[i]) <==> GrantAskedFor(voteId, memberId, grants[i]))
      ensures |grants[i].values| == 8 && Says(GRANT_KEYS, grants[i].values, 0, "grant_id", grants[i].values[0])
    {
      GrantAskedForIff(voteId, memberId, grants[i]);
    }
    if AskedFor(voteId, memberId, grants) {
      forall i, j | 0 <= i < j < |grants| ensures grants[i] in grants && grants[j] in grants && grants[i].values[0] != grants[j].values[0] {
        assert Says(GRANT_KEYS, grants[i].values, 0, "grant_id", grants[i].values[0]);
        assert !Says(GRANT_KEYS, grants[j].values, 0, "grant_id", grants[i].values[0]);
      }
    }
  }

  /** The later snapshot is empty, or the admitted one in counts and digest and no longer. */
  predicate GrantsRetained(observe: seq<Grant> -> Digest, nothing: Digest, voteId: string, memberId: string, first: seq<Grant>, second: seq<Grant>)
    requires Grants(first) && Grants(second)
  {
    || (second == [] && ProxyBytes(voteId, memberId, second) == 72 && observe(second) == nothing)
    || (|second| == |first| && |Revoked(second)| == |Revoked(first)| && ProxyBytes(voteId, memberId, second) <= ProxyBytes(voteId, memberId, first)
        && observe(second) == observe(first))
  }

  ghost predicate ProxyLoads(observe: seq<Grant> -> Digest, nothing: Digest, voteId: string, memberId: string, first: seq<Grant>, second: seq<Grant>, grants: Charge -> bool)
    requires Grants(first) && Grants(second)
  {
    var r, v, s := |first|, |Revoked(first)|, ProxyBytes(voteId, memberId, first);
    && Plausible(r, v, s) && grants(Charge(54 + 186 * r + 77 * v + 6 * s, 26 + 9 * r + 4 * v, 8 + r + v))
    && GrantsRetained(observe, nothing, voteId, memberId, first, second)
    && Plausible(|second|, |Revoked(second)|, ProxyBytes(voteId, memberId, second))
    && AskedFor(voteId, memberId, second)
  }

  /** A proxy status is returned exactly then, whatever the ids and the snapshots, and is the later snapshot. */
  lemma {:induction false} ProxyOutcome(observe: seq<Grant> -> Digest, nothing: Digest, voteId: string, memberId: string, first: seq<Grant>, second: seq<Grant>, grants: Charge -> bool)
    requires Grants(first) && Grants(second)
    ensures var r := LoadProxy(observe, nothing, voteId, memberId, first, second, grants);
            && (r.Ok? <==> ProxyLoads(observe, nothing, voteId, memberId, first, second, grants))
            && (r.Ok? ==> r.value == second)
  {
    hide OwnGrants, AskedFor, Revoked, MeasureProxy, Grants, ProxyBytes, ProxyCost, GrantsRetained, Plausible, ProxyGate;
    OwnIff(voteId, memberId, second);
    ProxyCostIff(observe, voteId, memberId, first);
    ProxyCostIff(observe, voteId, memberId, second);
    ProxyGateIff(observe, nothing, voteId, memberId, first, second);
  }

  lemma {:induction false} ProxyCostIff(observe: seq<Grant> -> Digest, voteId: string, memberId: string, grants: seq<Grant>)
    requires Grants(grants)
    ensures var r, v, s := |grants|, |Revoked(grants)|, ProxyBytes(voteId, memberId, grants);
            var cost := ProxyCost(MeasureProxy(observe, voteId, memberId, grants));
            && (cost.Ok? <==> Plausible(r, v, s))
            && (cost.Ok? ==> cost.value == Charge(54 + 186 * r + 77 * v + 6 * s, 26 + 9 * r + 4 * v, 8 + r + v))
  {
    RevocationsAre(grants);
    GrantTotalIs(grants);
    hide Grants, Utf8, GrantBytes, GrantTotal, Revoked, Revocations;
  }

  lemma {:induction false} ProxyGateIff(observe: seq<Grant> -> Digest, nothing: Digest, voteId: string, memberId: string, first: seq<Grant>, second: seq<Grant>)
    requires Grants(first) && Grants(second)
    ensures ProxyGate(MeasureProxy(observe, voteId, memberId, first), MeasureProxy(observe, voteId, memberId, second), nothing) <==>
              GrantsRetained(observe, nothing, voteId, memberId, first, second)
  {
    RevocationsAre(first);
    RevocationsAre(second);
    GrantTotalIs(first);
    GrantTotalIs(second);
    NoGrants();
    hide Grants, Utf8, GrantBytes, GrantTotal, Revoked, Revocations;
  }

  lemma {:induction false} NoGrants()
    ensures Revoked([]) == {} && Revocations([]) == 0
  {
  }

  // ---------- Lineage ----------

  /** The later edge is the earlier one in its columns and digest, its text and classes are no longer, and its classes have as many arrays. */
  predicate EdgeRetained(observe: Edge -> Digest, was: Edge, now: Edge) {
    && now.id == was.id && now.oldVote == was.oldVote && now.newVote == was.newVote && now.createdAt == was.createdAt
    && observe(now) == observe(was)
    && AllScalar(was.values) && AllScalar(now.values) && Utf8Sum(now.values) <= Utf8Sum(was.values)
    && |Render(now.classes, Spaced)| <= |Render(was.classes, Spaced)| && Containers(now.classes) == Containers(was.classes)
  }

  predicate EdgeRetainedOf(observe: Edge -> Digest, first: seq<Edge>, now: Edge) {
    exists k :: 0 <= k < |first| && EdgeRetained(observe, first[k], now)
  }

  predicate EdgeAskedFor(first: seq<Edge>, e: Edge) {
    exists k :: 0 <= k < |first| && first[k].id == e.id
                && Says(EDGE_KEYS, e.values, 1, "old_vote_id", Str(first[k].oldVote)) && Says(EDGE_KEYS, e.values, 2, "new_vote_id", Str(first[k].newVote))
  }

  function EdgeBytes(edges: seq<Edge>): nat
    requires forall e | e in edges :: AllScalar(e.values)
  {
    if edges == [] then 0
    else
      assert edges[0] in edges && AllScalar(edges[0].values);
      6 * Utf8Sum(edges[0].values) + |Render(edges[0].classes, Spaced)| + EdgeBytes(edges[1..])
  }

  function EdgeArrays(edges: seq<Edge>): nat {
    if edges == [] then 0 else Containers(edges[0].classes) + EdgeArrays(edges[1..])
  }

  ghost predicate LineageLoads(observe: Edge -> Digest, voteId: string, first: seq<Edge>, second: seq<Edge>, grants: Charge -> bool)
    requires forall e | e in first :: AllScalar(e.values)
  {
    && |first| <= 2 && EdgesFine(voteId, first)
    && grants(Charge(252 + 227 * |first| + EdgeBytes(first), 25 + 9 * |first|, 8 + |first| + EdgeArrays(first)))
    && AllEdgesRetained(observe, first, second)
    && (forall e | e in second :: EdgeAskedFor(first, e))
  }

  lemma {:induction false} LineageChargeIs(observe: Edge -> Digest, edges: seq<Edge>)
    requires forall e | e in edges :: e.Valid()
    ensures forall e | e in edges :: AllScalar(e.values)
    ensures var m := MeasureEdges(observe, edges);
            && 6 * ScalarTotal(m) + JsonTotal(m) == EdgeBytes(edges) && ContainerTotal(m) == EdgeArrays(edges)
            && LineageCharge(m) == Charge(252 + 227 * |edges| + EdgeBytes(edges), 25 + 9 * |edges|, 8 + |edges| + EdgeArrays(edges))
  {
    hide Utf8Sum, Render, Containers;
    if edges != [] {
      assert edges[0] in edges;
      assert MeasureEdges(observe, edges)[1..] == MeasureEdges(observe, edges[1..]);
      LineageChargeIs(observe, edges[1..]);
    }
  }

  lemma {:induction false} EdgeAdmittedIff(observe: Edge -> Digest, first: seq<Edge>, e: Edge)
    requires (forall x | x in first :: x.Valid()) && e.Valid()
    ensures EdgeAdmitted(MeasureEdges(observe, first), MeasureEdge(observe, e)) <==> EdgeRetainedOf(observe, first, e)
    ensures OwnEdge(MeasureEdges(observe, first), e) <==> EdgeAskedFor(first, e)
  {
    hide Utf8Sum, Render, Containers;
    var m := MeasureEdges(observe, first);
    forall k | 0 <= k < |first| ensures EdgeFits(m[k], MeasureEdge(observe, e)) <==> EdgeRetained(observe, first[k], e) {
      assert first[k] in first;
    }
    hide EdgeFits, EdgeRetained, MeasureEdge;
    forall k | 0 <= k < |first| ensures m[k].id == first[k].id && m[k].oldVote == first[k].oldVote && m[k].newVote == first[k].newVote {
      MeasuredColumns(observe, first[k]);
    }
    assert EDGE_KEYS[1] == "old_vote_id" && EDGE_KEYS[2] == "new_vote_id";
  }

  lemma {:induction false} MeasuredColumns(observe: Edge -> Digest, e: Edge)
    requires e.Valid()
    ensures var m := MeasureEdge(observe, e); m.id == e.id && m.oldVote == e.oldVote && m.newVote == e.newVote
  {
  }

  predicate AllEdgesRetained(observe: Edge -> Digest, first: seq<Edge>, second: seq<Edge>) {
    |second| <= |first| && forall i | 0 <= i < |second| :: EdgeRetainedOf(observe, first, second[i])
  }

  lemma {:induction false} LineageGateByIndex(admitted: seq<EdgeMetadata>, now: seq<EdgeMetadata>)
    ensures LineageGate(admitted, now) <==> |now| <= |admitted| && forall i | 0 <= i < |now| :: EdgeAdmitted(admitted, now[i])
  {
    hide EdgeAdmitted;
    if forall i | 0 <= i < |now| :: EdgeAdmitted(admitted, now[i]) {
      forall m | m in now ensures EdgeAdmitted(admitted, m) {
        var i :| 0 <= i < |now| && now[i] == m;
      }
    }
  }

  lemma {:induction false} LineageGateIff(observe: Edge -> Digest, first: seq<Edge>, second: seq<Edge>)
    requires (forall e | e in first :: e.Valid()) && (forall e | e in second :: e.Valid())
    ensures LineageGate(MeasureEdges(observe, first), MeasureEdges(observe, second)) <==> AllEdgesRetained(observe, first, second)
  {
    hide EdgeAdmitted, EdgeRetainedOf, MeasureEdge, Edge.Valid, LineageGate;
    var m, now := MeasureEdges(observe, first), MeasureEdges(observe, second);
    LineageGateByIndex(m, now);
    forall i | 0 <= i < |second| ensures EdgeAdmitted(m, now[i]) <==> EdgeRetainedOf(observe, first, second[i]) {
      EdgeAdmittedIff(observe, first, second[i]);
    }
  }

  /** Every edge touches the vote and is short enough to count. */
  predicate EdgesFine(voteId: string, edges: seq<Edge>) {
    forall e | e in edges ::
      && (e.oldVote == voteId || e.newVote == voteId)
      && AllScalar(e.values) && Utf8Sum(e.values) < 1_000_000_000_000_000_000_000_000
      && |Render(e.classes, Spaced)| < 1_000_000_000_000_000_000_000_000 && Containers(e.classes) < 1_000_000_000_000_000_000_000_000
  }

  lemma {:induction false} EdgesFineIff(observe: Edge -> Digest, voteId: string, edges: seq<Edge>)
    requires forall e | e in edges :: e.Valid()
    ensures EdgesFine(voteId, edges) <==>
              && (forall m | m in MeasureEdges(observe, edges) :: Touches(voteId, m))
              && (forall m | m in MeasureEdges(observe, edges) :: EdgeMeasured(m))
  {
    hide Render, Containers, Utf8Sum;
    var ms := MeasureEdges(observe, edges);
    forall e | e in edges ensures MeasureEdge(observe, e) in ms {
      var i :| 0 <= i < |edges| && edges[i] == e;
      assert ms[i] in ms;
    }
    forall m | m in ms ensures exists e :: e in edges && e.Valid() && m == MeasureEdge(observe, e) {
      var i :| 0 <= i < |ms| && ms[i] == m;
      assert edges[i] in edges;
    }
  }

  /** The conditions under which a lineage is returned, on the edges alone. */
  lemma {:induction false} LineageOutcome(observe: Edge -> Digest, voteId: string, first: seq<Edge>, second: seq<Edge>, grants: Charge -> bool)
    requires Edges(first) && Edges(second)
    ensures forall e | e in first :: AllScalar(e.values)
    ensures LineageLoads(observe, voteId, first, second, grants) <==>
              && |first| <= 2
              && (forall m | m in MeasureEdges(observe, first) :: Touches(voteId, m))
              && (forall m | m in MeasureEdges(observe, first) :: EdgeMeasured(m))
              && grants(LineageCharge(MeasureEdges(observe, first)))
              && LineageGate(MeasureEdges(observe, first), MeasureEdges(observe, second))
              && (forall e | e in second :: OwnEdge(MeasureEdges(observe, first), e))
  {
    hide LineageGate, AllEdgesRetained, EdgeAskedFor, OwnEdge, LineageCharge, EdgeBytes, EdgeArrays, EdgesFine, MeasureEdges, Touches, EdgeMeasured, Edge.Valid;
    LineageChargeIs(observe, first);
    LineageGateIff(observe, first, second);
    EdgesFineIff(observe, voteId, first);
    forall e | e in second ensures OwnEdge(MeasureEdges(observe, first), e) <==> EdgeAskedFor(first, e) {
      EdgeAdmittedIff(observe, first, e);
    }
  }
}
