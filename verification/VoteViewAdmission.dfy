/**
  Admission by size of the proxy status and of the lineage of one vote
  (artifacts/server/src/board-vote-read-projection.ts), and the tool results around
  them (artifacts/server/src/surface-read.ts).
*/
module VoteViewAdmission {
  import opened Wrappers
  import opened JsonSize
  import opened KeyNames
  import opened BoardVoteAdmission

  // ---------- Proxy status ----------

  const GRANT_KEYS: seq<string> := ["grant_id", "vote_id", "principal_member_id", "holder_member_id", "policy", "active", "granted_at", "expires_at"]

  const REVOCATION_KEYS: seq<string> := ["revocation_id", "reason", "effect", "revoked_at"]

  const PROXY_KEYS: seq<string> := ["vote_id", "member_id"]

  const LINEAGE_KEYS: seq<string> := ["vote_id"]

  /** A grant joined to its revocation, if there is one. */
  datatype Grant = Grant(values: seq<Json>, revocation: Option<seq<Json>>)
  {
    predicate Valid() {
      && |values| == |GRANT_KEYS| && AllScalar(values)
      && (revocation.Some? ==> |revocation.value| == |REVOCATION_KEYS| && AllScalar(revocation.value))
    }

    function Revocation(): Json
      requires Valid()
    {
      if revocation.Some? then Obj(Fields(REVOCATION_KEYS, revocation.value)) else Null
    }

    function Item(): Json
      requires Valid()
    {
      Obj(Fields(GRANT_KEYS, values) + [Member("revocation", Revocation())])
    }

    function TextBytes(): nat
      requires Valid()
    {
      Utf8Sum(values) + if revocation.Some? then Utf8Sum(revocation.value) else 0
    }
  }

  predicate Grants(grants: seq<Grant>) {
    forall g | g in grants :: g.Valid()
  }

  function GrantItems(grants: seq<Grant>): seq<Json>
    requires Grants(grants)
  {
    if grants == [] then []
    else
      assert grants[0] in grants;
      [grants[0].Item()] + GrantItems(grants[1..])
  }

  function Revocations(grants: seq<Grant>): (r: nat)
    ensures r <= |grants|
  {
    if grants == [] then 0 else (if grants[0].revocation.Some? then 1 else 0) + Revocations(grants[1..])
  }

  function GrantBytes(grants: seq<Grant>): nat
    requires Grants(grants)
  {
    if grants == [] then 0
    else
      assert grants[0] in grants;
      grants[0].TextBytes() + GrantBytes(grants[1..])
  }

  datatype ProxyMetadata = ProxyMetadata(grants: nat, revocations: nat, scalarUtf8: nat, observation: Digest)

  /** The measuring query; `observe` hashes the hashes of the selected grants, in order. */
  function MeasureProxy(observe: seq<Grant> -> Digest, voteId: string, memberId: string, grants: seq<Grant>): ProxyMetadata
    requires Grants(grants)
  {
    ProxyMetadata(|grants|, Revocations(grants), |Utf8(voteId)| + |Utf8(memberId)| + GrantBytes(grants), observe(grants))
  }

  /** `proxyStatusCost`. */
  function ProxyCost(m: ProxyMetadata): Result<Charge, Failure> {
    if !Countable(m.grants) || !Countable(m.revocations) || !Countable(m.scalarUtf8) then Err(Unavailable)
    else if m.revocations > m.grants || m.scalarUtf8 < 72 || (m.grants == 0 && (m.revocations != 0 || m.scalarUtf8 != 72)) then Err(Invalid)
    else Ok(Charge(54 + 186 * m.grants + 77 * m.revocations + 6 * m.scalarUtf8, 26 + 9 * m.grants + 4 * m.revocations, 8 + m.grants + m.revocations))
  }

  predicate EmptyProxy(m: ProxyMetadata, nothing: Digest) {
    m == ProxyMetadata(0, 0, 72, nothing)
  }

  /** The gate: nothing is left, or the same grants within what was admitted. */
  predicate ProxyGate(admitted: ProxyMetadata, now: ProxyMetadata, nothing: Digest) {
    || EmptyProxy(now, nothing)
    || (now.grants == admitted.grants && now.revocations == admitted.revocations
        && now.scalarUtf8 <= admitted.scalarUtf8 && now.observation == admitted.observation)
  }

  /** One grant: text for its id, the vote asked for, the member asked for on one side, and an id for its revocation. */
  predicate OwnGrant(voteId: string, memberId: string, g: Grant)
    requires g.Valid()
  {
    && g.values[0].Str? && g.values[1] == Str(voteId) && (g.values[2] == Str(memberId) || g.values[3] == Str(memberId))
    && (g.revocation.Some? ==> g.revocation.value[0].Str?)
  }

  /** The checks on the loaded grants. */
  predicate OwnGrants(voteId: string, memberId: string, grants: seq<Grant>)
    requires Grants(grants)
  {
    && (forall i | 0 <= i < |grants| :: grants[i] in grants && OwnGrant(voteId, memberId, grants[i]))
    && forall i, j | 0 <= i < j < |grants| :: grants[i] in grants && grants[j] in grants && grants[i].values[0] != grants[j].values[0]
  }

  /** The loop with its set of seen grants. */
  method CheckGrants(voteId: string, memberId: string, grants: seq<Grant>) returns (own: bool)
    requires Grants(grants)
    ensures own <==> OwnGrants(voteId, memberId, grants)
  {
    var seen: set<Json> := {};
    for i := 0 to |grants|
      invariant forall k | 0 <= k < i :: grants[k] in grants && OwnGrant(voteId, memberId, grants[k])
      invariant forall j, k | 0 <= j < k < i :: grants[j] in grants && grants[k] in grants && grants[j].values[0] != grants[k].values[0]
      invariant forall id :: id in seen <==> exists k :: 0 <= k < i && grants[k] in grants && grants[k].values[0] == id
    {
      var g := grants[i];
      assert g in grants;
      if !OwnGrant(voteId, memberId, g) || g.values[0] in seen { return false; }
      seen := seen + {g.values[0]};
    }
    own := true;
  }

  /** `loadAdmittedProxyStatus`. */
  function LoadProxy(observe: seq<Grant> -> Digest, nothing: Digest, voteId: string, memberId: string, first: seq<Grant>, second: seq<Grant>, grants: Charge -> bool): Result<seq<Grant>, Failure>
    requires Grants(first) && Grants(second)
  {
    var admitted := MeasureProxy(observe, voteId, memberId, first);
    var now := MeasureProxy(observe, voteId, memberId, second);
    var cost := ProxyCost(admitted);
    if cost.Err? then Err(cost.error)
    else if !grants(cost.value) || !ProxyGate(admitted, now, nothing) then Err(Unavailable)
    else if ProxyCost(now).Err? then Err(ProxyCost(now).error)
    else if !OwnGrants(voteId, memberId, second) then Err(Invalid)
    else Ok(second)
  }

  /** The view the tool returns. */
  function ProxyView(voteId: string, memberId: string, grants: seq<Grant>): Json
    requires Grants(grants)
  {
    Obj(Fields(PROXY_KEYS, [Str(voteId), Str(memberId)]) + [Member("grants", Arr(GrantItems(grants)))])
  }

  lemma {:induction false} GrantKeys()
    ensures KeyCost(GRANT_KEYS) == 162 && |GRANT_KEYS| == 8
  {
  }

  lemma {:induction false} GrantKeysPlain()
    ensures PlainKeys(GRANT_KEYS)
  {
    PlainEntitlementNames();
    PlainGrantNames();
    PlainGrantTimeNames();
    hide Plain;
  }

  lemma {:induction false} RevocationKeys()
    ensures KeyCost(REVOCATION_KEYS) == 75 && |REVOCATION_KEYS| == 4
  {
  }

  lemma {:induction false} RevocationKeysPlain()
    ensures PlainKeys(REVOCATION_KEYS)
  {
    PlainGrantTimeNames();
    PlainRevocationNames();
    hide Plain;
  }

  lemma {:induction false} PlainNames()
    ensures Plain("revocation") && Plain("grants") && Plain("lineage") && Plain("changed_component_classes")
    ensures PlainKeys(PROXY_KEYS) && PlainKeys(LINEAGE_KEYS)
  {
    PlainEntitlementNames();
    PlainRevocationNames();
    PlainCursorNames();
    PlainPayloadNames();
    hide Plain;
  }

  lemma {:induction false} ViewKeys()
    ensures KeyCost(PROXY_KEYS) == 36 && |PROXY_KEYS| == 2 && KeyCost(LINEAGE_KEYS) == 17 && |LINEAGE_KEYS| == 1
  {
  }

  lemma {:induction false} GrantBound(g: Grant)
    requires g.Valid()
    ensures var revoked := if g.revocation.Some? then 1 else 0;
            && |Render(g.Item(), Spaced)| <= 184 + 77 * revoked + 6 * g.TextBytes()
            && Properties(g.Item()) == 9 + 4 * revoked && Containers(g.Item()) == 1 + revoked
  {
    GrantKeys();
    GrantKeysPlain();
    RevocationKeys();
    RevocationKeysPlain();
    PlainNames();
    ViewKeys();
    LiteralSizes();
    hide Plain, PlainKeys, KeyCost, GRANT_KEYS, REVOCATION_KEYS, Utf8;
    FieldsAndOne(GRANT_KEYS, g.values, Member("revocation", g.Revocation()));
    if g.revocation.Some? { FlatObjectBound(REVOCATION_KEYS, g.revocation.value); }
  }

  lemma {:induction false} GrantsBound(grants: seq<Grant>)
    requires Grants(grants)
    ensures |RenderItems(GrantItems(grants), Spaced)| <= 186 * |grants| + 77 * Revocations(grants) + 6 * GrantBytes(grants)
    ensures ItemProperties(GrantItems(grants)) == 9 * |grants| + 4 * Revocations(grants)
    ensures ItemContainers(GrantItems(grants)) == |grants| + Revocations(grants)
  {
    hide Grant.Item, Grant.TextBytes, Render, Grant.Valid;
    if grants != [] {
      assert grants[0] in grants;
      GrantBound(grants[0]);
      GrantsBound(grants[1..]);
    }
  }

  lemma {:induction false} ProxyViewBound(voteId: string, memberId: string, grants: seq<Grant>)
    requires Grants(grants)
    ensures var view := ProxyView(voteId, memberId, grants);
            && |Render(view, Spaced)| <= 54 + 186 * |grants| + 77 * Revocations(grants) + 6 * (|Utf8(voteId)| + |Utf8(memberId)| + GrantBytes(grants))
            && Properties(view) <= 26 + 9 * |grants| + 4 * Revocations(grants)
            && Containers(view) <= 8 + |grants| + Revocations(grants)
  {
    PlainNames();
    ViewKeys();
    hide Plain, PlainKeys, KeyCost, GrantItems, Utf8, PROXY_KEYS, Grants, Fields, Revocations, GrantBytes;
    GrantsBound(grants);
    var values := [Str(voteId), Str(memberId)];
    assert values[1..] == [Str(memberId)] && values[1..][1..] == [];
    assert Utf8Sum(values) == ScalarUtf8(values[0]) + Utf8Sum(values[1..]);
    assert Utf8Sum(values[1..]) == ScalarUtf8(values[1]);
    FieldsAndOne(PROXY_KEYS, values, Member("grants", Arr(GrantItems(grants))));
  }

  /**
    The reservation of a proxy status read bounds the whole view it returns, whether the
    later snapshot is the admitted one within its bound or has become empty.
  */
  lemma {:induction false} ReservationBoundsProxy(observe: seq<Grant> -> Digest, nothing: Digest, voteId: string, memberId: string, first: seq<Grant>, second: seq<Grant>, grants: Charge -> bool, style: Style)
    requires Grants(first) && Grants(second)
    requires LoadProxy(observe, nothing, voteId, memberId, first, second, grants).Ok?
    ensures var items := LoadProxy(observe, nothing, voteId, memberId, first, second, grants).value;
            var reserved := ProxyCost(MeasureProxy(observe, voteId, memberId, first));
            var view := ProxyView(voteId, memberId, items);
            && items == second && reserved.Ok? && grants(reserved.value)
            && |Render(view, style)| <= reserved.value.bytes
            && Properties(view) <= reserved.value.properties && Containers(view) <= reserved.value.containers
  {
    hide ProxyView, Render, Properties, Containers, GrantBytes, Grants;
    ProxyViewBound(voteId, memberId, second);
    CompactNotLonger(ProxyView(voteId, memberId, second));
  }

  /** With identifiers of 36 bytes every measurement is acceptable, and the read succeeds iff the gate holds and the grants are those asked for. */
  lemma {:induction false} ProxyLoadsIff(observe: seq<Grant> -> Digest, nothing: Digest, voteId: string, memberId: string, first: seq<Grant>, second: seq<Grant>, grants: Charge -> bool)
    requires Grants(first) && Grants(second) && |Utf8(voteId)| == |Utf8(memberId)| == 36
    requires Countable(|first|) && Countable(72 + GrantBytes(first))
    requires var cost := ProxyCost(MeasureProxy(observe, voteId, memberId, first)); cost.Ok? ==> grants(cost.value)
    ensures LoadProxy(observe, nothing, voteId, memberId, first, second, grants).Ok? <==>
              && ProxyGate(MeasureProxy(observe, voteId, memberId, first), MeasureProxy(observe, voteId, memberId, second), nothing)
              && OwnGrants(voteId, memberId, second)
    ensures OwnGrants(voteId, memberId, first) ==> LoadProxy(observe, nothing, voteId, memberId, first, first, grants) == Ok(first)
  {
    hide OwnGrants;
  }

  // ---------- Lineage ----------

  const EDGE_KEYS: seq<string> := ["supersession_id", "old_vote_id", "new_vote_id", "old_package_sha256", "new_package_sha256", "secretary_member_id", "reason", "created_at"]

  /** A supersession with its columns as the gate compares them; `classes` is the jsonb of a text array. */
  datatype Edge = Edge(id: string, oldVote: string, newVote: string, createdAt: int, values: seq<Json>, classes: Json)
  {
    predicate Valid() {
      |values| == |EDGE_KEYS| && AllScalar(values) && values[0] == Str(id) && classes.Arr? && Objectless(classes)
    }

    function Item(): Json
      requires Valid()
    {
      Obj(Fields(EDGE_KEYS, values) + [Member("changed_component_classes", classes)])
    }
  }

  /** Arrays of arrays of scalars: what the query's node walk, which enters arrays only, counts in full. */
  predicate Objectless(j: Json) {
    match j
    case Obj(_) => false
    case Arr(items) => forall i | 0 <= i < |items| :: Objectless(items[i])
    case _ => true
  }

  lemma {:induction false} ObjectlessProperties(j: Json)
    requires Objectless(j)
    ensures Properties(j) == 0
    decreases j
  {
    if j.Arr? { ObjectlessItems(j.items); }
  }

  lemma {:induction false} ObjectlessItems(items: seq<Json>)
    requires forall i | 0 <= i < |items| :: Objectless(items[i])
    ensures ItemProperties(items) == 0
    decreases items
  {
    if items != [] {
      ObjectlessProperties(items[0]);
      ObjectlessItems(items[1..]);
    }
  }

  datatype EdgeMetadata = EdgeMetadata(id: string, oldVote: string, newVote: string, createdAt: int, scalarUtf8: nat, jsonUtf8: nat, jsonContainers: nat, observation: Digest)

  function MeasureEdge(observe: Edge -> Digest, e: Edge): EdgeMetadata
    requires e.Valid()
  {
    EdgeMetadata(e.id, e.oldVote, e.newVote, e.createdAt, Utf8Sum(e.values), |Render(e.classes, Spaced)|, Containers(e.classes), observe(e))
  }

  predicate Edges(edges: seq<Edge>) {
    (forall e | e in edges :: e.Valid()) && forall i, j | 0 <= i < j < |edges| :: edges[i].id != edges[j].id
  }

  function MeasureEdges(observe: Edge -> Digest, edges: seq<Edge>): (r: seq<EdgeMetadata>)
    requires forall e | e in edges :: e.Valid()
    ensures |r| == |edges| && forall i | 0 <= i < |r| :: edges[i] in edges && r[i] == MeasureEdge(observe, edges[i])
  {
    seq(|edges|, i requires 0 <= i < |edges| && edges[i] in edges => MeasureEdge(observe, edges[i]))
  }

  function ScalarTotal(metadata: seq<EdgeMetadata>): nat {
    if metadata == [] then 0 else metadata[0].scalarUtf8 + ScalarTotal(metadata[1..])
  }

  function JsonTotal(metadata: seq<EdgeMetadata>): nat {
    if metadata == [] then 0 else metadata[0].jsonUtf8 + JsonTotal(metadata[1..])
  }

  function ContainerTotal(metadata: seq<EdgeMetadata>): nat {
    if metadata == [] then 0 else metadata[0].jsonContainers + ContainerTotal(metadata[1..])
  }

  /** The reservation for a lineage of at most two edges. */
  function LineageCharge(metadata: seq<EdgeMetadata>): Charge {
    Charge(36 + 227 * |metadata| + 6 * (36 + ScalarTotal(metadata)) + JsonTotal(metadata), 25 + 9 * |metadata|, 8 + |metadata| + ContainerTotal(metadata))
  }

  predicate EdgeMeasured(m: EdgeMetadata) {
    Countable(m.scalarUtf8) && Countable(m.jsonUtf8) && Countable(m.jsonContainers)
  }

  lemma {:induction false} TotalsAppend(a: seq<EdgeMetadata>, m: EdgeMetadata)
    ensures ScalarTotal(a + [m]) == ScalarTotal(a) + m.scalarUtf8
    ensures JsonTotal(a + [m]) == JsonTotal(a) + m.jsonUtf8
    ensures ContainerTotal(a + [m]) == ContainerTotal(a) + m.jsonContainers
  {
    if a != [] {
      assert (a + [m])[1..] == a[1..] + [m];
      TotalsAppend(a[1..], m);
    }
  }

  /** `voteLineageCost`, with its three running totals. */
  method VoteLineageCost(metadata: seq<EdgeMetadata>) returns (r: Result<Charge, Failure>)
    ensures |metadata| > 2 ==> r == Err(Unavailable)
    ensures |metadata| <= 2 ==>
              (r.Ok? <==> forall m | m in metadata :: EdgeMeasured(m) && m.jsonUtf8 >= 1 && m.jsonContainers >= 1)
    ensures r.Ok? ==> r.value == LineageCharge(metadata)
    ensures |metadata| <= 2 && (forall m | m in metadata :: EdgeMeasured(m)) && r.Err? ==> r.error == Invalid
    ensures (forall m | m in metadata :: m.jsonUtf8 >= 1 && m.jsonContainers >= 1) && r.Err? ==> r.error == Unavailable
  {
    if |metadata| > 2 { return Err(Unavailable); }
    var s, n, o := 36, 0, 0;
    for i := 0 to |metadata|
      invariant s == 36 + ScalarTotal(metadata[..i]) && n == JsonTotal(metadata[..i]) && o == ContainerTotal(metadata[..i])
      invariant forall k | 0 <= k < i :: EdgeMeasured(metadata[k]) && metadata[k].jsonUtf8 >= 1 && metadata[k].jsonContainers >= 1
    {
      var row := metadata[i];
      assert row in metadata;
      if !EdgeMeasured(row) { return Err(Unavailable); }
      assert metadata[..i + 1] == metadata[..i] + [row];
      TotalsAppend(metadata[..i], row);
      s, n, o := s + row.scalarUtf8, n + row.jsonUtf8, o + row.jsonContainers;
      if row.jsonUtf8 < 1 || row.jsonContainers < 1 { return Err(Invalid); }
    }
    assert metadata[..|metadata|] == metadata;
    r := Ok(Charge(36 + 227 * |metadata| + 6 * s + n, 25 + 9 * |metadata|, 8 + |metadata| + o));
  }

  predicate EdgeFits(bound: EdgeMetadata, now: EdgeMetadata) {
    && bound.id == now.id && bound.oldVote == now.oldVote && bound.newVote == now.newVote && bound.createdAt == now.createdAt
    && now.scalarUtf8 <= bound.scalarUtf8 && now.jsonUtf8 <= bound.jsonUtf8 && now.jsonContainers == bound.jsonContainers
    && bound.observation == now.observation
  }

  predicate EdgeAdmitted(admitted: seq<EdgeMetadata>, now: EdgeMetadata) {
    exists k :: 0 <= k < |admitted| && EdgeFits(admitted[k], now)
  }

  predicate Touches(voteId: string, m: EdgeMetadata) {
    m.oldVote == voteId || m.newVote == voteId
  }

  /** The item names an admitted edge and both its votes. */
  predicate OwnEdge(admitted: seq<EdgeMetadata>, e: Edge)
    requires e.Valid()
  {
    exists k :: 0 <= k < |admitted| && admitted[k].id == e.id && e.values[1] == Str(admitted[k].oldVote) && e.values[2] == Str(admitted[k].newVote)
  }

  /** Behind the gate, an item made from the compared columns passes its identity check. */
  lemma {:induction false} SelectedEdgeOwn(observe: Edge -> Digest, admitted: seq<EdgeMetadata>, edges: seq<Edge>, e: Edge)
    requires Edges(edges) && e in edges && LineageGate(admitted, MeasureEdges(observe, edges))
    requires e.values[1] == Str(e.oldVote) && e.values[2] == Str(e.newVote)
    ensures OwnEdge(admitted, e)
  {
    var i :| 0 <= i < |edges| && edges[i] == e;
    assert EdgeAdmitted(admitted, MeasureEdges(observe, edges)[i]);
    var k :| 0 <= k < |admitted| && EdgeFits(admitted[k], MeasureEdges(observe, edges)[i]);
    assert admitted[k].id == e.id;
  }

  predicate LineageGate(admitted: seq<EdgeMetadata>, now: seq<EdgeMetadata>) {
    |now| <= |admitted| && forall m | m in now :: EdgeAdmitted(admitted, m)
  }

  function EdgeItems(edges: seq<Edge>): seq<Json>
    requires forall e | e in edges :: e.Valid()
  {
    if edges == [] then []
    else
      assert edges[0] in edges;
      [edges[0].Item()] + EdgeItems(edges[1..])
  }

  function LineageView(voteId: string, edges: seq<Edge>): Json
    requires forall e | e in edges :: e.Valid()
  {
    Obj(Fields(LINEAGE_KEYS, [Str(voteId)]) + [Member("lineage", Arr(EdgeItems(edges)))])
  }

  lemma {:induction false} EdgeKeys()
    ensures KeyCost(EDGE_KEYS) == 188 && |EDGE_KEYS| == 8
  {
  }

  lemma {:induction false} EdgeKeysPlain()
    ensures PlainKeys(EDGE_KEYS)
  {
    PlainRevocationNames();
    PlainSupersessionNames();
    PlainCreationNames();
    hide Plain;
  }

  lemma {:induction false} EdgeBound(e: Edge)
    requires e.Valid()
    ensures |Render(e.Item(), Spaced)| <= 225 + 6 * Utf8Sum(e.values) + |Render(e.classes, Spaced)|
    ensures Properties(e.Item()) == 9 && Containers(e.Item()) == 1 + Containers(e.classes)
  {
    EdgeKeys();
    EdgeKeysPlain();
    PlainNames();
    ViewKeys();
    hide Plain, PlainKeys, KeyCost, EDGE_KEYS, Utf8;
    FieldsAndOne(EDGE_KEYS, e.values, Member("changed_component_classes", e.classes));
    ObjectlessProperties(e.classes);
  }

  lemma {:induction false} EdgesBound(observe: Edge -> Digest, edges: seq<Edge>)
    requires forall e | e in edges :: e.Valid()
    ensures var m := MeasureEdges(observe, edges);
            && |RenderItems(EdgeItems(edges), Spaced)| <= 227 * |edges| + 6 * ScalarTotal(m) + JsonTotal(m)
            && ItemProperties(EdgeItems(edges)) == 9 * |edges| && ItemContainers(EdgeItems(edges)) == |edges| + ContainerTotal(m)
  {
    hide Edge.Item, Render, Edge.Valid;
    if edges != [] {
      assert edges[0] in edges;
      EdgeBound(edges[0]);
      EdgesBound(observe, edges[1..]);
      assert MeasureEdges(observe, edges)[1..] == MeasureEdges(observe, edges[1..]);
    }
  }

  lemma {:induction false} LineageViewBound(observe: Edge -> Digest, voteId: string, edges: seq<Edge>)
    requires |Utf8(voteId)| == 36 && forall e | e in edges :: e.Valid()
    ensures var cost := LineageCharge(MeasureEdges(observe, edges));
            var view := LineageView(voteId, edges);
            |Render(view, Spaced)| <= cost.bytes && Properties(view) <= cost.properties && Containers(view) <= cost.containers
  {
    PlainNames();
    ViewKeys();
    hide Plain, PlainKeys, KeyCost, EdgeItems, Utf8, MeasureEdges, LINEAGE_KEYS, Fields;
    EdgesBound(observe, edges);
    var values := [Str(voteId)];
    assert values[1..] == [];
    FieldsAndOne(LINEAGE_KEYS, values, Member("lineage", Arr(EdgeItems(edges))));
  }

  /** Behind the gate the later edges total no more than the admitted ones, in all three measures. */
  lemma {:induction false} LineageNeverCostsMore(observe: Edge -> Digest, admitted: seq<EdgeMetadata>, edges: seq<Edge>)
    requires Edges(edges) && LineageGate(admitted, MeasureEdges(observe, edges))
    ensures var now := MeasureEdges(observe, edges);
            && |now| <= |admitted| && ScalarTotal(now) <= ScalarTotal(admitted)
            && JsonTotal(now) <= JsonTotal(admitted) && ContainerTotal(now) <= ContainerTotal(admitted)
  {
    var now := MeasureEdges(observe, edges);
    DriftOfEdges(admitted, now);
  }

  function Columns(metadata: seq<EdgeMetadata>): (r: (seq<string>, seq<nat>, seq<nat>, seq<nat>))
    ensures |r.0| == |r.1| == |r.2| == |r.3| == |metadata|
    ensures forall i | 0 <= i < |metadata| ::
              r.0[i] == metadata[i].id && r.1[i] == metadata[i].scalarUtf8 && r.2[i] == metadata[i].jsonUtf8 && r.3[i] == metadata[i].jsonContainers
    ensures Sum(r.1) == ScalarTotal(metadata) && Sum(r.2) == JsonTotal(metadata) && Sum(r.3) == ContainerTotal(metadata)
  {
    if metadata == [] then ([], [], [], [])
    else
      var rest := Columns(metadata[1..]);
      var m := metadata[0];
      ([m.id] + rest.0, [m.scalarUtf8] + rest.1, [m.jsonUtf8] + rest.2, [m.jsonContainers] + rest.3)
  }

  lemma {:induction false} DriftOfEdges(admitted: seq<EdgeMetadata>, now: seq<EdgeMetadata>)
    requires LineageGate(admitted, now) && forall i, j | 0 <= i < j < |now| :: now[i].id != now[j].id
    ensures ScalarTotal(now) <= ScalarTotal(admitted) && JsonTotal(now) <= JsonTotal(admitted) && ContainerTotal(now) <= ContainerTotal(admitted)
  {
    hide ScalarTotal, JsonTotal, ContainerTotal, Columns;
    var a, b := Columns(now), Columns(admitted);
    forall i | 0 <= i < |now|
      ensures Covered(a.0[i], a.1[i], b.0, b.1) && Covered(a.0[i], a.2[i], b.0, b.2) && Covered(a.0[i], a.3[i], b.0, b.3)
    {
      assert now[i] in now && EdgeAdmitted(admitted, now[i]);
      var k :| 0 <= k < |admitted| && EdgeFits(admitted[k], now[i]);
      assert b.0[k] == a.0[i];
    }
    DriftBound(a.0, a.1, b.0, b.1);
    DriftBound(a.0, a.2, b.0, b.2);
    DriftBound(a.0, a.3, b.0, b.3);
  }

  /**
    `loadAdmittedVoteLineage`: at most two edges of the vote, reserved, gated and then
    checked item by item.  That an item's id is new needs no check of its own: an edge is
    selected once.
  */
  method LoadLineage(observe: Edge -> Digest, voteId: string, first: seq<Edge>, second: seq<Edge>, grants: Charge -> bool)
      returns (r: Result<seq<Edge>, Failure>)
    requires Edges(first) && Edges(second) && |Utf8(voteId)| == 36
    ensures r.Ok? ==>
              var reserved := LineageCharge(MeasureEdges(observe, first));
              var view := LineageView(voteId, second);
              && r.value == second && grants(reserved)
              && |Render(view, Spaced)| <= reserved.bytes
              && Properties(view) <= reserved.properties && Containers(view) <= reserved.containers
    ensures r.Ok? <==>
              && |first| <= 2
              && (forall m | m in MeasureEdges(observe, first) :: Touches(voteId, m))
              && (forall m | m in MeasureEdges(observe, first) :: EdgeMeasured(m))
              && grants(LineageCharge(MeasureEdges(observe, first)))
              && LineageGate(MeasureEdges(observe, first), MeasureEdges(observe, second))
              && (forall e | e in second :: OwnEdge(MeasureEdges(observe, first), e))
    ensures r.Err? ==>
              (r.error == Invalid <==>
                && |first| <= 2
                && (|| (exists m | m in MeasureEdges(observe, first) :: !Touches(voteId, m))
                    || ((forall m | m in MeasureEdges(observe, first) :: EdgeMeasured(m)) && grants(LineageCharge(MeasureEdges(observe, first)))
                        && LineageGate(MeasureEdges(observe, first), MeasureEdges(observe, second)))))
  {
    hide OwnEdge, LineageView, LineageCharge, LineageGate, Render, Properties, Containers, Utf8;
    var metadata, now := MeasureEdges(observe, first), MeasureEdges(observe, second);
    EdgesNonempty(observe, first);
    if |metadata| > 2 { return Err(Unavailable); }
    if exists m | m in metadata :: !Touches(voteId, m) { return Err(Invalid); }
    var cost := VoteLineageCost(metadata);
    if cost.Err? { return Err(cost.error); }
    if !grants(cost.value) { return Err(Unavailable); }
    if !LineageGate(metadata, now) { return Err(Unavailable); }
    if exists e | e in second :: !OwnEdge(metadata, e) { return Err(Invalid); }
    LineageViewBound(observe, voteId, second);
    ChargeGrows(observe, metadata, second);
    r := Ok(second);
  }

  lemma {:induction false} EdgesNonempty(observe: Edge -> Digest, edges: seq<Edge>)
    requires Edges(edges)
    ensures forall m | m in MeasureEdges(observe, edges) :: m.jsonUtf8 >= 1 && m.jsonContainers >= 1
  {
  }

  lemma {:induction false} ChargeGrows(observe: Edge -> Digest, admitted: seq<EdgeMetadata>, edges: seq<Edge>)
    requires Edges(edges) && LineageGate(admitted, MeasureEdges(observe, edges))
    ensures var now, was := LineageCharge(MeasureEdges(observe, edges)), LineageCharge(admitted);
            now.bytes <= was.bytes && now.properties <= was.properties && now.containers <= was.containers
  {
    LineageNeverCostsMore(observe, admitted, edges);
  }
}
