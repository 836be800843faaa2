/**
  What one row of a communications list costs
  (artifacts/server/src/communications-list-read.ts): the allowances of its metadata
  query against the text of the row its content query builds.
*/
module CommunicationsRows {
  import opened Wrappers
  import opened JsonSize
  import opened KeyNames

  const REQUEST_KEYS: seq<string> := ["request_id", "board_id", "requester_member_id", "topic", "state", "current_turn_id", "row_version", "created_at", "closed_at"]

  const TURN_KEYS: seq<string> := ["turn_id", "ordinal", "turn_kind", "author_member_id", "author_role", "canonical_text", "sha256", "created_at"]

  const PROPOSAL_KEYS: seq<string> := ["proposal_id", "board_id", "proposer_member_id", "proposal_type", "title", "schema_version", "payload_sha256", "state", "row_version", "created_at"]

  const DISPOSITION_KEYS: seq<string> := ["disposition_id", "disposition", "reason", "resulting_draft_id", "actor_member_id", "created_at"]

  // `fixed`: two bytes of braces and ten bytes more than its name for every key, the keys of nested values included.
  const FIXED_REQUEST: nat := 199
  const FIXED_TURN: nat := 191
  const FIXED_PROPOSAL: nat := 269
  const FIXED_DISPOSITION: nat := 136
  const FIXED_REFERENCE: nat := 31

  datatype Cost = Cost(bytes: nat, properties: nat, containers: nat)

  // ---------- References ----------

  datatype ReferenceScalars = ReferenceScalars(supported: bool, count: nat, utf8: nat)

  /** An object with exactly the string members uri and sha256, in either order. */
  predicate IsReference(j: Json) {
    && j.Obj? && |j.members| == 2
    && (forall i | 0 <= i < 2 :: j.members[i].value.Str?)
    && ((j.members[0].key == "uri" && j.members[1].key == "sha256") || (j.members[0].key == "sha256" && j.members[1].key == "uri"))
  }

  function ReferenceUtf8(items: seq<Json>): nat {
    if items == [] then 0
    else (if IsReference(items[0]) then |Utf8(items[0].members[0].value.text)| + |Utf8(items[0].members[1].value.text)| else 0)
         + ReferenceUtf8(items[1..])
  }

  /** `referenceScalars`: an array of at most 256 references, counted and measured. */
  function MeasureReferences(column: Json): ReferenceScalars {
    if !column.Arr? || |column.items| > 256 then ReferenceScalars(false, 0, 0)
    else ReferenceScalars(forall i | 0 <= i < |column.items| :: IsReference(column.items[i]), |column.items|, ReferenceUtf8(column.items))
  }

  lemma {:induction false} ReferenceNames()
    ensures Plain("uri") && Plain("sha256") && Plain("payload") && Plain("references") && Plain("disposition") && Plain("turns") && Plain("resource_references")
  {
    PlainContentNames();
    PlainProposalNames();
    PlainItemNames();
    PlainPayloadNames();
    PlainReferenceNames();
    hide Plain;
  }

  lemma {:induction false} ReferenceBound(j: Json)
    requires IsReference(j)
    ensures |Render(j, Spaced)| <= FIXED_REFERENCE + 6 * (|Utf8(j.members[0].value.text)| + |Utf8(j.members[1].value.text)|)
    ensures Properties(j) == 2 && Containers(j) == 1
  {
    ReferenceNames();
    var a, b := j.members[0], j.members[1];
    assert j.members[1..] == [b] && [b][1..] == [];
    EscapedBound(a.value.text);
    EscapedBound(b.value.text);
    hide Plain, Utf8;
    MembersHead([b]);
    MembersHead(j.members);
  }

  lemma {:induction false} ReferenceItemsBound(items: seq<Json>)
    requires forall i | 0 <= i < |items| :: IsReference(items[i])
    ensures |RenderItems(items, Spaced)| <= (FIXED_REFERENCE + 2) * |items| + 6 * ReferenceUtf8(items)
    ensures ItemProperties(items) == 2 * |items| && ItemContainers(items) == |items|
  {
    hide Render, Properties, Containers;
    if items != [] {
      ReferenceBound(items[0]);
      ReferenceItemsBound(items[1..]);
    }
  }

  lemma {:induction false} ReferencesBound(column: Json)
    requires MeasureReferences(column).supported
    ensures var m := MeasureReferences(column);
            && |Render(column, Spaced)| <= 2 + (FIXED_REFERENCE + 2) * m.count + 6 * m.utf8
            && Properties(column) == 2 * m.count && Containers(column) == 1 + m.count
  {
    ReferenceItemsBound(column.items);
  }

  // ---------- Proposals ----------

  datatype Proposal = Proposal(values: seq<Json>, references: Json, disposition: Option<seq<Json>>)
  {
    predicate Valid() {
      && |values| == |PROPOSAL_KEYS| && AllScalar(values)
      && (disposition.Some? ==> |disposition.value| == |DISPOSITION_KEYS| && AllScalar(disposition.value))
    }

    function Disposition(): Json
      requires Valid()
    {
      if disposition.Some? then Obj(Fields(DISPOSITION_KEYS, disposition.value)) else Null
    }

    /** The projected item with `payload` in its payload field: Null from the query, the inspected graph once spliced. */
    function Item(payload: Json): Json
      requires Valid()
    {
      Obj(Fields(PROPOSAL_KEYS, values) + [Member("payload", payload), Member("references", references), Member("disposition", Disposition())])
    }

    /** json_upper, property_count and object_count of the metadata query. */
    function Metered(): Cost
      requires Valid()
    {
      var refs := MeasureReferences(references);
      var (count, utf8) := if disposition.Some? then (1, Utf8Sum(disposition.value)) else (0, 0);
      Cost(FIXED_PROPOSAL + 6 * Utf8Sum(values) + 2 + refs.count * (FIXED_REFERENCE + 2) + 6 * refs.utf8 + count * FIXED_DISPOSITION + 6 * utf8,
           13 + 2 * refs.count + 6 * count,
           2 + refs.count + count)
    }
  }

  lemma {:induction false} ProposalKeys()
    ensures KeyCost(PROPOSAL_KEYS) == 209 && |PROPOSAL_KEYS| == 10
  {
  }

  lemma {:induction false} ProposalKeysPlain()
    ensures PlainKeys(PROPOSAL_KEYS)
  {
    PlainBoardNames();
    PlainSeatNames();
    PlainResolutionNames();
    PlainCreationNames();
    PlainSignatureNames();
    PlainAuthorNames();
    PlainProposalNames();
    hide Plain;
  }

  lemma {:induction false} DispositionKeys()
    ensures KeyCost(DISPOSITION_KEYS) == 134 && |DISPOSITION_KEYS| == 6
  {
  }

  lemma {:induction false} DispositionKeysPlain()
    ensures PlainKeys(DISPOSITION_KEYS)
  {
    PlainRevocationNames();
    PlainCreationNames();
    PlainProposalNames();
    PlainItemNames();
    hide Plain;
  }

  lemma {:induction false} ThreeMembers(a: Member, b: Member, c: Member)
    requires Plain(a.key) && Plain(b.key) && Plain(c.key)
    ensures var members := [a, b, c];
            && |RenderMembers(members, Spaced)| <= 18 + |a.key| + |b.key| + |c.key|
               + |Render(a.value, Spaced)| + |Render(b.value, Spaced)| + |Render(c.value, Spaced)|
            && MemberProperties(members) == 3 + Properties(a.value) + Properties(b.value) + Properties(c.value)
            && MemberContainers(members) == Containers(a.value) + Containers(b.value) + Containers(c.value)
  {
    hide Plain, Quote;
    assert [b, c][1..] == [c] && [a, b, c][1..] == [b, c] && [c][1..] == [];
    MembersHead([c]);
    MembersHead([b, c]);
    MembersHead([a, b, c]);
  }

  /** A supported proposal costs no more than its metadata says, its payload apart. */
  lemma {:induction false} ProposalBound(p: Proposal, payload: Json)
    requires p.Valid() && MeasureReferences(p.references).supported
    ensures var item, cost := p.Item(payload), p.Metered();
            && |Render(item, Spaced)| <= cost.bytes - 4 + |Render(payload, Spaced)|
            && Properties(item) == cost.properties + Properties(payload)
            && Containers(item) == cost.containers + Containers(payload)
  {
    ProposalKeys();
    ProposalKeysPlain();
    DispositionKeys();
    DispositionKeysPlain();
    ReferenceNames();
    LiteralSizes();
    ReferencesBound(p.references);
    hide Plain, PlainKeys, KeyCost, PROPOSAL_KEYS, DISPOSITION_KEYS, Utf8, MeasureReferences, AllScalar;
    if p.disposition.Some? { FlatObjectBound(DISPOSITION_KEYS, p.disposition.value); }
    ProposalParts(p, payload);
  }

  lemma {:induction false} ProposalParts(p: Proposal, payload: Json)
    requires p.Valid() && PlainKeys(PROPOSAL_KEYS) && KeyCost(PROPOSAL_KEYS) == 209
    requires Plain("payload") && Plain("references") && Plain("disposition")
    ensures var item := p.Item(payload);
            && |Render(item, Spaced)| <= 2 + 209 + 6 * Utf8Sum(p.values) + 46
               + |Render(payload, Spaced)| + |Render(p.references, Spaced)| + |Render(p.Disposition(), Spaced)|
            && Properties(item) == 13 + Properties(payload) + Properties(p.references) + Properties(p.Disposition())
            && Containers(item) == 1 + Containers(payload) + Containers(p.references) + Containers(p.Disposition())
  {
    ProposalKeys();
    hide Plain, PlainKeys, KeyCost, PROPOSAL_KEYS, Proposal.Disposition, RenderMembers, MemberProperties, MemberContainers, Fields;
    var a, b, c := Member("payload", payload), Member("references", p.references), Member("disposition", p.Disposition());
    ThreeMembers(a, b, c);
    FieldsBound(PROPOSAL_KEYS, p.values, [a, b, c]);
  }

  // ---------- Secretariat requests ----------

  datatype Turn = Turn(values: seq<Json>, references: Json)
  {
    predicate Valid() {
      |values| == |TURN_KEYS| && AllScalar(values)
    }

    function Item(): Json
      requires Valid()
    {
      Obj(Fields(TURN_KEYS, values) + [Member("resource_references", references)])
    }
  }

  datatype Totals = Totals(supported: bool, utf8: nat, references: nat, referenceUtf8: nat)

  predicate Turns(turns: seq<Turn>) {
    forall t | t in turns :: t.Valid()
  }

  function MeasureTurns(turns: seq<Turn>): Totals
    requires Turns(turns)
  {
    if turns == [] then Totals(true, 0, 0, 0)
    else
      assert turns[0] in turns;
      var rest, refs := MeasureTurns(turns[1..]), MeasureReferences(turns[0].references);
      Totals(refs.supported && rest.supported, Utf8Sum(turns[0].values) + rest.utf8, refs.count + rest.references, refs.utf8 + rest.referenceUtf8)
  }

  function TurnItems(turns: seq<Turn>): seq<Json>
    requires Turns(turns)
  {
    if turns == [] then []
    else
      assert turns[0] in turns;
      [turns[0].Item()] + TurnItems(turns[1..])
  }

  datatype Request = Request(values: seq<Json>, turns: seq<Turn>)
  {
    predicate Valid() {
      |values| == |REQUEST_KEYS| && AllScalar(values) && Turns(turns)
    }

    function Item(): Json
      requires Valid()
    {
      Obj(Fields(REQUEST_KEYS, values) + [Member("turns", Arr(TurnItems(turns)))])
    }

    function Metered(): Cost
      requires Valid()
    {
      var t, n := MeasureTurns(turns), |turns|;
      Cost(FIXED_REQUEST + 6 * Utf8Sum(values) + 2 + n * (FIXED_TURN + 2) + 6 * t.utf8 + n * 2 + t.references * (FIXED_REFERENCE + 2) + 6 * t.referenceUtf8,
           10 + 9 * n + 2 * t.references,
           2 + 2 * n + t.references)
    }
  }

  lemma {:induction false} TurnKeys()
    ensures KeyCost(TURN_KEYS) == 160 && |TURN_KEYS| == 8
  {
  }

  lemma {:induction false} TurnKeysPlain()
    ensures PlainKeys(TURN_KEYS)
  {
    PlainCreationNames();
    PlainContentNames();
    PlainTurnNames();
    PlainAuthorNames();
    hide Plain;
  }

  lemma {:induction false} RequestKeys()
    ensures KeyCost(REQUEST_KEYS) == 182 && |REQUEST_KEYS| == 9
  {
  }

  lemma {:induction false} RequestKeysPlain()
    ensures PlainKeys(REQUEST_KEYS)
  {
    PlainBoardNames();
    PlainSeatNames();
    PlainCreationNames();
    PlainIssueNames();
    PlainRequestNames();
    hide Plain;
  }

  lemma {:induction false} TurnBound(t: Turn)
    requires t.Valid() && MeasureReferences(t.references).supported
    ensures var m := MeasureReferences(t.references);
            && |Render(t.Item(), Spaced)| <= FIXED_TURN + 6 * Utf8Sum(t.values) + 2 + (FIXED_REFERENCE + 2) * m.count + 6 * m.utf8
            && Properties(t.Item()) == 9 + 2 * m.count && Containers(t.Item()) == 2 + m.count
  {
    TurnKeys();
    TurnKeysPlain();
    ReferenceNames();
    ReferencesBound(t.references);
    hide Plain, PlainKeys, KeyCost, TURN_KEYS, MeasureReferences;
    FieldsAndOne(TURN_KEYS, t.values, Member("resource_references", t.references));
  }

  lemma {:induction false} TurnsBound(turns: seq<Turn>)
    requires Turns(turns) && MeasureTurns(turns).supported
    ensures var m, n := MeasureTurns(turns), |turns|;
            && |RenderItems(TurnItems(turns), Spaced)| <= n * (FIXED_TURN + 2) + 6 * m.utf8 + n * 2 + m.references * (FIXED_REFERENCE + 2) + 6 * m.referenceUtf8
            && ItemProperties(TurnItems(turns)) == 9 * n + 2 * m.references
            && ItemContainers(TurnItems(turns)) == 2 * n + m.references
  {
    hide Turn.Item, Render, Properties, Containers, MeasureReferences, Turn.Valid;
    if turns != [] {
      assert turns[0] in turns;
      TurnBound(turns[0]);
      TurnsBound(turns[1..]);
    }
  }

  /** A supported request costs no more than its metadata says. */
  lemma {:induction false} RequestBound(r: Request)
    requires r.Valid() && MeasureTurns(r.turns).supported
    ensures var item, cost := r.Item(), r.Metered();
            && |Render(item, Spaced)| <= cost.bytes
            && Properties(item) == cost.properties && Containers(item) == cost.containers
  {
    RequestKeys();
    RequestKeysPlain();
    ReferenceNames();
    TurnsBound(r.turns);
    hide Plain, PlainKeys, KeyCost, REQUEST_KEYS, TurnItems, MeasureTurns, Turns;
    FieldsAndOne(REQUEST_KEYS, r.values, Member("turns", Arr(TurnItems(r.turns))));
  }
}
