/**
  The member names of the projections are plain: one byte a character and nothing to
  escape, so that quoting one adds two bytes.  Each lemma takes a few names that occur together.
*/
module KeyNames {
  import opened JsonSize

  lemma {:induction false} PlainBoardNames()
    ensures Plain("board_id") && Plain("slug") && Plain("name") && Plain("timezone")
  {
  }

  lemma {:induction false} PlainSeatNames()
    ensures Plain("state") && Plain("row_version") && Plain("seat_role") && Plain("is_chair")
  {
  }

  lemma {:induction false} PlainEntitlementNames()
    ensures Plain("is_secretary") && Plain("voting_weight") && Plain("entitlement_generation") && Plain("vote_id")
  {
  }

  lemma {:induction false} PlainResolutionNames()
    ensures Plain("title") && Plain("resolution_version_id") && Plain("decision_package_id") && Plain("package_sha256")
  {
  }

  lemma {:induction false} PlainDeadlineNames()
    ensures Plain("close_mode") && Plain("deadline_at") && Plain("opened_at") && Plain("closed_outcome")
  {
  }

  lemma {:induction false} PlainGrantNames()
    ensures Plain("grant_id") && Plain("principal_member_id") && Plain("holder_member_id") && Plain("policy")
  {
  }

  lemma {:induction false} PlainGrantTimeNames()
    ensures Plain("active") && Plain("granted_at") && Plain("expires_at") && Plain("revocation_id")
  {
  }

  lemma {:induction false} PlainRevocationNames()
    ensures Plain("reason") && Plain("effect") && Plain("revoked_at") && Plain("member_id")
  {
  }

  lemma {:induction false} PlainSupersessionNames()
    ensures Plain("supersession_id") && Plain("old_vote_id") && Plain("new_vote_id") && Plain("old_package_sha256")
  {
  }

  lemma {:induction false} PlainCreationNames()
    ensures Plain("new_package_sha256") && Plain("secretary_member_id") && Plain("created_at") && Plain("document_id")
  {
  }

  lemma {:induction false} PlainVersionNames()
    ensures Plain("version_id") && Plain("version") && Plain("media_type") && Plain("document_schema")
  {
  }

  lemma {:induction false} PlainContentNames()
    ensures Plain("byte_length") && Plain("sha256") && Plain("validation_attempt_id") && Plain("offered_media_type")
  {
  }

  lemma {:induction false} PlainOfferNames()
    ensures Plain("offered_name") && Plain("offered_length") && Plain("offered_sha256") && Plain("result")
  {
  }

  lemma {:induction false} PlainResultNames()
    ensures Plain("result_code") && Plain("remediation") && Plain("accepted_document_version_id") && Plain("attempted_at")
  {
  }

  lemma {:induction false} PlainOriginNames()
    ensures Plain("created_by") && Plain("resource_uri") && Plain("certificate_id") && Plain("outcome_id")
  {
  }

  lemma {:induction false} PlainSignatureNames()
    ensures Plain("public_id") && Plain("schema_version") && Plain("payload_sha256") && Plain("signature_base64url")
  {
  }

  lemma {:induction false} PlainIssueNames()
    ensures Plain("signing_key_id") && Plain("supersedes_id") && Plain("issued_at") && Plain("request_id")
  {
  }

  lemma {:induction false} PlainRequestNames()
    ensures Plain("requester_member_id") && Plain("topic") && Plain("current_turn_id") && Plain("closed_at")
  {
  }

  lemma {:induction false} PlainTurnNames()
    ensures Plain("turn_id") && Plain("ordinal") && Plain("turn_kind") && Plain("author_member_id")
  {
  }

  lemma {:induction false} PlainAuthorNames()
    ensures Plain("author_role") && Plain("canonical_text") && Plain("proposal_id") && Plain("proposer_member_id")
  {
  }

  lemma {:induction false} PlainProposalNames()
    ensures Plain("proposal_type") && Plain("disposition_id") && Plain("disposition") && Plain("resulting_draft_id")
  {
  }

  lemma {:induction false} PlainItemNames()
    ensures Plain("actor_member_id") && Plain("uri") && Plain("fits") && Plain("item")
  {
  }

  lemma {:induction false} PlainCursorNames()
    ensures Plain("cursor_at") && Plain("cursor_id") && Plain("revocation") && Plain("grants")
  {
  }

  lemma {:induction false} PlainPayloadNames()
    ensures Plain("lineage") && Plain("changed_component_classes") && Plain("canonical_payload") && Plain("payload")
  {
  }

  lemma {:induction false} PlainReferenceNames()
    ensures Plain("references") && Plain("turns") && Plain("resource_references")
  {
  }
}
