/**
  The catch-up loop that signs the audit chain up to its head
  (artifacts/server/src/core-worker-handlers.ts, signCurrentAuditHead), over the
  checkpoint transactions of lib/db.  The head is locked, so that only the loop's
  own attestations extend it, and a throw rolls the whole transaction back.
*/
module AuditCatchup {
  import opened Wrappers

  const SEGMENT_LIMIT: nat := 1002
  const SEGMENT_EVENTS: nat := 1000

  datatype Checkpoint = Checkpoint(first: nat, last: nat)

  datatype Failure = WatermarkNotReached | NoUncoveredEvents | EnvelopeExceeded

  /** Events 1 to `covered` are under a checkpoint; `head` is the last event. */
  datatype Chain = Chain(covered: nat, head: nat)

  datatype Signed = Signed(chain: Chain, checkpoints: seq<Checkpoint>)

  /** The next segment: the oldest uncovered events, at most a thousand of them. */
  function Prepared(chain: Chain): Checkpoint {
    var first := chain.covered + 1;
    Checkpoint(first, if chain.head < first + SEGMENT_EVENTS - 1 then chain.head else first + SEGMENT_EVENTS - 1)
  }

  /** Storing a checkpoint appends one event, its own attestation. */
  function Committed(chain: Chain, segment: Checkpoint): Chain {
    Chain(segment.last, chain.head + 1)
  }

  /** The loop from its `segment`-th iteration, with the target it has moved to and what it has signed. */
  function CatchUp(chain: Chain, target: nat, segment: nat, signed: seq<Checkpoint>): Result<Signed, Failure>
    decreases SEGMENT_LIMIT - segment
  {
    if segment >= SEGMENT_LIMIT then Err(EnvelopeExceeded)
    else if chain.head <= chain.covered then Err(NoUncoveredEvents)
    else
      var next := Prepared(chain);
      var after := Committed(chain, next);
      if next.last == target then Ok(Signed(after, signed + [next]))
      else CatchUp(after, target + 1, segment + 1, signed + [next])
  }

  function SignCurrentHead(chain: Chain, through: Option<nat>): Result<Signed, Failure> {
    if through.Some? && chain.head < through.value then Err(WatermarkNotReached)
    else CatchUp(chain, chain.head, 0, [])
  }

  /** Segments that clear a backlog when each of them adds one event: max(1, ceil((backlog - 1) / 999)). */
  function SegmentsFor(backlog: nat): nat {
    if backlog <= 1 then 1 else (backlog - 1 + SEGMENT_EVENTS - 2) / (SEGMENT_EVENTS - 1)
  }

  /** Consecutive segments from `first` to `last` with no gap, none empty or over a thousand events. */
  predicate Covers(checkpoints: seq<Checkpoint>, first: nat, last: nat)
    decreases |checkpoints|
  {
    if checkpoints == [] then first == last + 1
    else
      var final := checkpoints[|checkpoints| - 1];
      && final.last == last < final.first + SEGMENT_EVENTS
      && 1 <= final.first <= last
      && Covers(checkpoints[..|checkpoints| - 1], first, final.first - 1)
  }

  lemma {:induction false} CatchUpExact(chain: Chain, segment: nat, signed: seq<Checkpoint>, first: nat)
    requires chain.covered < chain.head && segment <= SEGMENT_LIMIT && Covers(signed, first, chain.covered)
    ensures var needed := SegmentsFor(chain.head - chain.covered);
            var r := CatchUp(chain, chain.head, segment, signed);
            && (r.Ok? <==> segment + needed <= SEGMENT_LIMIT)
            && (r.Err? ==> r.error == EnvelopeExceeded)
            && (r.Ok? ==>
                  && |r.value.checkpoints| == |signed| + needed
                  && Covers(r.value.checkpoints, first, chain.head + needed - 1)
                  && r.value.chain == Chain(chain.head + needed - 1, chain.head + needed))
    decreases SEGMENT_LIMIT - segment
  {
    var backlog := chain.head - chain.covered;
    OneSegment(backlog);
    if segment < SEGMENT_LIMIT {
      hide SegmentsFor, Covers;
      var next := Prepared(chain);
      CoversMore(signed, first, chain.covered, next);
      if next.last != chain.head {
        CatchUpExact(Committed(chain, next), segment + 1, signed + [next], first);
      }
    } else {
      assert SegmentsFor(backlog) >= 1;
    }
  }

  /** A full segment clears 999 events net. */
  lemma {:induction false} OneSegment(backlog: nat)
    requires backlog >= 1
    ensures SegmentsFor(backlog) >= 1
    ensures backlog <= SEGMENT_EVENTS ==> SegmentsFor(backlog) == 1
    ensures backlog > SEGMENT_EVENTS ==> SegmentsFor(backlog) == 1 + SegmentsFor(backlog - (SEGMENT_EVENTS - 1))
    ensures SegmentsFor(backlog) <= SEGMENT_LIMIT <==> backlog <= 1_000_999
  {
  }

  lemma {:induction false} CoversMore(signed: seq<Checkpoint>, first: nat, covered: nat, next: Checkpoint)
    requires Covers(signed, first, covered) && next.first == covered + 1 <= next.last < next.first + SEGMENT_EVENTS
    ensures Covers(signed + [next], first, next.last)
  {
    assert (signed + [next])[..|signed|] == signed;
  }

  lemma {:induction false} NothingCovered(covered: nat)
    ensures Covers([], covered + 1, covered)
  {
  }

  lemma {:induction false} NothingToSign(chain: Chain, target: nat, segment: nat, signed: seq<Checkpoint>)
    ensures chain.head <= chain.covered ==> CatchUp(chain, target, segment, signed).Err?
  {
  }

  /**
    The exact envelope of the loop: with a backlog of P events it signs the head
    if and only if 1 <= P <= 1,000,999 (and the watermark is reached).  It then uses
    exactly `SegmentsFor(P)` segments, which cover the backlog and every attestation
    but the last without a gap, and leaves one uncovered event.
  */
  lemma {:induction false} SignsIff(chain: Chain, through: Option<nat>)
    requires chain.covered <= chain.head
    ensures var backlog := chain.head - chain.covered;
            var r := SignCurrentHead(chain, through);
            && (r.Ok? <==> (through.None? || through.value <= chain.head) && 1 <= backlog <= 1_000_999)
            && (r.Ok? ==>
                  var needed := SegmentsFor(backlog);
                  && |r.value.checkpoints| == needed
                  && Covers(r.value.checkpoints, chain.covered + 1, chain.head + needed - 1)
                  && r.value.chain.covered + 1 == r.value.chain.head == chain.head + needed)
  {
    if chain.covered < chain.head {
      NothingCovered(chain.covered);
      CatchUpExact(chain, 0, [], chain.covered + 1);
      OneSegment(chain.head - chain.covered);
    }
    hide CatchUp, SegmentsFor, Covers;
    NothingToSign(chain, chain.head, 0, []);
  }

  /** A second call right after a success clears the attestation the first one left, and one more is left. */
  lemma {:induction false} SigningAgain(chain: Chain)
    requires chain.covered <= chain.head && SignCurrentHead(chain, None).Ok?
    ensures var after := SignCurrentHead(chain, None).value.chain;
            var again := SignCurrentHead(after, None);
            again.Ok? && again.value.checkpoints == [Checkpoint(after.head, after.head)]
  {
    SignsIff(chain, None);
    var after := SignCurrentHead(chain, None).value.chain;
    assert Prepared(after) == Checkpoint(after.head, after.head);
  }

  /** One iteration. */
  lemma {:induction false} CatchUpStep(chain: Chain, target: nat, segment: nat, signed: seq<Checkpoint>)
    ensures var next := Prepared(chain);
            CatchUp(chain, target, segment, signed) ==
              if segment >= SEGMENT_LIMIT then Err(EnvelopeExceeded)
              else if chain.head <= chain.covered then Err(NoUncoveredEvents)
              else if next.last == target then Ok(Signed(Committed(chain, next), signed + [next]))
              else CatchUp(Committed(chain, next), target + 1, segment + 1, signed + [next])
  {
  }

  /** The audit tables as the transaction sees them. */
  class AuditLedger {
    var covered: nat
    var head: nat

    ghost function State(): Chain
      reads this
    {
      Chain(covered, head)
    }

    method Sign(through: Option<nat>) returns (r: Result<seq<Checkpoint>, Failure>)
      modifies this
      ensures var expected := SignCurrentHead(old(State()), through);
              && (r.Ok? <==> expected.Ok?)
              && (r.Ok? ==> r.value == expected.value.checkpoints && State() == expected.value.chain)
              && (r.Err? ==> r.error == expected.error && State() == old(State()))
    {
      hide CatchUp;
      var target := head;
      if through.Some? && target < through.value { return Err(WatermarkNotReached); }
      var checkpoints := [];
      var coveredBefore, headBefore := covered, head;
      for segment := 0 to SEGMENT_LIMIT
        invariant target == head
        invariant CatchUp(State(), target, segment, checkpoints) == CatchUp(old(State()), old(head), 0, [])
      {
        CatchUpStep(State(), target, segment, checkpoints);
        if head <= covered {
          covered, head := coveredBefore, headBefore;
          return Err(NoUncoveredEvents);
        }
        var first := covered + 1;
        var last := if head < first + SEGMENT_EVENTS - 1 then head else first + SEGMENT_EVENTS - 1;
        checkpoints := checkpoints + [Checkpoint(first, last)];
        covered, head := last, head + 1;
        if last == target { return Ok(checkpoints); }
        target := target + 1;
      }
      CatchUpStep(State(), target, SEGMENT_LIMIT, checkpoints);
      covered, head := coveredBefore, headBefore;
      r := Err(EnvelopeExceeded);
    }
  }
}
