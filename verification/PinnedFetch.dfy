/**
  The settle-once machine of a pinned metadata fetch
  (artifacts/server/src/client-registration.ts, fetchPinnedCimdDocument): the handlers
  share `settled`, the chunks and the deadline, and may be called in any order.
*/
module PinnedFetch {
  import opened Wrappers

  datatype Refusal = Timeout | ResponseRefused | SizeRefused | FetchFailed | Raised(code: nat)

  datatype Settlement = Resolved(statusCode: nat, body: Bytes) | Rejected(why: Refusal)

  /** `lengthHeader`: no content-length, or its decimal value, or one that is no decimal. */
  datatype LengthHeader = Absent | Decimal(value: nat) | Malformed

  datatype Event =
    | Response(lengthHeader: LengthHeader, encoded: bool)
    | Data(bytes: Bytes)
    | End(statusCode: nat)
    | ResponseError(code: nat)
    | ResponseAborted
    | ResponseClose
    | RequestError(code: nat)
    | RequestClose
    | AbortSignal
    | Deadline

  datatype State = State(
    settled: bool,
    armed: bool,               // the deadline timer is set
    listening: bool,           // the abort listener is attached
    active: bool,              // activeResponse is set
    reading: bool,             // data and end handlers are attached
    chunks: seq<Bytes>,
    length: nat,
    settlements: seq<Settlement>,   // calls of resolve and reject, in order
    destroyed: nat)                 // responses and requests destroyed

  function Concat(chunks: seq<Bytes>): Bytes {
    if chunks == [] then [] else Concat(chunks[..|chunks| - 1]) + chunks[|chunks| - 1]
  }

  /** `fail`. */
  function Fail(s: State, why: Refusal): State {
    if s.settled then s
    else s.(settled := true, armed := false, listening := false, chunks := [],
            settlements := s.settlements + [Rejected(why)], destroyed := s.destroyed + (if s.active then 2 else 1))
  }

  /** The attempt as it starts, its signal already aborted or not. */
  function Start(signalAborted: bool): State {
    var idle := State(false, false, false, false, false, [], 0, [], 0);
    if signalAborted then idle.(settled := true, settlements := [Rejected(Timeout)])
    else idle.(armed := true, listening := true)
  }

  predicate Refuses(lengthHeader: LengthHeader, encoded: bool, maxBytes: nat) {
    lengthHeader.Malformed? || (lengthHeader.Decimal? && lengthHeader.value > maxBytes) || encoded
  }

  /** One event through its handler; an event whose handler is not attached does nothing. */
  function Step(s: State, e: Event, maxBytes: nat): State {
    match e
    case Response(lengthHeader, encoded) =>
      if s.settled then s.(destroyed := s.destroyed + 1)
      else if Refuses(lengthHeader, encoded, maxBytes) then Fail(s.(active := true), ResponseRefused)
      else s.(active := true, reading := true)
    case Data(bytes) =>
      if !s.reading || s.settled then s
      else if s.length + |bytes| > maxBytes then Fail(s, SizeRefused)
      else s.(length := s.length + |bytes|, chunks := s.chunks + [bytes])
    case End(statusCode) =>
      if !s.reading || s.settled then s
      else s.(settled := true, armed := false, listening := false, chunks := [],
              settlements := s.settlements + [Resolved(statusCode, Concat(s.chunks))])
    case ResponseError(code) => if s.active then Fail(s, Raised(code)) else s
    case ResponseAborted => if s.active then Fail(s, ResponseRefused) else s
    case ResponseClose => if s.active then Fail(s, ResponseRefused) else s
    case RequestError(code) => Fail(s, Raised(code))
    case RequestClose => if s.active then s else Fail(s, FetchFailed)
    case AbortSignal => if s.listening then Fail(s, Timeout) else s
    case Deadline => if s.armed then Fail(s, Timeout) else s
  }

  function Run(s: State, events: seq<Event>, maxBytes: nat): State
    decreases |events|
  {
    if events == [] then s
    else Step(Run(s, events[..|events| - 1], maxBytes), events[|events| - 1], maxBytes)
  }

  // ---------- Every interleaving ----------

  /** The data that arrives once a response is being read. */
  function Received(events: seq<Event>, maxBytes: nat): seq<Bytes>
    decreases |events|
  {
    if events == [] then []
    else
      var before, last := events[..|events| - 1], events[|events| - 1];
      Received(before, maxBytes) + (if last.Data? && Reading(before, maxBytes) then [last.bytes] else [])
  }

  predicate Reading(events: seq<Event>, maxBytes: nat) {
    exists i :: 0 <= i < |events| && events[i].Response? && !Refuses(events[i].lengthHeader, events[i].encoded, maxBytes)
  }

  /** What holds of every reachable state. */
  ghost predicate Sound(s: State, events: seq<Event>, maxBytes: nat) {
    && |s.settlements| <= 1 && (s.settled <==> |s.settlements| == 1)
    && (s.armed <==> !s.settled) && (s.listening <==> !s.settled)
    && |Concat(s.chunks)| <= maxBytes
    && (s.reading ==> Reading(events, maxBytes) && s.active)
    && (!s.settled ==>
          && s.chunks == Received(events, maxBytes) && s.length == |Concat(s.chunks)|
          && (s.reading <==> Reading(events, maxBytes)) && (s.active ==> s.reading))
  }

  lemma {:induction false} ConcatAppend(chunks: seq<Bytes>, last: Bytes)
    ensures Concat(chunks + [last]) == Concat(chunks) + last
  {
    assert (chunks + [last])[..|chunks|] == chunks;
  }

  lemma {:induction false} ReadingGrows(before: seq<Event>, e: Event, maxBytes: nat)
    ensures Reading(before + [e], maxBytes) <==>
              Reading(before, maxBytes) || (e.Response? && !Refuses(e.lengthHeader, e.encoded, maxBytes))
  {
    var events := before + [e];
    if Reading(before, maxBytes) {
      var i :| 0 <= i < |before| && before[i].Response? && !Refuses(before[i].lengthHeader, before[i].encoded, maxBytes);
      assert events[i] == before[i];
    }
    if e.Response? && !Refuses(e.lengthHeader, e.encoded, maxBytes) { assert events[|before|] == e; }
  }

  lemma {:induction false} StepSound(s: State, before: seq<Event>, e: Event, maxBytes: nat)
    requires Sound(s, before, maxBytes)
    ensures Sound(Step(s, e, maxBytes), before + [e], maxBytes)
  {
    ReadingGrows(before, e, maxBytes);
    assert (before + [e])[..|before|] == before;
    if e.Data? { ConcatAppend(s.chunks, e.bytes); }
  }

  lemma {:induction false} RunSound(events: seq<Event>, signalAborted: bool, maxBytes: nat)
    ensures Sound(Run(Start(signalAborted), events, maxBytes), events, maxBytes)
    decreases |events|
  {
    if events != [] {
      var before := events[..|events| - 1];
      RunSound(before, signalAborted, maxBytes);
      StepSound(Run(Start(signalAborted), before, maxBytes), before, events[|events| - 1], maxBytes);
      assert before + [events[|events| - 1]] == events;
    }
  }

  /**
    Under every interleaving of events at most one of resolve and reject is called, and
    the attempt is settled exactly when one was; until then its deadline is set and its
    abort listener attached, afterwards neither.
  */
  lemma {:induction false} SettlesAtMostOnce(events: seq<Event>, signalAborted: bool, maxBytes: nat)
    ensures var s := Run(Start(signalAborted), events, maxBytes);
            && |s.settlements| <= 1 && (s.settled <==> |s.settlements| == 1)
            && (s.armed <==> !s.settled) && (s.listening <==> !s.settled)
  {
    RunSound(events, signalAborted, maxBytes);
  }

  /** No later event changes how an attempt was settled. */
  lemma {:induction false} SettledForGood(s: State, events: seq<Event>, maxBytes: nat)
    requires s.settled && !s.armed && !s.listening
    ensures Run(s, events, maxBytes) == s.(destroyed := Run(s, events, maxBytes).destroyed, reading := Run(s, events, maxBytes).reading, active := Run(s, events, maxBytes).active)
    decreases |events|
  {
    if events != [] { SettledForGood(s, events[..|events| - 1], maxBytes); }
  }

  /**
    What an attempt resolves with is all of the data received from an accepted response
    up to its end, in order, and at most `maxBytes` long.
  */
  lemma {:induction false} ResolvedBody(events: seq<Event>, signalAborted: bool, maxBytes: nat) returns (n: nat)
    requires var s := Run(Start(signalAborted), events, maxBytes); |s.settlements| > 0 && s.settlements[0].Resolved?
    ensures n < |events| && events[n].End?
    ensures var resolved := Run(Start(signalAborted), events, maxBytes).settlements[0];
            && resolved == Resolved(events[n].statusCode, Concat(Received(events[..n], maxBytes)))
            && Reading(events[..n], maxBytes) && |resolved.body| <= maxBytes
    decreases |events|
  {
    n := 0;
    if events != [] {
      hide Step, Received, Sound;
      var before, last := events[..|events| - 1], events[|events| - 1];
      var s := Run(Start(signalAborted), before, maxBytes);
      RunSound(before, signalAborted, maxBytes);
      if s.settled {
        SettledStep(s, before, last, maxBytes);
        n := ResolvedBody(before, signalAborted, maxBytes);
        assert events[..n] == before[..n];
      } else {
        ResolvingStep(s, before, last, maxBytes);
        n := |before|;
      }
    }
  }

  lemma {:induction false} SettledStep(s: State, before: seq<Event>, e: Event, maxBytes: nat)
    requires Sound(s, before, maxBytes) && s.settled
    ensures Step(s, e, maxBytes).settlements == s.settlements && |s.settlements| == 1
  {
  }

  /** Only an end resolves. */
  lemma {:induction false} ResolvingStep(s: State, before: seq<Event>, e: Event, maxBytes: nat)
    requires Sound(s, before, maxBytes) && !s.settled
    ensures var after := Step(s, e, maxBytes).settlements;
            |after| > 0 && after[0].Resolved? ==>
              e.End? && after[0] == Resolved(e.statusCode, Concat(Received(before, maxBytes))) && Reading(before, maxBytes) && |after[0].body| <= maxBytes
  {
    hide Received, Concat, Reading;
  }

  /** The deadline settles whatever is still open, so no trickle of data keeps an attempt alive. */
  lemma {:induction false} DeadlineSettles(events: seq<Event>, signalAborted: bool, maxBytes: nat, last: Event)
    requires last.Deadline? || last.AbortSignal? || last.RequestError?
    ensures Run(Start(signalAborted), events + [last], maxBytes).settled
    ensures !Run(Start(signalAborted), events, maxBytes).settled ==>
              Run(Start(signalAborted), events + [last], maxBytes).settlements == [Rejected(if last.RequestError? then Raised(last.code) else Timeout)]
  {
    RunSound(events, signalAborted, maxBytes);
    assert (events + [last])[..|events|] == events;
  }

  /** The two ends of a connection: a closed response, or a request closed before any response, leaves nothing open. */
  lemma {:induction false} CloseSettles(events: seq<Event>, signalAborted: bool, maxBytes: nat)
    ensures var s := Run(Start(signalAborted), events, maxBytes);
            if s.active then Run(Start(signalAborted), events + [ResponseClose], maxBytes).settled
            else Run(Start(signalAborted), events + [RequestClose], maxBytes).settled
  {
    assert (events + [ResponseClose])[..|events|] == events && (events + [RequestClose])[..|events|] == events;
  }

  // ---------- What settles an attempt, and how ----------

  predicate Arrived(events: seq<Event>) {
    exists i :: 0 <= i < |events| && events[i].Response?
  }

  /** The data since the response arrived. */
  function DataSince(events: seq<Event>): seq<Bytes>
    decreases |events|
  {
    if events == [] then []
    else
      var before, last := events[..|events| - 1], events[|events| - 1];
      DataSince(before) + (if last.Data? && Arrived(before) then [last.bytes] else [])
  }

  /** What one more event makes of an attempt that is still open. */
  function Verdict(before: seq<Event>, e: Event, maxBytes: nat): Option<Settlement> {
    match e
    case Response(Malformed, _) => Some(Rejected(ResponseRefused))
    case Response(Absent, encoded) => if encoded then Some(Rejected(ResponseRefused)) else None
    case Response(Decimal(n), encoded) => if n > maxBytes || encoded then Some(Rejected(ResponseRefused)) else None
    case Data(bytes) => if Arrived(before) && |Concat(DataSince(before))| + |bytes| > maxBytes then Some(Rejected(SizeRefused)) else None
    case End(statusCode) => if Arrived(before) then Some(Resolved(statusCode, Concat(DataSince(before)))) else None
    case ResponseError(code) => if Arrived(before) then Some(Rejected(Raised(code))) else None
    case ResponseAborted => if Arrived(before) then Some(Rejected(ResponseRefused)) else None
    case ResponseClose => if Arrived(before) then Some(Rejected(ResponseRefused)) else None
    case RequestError(code) => Some(Rejected(Raised(code)))
    case RequestClose => if Arrived(before) then None else Some(Rejected(FetchFailed))
    case AbortSignal => Some(Rejected(Timeout))
    case Deadline => Some(Rejected(Timeout))
  }

  /** An open attempt has its timer and listener, and has kept the data since its response. */
  ghost predicate Open(s: State, events: seq<Event>) {
    && !s.settled && s.armed && s.listening && s.settlements == [] && s.destroyed == 0
    && (s.active <==> Arrived(events)) && (s.reading <==> Arrived(events))
    && s.chunks == DataSince(events) && s.length == |Concat(s.chunks)|
  }

  lemma {:induction false} ArrivedNext(before: seq<Event>, e: Event)
    ensures Arrived(before + [e]) <==> Arrived(before) || e.Response?
    ensures DataSince(before + [e]) == DataSince(before) + (if e.Data? && Arrived(before) then [e.bytes] else [])
  {
    var events := before + [e];
    assert events[..|before|] == before;
    if Arrived(before) {
      var i :| 0 <= i < |before| && before[i].Response?;
      assert events[i].Response?;
    }
    if e.Response? { assert events[|before|].Response?; }
  }

  /** The event settles the attempt as the verdict says, destroying the request and, if there is one, the response; or leaves it open. */
  lemma {:induction false} OpenStep(s: State, before: seq<Event>, e: Event, maxBytes: nat)
    requires Open(s, before)
    ensures var after := Step(s, e, maxBytes);
            match Verdict(before, e, maxBytes)
            case None => Open(after, before + [e])
            case Some(v) =>
              && after.settled && !after.armed && !after.listening && after.chunks == [] && after.settlements == [v]
              && after.destroyed == if v.Resolved? then 0 else if Arrived(before) || e.Response? then 2 else 1
  {
    ArrivedNext(before, e);
    hide Arrived, DataSince, Concat;
    if e.Data? { ConcatAppend(s.chunks, e.bytes); }
  }

  ghost predicate StillOpen(events: seq<Event>, maxBytes: nat) {
    forall n | 0 <= n < |events| :: Verdict(events[..n], events[n], maxBytes).None?
  }

  lemma {:induction false} OpenRun(events: seq<Event>, maxBytes: nat)
    requires StillOpen(events, maxBytes)
    ensures Open(Run(Start(false), events, maxBytes), events)
    decreases |events|
  {
    if events != [] {
      var before, last := events[..|events| - 1], events[|events| - 1];
      forall n | 0 <= n < |before| ensures Verdict(before[..n], before[n], maxBytes).None? {
        assert before[..n] == events[..n] && before[n] == events[n];
      }
      OpenRun(before, maxBytes);
      OpenStep(Run(Start(false), before, maxBytes), before, last, maxBytes);
      assert before + [last] == events;
    }
  }

  /**
    The whole story of an attempt.  It is settled by the first event with a verdict, in
    the way of that verdict, and by nothing else; an attempt whose signal was aborted
    before it began is rejected at once, without a request.
  */
  lemma {:induction false} SettledByFirst(events: seq<Event>, maxBytes: nat, n: nat)
    requires n < |events| && StillOpen(events[..n], maxBytes) && Verdict(events[..n], events[n], maxBytes).Some?
    ensures Run(Start(false), events, maxBytes).settlements == [Verdict(events[..n], events[n], maxBytes).value]
    decreases |events|
  {
    var before, last := events[..|events| - 1], events[|events| - 1];
    if n == |before| {
      OpenRun(before, maxBytes);
      OpenStep(Run(Start(false), before, maxBytes), before, last, maxBytes);
    } else {
      assert before[..n] == events[..n] && before[n] == events[n];
      SettledByFirst(before, maxBytes, n);
      RunSound(before, false, maxBytes);
      SettledStep(Run(Start(false), before, maxBytes), before, last, maxBytes);
    }
  }

  lemma {:induction false} NeverSettled(events: seq<Event>, maxBytes: nat)
    ensures StillOpen(events, maxBytes) ==> Run(Start(false), events, maxBytes).settlements == []
    ensures Run(Start(true), events, maxBytes).settlements == [Rejected(Timeout)]
  {
    if StillOpen(events, maxBytes) { OpenRun(events, maxBytes); }
    AbortedRun(events, maxBytes);
  }

  /** An attempt that never began a request only turns late responses away. */
  lemma {:induction false} AbortedRun(events: seq<Event>, maxBytes: nat)
    ensures var s := Run(Start(true), events, maxBytes);
            s.settled && !s.armed && !s.listening && s.settlements == [Rejected(Timeout)] && s.destroyed == Responses(events)
    decreases |events|
  {
    if events != [] { AbortedRun(events[..|events| - 1], maxBytes); }
  }

  function Responses(events: seq<Event>): nat
    decreases |events|
  {
    if events == [] then 0 else Responses(events[..|events| - 1]) + if events[|events| - 1].Response? then 1 else 0
  }

  /** A response that arrives after the settlement is destroyed, once. */
  lemma {:induction false} LateResponses(s: State, e: Event, maxBytes: nat)
    requires s.settled && !s.armed && !s.listening
    ensures Step(s, e, maxBytes).destroyed == s.destroyed + if e.Response? then 1 else 0
  {
  }

  // ---------- The attempt as shared variables ----------

  class Attempt {
    const maxBytes: nat
    var settled: bool
    var armed: bool
    var listening: bool
    var active: bool
    var reading: bool
    var chunks: seq<Bytes>
    var length: nat
    var settlements: seq<Settlement>
    var destroyed: nat

    ghost function Now(): State
      reads this
    {
      State(settled, armed, listening, active, reading, chunks, length, settlements, destroyed)
    }

    constructor (maxBytes: nat, signalAborted: bool)
      ensures Now() == Start(signalAborted) && this.maxBytes == maxBytes
    {
      this.maxBytes := maxBytes;
      settled, armed, listening := signalAborted, !signalAborted, !signalAborted;
      active, reading, chunks, length, destroyed := false, false, [], 0, 0;
      settlements := if signalAborted then [Rejected(Timeout)] else [];
    }

    method Refuse(why: Refusal)
      modifies this
      ensures Now() == Fail(old(Now()), why)
    {
      if settled { return; }
      settled, armed, listening := true, false, false;
      chunks := [];
      settlements := settlements + [Rejected(why)];
      destroyed := destroyed + (if active then 2 else 1);
    }

    method OnResponse(lengthHeader: LengthHeader, encoded: bool)
      modifies this
      ensures Now() == Step(old(Now()), Response(lengthHeader, encoded), maxBytes)
    {
      if settled {
        destroyed := destroyed + 1;
        return;
      }
      active := true;
      if Refuses(lengthHeader, encoded, maxBytes) {
        Refuse(ResponseRefused);
        return;
      }
      reading := true;
    }

    method OnData(bytes: Bytes)
      modifies this
      ensures Now() == Step(old(Now()), Data(bytes), maxBytes)
    {
      if !reading || settled { return; }
      if |bytes| > maxBytes - length {
        Refuse(SizeRefused);
        return;
      }
      length := length + |bytes|;
      chunks := chunks + [bytes];
    }

    method OnEnd(statusCode: nat)
      modifies this
      ensures Now() == Step(old(Now()), End(statusCode), maxBytes)
    {
      if !reading || settled { return; }
      settled, armed, listening := true, false, false;
      var body := Concat(chunks);
      chunks := [];
      settlements := settlements + [Resolved(statusCode, body)];
    }

    /** Every other event ends the attempt, or finds its handler detached. */
    method OnFailure(e: Event)
      requires !e.Response? && !e.Data? && !e.End?
      modifies this
      ensures Now() == Step(old(Now()), e, maxBytes)
    {
      match e {
        case ResponseError(code) => if active { Refuse(Raised(code)); }
        case ResponseAborted => if active { Refuse(ResponseRefused); }
        case ResponseClose => if active { Refuse(ResponseRefused); }
        case RequestError(code) => Refuse(Raised(code));
        case RequestClose => if !active { Refuse(FetchFailed); }
        case AbortSignal => if listening { Refuse(Timeout); }
        case Deadline => if armed { Refuse(Timeout); }
      }
    }
  }
}
