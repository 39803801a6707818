/** The sidecar's handling of one request: admission, wait, dispatch, relay. Every exit after
    dispatch gives the slot back exactly once, and the ticket's states form a path. */
module Relay {
  import opened Sequences
  import opened Streams
  import AdmissionQueue

  datatype ReqState =
    | Received | Queued | Dispatching | Streaming | WaitingFull
    | Completed | Cancelled | TimedOut | UpstreamFailed | PartialStream

  predicate Terminal(s: ReqState) {
    s.Completed? || s.Cancelled? || s.TimedOut? || s.UpstreamFailed? || s.PartialStream?
  }

  predicate Edge(a: ReqState, b: ReqState) {
    match a
    case Received => b == Queued
    case Queued => b == Dispatching || b == Cancelled || b == TimedOut
    case Dispatching => b == WaitingFull || b == Streaming || b == UpstreamFailed
    case WaitingFull => b == Completed || b == UpstreamFailed
    case Streaming => b == Completed || b == Cancelled || b == UpstreamFailed || b == PartialStream
    case _ => false
  }

  ghost predicate Path(states: seq<ReqState>) {
    && |states| > 0 && states[0] == Received
    && forall i | 0 < i < |states| :: Edge(states[i - 1], states[i])
  }

  /** How the stream loop ends at a turn that ends it, `sent` having reached the consumer. */
  function EndState(t: Turn, sent: string): ReqState {
    if WriteFails(t) then Cancelled
    else
      match t.err
      case Eof => Completed
      case NoErr => Cancelled
      case Broken(cancelled) =>
        if t.gone || cancelled then Cancelled else if sent == "" then UpstreamFailed else PartialStream
  }

  /** How the stream loop ends, or that it does not. */
  function StreamOutcome(script: seq<Turn>): Option<ReqState> { OutcomeBy(script, StopAt(script)) }

  function OutcomeBy(script: seq<Turn>, k: nat): Option<ReqState>
    requires k <= |script|
  {
    if k == |script| then None else Some(EndState(script[k], DeliveredBy(script, k)))
  }

  /** What ending at turn `k` means. Whatever is delivered is a prefix of what was read, in order.
      COMPLETED is end of stream with every line read forwarded; the two failure states are told
      apart by whether anything reached the consumer. */
  ghost predicate Means(script: seq<Turn>, k: nat)
    requires k <= |script|
  {
    var sent := DeliveredBy(script, k);
    match OutcomeBy(script, k)
    case None => k == |script| && sent == BytesTo(script, k)
    case Some(outcome) =>
      && k < |script| && sent <= BytesTo(script, k + 1)
      && (outcome == Completed ==> script[k].err == Eof && sent == BytesTo(script, k + 1))
      && (outcome == PartialStream ==> exists i :: 0 <= i <= k && script[i].line != "")
      && (outcome == UpstreamFailed ==> forall i | 0 <= i <= k :: script[i].line == "")
  }

  lemma {:induction false} OutcomeMeaning(script: seq<Turn>, k: nat)
    requires k <= |script|
    ensures Means(script, k)
  {
    if k < |script| { BytesSilent(script, k + 1); }
  }

  /** What the end of the stream loop means, or that it has not ended and forwarded all it read. */
  lemma {:induction false} StreamOutcomeMeaning(script: seq<Turn>)
    ensures Means(script, StopAt(script))
  {
    OutcomeMeaning(script, StopAt(script));
  }

  /** The k-th turn is the first to fail a write, to end the reading or to find the requester gone. */
  ghost predicate FirstEnd(script: seq<Turn>, k: nat) {
    && k < |script|
    && (forall j | 0 <= j < k ::
          (script[j].line == "" || script[j].writeOk) && script[j].err == NoErr && !script[j].gone)
    && !((script[k].line == "" || script[k].writeOk) && script[k].err == NoErr && !script[k].gone)
  }

  /** How every stream ends, by its first ending turn. */
  lemma {:induction false} StreamEnds(script: seq<Turn>, k: nat)
    requires FirstEnd(script, k)
    ensures var t, written := script[k], script[k].line == "" || script[k].writeOk;
      && (written && t.err == Eof ==> StreamOutcome(script) == Some(Completed))
      && (written && t.err == Broken(false) && !t.gone ==>
            StreamOutcome(script) ==
              Some(if exists i :: 0 <= i <= k && script[i].line != "" then PartialStream else UpstreamFailed))
      && (!written || t.err == Broken(true) || (t.gone && t.err != Eof) ==> StreamOutcome(script) == Some(Cancelled))
      && Delivered(script) == BytesTo(script, if written then k + 1 else k)
  {
    StopAtUnique(script, k);
    BytesSilent(script, k + 1);
  }

  lemma {:induction false} StreamGoesOn(script: seq<Turn>)
    requires forall k :: !FirstEnd(script, k)
    ensures StreamOutcome(script).None? && Delivered(script) == BytesTo(script, |script|)
  {
    StopAtIsFirst(script);
    var k := StopAt(script);
    assert k < |script| ==> FirstEnd(script, k);
  }

  /** One turn of the stream relay: forward the line read, then look at how the read ended. */
  method RelayTurn(t: Turn, sent0: string, sentAny0: bool)
    returns (final: Option<ReqState>, sent: string, sentAny: bool)
    requires sentAny0 <==> sent0 != ""
    ensures sent == (if WriteFails(t) then sent0 else sent0 + t.line) && (sentAny <==> sent != "")
    ensures final == if Ends(t) then Some(EndState(t, sent)) else None
  {
    sent, sentAny := sent0, sentAny0;
    if t.line != "" {
      if !t.writeOk {
        return Some(Cancelled), sent, sentAny;
      }
      sent, sentAny := sent + t.line, true;
    }
    if t.err == Eof {
      return Some(Completed), sent, sentAny;
    }
    if t.err.Broken? {
      var cancelled := t.gone || t.err.cancelled;
      if !sentAny {
        return Some(if cancelled then Cancelled else UpstreamFailed), sent, sentAny;
      }
      return Some(if cancelled then Cancelled else PartialStream), sent, sentAny;
    }
    final := if t.gone then Some(Cancelled) else None;
  }

  lemma {:induction false} EndsAt(script: seq<Turn>, k: nat)
    requires k < |script| && Ends(script[k]) && forall j | 0 <= j < k :: !Ends(script[j])
    ensures var sent := BytesTo(script, k) + if WriteFails(script[k]) then "" else script[k].line;
      Delivered(script) == sent && StreamOutcome(script) == Some(EndState(script[k], sent))
  {
    StopAtUnique(script, k);
  }

  /** The read/write loop of the stream relay. */
  method StreamLoop(script: seq<Turn>) returns (final: Option<ReqState>, sent: string)
    ensures final == StreamOutcome(script)
    ensures sent == Delivered(script)
  {
    sent, final := "", None;
    var sentAny := false;
    for i := 0 to |script|
      invariant final.None? && forall j | 0 <= j < i :: !Ends(script[j])
      invariant sent == BytesTo(script, i)
      invariant sentAny <==> sent != ""
    {
      if Ends(script[i]) { EndsAt(script, i); }
      final, sent, sentAny := RelayTurn(script[i], sent, sentAny);
      if final.Some? {
        return;
      }
    }
    StopAtUnique(script, |script|);
  }

  datatype Wait = Dispatched | WaitTimedOut | WaitCancelled

  /** What the model server answers: nothing, or a status with a body and a stream of turns. */
  datatype Upstream = ConnectFailed | Response(status: int, body: string, script: seq<Turn>)

  /** The status line of a refusal: a full queue or no slot is the router's cue to go elsewhere
      now, anything else that this backend is out. */
  function RejectionStatus(why: AdmissionQueue.Refusal): (code: int)
    ensures code == 429 || code == 503
    ensures code == 429 <==> why in {AdmissionQueue.QueueFull, AdmissionQueue.Gate("ADMISSION_QUEUE_FULL"),
                                     AdmissionQueue.Gate("INFLIGHT_LIMIT")}
  {
    match why
    case QueueFull => 429
    case BackendOffline => 503
    case Gate(reason) => if reason == "ADMISSION_QUEUE_FULL" || reason == "INFLIGHT_LIMIT" then 429 else 503
  }

  /** The status line of an admitted request; none if its client left while it was queued. */
  function StatusLine(wait: Wait, stream: bool, flushable: bool, up: Upstream): Option<int> {
    match wait
    case WaitCancelled => None
    case WaitTimedOut => Some(503)
    case Dispatched =>
      if stream && !flushable then Some(500)
      else if up.ConnectFailed? then Some(502)
      else Some(up.status)
  }

  /** One admitted request, from QUEUED on. `dones` counts calls of the queue's Done. */
  method Serve(wait: Wait, stream: bool, flushable: bool, up: Upstream)
    returns (states: seq<ReqState>, dones: nat, status: Option<int>, sent: string)
    ensures status == StatusLine(wait, stream, flushable, up)
    ensures Path(states)
    ensures forall i | 0 <= i < |states| - 1 :: !Terminal(states[i])
    ensures dones == if wait == Dispatched && Terminal(states[|states| - 1]) then 1 else 0
    ensures !Terminal(states[|states| - 1]) ==>
              wait == Dispatched && stream && flushable && up.Response? && up.status == 200
              && StreamOutcome(up.script).None?
    ensures wait == WaitTimedOut ==> states == [Received, Queued, TimedOut] && sent == ""
    ensures wait == WaitCancelled ==> states == [Received, Queued, Cancelled] && sent == ""
    ensures wait == Dispatched && stream && flushable && up.Response? && up.status == 200 ==>
              sent == Delivered(up.script) && states[|states| - 1] == StreamOutcome(up.script).GetOr(Streaming)
    ensures wait == Dispatched && up.Response? && !stream ==>
              sent == up.body && (states[|states| - 1] == Completed <==> 200 <= up.status < 300)
    ensures wait == Dispatched && (up.ConnectFailed? || (stream && !flushable)) ==>
              states[|states| - 1] == UpstreamFailed && sent == ""
    ensures wait == Dispatched && stream && flushable && up.Response? && up.status != 200 ==>
              states[|states| - 1] == UpstreamFailed && sent == up.body
  {
    states, dones, status, sent := [Received, Queued], 0, None, "";
    if wait == WaitCancelled {
      states := states + [Cancelled];
      return;
    }
    if wait == WaitTimedOut {
      status := Some(503);
      states := states + [TimedOut];
      return;
    }
    states := states + [Dispatching];
    if !stream {
      states := states + [WaitingFull];
      dones := 1;
      if up.ConnectFailed? {
        states := states + [UpstreamFailed];
        status := Some(502);
        return;
      }
      status := Some(up.status);
      sent := up.body;
      states := states + [if 200 <= up.status < 300 then Completed else UpstreamFailed];
      return;
    }
    if !flushable {
      status := Some(500);
      dones := 1;
      states := states + [UpstreamFailed];
      return;
    }
    if up.ConnectFailed? {
      dones := 1;
      states := states + [UpstreamFailed];
      status := Some(502);
      return;
    }
    if up.status != 200 {
      status := Some(up.status);
      sent := up.body;
      dones := 1;
      states := states + [UpstreamFailed];
      return;
    }
    status := Some(200);
    states := states + [Streaming];
    var final, out := StreamLoop(up.script);
    sent := out;
    if final.Some? {
      dones := 1;
      states := states + [final.value];
    }
  }
}
