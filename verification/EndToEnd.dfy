/** The sidecar's answers seen through the gateway. What the gateway reads is cut into lines by
    its own reader, so nothing is assumed about the cuts: only which bytes arrive and how the
    reading ends. */
module EndToEnd {
  import opened Sequences
  import opened Streams
  import AdmissionQueue
  import Relay
  import Gateway

  /** A handler that returns ends its response cleanly. But if the sidecar could no longer write,
      or saw its requester gone, the connection is torn. */
  predicate Torn(script: seq<Turn>)
    requires StopAt(script) < |script|
  {
    WriteFails(script[StopAt(script)]) || script[StopAt(script)].gone
  }

  /** `rd` is a way the gateway may read what the sidecar's relay of `script` sent, whatever the
      client does meanwhile. The bytes are a beginning of it; the end of the stream comes after
      all of it, over a connection that is whole; and an error means a torn connection or a
      client whose leaving ends the request. */
  ghost predicate Arrives(script: seq<Turn>, rd: seq<Turn>)
    requires StopAt(script) < |script|
  {
    && BytesTo(rd, |rd|) <= Delivered(script)
    && (forall i | 0 <= i < |rd| && rd[i].err == Eof :: !Torn(script) && BytesTo(rd, i + 1) == Delivered(script))
    && (forall i | 0 <= i < |rd| && rd[i].err.Broken? :: Torn(script) || rd[i].gone)
  }

  /** The gateway's relay ended, and not for its client: it took every line and is still there. */
  predicate ClientStays(rd: seq<Turn>) {
    StopAt(rd) < |rd| && !WriteFails(rd[StopAt(rd)]) && !rd[StopAt(rd)].gone
  }

  lemma {:induction false} BytesGrow(rd: seq<Turn>, i: nat, j: nat)
    requires i <= j <= |rd|
    ensures BytesTo(rd, i) <= BytesTo(rd, j)
  {
    if i < j { BytesGrow(rd, i, j - 1); }
  }

  /** Nothing is delivered that was not read. */
  lemma {:induction false} DeliveredWasRead(rd: seq<Turn>, k: nat)
    requires k <= |rd|
    ensures DeliveredBy(rd, k) <= BytesTo(rd, |rd|)
  {
    BytesGrow(rd, if k < |rd| && !WriteFails(rd[k]) then k + 1 else k, |rd|);
  }

  lemma PrefixOfPrefix(a: string, b: string, c: string)
    requires a <= b <= c
    ensures a <= c
  {}

  function Streamed(rd: seq<Turn>): Gateway.Reply { Gateway.Reply.Reply(200, "", rd) }

  /** Through both relays the client gets a beginning of what the sidecar delivered, and if it
      stays and the connection is whole, byte for byte all of it. */
  lemma {:induction false} ClientGetsWhatSidecarSent(script: seq<Turn>, rd: seq<Turn>)
    requires StopAt(script) < |script| && Arrives(script, rd)
    ensures Gateway.Payload(true, true, Streamed(rd)) <= Delivered(script)
    ensures ClientStays(rd) && !Torn(script) ==> Gateway.Payload(true, true, Streamed(rd)) == Delivered(script)
  {
    DeliveredWasRead(rd, StopAt(rd));
    PrefixOfPrefix(Delivered(rd), BytesTo(rd, |rd|), Delivered(script));
    StopAtIsFirst(rd);
  }

  /** Of the relays that ended, the router retries exactly those whose connection was torn before
      a byte arrived, with the client still there. */
  lemma {:induction false} RetriedIffTorn(script: seq<Turn>, rd: seq<Turn>)
    requires StopAt(script) < |script| && Arrives(script, rd)
    ensures Gateway.Retryable(true, true, Streamed(rd)) <==>
              Torn(script) && ClientStays(rd) && BytesTo(rd, StopAt(rd) + 1) == ""
  {
    StopAtIsFirst(rd);
    var k := StopAt(rd);
    if k < |rd| { assert |BytesTo(rd, k + 1)| == |BytesTo(rd, k)| + |rd[k].line|; }
  }

  lemma ReportedIsWhole(script: seq<Turn>)
    requires Relay.StreamOutcome(script) in {Some(Relay.UpstreamFailed), Some(Relay.PartialStream)}
    ensures StopAt(script) < |script| && !Torn(script)
    ensures Relay.StreamOutcome(script) == Some(Relay.UpstreamFailed) <==> Delivered(script) == ""
  {
    ReportedEnd(script[StopAt(script)], Delivered(script));
  }

  lemma ReportedEnd(t: Turn, sent: string)
    requires Relay.EndState(t, sent) in {Relay.UpstreamFailed, Relay.PartialStream}
    ensures !WriteFails(t) && !t.gone && (Relay.EndState(t, sent) == Relay.UpstreamFailed <==> sent == "")
  {}

  /** So a failure the sidecar reports is never retried: not a stream that broke half way, and
      not an upstream that failed before the first event, which a client that stays takes for an
      answer that is complete and empty. */
  lemma {:induction false} SidecarFailuresAreNotRetried(script: seq<Turn>, rd: seq<Turn>)
    requires Relay.StreamOutcome(script) in {Some(Relay.UpstreamFailed), Some(Relay.PartialStream)}
    requires Arrives(script, rd)
    ensures !Gateway.Retryable(true, true, Streamed(rd))
    ensures ClientStays(rd) ==> Gateway.Payload(true, true, Streamed(rd)) == Delivered(script)
    ensures ClientStays(rd) ==> rd[StopAt(rd)].err == Eof
    ensures Relay.StreamOutcome(script) == Some(Relay.UpstreamFailed) <==> Delivered(script) == ""
  {
    ReportedIsWhole(script);
    RetriedIffTorn(script, rd);
    ClientGetsWhatSidecarSent(script, rd);
    StopAtIsFirst(rd);
  }

  /** A relay that was cancelled because its requester left is where a retry can happen. */
  lemma TornBeforeFirstByte(line: string)
    requires line != ""
    ensures var script, rd := [Turn(line, NoErr, false, false)], [Turn("", Broken(false), true, false)];
      && StopAt(script) < |script| && Arrives(script, rd)
      && Relay.StreamOutcome(script) == Some(Relay.Cancelled) && Gateway.Retryable(true, true, Streamed(rd))
  {
    var script, rd := [Turn(line, NoErr, false, false)], [Turn("", Broken(false), true, false)];
    StopAtUnique(script, 0);
    StopAtUnique(rd, 0);
    assert BytesTo(rd, 0) == "" && BytesTo(rd, 1) == "";
  }

  // ------------------------------------------------------------------------------------------
  // Answers by status line

  /** A refused request is always retried elsewhere. */
  lemma RefusalsAreRetried(why: AdmissionQueue.Refusal, stream: bool, flushable: bool, r: Gateway.Reply)
    requires r.Reply? && r.status == Relay.RejectionStatus(why)
    ensures Gateway.Retryable(stream, flushable, r) && !Gateway.CommitsHead(stream, flushable, r)
  {}

  /** Of the ways Serve can end with a status line, the router takes as a rejection exactly a
      timeout in the queue and the model server's own 429 or 503; a model server that cannot be
      reached is none. Every other status of a streamed answer reaches the client as 200. */
  lemma RejectedEndings(wait: Relay.Wait, stream: bool, flushable: bool, up: Relay.Upstream,
                        id: string, r: Gateway.Reply)
    requires r.Reply? && Relay.StatusLine(wait, stream, flushable, up) == Some(r.status)
    ensures Gateway.Rejects(r) <==>
              wait == Relay.WaitTimedOut
              || (wait == Relay.Dispatched && (stream ==> flushable) && up.Response? && up.status in {429, 503})
    ensures wait == Relay.Dispatched && up.ConnectFailed? ==> !Gateway.Rejects(r) && r.status in {500, 502}
    ensures !Gateway.Rejects(r) ==>
              Gateway.HeadAfter(stream, true, id, r, None)
              == Some(Gateway.Head(if stream then 200 else r.status, Gateway.FromBackend(id)))
  {}

  /** A plain request, dispatched by the sidecar: the client gets the model server's status and
      body, or the router goes elsewhere because that status is 429 or 503. */
  method PlainRoundTrip(up: Relay.Upstream, id: string, flushable: bool)
    returns (outcome: Gateway.Outcome, head: Option<Gateway.Head>, bytes: string)
    requires up.Response?
    ensures up.status !in {429, 503} ==>
              outcome == Gateway.Settled && bytes == up.body
              && head == Some(Gateway.Head(up.status, Gateway.FromBackend(id)))
    ensures up.status in {429, 503} ==> outcome == Gateway.Retry && bytes == "" && head == None
  {
    var _, _, status, sent := Relay.Serve(Relay.Dispatched, false, flushable, up);
    var reply := Gateway.Reply.Reply(status.value, sent, []);
    outcome, head, bytes := Gateway.Forward(false, flushable, id, reply, None);
  }

  /** So a streamed error of the sidecar is delivered as if it were an answer: under 200, whole
      and for good. */
  lemma StreamedErrorIsDelivered(r: Gateway.Reply, error: string)
    requires r.Reply? && !Gateway.Rejects(r)
    requires ClientStays(r.script) && r.script[StopAt(r.script)].err == Eof
    requires BytesTo(r.script, StopAt(r.script) + 1) == error
    ensures !Gateway.Retryable(true, true, r) && Gateway.Payload(true, true, r) == error
    ensures forall id :: Gateway.HeadOf(true, id, r) == Gateway.Head(200, Gateway.FromBackend(id))
  {}
}
