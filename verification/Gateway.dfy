/** The router's attempt loop: bounded retries across backends, none after the first body
    byte. The response writer keeps the first status written and appends body lines. */
module Gateway {
  import opened Sequences
  import opened Streams
  import opened Routing

  /** Who produced a part of the response. */
  datatype Source = FromBackend(id: string) | FromRouter

  datatype Head = Head(code: int, source: Source)

  datatype Part = Part(source: Source, bytes: string)

  /** What one sidecar answers, if there is one to ask. */
  datatype Reply = NotInSnapshot | NoConnection | Reply(status: int, body: string, script: seq<Turn>)

  datatype Outcome = Retry | Settled | StillRelaying

  predicate Rejects(r: Reply) { !r.Reply? || r.status == 429 || r.status == 503 }

  /** The stream broke before any line arrived and the client is still there. */
  predicate BreaksBeforeFirstByte(script: seq<Turn>) {
    var k := StopAt(script);
    k < |script| && script[k].err.Broken? && !script[k].gone && BytesTo(script, k + 1) == ""
  }

  /** The client learns nothing from this attempt, so another may follow. */
  predicate Retryable(stream: bool, flushable: bool, r: Reply) {
    Rejects(r) || (stream && (!flushable || BreaksBeforeFirstByte(r.script)))
  }

  /** The attempt commits the response's status line. */
  predicate CommitsHead(stream: bool, flushable: bool, r: Reply) {
    !Rejects(r) && (stream ==> flushable)
  }

  function HeadOf(stream: bool, id: string, r: Reply): Head
    requires r.Reply?
  {
    Head(if stream then 200 else r.status, FromBackend(id))
  }

  function FirstWins(head: Option<Head>, h: Head): Option<Head> {
    if head.Some? then head else Some(h)
  }

  function HeadAfter(stream: bool, flushable: bool, id: string, r: Reply, head0: Option<Head>): Option<Head> {
    if CommitsHead(stream, flushable, r) then FirstWins(head0, HeadOf(stream, id, r)) else head0
  }

  /** The bytes of a reply that reach the client. */
  function Payload(stream: bool, flushable: bool, r: Reply): string {
    if !CommitsHead(stream, flushable, r) then "" else if stream then Delivered(r.script) else r.body
  }

  /** The stream has not ended yet. */
  predicate Unfinished(stream: bool, r: Reply) { stream && r.Reply? && StopAt(r.script) == |r.script| }

  /** The streaming half: forwards line by line until the stream or the client ends it. */
  method RelayLoop(script: seq<Turn>) returns (outcome: Outcome, bytes: string)
    ensures outcome == Retry <==> BreaksBeforeFirstByte(script)
    ensures outcome == StillRelaying <==> StopAt(script) == |script|
    ensures bytes == Delivered(script)
  {
    bytes := "";
    var sawByte := false;
    for i := 0 to |script|
      invariant forall j | 0 <= j < i :: !Ends(script[j])
      invariant bytes == BytesTo(script, i)
      invariant sawByte <==> bytes != ""
    {
      var t := script[i];
      assert BytesTo(script, i + 1) == bytes + t.line;
      if Ends(t) { StopAtUnique(script, i); }
      if t.line != "" {
        sawByte := true;
        if !t.writeOk {
          return Settled, bytes;
        }
        bytes := bytes + t.line;
      }
      if t.err == Eof {
        return Settled, bytes;
      }
      if t.err.Broken? {
        if !sawByte && !t.gone {
          return Retry, bytes;
        }
        return Settled, bytes;
      }
      if t.gone {
        return Settled, bytes;
      }
    }
    StopAtUnique(script, |script|);
    outcome := StillRelaying;
  }

  /** Sends to one sidecar. A retryable attempt writes no body byte; its status line may stay. */
  method Forward(stream: bool, flushable: bool, id: string, r: Reply, head0: Option<Head>)
    returns (outcome: Outcome, head: Option<Head>, bytes: string)
    ensures outcome == Retry <==> Retryable(stream, flushable, r)
    ensures outcome == Retry ==> bytes == ""
    ensures bytes == Payload(stream, flushable, r)
    ensures head == HeadAfter(stream, flushable, id, r, head0)
    ensures outcome != Retry ==> (outcome == StillRelaying <==> Unfinished(stream, r))
  {
    head, bytes := head0, "";
    if !r.Reply? {
      return Retry, head, bytes;
    }
    if r.status == 429 || r.status == 503 {
      return Retry, head, bytes;
    }
    if !stream {
      head := FirstWins(head, Head(r.status, FromBackend(id)));
      return Settled, head, r.body;
    }
    if !flushable {
      return Retry, head, bytes;
    }
    head := FirstWins(head, Head(200, FromBackend(id)));
    outcome, bytes := RelayLoop(r.script);
    if outcome == Retry { BrokenIsSilent(r.script); }
  }

  lemma BrokenIsSilent(script: seq<Turn>)
    requires BreaksBeforeFirstByte(script)
    ensures Delivered(script) == ""
  {
    var k := StopAt(script);
    assert |BytesTo(script, k + 1)| == |BytesTo(script, k)| + |script[k].line|;
  }

  // ------------------------------------------------------------------------------------------
  // The attempt loop

  /** The world during one attempt: the snapshot read, the policy's choice, what each backend
      of the snapshot would answer. */
  datatype Attempt = Attempt(snap: seq<Backend>, choice: Option<string>, replies: Backend -> Reply)

  /** The backend an id stands for: the first in the snapshot that has it. */
  function Target(snap: seq<Backend>, id: string): Option<Backend> {
    if snap == [] then None else if snap[0].id == id then Some(snap[0]) else Target(snap[1..], id)
  }

  /** What an attempt on this id meets. */
  function Met(a: Attempt, id: string): Reply {
    match Target(a.snap, id)
    case None => NotInSnapshot
    case Some(b) => a.replies(b)
  }

  lemma {:induction false} TargetMeaning(snap: seq<Backend>, id: string)
    ensures Target(snap, id).Some? ==> Target(snap, id).value in snap && Target(snap, id).value.id == id
    ensures Target(snap, id).None? ==> forall b | b in snap :: b.id != id
  {
    if snap != [] && snap[0].id != id {
      TargetMeaning(snap[1..], id);
      assert forall b | b in snap :: b == snap[0] || b in snap[1..];
    }
  }

  /** Finds a backend by id. */
  method BackendByID(snap: seq<Backend>, id: string) returns (b: Option<Backend>)
    ensures b == Target(snap, id)
  {
    for i := 0 to |snap|
      invariant Target(snap, id) == Target(snap[i..], id)
    {
      if snap[i].id == id {
        return Some(snap[i]);
      }
    }
    b := None;
  }

  ghost predicate AllTried(snap: seq<Backend>, tried: set<string>) {
    forall b | b in snap && IsEligible(b) :: b.id in tried
  }

  /** The i-th backend is eligible, untried, and the first such. */
  ghost predicate FirstUntried(snap: seq<Backend>, tried: set<string>, i: nat)
    requires i < |snap|
  {
    && IsEligible(snap[i]) && snap[i].id !in tried
    && forall j | 0 <= j < i && IsEligible(snap[j]) :: snap[j].id in tried
  }

  ghost predicate IsFirstUntried(snap: seq<Backend>, tried: set<string>, id: string) {
    exists i :: 0 <= i < |snap| && snap[i].id == id && FirstUntried(snap, tried, i)
  }

  /** The first eligible backend not tried yet; the empty id stands for none. */
  method PickAlternative(snap: seq<Backend>, tried: set<string>) returns (alt: string)
    ensures !AllTried(snap, tried) ==> IsFirstUntried(snap, tried, alt)
    ensures AllTried(snap, tried) ==> alt == ""
  {
    var e, idx := Eligible(snap);
    for i := 0 to |e|
      invariant forall j | 0 <= j < i :: e[j].id in tried
    {
      if e[i].id !in tried {
        assert e[i] in e;
        FirstInFilter(snap, e, idx, tried, i);
        return e[i].id;
      }
    }
    alt := "";
    forall b | b in snap && IsEligible(b) ensures b.id in tried {
      var j :| 0 <= j < |e| && e[j] == b;
    }
  }

  lemma FirstInFilter(snap: seq<Backend>, e: seq<Backend>, idx: seq<nat>, tried: set<string>, k: nat)
    requires Filters(snap, |snap|, e, idx) && k < |e| && e[k].id !in tried
    requires forall j | 0 <= j < k :: e[j].id in tried
    ensures IsFirstUntried(snap, tried, e[k].id)
  {
    forall j | 0 <= j < idx[k] && IsEligible(snap[j]) ensures snap[j].id in tried {
      var _ := EarlierInFilter(snap, e, idx, k, j);
    }
    assert FirstUntried(snap, tried, idx[k]);
  }

  /** How the loop settles on an id: the policy's choice, unless that was tried and some eligible
      backend was not. Then it is the first of those, or again the choice if that one has the
      empty id. */
  ghost predicate ChosenWell(a: Attempt, id: string, tried: set<string>) {
    && a.choice.Some?
    && if a.choice.value !in tried || AllTried(a.snap, tried) then id == a.choice.value
       else if IsFirstUntried(a.snap, tried, "") then id == a.choice.value
       else IsFirstUntried(a.snap, tried, id)
  }

  method Choose(a: Attempt, tried: set<string>) returns (id: string)
    requires a.choice.Some?
    ensures ChosenWell(a, id, tried)
  {
    id := a.choice.value;
    if id in tried {
      var alt := PickAlternative(a.snap, tried);
      OneFirstUntried(a.snap, tried, alt, "");
      if alt != "" {
        id := alt;
      }
    }
  }

  lemma OneFirstUntried(snap: seq<Backend>, tried: set<string>, x: string, y: string)
    ensures IsFirstUntried(snap, tried, x) && IsFirstUntried(snap, tried, y) ==> x == y
  {
    if IsFirstUntried(snap, tried, x) && IsFirstUntried(snap, tried, y) {
      var i :| 0 <= i < |snap| && snap[i].id == x && FirstUntried(snap, tried, i);
      var j :| 0 <= j < |snap| && snap[j].id == y && FirstUntried(snap, tried, j);
      assert i == j;
    }
  }

  function Ids(picks: seq<string>): set<string> { set id | id in picks }

  /** Every pick on record was made as it should given the ones before it. */
  ghost predicate WellChosen(env: seq<Attempt>, picks: seq<string>)
    requires |picks| <= |env|
  {
    picks == [] || (var n := |picks| - 1;
      WellChosen(env, picks[..n]) && ChosenWell(env[n], picks[n], Ids(picks[..n])))
  }

  /** The first `n` attempts of the record all failed without a byte reaching the client. */
  predicate AllRetryable(env: seq<Attempt>, picks: seq<string>, n: nat, stream: bool, flushable: bool)
    requires n <= |picks| <= |env|
  {
    n == 0 || (AllRetryable(env, picks, n - 1, stream, flushable)
               && Retryable(stream, flushable, Met(env[n - 1], picks[n - 1])))
  }

  /** The status line is the first that any attempt up to `n` committed. */
  function CommittedHead(env: seq<Attempt>, picks: seq<string>, stream: bool, flushable: bool, n: nat): Option<Head>
    requires n <= |picks| <= |env|
  {
    if n == 0 then None
    else
      HeadAfter(stream, flushable, picks[n - 1], Met(env[n - 1], picks[n - 1]),
                CommittedHead(env, picks, stream, flushable, n - 1))
  }

  datatype Result = Answered | Relaying | NoEligibleBackend | AllAttemptsFailed

  function LastMet(env: seq<Attempt>, picks: seq<string>): Reply
    requires 0 < |picks| <= |env|
  {
    Met(env[|picks| - 1], picks[|picks| - 1])
  }

  datatype Response = Response(result: Result, head: Head, body: seq<Part>)

  /** What a response means. Answered or still relaying: all attempts but the last failed
      unseen, the last did not, and the body is its payload alone. Otherwise every attempt
      failed unseen and the body is the router's own error. The status line is in every case
      the first one committed. */
  ghost predicate Explains(r: Response, env: seq<Attempt>, picks: seq<string>, stream: bool, flushable: bool)
    requires |picks| <= |env|
  {
    && WellChosen(env, picks)
    && r.head == CommittedHead(env, picks, stream, flushable, |picks|).GetOr(
                   Head(if r.result == NoEligibleBackend then 503 else 502, FromRouter))
    && match r.result
       case NoEligibleBackend =>
         && |picks| < |env| && env[|picks|].choice.None?
         && AllRetryable(env, picks, |picks|, stream, flushable)
         && r.body == [Part(FromRouter, "NO_ELIGIBLE_BACKEND")]
       case AllAttemptsFailed =>
         && |picks| == |env|
         && AllRetryable(env, picks, |picks|, stream, flushable)
         && r.body == [Part(FromRouter, "ALL_ATTEMPTS_FAILED")]
       case _ =>
         && picks != [] && !Retryable(stream, flushable, LastMet(env, picks))
         && (r.result == Relaying <==> Unfinished(stream, LastMet(env, picks)))
         && AllRetryable(env, picks, |picks| - 1, stream, flushable)
         && r.body == [Part(FromBackend(picks[|picks| - 1]), Payload(stream, flushable, LastMet(env, picks)))]
  }

  /** The loop's bookkeeping: picks were well made, the first `n` attempts failed unseen, and
      `written` is the status line so far. */
  ghost predicate OnRecord(env: seq<Attempt>, picks: seq<string>, n: nat, stream: bool, flushable: bool,
                           written: Option<Head>)
    requires n <= |picks| <= |env|
  {
    && WellChosen(env, picks)
    && AllRetryable(env, picks, n, stream, flushable)
    && written == CommittedHead(env, picks, stream, flushable, |picks|)
  }

  lemma ExtendRecord(env: seq<Attempt>, picks: seq<string>, id: string, stream: bool, flushable: bool,
                     written: Option<Head>)
    requires |picks| < |env| && OnRecord(env, picks, |picks|, stream, flushable, written)
    requires ChosenWell(env[|picks|], id, Ids(picks))
    ensures var r := Met(env[|picks|], id);
      var next := HeadAfter(stream, flushable, id, r, written);
      && OnRecord(env, picks + [id], |picks|, stream, flushable, next)
      && (Retryable(stream, flushable, r) ==> OnRecord(env, picks + [id], |picks| + 1, stream, flushable, next))
    ensures Ids(picks + [id]) == Ids(picks) + {id}
  {
    SameRecord(env, picks, id, stream, flushable, |picks|);
    assert (picks + [id])[..|picks|] == picks;
  }

  /** One more attempt on record leaves what was said of the earlier ones. */
  lemma {:induction false} SameRecord(env: seq<Attempt>, picks: seq<string>, id: string, stream: bool,
                                      flushable: bool, n: nat)
    requires n <= |picks| < |env|
    ensures CommittedHead(env, picks + [id], stream, flushable, n) == CommittedHead(env, picks, stream, flushable, n)
    ensures AllRetryable(env, picks + [id], n, stream, flushable) == AllRetryable(env, picks, n, stream, flushable)
  {
    if n > 0 { SameRecord(env, picks, id, stream, flushable, n - 1); }
  }

  /** Asks the backend the id stands for; an id the snapshot does not have is passed over. */
  method Contact(a: Attempt, id: string, stream: bool, flushable: bool, written: Option<Head>)
    returns (outcome: Outcome, head: Option<Head>, bytes: string)
    ensures outcome == Retry <==> Retryable(stream, flushable, Met(a, id))
    ensures outcome == Retry ==> bytes == ""
    ensures bytes == Payload(stream, flushable, Met(a, id))
    ensures head == HeadAfter(stream, flushable, id, Met(a, id), written)
    ensures outcome != Retry ==> (outcome == StillRelaying <==> Unfinished(stream, Met(a, id)))
  {
    var bs := BackendByID(a.snap, id);
    if bs.None? {
      return Retry, written, "";
    }
    outcome, head, bytes := Forward(stream, flushable, id, a.replies(bs.value), written);
  }

  /** One turn of the attempt loop: the record grows by the id picked, and by a failure the
      client saw nothing of unless the answer is being delivered. */
  method TryNext(a: Attempt, ghost env: seq<Attempt>, ghost picks: seq<string>, tried: set<string>,
                 stream: bool, flushable: bool, written: Option<Head>)
    returns (id: string, outcome: Outcome, head: Option<Head>, bytes: string)
    requires |picks| < |env| && a == env[|picks|] && a.choice.Some? && tried == Ids(picks)
    requires OnRecord(env, picks, |picks|, stream, flushable, written)
    ensures OnRecord(env, picks + [id], |picks|, stream, flushable, head) && Ids(picks + [id]) == tried + {id}
    ensures outcome == Retry ==> OnRecord(env, picks + [id], |picks| + 1, stream, flushable, head) && bytes == ""
    ensures outcome != Retry ==> !Retryable(stream, flushable, LastMet(env, picks + [id]))
    ensures outcome != Retry ==> bytes == Payload(stream, flushable, LastMet(env, picks + [id]))
    ensures outcome != Retry ==> (outcome == StillRelaying <==> Unfinished(stream, LastMet(env, picks + [id])))
  {
    id := Choose(a, tried);
    outcome, head, bytes := Contact(a, id, stream, flushable, written);
    ExtendRecord(env, picks, id, stream, flushable, written);
  }

  /** A record whose last attempt was not retryable explains that attempt's answer. */
  lemma AnswerExplained(result: Result, env: seq<Attempt>, picks: seq<string>, stream: bool, flushable: bool,
                        written: Option<Head>)
    requires 0 < |picks| <= |env| && OnRecord(env, picks, |picks| - 1, stream, flushable, written)
    requires !Retryable(stream, flushable, LastMet(env, picks))
    requires result == if Unfinished(stream, LastMet(env, picks)) then Relaying else Answered
    ensures var body := [Part(FromBackend(picks[|picks| - 1]), Payload(stream, flushable, LastMet(env, picks)))];
      Explains(Response(result, written.GetOr(Head(502, FromRouter)), body), env, picks, stream, flushable)
  {}

  /** A record of failures alone explains the router's own error. */
  lemma ErrorExplained(env: seq<Attempt>, picks: seq<string>, stream: bool, flushable: bool, written: Option<Head>)
    requires |picks| <= |env| && OnRecord(env, picks, |picks|, stream, flushable, written)
    ensures |picks| == |env| ==>
              Explains(Response(AllAttemptsFailed, written.GetOr(Head(502, FromRouter)),
                                [Part(FromRouter, "ALL_ATTEMPTS_FAILED")]),
                       env, picks, stream, flushable)
    ensures |picks| < |env| && env[|picks|].choice.None? ==>
              Explains(Response(NoEligibleBackend, written.GetOr(Head(503, FromRouter)),
                                [Part(FromRouter, "NO_ELIGIBLE_BACKEND")]),
                       env, picks, stream, flushable)
  {}

  /** The loop body once the policy has chosen: either the response is settled, or the record is
      one failure longer and the body still empty. */
  method AfterChoice(env: seq<Attempt>, picks0: seq<string>, tried0: set<string>, stream: bool, flushable: bool,
                     written0: Option<Head>, body0: seq<Part>)
    returns (r: Option<Response>, picks: seq<string>, tried: set<string>, written: Option<Head>, body: seq<Part>)
    requires |picks0| < |env| && env[|picks0|].choice.Some? && tried0 == Ids(picks0) && body0 == []
    requires OnRecord(env, picks0, |picks0|, stream, flushable, written0)
    ensures |picks| == |picks0| + 1 && tried == Ids(picks)
    ensures r.Some? ==> Explains(r.value, env, picks, stream, flushable)
    ensures r.None? ==> OnRecord(env, picks, |picks|, stream, flushable, written) && body == []
  {
    var id, outcome, h, bytes := TryNext(env[|picks0|], env, picks0, tried0, stream, flushable, written0);
    tried, picks, written, body := tried0 + {id}, picks0 + [id], h, body0;
    if bytes != "" || outcome != Retry {
      body := body + [Part(FromBackend(id), bytes)];
    }
    if outcome == Retry {
      return None, picks, tried, written, body;
    }
    var result := if outcome == Settled then Answered else Relaying;
    AnswerExplained(result, env, picks, stream, flushable, written);
    r := Some(Response(result, written.GetOr(Head(502, FromRouter)), body));
  }

  /** The client-facing endpoint, for any policy. `picks` lists the ids settled on, in order: at
      most `maxRetries` + 1 of them, each but the last a failure the client never saw a byte of.
      The body comes from one backend or is the router's own error. */
  method ChatCompletions(maxRetries: int, stream: bool, flushable: bool, env: seq<Attempt>)
    returns (r: Response, picks: seq<string>)
    requires |env| == if maxRetries < 0 then 0 else maxRetries + 1
    ensures |picks| <= |env|
    ensures Explains(r, env, picks, stream, flushable)
  {
    picks := [];
    var body: seq<Part> := [];
    var tried: set<string> := {};
    var written: Option<Head> := None;
    for attempt := 0 to |env|
      invariant body == [] && |picks| == attempt && tried == Ids(picks)
      invariant OnRecord(env, picks, attempt, stream, flushable, written)
    {
      if env[attempt].choice.None? {
        ErrorExplained(env, picks, stream, flushable, written);
        body := body + [Part(FromRouter, "NO_ELIGIBLE_BACKEND")];
        return Response(NoEligibleBackend, written.GetOr(Head(503, FromRouter)), body), picks;
      }
      var settled;
      settled, picks, tried, written, body := AfterChoice(env, picks, tried, stream, flushable, written, body);
      if settled.Some? {
        return settled.value, picks;
      }
    }
    ErrorExplained(env, picks, stream, flushable, written);
    body := body + [Part(FromRouter, "ALL_ATTEMPTS_FAILED")];
    r := Response(AllAttemptsFailed, written.GetOr(Head(502, FromRouter)), body);
  }

  // ------------------------------------------------------------------------------------------
  // Under a policy that keeps its contract

  ghost predicate UniqueIds(snap: seq<Backend>) { forall i, j | 0 <= i < j < |snap| :: snap[i].id != snap[j].id }

  /** The pick names an eligible backend. It is a repeat only if the snapshot has nothing untried
      to offer, or something with the empty id. */
  lemma {:induction false} PickIsEligible(a: Attempt, id: string, tried: set<string>)
    requires PolicyContract(a.snap, a.choice) && ChosenWell(a, id, tried)
    ensures IsEligibleId(a.snap, id) && Target(a.snap, id).Some?
    ensures id in tried ==> AllTried(a.snap, tried) || IsEligibleId(a.snap, "")
    ensures UniqueIds(a.snap) ==> IsEligible(Target(a.snap, id).value)
  {
    if id != a.choice.value { UntriedIsEligible(a.snap, tried, id); }
    if IsFirstUntried(a.snap, tried, "") { UntriedIsEligible(a.snap, tried, ""); }
    TargetMeaning(a.snap, id);
    var b :| b in a.snap && IsEligible(b) && b.id == id;
  }

  lemma UntriedIsEligible(snap: seq<Backend>, tried: set<string>, id: string)
    requires IsFirstUntried(snap, tried, id)
    ensures IsEligibleId(snap, id) && id !in tried
  {
    var i :| 0 <= i < |snap| && snap[i].id == id && FirstUntried(snap, tried, i);
    assert snap[i] in snap;
  }

  lemma {:induction false} WellChosenAt(env: seq<Attempt>, picks: seq<string>, i: nat)
    requires i < |picks| <= |env| && WellChosen(env, picks)
    ensures ChosenWell(env[i], picks[i], Ids(picks[..i]))
  {
    if i < |picks| - 1 {
      WellChosenAt(env, picks[..|picks| - 1], i);
      assert picks[..|picks| - 1][..i] == picks[..i];
    }
  }

  /** Every id tried names an eligible backend of its snapshot, is a backend the snapshot has,
      and is that eligible one where ids are unique; "no eligible backend" is the truth. */
  lemma OnlyEligibleTried(r: Response, env: seq<Attempt>, picks: seq<string>, stream: bool, flushable: bool)
    requires |picks| <= |env| && Explains(r, env, picks, stream, flushable)
    requires forall i | 0 <= i < |env| :: PolicyContract(env[i].snap, env[i].choice)
    ensures forall i | 0 <= i < |picks| ::
              IsEligibleId(env[i].snap, picks[i]) && Target(env[i].snap, picks[i]).Some?
              && (UniqueIds(env[i].snap) ==> IsEligible(Target(env[i].snap, picks[i]).value))
    ensures r.result == NoEligibleBackend ==> forall b | b in env[|picks|].snap :: !IsEligible(b)
  {
    forall i | 0 <= i < |picks|
      ensures IsEligibleId(env[i].snap, picks[i]) && Target(env[i].snap, picks[i]).Some?
      ensures UniqueIds(env[i].snap) ==> IsEligible(Target(env[i].snap, picks[i]).value)
    {
      WellChosenAt(env, picks, i);
      PickIsEligible(env[i], picks[i], Ids(picks[..i]));
    }
  }

  function Idle(id: string, reachable: bool): Backend {
    Backend(id, reachable, true, "READY", 0, 0, 0, 0.0, 0.0, false, 0.0, 0.0, 1.0, false, 0.0, false, 0.0, 0)
  }

  /** Where an id is repeated the request may go to an ineligible backend instead. */
  lemma RepeatedIdMisroutes()
    ensures var down, up := Idle("a", false), Idle("a", true);
      && PolicyContract([down, up], Some("a")) && !IsEligible(down)
      && forall replies :: ChosenWell(Attempt([down, up], Some("a"), replies), "a", {})
                           && Target([down, up], "a") == Some(down)
  {
    var down, up := Idle("a", false), Idle("a", true);
    assert up in [down, up] && IsEligible(up);
  }

  /** Backends are not repeated as long as snapshots offer untried ones with names. */
  lemma {:induction false} NoRepeats(env: seq<Attempt>, picks: seq<string>)
    requires |picks| <= |env| && WellChosen(env, picks)
    requires forall i | 0 <= i < |picks| ::
               !AllTried(env[i].snap, Ids(picks[..i])) && !IsEligibleId(env[i].snap, "")
    ensures forall i, j | 0 <= i < j < |picks| :: picks[i] != picks[j]
  {
    if picks != [] {
      var n := |picks| - 1;
      var front, last := picks[..n], picks[n];
      forall i | 0 <= i < n ensures !AllTried(env[i].snap, Ids(front[..i])) && !IsEligibleId(env[i].snap, "") {
        assert front[..i] == picks[..i];
      }
      NoRepeats(env, front);
      NewPick(env[n], last, Ids(front));
      forall i | 0 <= i < n ensures picks[i] != last { assert picks[i] in Ids(front); }
    }
  }

  lemma NewPick(a: Attempt, id: string, tried: set<string>)
    requires ChosenWell(a, id, tried) && !AllTried(a.snap, tried) && !IsEligibleId(a.snap, "")
    ensures id !in tried
  {
    if IsFirstUntried(a.snap, tried, "") { UntriedIsEligible(a.snap, tried, ""); }
    if IsFirstUntried(a.snap, tried, id) { UntriedIsEligible(a.snap, tried, id); }
  }

  // ------------------------------------------------------------------------------------------
  // The status line

  /** The i-th attempt is the first that got past rejection. */
  ghost predicate FirstCommits(env: seq<Attempt>, picks: seq<string>, stream: bool, flushable: bool, n: nat, i: nat)
    requires n <= |picks| <= |env|
  {
    && i < n && CommitsHead(stream, flushable, Met(env[i], picks[i]))
    && forall j | 0 <= j < i :: !CommitsHead(stream, flushable, Met(env[j], picks[j]))
  }

  /** There is no status line yet exactly as long as no attempt got past rejection. */
  lemma {:induction false} NoHeadIff(env: seq<Attempt>, picks: seq<string>, stream: bool, flushable: bool, n: nat)
    requires n <= |picks| <= |env|
    ensures CommittedHead(env, picks, stream, flushable, n).None? <==>
              forall i | 0 <= i < n :: !CommitsHead(stream, flushable, Met(env[i], picks[i]))
  {
    if n > 0 { NoHeadIff(env, picks, stream, flushable, n - 1); }
  }

  /** The status line belongs to the first attempt that got past rejection, whichever attempt
      supplied the body. */
  lemma {:induction false} HeadIsFirstCommitted(env: seq<Attempt>, picks: seq<string>, stream: bool, flushable: bool,
                                                n: nat)
    returns (i: nat)
    requires n <= |picks| <= |env| && CommittedHead(env, picks, stream, flushable, n).Some?
    ensures FirstCommits(env, picks, stream, flushable, n, i)
    ensures CommittedHead(env, picks, stream, flushable, n) == Some(HeadOf(stream, picks[i], Met(env[i], picks[i])))
  {
    if CommittedHead(env, picks, stream, flushable, n - 1).Some? {
      i := HeadIsFirstCommitted(env, picks, stream, flushable, n - 1);
    } else {
      NoHeadIff(env, picks, stream, flushable, n - 1);
      i := n - 1;
    }
  }

  lemma {:induction false} RetryableAt(env: seq<Attempt>, picks: seq<string>, n: nat, stream: bool, flushable: bool,
                                       i: nat)
    requires i < n <= |picks| <= |env| && AllRetryable(env, picks, n, stream, flushable)
    ensures Retryable(stream, flushable, Met(env[i], picks[i]))
  {
    if i < n - 1 { RetryableAt(env, picks, n - 1, stream, flushable, i); }
  }

  /** The first attempt past rejection gave a delivered response its head; if it is not the one
      that gave the body, it is a stream that broke before its first byte. */
  lemma {:induction false} HeadAndBody(r: Response, env: seq<Attempt>, picks: seq<string>,
                                       stream: bool, flushable: bool)
    returns (i: nat)
    requires |picks| <= |env| && Explains(r, env, picks, stream, flushable)
    requires r.result == Answered || r.result == Relaying
    ensures FirstCommits(env, picks, stream, flushable, |picks|, i)
    ensures r.head.source == FromBackend(picks[i]) && r.body[0].source == FromBackend(picks[|picks| - 1])
    ensures i < |picks| - 1 ==> stream && flushable && BrokeUnseen(Met(env[i], picks[i]))
  {
    assert CommitsHead(stream, flushable, LastMet(env, picks));
    NoHeadIff(env, picks, stream, flushable, |picks|);
    i := HeadIsFirstCommitted(env, picks, stream, flushable, |picks|);
    if i < |picks| - 1 { RetryableAt(env, picks, |picks| - 1, stream, flushable, i); }
  }

  /** Of the attempts before the last, the j-th is the first whose stream broke before its first byte. */
  ghost predicate FirstBreak(env: seq<Attempt>, picks: seq<string>, j: nat)
    requires |picks| <= |env|
  {
    && j < |picks| - 1 && BrokeUnseen(Met(env[j], picks[j]))
    && forall i | 0 <= i < j :: !BrokeUnseen(Met(env[i], picks[i]))
  }

  /** A delivered response names different backends in head and body if and only if it is a
      stream after one that broke before its first byte, the first of them on another backend. */
  lemma HeadMatchesBody(r: Response, env: seq<Attempt>, picks: seq<string>, stream: bool, flushable: bool)
    requires |picks| <= |env| && Explains(r, env, picks, stream, flushable)
    requires r.result == Answered || r.result == Relaying
    ensures r.head.source != r.body[0].source <==>
              stream && flushable
              && exists j: nat :: FirstBreak(env, picks, j) && picks[j] != picks[|picks| - 1]
  {
    var i := HeadAndBody(r, env, picks, stream, flushable);
    if i < |picks| - 1 { assert FirstBreak(env, picks, i); }
  }

  /** So where no backend was tried twice, exactly after any such break. */
  lemma HeadMatchesUnlessBroken(r: Response, env: seq<Attempt>, picks: seq<string>, stream: bool, flushable: bool)
    requires |picks| <= |env| && Explains(r, env, picks, stream, flushable)
    requires r.result == Answered || r.result == Relaying
    requires forall i, j | 0 <= i < j < |picks| :: picks[i] != picks[j]
    ensures r.head.source == r.body[0].source <==>
              !(stream && flushable && exists j :: 0 <= j < |picks| - 1 && BrokeUnseen(Met(env[j], picks[j])))
  {
    var i := HeadAndBody(r, env, picks, stream, flushable);
  }

  /** A request that is not streamed is answered with the last backend's reply: its status, its
      body, nothing else. */
  lemma PlainAnswer(r: Response, env: seq<Attempt>, picks: seq<string>, flushable: bool)
    requires |picks| <= |env| && Explains(r, env, picks, false, flushable)
    requires r.result == Answered || r.result == Relaying
    ensures r.result == Answered && LastMet(env, picks).Reply? && LastMet(env, picks).status !in {429, 503}
    ensures var id, reply := picks[|picks| - 1], LastMet(env, picks);
      r.head == Head(reply.status, FromBackend(id)) && r.body == [Part(FromBackend(id), reply.body)]
  {
    var i := HeadAndBody(r, env, picks, false, flushable);
    NoHeadIff(env, picks, false, flushable, |picks|);
    var _ := HeadIsFirstCommitted(env, picks, false, flushable, |picks|);
  }

  /** A streamed one with status 200 and the lines of the last backend's stream up to its end. */
  lemma StreamedAnswer(r: Response, env: seq<Attempt>, picks: seq<string>, flushable: bool)
    requires |picks| <= |env| && Explains(r, env, picks, true, flushable)
    requires r.result == Answered || r.result == Relaying
    ensures LastMet(env, picks).Reply? && r.head.code == 200
    ensures r.body == [Part(FromBackend(picks[|picks| - 1]), Delivered(LastMet(env, picks).script))]
  {
    var i := HeadAndBody(r, env, picks, true, flushable);
    NoHeadIff(env, picks, true, flushable, |picks|);
    var _ := HeadIsFirstCommitted(env, picks, true, flushable, |picks|);
  }

  /** After a stream that broke before its first byte, the router's error goes out under the
      status 200 it had already sent; otherwise a failed request shows the router's status. */
  lemma FailureStatus(env: seq<Attempt>, picks: seq<string>, flushable: bool)
    requires |picks| <= |env| && AllRetryable(env, picks, |picks|, true, flushable)
    ensures CommittedHead(env, picks, true, flushable, |picks|).Some? <==>
              flushable && exists i :: 0 <= i < |picks| && BrokeUnseen(Met(env[i], picks[i]))
    ensures CommittedHead(env, picks, true, flushable, |picks|).Some? ==>
              CommittedHead(env, picks, true, flushable, |picks|).value.code == 200
  {
    NoHeadIff(env, picks, true, flushable, |picks|);
    if CommittedHead(env, picks, true, flushable, |picks|).Some? {
      var _ := HeadIsFirstCommitted(env, picks, true, flushable, |picks|);
    }
    forall i | 0 <= i < |picks| ensures Retryable(true, flushable, Met(env[i], picks[i])) {
      RetryableAt(env, picks, |picks|, true, flushable, i);
    }
  }

  predicate BrokeUnseen(r: Reply) { !Rejects(r) && BreaksBeforeFirstByte(r.script) }

  const SILENT_BREAK := Reply.Reply(200, "", [Turn("", Broken(false), true, false)])
  const ONE_LINE := Reply.Reply(200, "", [Turn("x", Eof, true, false)])

  lemma SilentThenWhole()
    ensures Retryable(true, true, SILENT_BREAK) && !Retryable(true, true, ONE_LINE)
    ensures Payload(true, true, ONE_LINE) == "x"
  {
    StopAtUnique(SILENT_BREAK.script, 0);
    StopAtUnique(ONE_LINE.script, 0);
    assert BytesTo(SILENT_BREAK.script, 0) == "" && BytesTo(SILENT_BREAK.script, 1) == "";
    assert BytesTo(ONE_LINE.script, 0) == "";
  }

  const A_AND_B := [Idle("a", true), Idle("b", true)]

  /** A policy that always prefers "a", whose streams break at once; "b" would answer. */
  const PREFERS_A := Attempt(A_AND_B, Some("a"), (b: Backend) => if b.id == "a" then SILENT_BREAK else ONE_LINE)

  /** It happens: the first stream breaks unseen, the second answers under the first one's head. */
  lemma MixedResponse()
    ensures PolicyContract(PREFERS_A.snap, PREFERS_A.choice)
    ensures Explains(Response(Answered, Head(200, FromBackend("a")), [Part(FromBackend("b"), "x")]),
                     [PREFERS_A, PREFERS_A], ["a", "b"], true, true)
  {
    SilentThenWhole();
    PreferringA();
    var env := [PREFERS_A, PREFERS_A];
    assert ["a", "b"][..1] == ["a"] && ["a"][..0] == [];
    assert WellChosen(env, ["a"]);
    assert CommittedHead(env, ["a", "b"], true, true, 1) == Some(Head(200, FromBackend("a")));
  }

  lemma PreferringA()
    ensures PolicyContract(A_AND_B, Some("a"))
    ensures Met(PREFERS_A, "a") == SILENT_BREAK && Met(PREFERS_A, "b") == ONE_LINE
    ensures ChosenWell(PREFERS_A, "a", Ids([])) && ChosenWell(PREFERS_A, "b", Ids(["a"]))
  {
    assert A_AND_B[0] in A_AND_B && A_AND_B[1] in A_AND_B;
    assert A_AND_B[1..][0] == A_AND_B[1];
    assert Ids(["a"]) == {"a"};
    assert FirstUntried(A_AND_B, {"a"}, 1);
    OneFirstUntried(A_AND_B, {"a"}, "b", "");
  }
}
