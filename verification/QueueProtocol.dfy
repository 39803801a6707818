/** Every interleaving of the queue's clients. An event is one atomic step of some
    goroutine: a critical section, the dispatcher closing a ticket's channel, or the choice
    a waiter's select makes. A waiter may choose to leave after its ticket was popped. */
module QueueProtocol {
  import opened Sequences
  import opened AdmissionQueue

  datatype Why = Timeout | Cancel

  /** Where the request's goroutine stands in WaitForDispatch and after it. */
  datatype Waiter =
    | Blocked            // in the select
    | Leaving(why: Why)  // chose timeout or cancellation, has not yet left the list
    | Left(why: Why)     // off the list, not yet counted
    | GaveUp(why: Why)   // counted; returned an error
    | Relaying           // returned nil; owes exactly one Done
    | Finished           // called Done

  datatype Place = Queued | Popped | TakenOff | Dropped

  datatype Ticket = Ticket(place: Place, waiter: Waiter, closes: nat, cancelled: bool)

  datatype System = System(core: Core, tickets: seq<Ticket>, dispatcher: Option<nat>, order: seq<nat>)

  datatype Event =
    | Admit(gate: Option<string>)
    | Pop
    | CloseChannel
    | ClientCancels(t: nat)
    | SeeDispatch(t: nat)
    | SeeCancel(t: nat)
    | SeeTimeout(t: nat)
    | LeaveList(t: nat)
    | CountExit(t: nat)
    | CallDone(t: nat)
    | CloseQueue

  const INITIAL := System(EMPTY, [], None, [])

  predicate Enabled(cfg: Config, s: System, e: Event) {
    match e
    case Admit(_) => true
    case Pop => s.dispatcher == None && s.core.CanPop(cfg) && s.core.waiting[0] < |s.tickets|
    case CloseChannel => s.dispatcher.Some? && s.dispatcher.value < |s.tickets|
    case CloseQueue => true
    case ClientCancels(t) => t < |s.tickets|
    case SeeDispatch(t) => t < |s.tickets| && s.tickets[t].waiter == Blocked && s.tickets[t].closes > 0
    case SeeCancel(t) => t < |s.tickets| && s.tickets[t].waiter == Blocked && s.tickets[t].cancelled
    case SeeTimeout(t) => t < |s.tickets| && s.tickets[t].waiter == Blocked && cfg.timeoutEnabled
    case LeaveList(t) => t < |s.tickets| && s.tickets[t].waiter.Leaving?
    case CountExit(t) => t < |s.tickets| && s.tickets[t].waiter.Left?
    case CallDone(t) => t < |s.tickets| && s.tickets[t].waiter == Relaying
  }

  function Drop(t: Ticket): Ticket {
    if t.place == Queued then t.(place := Dropped, cancelled := true) else t
  }

  function SetWaiter(s: System, t: nat, w: Waiter): System
    requires t < |s.tickets|
  {
    s.(tickets := s.tickets[t := s.tickets[t].(waiter := w)])
  }

  function CountWhy(c: Core, w: Why): Core {
    match w
    case Timeout => c.(timedOut := c.timedOut + 1)
    case Cancel => c.(cancelled := c.cancelled + 1)
  }

  /** A step that is not enabled changes nothing, so every event sequence is a run. */
  function Apply(cfg: Config, s: System, e: Event): System {
    if !Enabled(cfg, s, e) then s else
    match e
    case Admit(gate) =>
      var next := s.(core := s.core.Admit(cfg, gate));
      if s.core.Decide(cfg, gate).Admitted?
      then next.(tickets := s.tickets + [Ticket(Queued, Blocked, 0, false)]) else next
    case Pop =>
      var t := s.core.waiting[0];
      s.(core := s.core.Pop(cfg), dispatcher := Some(t), order := s.order + [t],
         tickets := s.tickets[t := s.tickets[t].(place := Popped)])
    case CloseChannel =>
      var t := s.dispatcher.value;
      s.(dispatcher := None, tickets := s.tickets[t := s.tickets[t].(closes := s.tickets[t].closes + 1)])
    case ClientCancels(t) => s.(tickets := s.tickets[t := s.tickets[t].(cancelled := true)])
    case SeeDispatch(t) => SetWaiter(s, t, Relaying)
    case SeeCancel(t) => SetWaiter(s, t, Leaving(Cancel))
    case SeeTimeout(t) => SetWaiter(s, t, Leaving(Timeout))
    case LeaveList(t) =>
      var k := s.tickets[t];
      s.(core := s.core.Remove(t),
         tickets := s.tickets[t := k.(waiter := Left(k.waiter.why),
                                      place := if k.place == Queued then TakenOff else k.place)])
    case CountExit(t) =>
      var k := s.tickets[t];
      SetWaiter(s.(core := CountWhy(s.core, k.waiter.why)), t, GaveUp(k.waiter.why))
    case CallDone(t) => SetWaiter(s.(core := s.core.Done()), t, Finished)
    case CloseQueue =>
      s.(core := s.core.Close(), tickets := seq(|s.tickets|, i requires 0 <= i < |s.tickets| => Drop(s.tickets[i])))
  }

  function Run(cfg: Config, s: System, es: seq<Event>): System {
    if es == [] then s else Apply(cfg, Run(cfg, s, es[..|es| - 1]), es[|es| - 1])
  }

  // ------------------------------------------------------------------------------------------
  // What a slot is spent on

  predicate IsQueued(t: Ticket) { t.place == Queued }
  predicate IsPopped(t: Ticket) { t.place == Popped }
  predicate IsTakenOff(t: Ticket) { t.place == TakenOff }
  predicate IsDropped(t: Ticket) { t.place == Dropped }
  predicate IsRelaying(t: Ticket) { t.waiter == Relaying }
  predicate IsFinished(t: Ticket) { t.waiter == Finished }
  predicate IsTimedOut(t: Ticket) { t.waiter == GaveUp(Timeout) }
  predicate IsCancelled(t: Ticket) { t.waiter == GaveUp(Cancel) }
  predicate HoldsSlot(t: Ticket) { t.place == Popped && t.waiter != Finished }

  /** Popped, and its waiter has not looked yet. */
  predicate InHandover(t: Ticket) { t.place == Popped && t.waiter == Blocked }

  /** Popped, but the waiter gave up: nobody will call Done for it. */
  predicate Leaked(t: Ticket) { t.place == Popped && (t.waiter.Leaving? || t.waiter.Left? || t.waiter.GaveUp?) }

  predicate TicketOk(t: Ticket) {
    && (t.waiter == Relaying || t.waiter == Finished ==> t.place == Popped && t.closes == 1)
    && (t.waiter.Left? || t.waiter.GaveUp? ==> t.place != Queued)
    && t.closes <= 1
    && (t.closes == 1 ==> t.place == Popped)
  }

  ghost predicate StrictlyIncreasing(s: seq<nat>) { forall i, j | 0 <= i < j < |s| :: s[i] < s[j] }

  ghost predicate TicketsInv(s: System) { TicketsOk(s) && HandoverInv(s) }

  ghost predicate TicketsOk(s: System) { forall i | 0 <= i < |s.tickets| :: TicketOk(s.tickets[i]) }

  /** The popped tickets whose channel is still open are the one the dispatcher holds. */
  ghost predicate HandoverInv(s: System) {
    && (s.dispatcher.Some? ==> s.dispatcher.value < |s.tickets| && s.tickets[s.dispatcher.value].place == Popped
                               && s.tickets[s.dispatcher.value].closes == 0)
    && (forall i | 0 <= i < |s.tickets| && s.tickets[i].place == Popped && s.tickets[i].closes == 0 ::
         s.dispatcher == Some(i))
  }

  /** Dispatch order followed by the queue is arrival order, and records who is where. */
  ghost predicate OrderInv(s: System) {
    && StrictlyIncreasing(s.order + s.core.waiting)
    && (forall t | t in s.order :: t < |s.tickets| && s.tickets[t].place == Popped)
    && (forall t | t in s.core.waiting :: t < |s.tickets| && s.tickets[t].place == Queued)
    && (forall i | 0 <= i < |s.tickets| && s.tickets[i].place == Queued :: i in s.core.waiting)
    && (forall i | 0 <= i < |s.tickets| && s.tickets[i].place == Popped :: i in s.order)
  }

  ghost predicate CountInv(cfg: Config, s: System) {
    && s.core.arrivals == |s.tickets|
    && |s.core.waiting| == Count(s.tickets, IsQueued)
    && s.core.dispatched == |s.order| == Count(s.tickets, IsPopped)
    && s.core.inflight == Count(s.tickets, HoldsSlot)
    && s.core.completed == Count(s.tickets, IsFinished)
    && s.core.timedOut == Count(s.tickets, IsTimedOut)
    && s.core.cancelled == Count(s.tickets, IsCancelled)
  }

  ghost predicate BoundInv(cfg: Config, s: System) {
    && (|s.core.waiting| > 0 ==> |s.core.waiting| <= cfg.maxQueued)
    && (s.core.inflight > 0 ==> s.core.inflight <= cfg.maxInflight)
    && (s.core.closed ==> s.core.waiting == [])
  }

  ghost predicate Inv(cfg: Config, s: System) {
    TicketsInv(s) && OrderInv(s) && CountInv(cfg, s) && BoundInv(cfg, s)
  }

  // ------------------------------------------------------------------------------------------
  // Every step keeps the invariant

  function Change(p: Ticket -> bool, was: Ticket, now: Ticket): int {
    (if p(now) then 1 else 0) - (if p(was) then 1 else 0)
  }

  lemma Recount(ts: seq<Ticket>, i: nat, x: Ticket)
    requires i < |ts|
    ensures Count(ts[i := x], IsQueued) == Count(ts, IsQueued) + Change(IsQueued, ts[i], x)
    ensures Count(ts[i := x], IsPopped) == Count(ts, IsPopped) + Change(IsPopped, ts[i], x)
    ensures Count(ts[i := x], HoldsSlot) == Count(ts, HoldsSlot) + Change(HoldsSlot, ts[i], x)
    ensures Count(ts[i := x], IsFinished) == Count(ts, IsFinished) + Change(IsFinished, ts[i], x)
    ensures Count(ts[i := x], IsTimedOut) == Count(ts, IsTimedOut) + Change(IsTimedOut, ts[i], x)
    ensures Count(ts[i := x], IsCancelled) == Count(ts, IsCancelled) + Change(IsCancelled, ts[i], x)
  {
    CountUpdate(ts, i, x, IsQueued);
    CountUpdate(ts, i, x, IsPopped);
    CountUpdate(ts, i, x, HoldsSlot);
    CountUpdate(ts, i, x, IsFinished);
    CountUpdate(ts, i, x, IsTimedOut);
    CountUpdate(ts, i, x, IsCancelled);
  }

  lemma RecountNew(ts: seq<Ticket>, x: Ticket)
    requires x.place == Queued && x.waiter == Blocked
    ensures Count(ts + [x], IsQueued) == Count(ts, IsQueued) + 1
    ensures Count(ts + [x], IsPopped) == Count(ts, IsPopped)
    ensures Count(ts + [x], HoldsSlot) == Count(ts, HoldsSlot)
    ensures Count(ts + [x], IsFinished) == Count(ts, IsFinished)
    ensures Count(ts + [x], IsTimedOut) == Count(ts, IsTimedOut)
    ensures Count(ts + [x], IsCancelled) == Count(ts, IsCancelled)
  {
    CountPush(ts, x, IsQueued);
    CountPush(ts, x, IsPopped);
    CountPush(ts, x, HoldsSlot);
    CountPush(ts, x, IsFinished);
    CountPush(ts, x, IsTimedOut);
    CountPush(ts, x, IsCancelled);
  }

  lemma {:induction false} RecountDropped(ts: seq<Ticket>, us: seq<Ticket>, p: Ticket -> bool)
    requires |us| == |ts| && forall i | 0 <= i < |ts| :: us[i] == Drop(ts[i])
    requires forall i | 0 <= i < |ts| :: p(us[i]) == p(ts[i])
    ensures Count(us, p) == Count(ts, p)
  {
    if ts != [] { RecountDropped(ts[..|ts| - 1], us[..|us| - 1], p); }
  }

  ghost predicate AllBelow(a: seq<nat>, b: seq<nat>) { forall x, y | x in a && y in b :: x < y }

  lemma SplitIncreasing(a: seq<nat>, b: seq<nat>)
    requires StrictlyIncreasing(a + b)
    ensures StrictlyIncreasing(a) && StrictlyIncreasing(b) && AllBelow(a, b)
  {
    var all := a + b;
    forall i, j | 0 <= i < j < |a| ensures a[i] < a[j] { assert all[i] == a[i] && all[j] == a[j]; }
    forall i, j | 0 <= i < j < |b| ensures b[i] < b[j] { assert all[|a| + i] == b[i] && all[|a| + j] == b[j]; }
    forall x, y | x in a && y in b ensures x < y {
      var i :| 0 <= i < |a| && a[i] == x;
      var j :| 0 <= j < |b| && b[j] == y;
      assert all[i] == x && all[|a| + j] == y;
    }
  }

  lemma JoinIncreasing(a: seq<nat>, b: seq<nat>)
    requires StrictlyIncreasing(a) && StrictlyIncreasing(b) && AllBelow(a, b)
    ensures StrictlyIncreasing(a + b)
  {
    var all := a + b;
    forall i, j | 0 <= i < j < |all| ensures all[i] < all[j] {
      if i < |a| <= j { assert a[i] in a && b[j - |a|] in b; }
    }
  }

  /** `rest` is `s` without its i-th element. */
  ghost predicate Skips(rest: seq<nat>, s: seq<nat>, i: nat) {
    && i < |s| && |rest| == |s| - 1
    && (forall k | 0 <= k < i :: rest[k] == s[k])
    && (forall k | i < k < |s| :: rest[k - 1] == s[k])
  }

  lemma {:induction false} WithoutSkips(s: seq<nat>, i: nat)
    requires StrictlyIncreasing(s) && i < |s|
    ensures Skips(Without(s, s[i]), s, i)
  {
    WithoutAt(s, s[i], i);
  }

  lemma SkipKeepsOrder(rest: seq<nat>, s: seq<nat>, i: nat)
    requires StrictlyIncreasing(s) && Skips(rest, s, i)
    ensures StrictlyIncreasing(rest)
  {
    forall j, k | 0 <= j < k < |rest| ensures rest[j] < rest[k] {
      var j', k' := if j < i then j else j + 1, if k < i then k else k + 1;
      assert rest[j] == s[j'] && rest[k] == s[k'];
    }
  }

  lemma SkipMembers(rest: seq<nat>, s: seq<nat>, i: nat)
    requires StrictlyIncreasing(s) && Skips(rest, s, i)
    ensures forall x :: x in rest <==> x in s && x != s[i]
  {
    forall k | 0 <= k < |rest| ensures rest[k] in s && rest[k] != s[i] {
      var k' := if k < i then k else k + 1;
      assert rest[k] == s[k'];
    }
    forall x | x in s && x != s[i] ensures x in rest {
      var k :| 0 <= k < |s| && s[k] == x;
      var k' := if k < i then k else k - 1;
      assert rest[k'] == x;
    }
  }

  lemma WithoutSorted(a: seq<nat>, s: seq<nat>, t: nat)
    requires StrictlyIncreasing(a + s)
    ensures StrictlyIncreasing(a + Without(s, t))
    ensures forall x :: x in Without(s, t) <==> x in s && x != t
    ensures |Without(s, t)| == |s| - if t in s then 1 else 0
  {
    SplitIncreasing(a, s);
    if t in s {
      var i :| 0 <= i < |s| && s[i] == t;
      WithoutSkips(s, i);
      SkipKeepsOrder(Without(s, t), s, i);
      SkipMembers(Without(s, t), s, i);
      JoinIncreasing(a, Without(s, t));
    } else {
      WithoutAbsent(s, t);
    }
  }

  lemma KeepsTickets(cfg: Config, s: System, e: Event)
    requires TicketsInv(s) && OrderInv(s)
    ensures TicketsInv(Apply(cfg, s, e))
  {
    KeepsOk(cfg, s, e);
    KeepsHandover(cfg, s, e);
  }

  lemma KeepsOk(cfg: Config, s: System, e: Event)
    requires TicketsInv(s) && OrderInv(s)
    ensures TicketsOk(Apply(cfg, s, e))
  {
    if e.Pop? && Enabled(cfg, s, e) { assert s.core.waiting[0] in s.core.waiting; }
  }

  lemma KeepsHandover(cfg: Config, s: System, e: Event)
    requires TicketsInv(s) && OrderInv(s)
    ensures HandoverInv(Apply(cfg, s, e))
  {
    if e.Pop? && Enabled(cfg, s, e) { assert s.core.waiting[0] in s.core.waiting; }
  }

  lemma KeepsOrder(cfg: Config, s: System, e: Event)
    requires TicketsInv(s) && OrderInv(s) && s.core.arrivals == |s.tickets|
    ensures OrderInv(Apply(cfg, s, e))
  {
    if Enabled(cfg, s, e) {
      match e
      case Admit(gate) => AdmitOrder(cfg, s, gate);
      case Pop => PopOrder(cfg, s);
      case LeaveList(t) => LeaveOrder(cfg, s, t);
      case CloseQueue => CloseOrder(cfg, s);
      case _ =>
    }
  }

  lemma LeaveOrder(cfg: Config, s: System, t: nat)
    requires TicketsInv(s) && OrderInv(s) && Enabled(cfg, s, LeaveList(t))
    ensures OrderInv(Apply(cfg, s, LeaveList(t)))
  {
    WithoutSorted(s.order, s.core.waiting, t);
  }

  lemma CloseOrder(cfg: Config, s: System)
    requires OrderInv(s)
    ensures OrderInv(Apply(cfg, s, CloseQueue))
  {
    assert s.order + [] == (s.order + s.core.waiting)[..|s.order|];
  }

  /** A new ticket outranks every ticket already seen. */
  lemma AdmitOrder(cfg: Config, s: System, gate: Option<string>)
    requires OrderInv(s) && s.core.arrivals == |s.tickets|
    ensures OrderInv(Apply(cfg, s, Admit(gate)))
  {
    if s.core.Decide(cfg, gate).Admitted? {
      var all, s' := s.order + s.core.waiting, Apply(cfg, s, Admit(gate));
      assert s'.order + s'.core.waiting == all + [|s.tickets|];
      forall i | 0 <= i < |all| ensures all[i] < |s.tickets| {
        assert all[i] in s.order || all[i] in s.core.waiting;
      }
    }
  }

  lemma PopOrder(cfg: Config, s: System)
    requires OrderInv(s) && Enabled(cfg, s, Pop)
    ensures OrderInv(Apply(cfg, s, Pop))
  {
    var s' := Apply(cfg, s, Pop);
    assert s'.order + s'.core.waiting == s.order + s.core.waiting;
    PopMoves(s);
    forall t ensures t in s.core.waiting <==> t == s.core.waiting[0] || t in s.core.waiting[1..] {
      assert s.core.waiting == [s.core.waiting[0]] + s.core.waiting[1..];
    }
  }

  /** The head of the queue occurs nowhere else. */
  lemma PopMoves(s: System)
    requires StrictlyIncreasing(s.order + s.core.waiting) && s.core.waiting != []
    ensures s.core.waiting[0] !in s.order && s.core.waiting[0] !in s.core.waiting[1..]
  {
    var w := s.core.waiting;
    SplitIncreasing(s.order, w);
    assert w[0] in w;
    forall i | 0 <= i < |w[1..]| ensures w[1..][i] != w[0] { assert w[1..][i] == w[i + 1]; }
  }

  /** The counters follow a change to one ticket. */
  lemma OneTicketChanged(cfg: Config, s: System, s': System, t: nat)
    requires CountInv(cfg, s) && t < |s.tickets| == |s'.tickets| && s'.tickets == s.tickets[t := s'.tickets[t]]
    requires s'.core.arrivals == s.core.arrivals
    requires |s'.core.waiting| == |s.core.waiting| + Change(IsQueued, s.tickets[t], s'.tickets[t])
    requires s'.core.dispatched == |s'.order| == |s.order| + Change(IsPopped, s.tickets[t], s'.tickets[t])
    requires s'.core.inflight == s.core.inflight + Change(HoldsSlot, s.tickets[t], s'.tickets[t])
    requires s'.core.completed == s.core.completed + Change(IsFinished, s.tickets[t], s'.tickets[t])
    requires s'.core.timedOut == s.core.timedOut + Change(IsTimedOut, s.tickets[t], s'.tickets[t])
    requires s'.core.cancelled == s.core.cancelled + Change(IsCancelled, s.tickets[t], s'.tickets[t])
    ensures CountInv(cfg, s')
  {
    Recount(s.tickets, t, s'.tickets[t]);
  }

  lemma KeepsCounts(cfg: Config, s: System, e: Event)
    requires Inv(cfg, s)
    ensures CountInv(cfg, Apply(cfg, s, e))
  {
    if Enabled(cfg, s, e) {
      match e
      case Admit(gate) => AdmitCounts(cfg, s, gate);
      case CloseQueue => CloseRecounts(cfg, s);
      case Pop => PopCounts(cfg, s);
      case CloseChannel => OneTicketChanged(cfg, s, Apply(cfg, s, e), s.dispatcher.value);
      case LeaveList(t) => LeaveCounts(cfg, s, t);
      case CallDone(t) => DoneCounts(cfg, s, t);
      case CountExit(t) => ExitCounts(cfg, s, t);
      case ClientCancels(t) => OneTicketChanged(cfg, s, Apply(cfg, s, e), t);
      case _ => ChoiceCounts(cfg, s, e);
    }
  }

  /** The waiter's select moves no counter. */
  lemma ChoiceCounts(cfg: Config, s: System, e: Event)
    requires CountInv(cfg, s) && Enabled(cfg, s, e) && (e.SeeDispatch? || e.SeeCancel? || e.SeeTimeout?)
    ensures CountInv(cfg, Apply(cfg, s, e))
  {
    OneTicketChanged(cfg, s, Apply(cfg, s, e), e.t);
  }

  lemma ExitCounts(cfg: Config, s: System, t: nat)
    requires CountInv(cfg, s) && Enabled(cfg, s, CountExit(t))
    ensures CountInv(cfg, Apply(cfg, s, CountExit(t)))
  {
    OneTicketChanged(cfg, s, Apply(cfg, s, CountExit(t)), t);
  }

  lemma AdmitCounts(cfg: Config, s: System, gate: Option<string>)
    requires CountInv(cfg, s)
    ensures CountInv(cfg, Apply(cfg, s, Admit(gate)))
  {
    RecountNew(s.tickets, Ticket(Queued, Blocked, 0, false));
  }

  lemma PopCounts(cfg: Config, s: System)
    requires Inv(cfg, s) && Enabled(cfg, s, Pop)
    ensures CountInv(cfg, Apply(cfg, s, Pop))
  {
    assert s.core.waiting[0] in s.core.waiting;
    OneTicketChanged(cfg, s, Apply(cfg, s, Pop), s.core.waiting[0]);
  }

  lemma LeaveCounts(cfg: Config, s: System, t: nat)
    requires Inv(cfg, s) && Enabled(cfg, s, LeaveList(t))
    ensures CountInv(cfg, Apply(cfg, s, LeaveList(t)))
  {
    WithoutSorted(s.order, s.core.waiting, t);
    OneTicketChanged(cfg, s, Apply(cfg, s, LeaveList(t)), t);
  }

  lemma DoneCounts(cfg: Config, s: System, t: nat)
    requires Inv(cfg, s) && Enabled(cfg, s, CallDone(t))
    ensures CountInv(cfg, Apply(cfg, s, CallDone(t)))
  {
    DoneNeverClamps(cfg, s, t);
    OneTicketChanged(cfg, s, Apply(cfg, s, CallDone(t)), t);
  }

  lemma CloseRecounts(cfg: Config, s: System)
    requires CountInv(cfg, s)
    ensures CountInv(cfg, Apply(cfg, s, CloseQueue))
  {
    var us := Apply(cfg, s, CloseQueue).tickets;
    CountBound(us, IsQueued);
    RecountDropped(s.tickets, us, IsPopped);
    RecountDropped(s.tickets, us, HoldsSlot);
    RecountDropped(s.tickets, us, IsFinished);
    RecountDropped(s.tickets, us, IsTimedOut);
    RecountDropped(s.tickets, us, IsCancelled);
  }

  /** The guard in Done is never needed: a relaying request owns a slot. */
  lemma DoneNeverClamps(cfg: Config, s: System, t: nat)
    requires Inv(cfg, s) && t < |s.tickets| && s.tickets[t].waiter == Relaying
    ensures s.core.inflight > 0 && s.core.Done().inflight == s.core.inflight - 1
  {
    CountBound(s.tickets, HoldsSlot);
    assert HoldsSlot(s.tickets[t]);
  }

  lemma KeepsInv(cfg: Config, s: System, e: Event)
    requires Inv(cfg, s)
    ensures Inv(cfg, Apply(cfg, s, e))
  {
    KeepsTickets(cfg, s, e);
    KeepsOrder(cfg, s, e);
    KeepsCounts(cfg, s, e);
    KeepsBounds(cfg, s, e);
  }

  lemma KeepsBounds(cfg: Config, s: System, e: Event)
    requires BoundInv(cfg, s)
    ensures BoundInv(cfg, Apply(cfg, s, e))
  {
    if e.LeaveList? { WithoutShrinks(s.core.waiting, e.t); }
  }

  lemma {:induction false} WithoutShrinks(s: seq<nat>, t: nat)
    ensures |Without(s, t)| <= |s|
  {
    if s != [] && s[0] != t { WithoutShrinks(s[1..], t); }
  }

  lemma {:induction false} RunKeepsInv(cfg: Config, s: System, es: seq<Event>)
    requires Inv(cfg, s)
    ensures Inv(cfg, Run(cfg, s, es))
  {
    if es != [] {
      RunKeepsInv(cfg, s, es[..|es| - 1]);
      KeepsInv(cfg, Run(cfg, s, es[..|es| - 1]), es[|es| - 1]);
    }
  }

  // ------------------------------------------------------------------------------------------
  // Safety of every run

  /** Bounds, at most one close per channel, and first come first served. */
  lemma {:induction false} QueueSafety(cfg: Config, es: seq<Event>)
    ensures var s := Run(cfg, INITIAL, es);
      && (|s.core.waiting| == 0 || |s.core.waiting| <= cfg.maxQueued)
      && (s.core.inflight == 0 || s.core.inflight <= cfg.maxInflight)
      && (forall i | 0 <= i < |s.tickets| :: s.tickets[i].closes <= 1)
      && StrictlyIncreasing(s.order)
      && AllBelow(s.order, s.core.waiting)
  {
    RunKeepsInv(cfg, INITIAL, es);
    var s := Run(cfg, INITIAL, es);
    SplitIncreasing(s.order, s.core.waiting);
  }

  /** Every ticket is in one place, and every held slot has one explanation. */
  lemma {:induction false} SlotsPartition(ts: seq<Ticket>)
    requires forall i | 0 <= i < |ts| :: TicketOk(ts[i])
    ensures |ts| == Count(ts, IsPopped) + Count(ts, IsQueued) + Count(ts, IsTakenOff) + Count(ts, IsDropped)
    ensures Count(ts, IsPopped) == Count(ts, IsFinished) + Count(ts, HoldsSlot)
    ensures Count(ts, HoldsSlot) == Count(ts, IsRelaying) + Count(ts, InHandover) + Count(ts, Leaked)
  {
    if ts != [] {
      SlotsPartition(ts[..|ts| - 1]);
      assert TicketOk(ts[|ts| - 1]);
    }
  }

  lemma {:induction false} SlotAccounting(cfg: Config, es: seq<Event>)
    ensures var s := Run(cfg, INITIAL, es);
      && s.core.dispatched == s.core.completed + s.core.inflight
      && s.core.arrivals == s.core.dispatched + |s.core.waiting|
                            + Count(s.tickets, IsTakenOff) + Count(s.tickets, IsDropped)
      && s.core.inflight == Count(s.tickets, IsRelaying) + Count(s.tickets, InHandover) + Count(s.tickets, Leaked)
  {
    RunKeepsInv(cfg, INITIAL, es);
    SlotsPartition(Run(cfg, INITIAL, es).tickets);
  }

  lemma ClosedStep(cfg: Config, s: System, e: Event)
    requires s.core.closed && s.core.waiting == []
    ensures var s' := Apply(cfg, s, e);
      s'.core.closed && s'.order == s.order && |s'.tickets| == |s.tickets| && s'.core.dispatched == s.core.dispatched
  {}

  /** After Close nothing is admitted and nothing is dispatched, whatever happens next. */
  lemma {:induction false} ClosedDispatchesNothing(cfg: Config, s: System, es: seq<Event>)
    requires Inv(cfg, s) && s.core.closed
    ensures var s' := Run(cfg, s, es);
      s'.core.closed && s'.order == s.order && |s'.tickets| == |s.tickets| && s'.core.dispatched == s.core.dispatched
  {
    if es != [] {
      ClosedDispatchesNothing(cfg, s, es[..|es| - 1]);
      RunKeepsInv(cfg, s, es[..|es| - 1]);
      ClosedStep(cfg, Run(cfg, s, es[..|es| - 1]), es[|es| - 1]);
    }
  }

  /** A run that closed the queue has dispatched and admitted what it ever will. */
  lemma {:induction false} CloseIsFinal(cfg: Config, es: seq<Event>, more: seq<Event>)
    requires CloseQueue in es
    ensures var s, s' := Run(cfg, INITIAL, es), Run(cfg, INITIAL, es + more);
      s.core.waiting == [] && s'.order == s.order && |s'.tickets| == |s.tickets|
  {
    ClosedIff(cfg, es);
    RunKeepsInv(cfg, INITIAL, es);
    ClosedDispatchesNothing(cfg, Run(cfg, INITIAL, es), more);
    RunConcat(cfg, INITIAL, es, more);
  }

  // ------------------------------------------------------------------------------------------
  // Admission

  lemma {:induction false} ClosedIff(cfg: Config, es: seq<Event>)
    ensures Run(cfg, INITIAL, es).core.closed <==> CloseQueue in es
  {
    if es != [] {
      var front, e := es[..|es| - 1], es[|es| - 1];
      ClosedIff(cfg, front);
      StepCloses(cfg, Run(cfg, INITIAL, front), e);
      assert es == front + [e];
    }
  }

  lemma StepCloses(cfg: Config, s: System, e: Event)
    ensures Apply(cfg, s, e).core.closed <==> s.core.closed || e == CloseQueue
  {}

  /** A request is admitted if and only if the queue was not closed, no gate refused it and there
      was room; it then waits behind everybody else. Otherwise nothing but the count changes. */
  lemma {:induction false} AdmittedIff(cfg: Config, es: seq<Event>, gate: Option<string>)
    ensures var s, s' := Run(cfg, INITIAL, es), Run(cfg, INITIAL, es + [Admit(gate)]);
      if CloseQueue !in es && gate.None? && |s.core.waiting| < cfg.maxQueued then
        && s'.tickets == s.tickets + [Ticket(Queued, Blocked, 0, false)]
        && s'.core == s.core.(waiting := s.core.waiting + [|s.tickets|], arrivals := |s'.tickets|)
      else
        && s'.tickets == s.tickets
        && s'.core == s.core.(rejected := s.core.rejected + if CloseQueue in es then 0 else 1)
  {
    ClosedIff(cfg, es);
    RunKeepsInv(cfg, INITIAL, es);
    RunSnoc(cfg, INITIAL, es, Admit(gate));
    AdmitStep(cfg, Run(cfg, INITIAL, es), gate);
  }

  lemma AdmitStep(cfg: Config, s: System, gate: Option<string>)
    requires s.core.arrivals == |s.tickets|
    ensures var s' := Apply(cfg, s, Admit(gate));
      if !s.core.closed && gate.None? && |s.core.waiting| < cfg.maxQueued then
        && s'.tickets == s.tickets + [Ticket(Queued, Blocked, 0, false)]
        && s'.core == s.core.(waiting := s.core.waiting + [|s.tickets|], arrivals := |s'.tickets|)
      else
        && s'.tickets == s.tickets
        && s'.core == s.core.(rejected := s.core.rejected + if s.core.closed then 0 else 1)
  {}

  predicate Ungated(e: Event) { e == Admit(None) }

  /** Every ticket stems from a request of its own that no gate refused. */
  lemma {:induction false} TicketsAreUngated(cfg: Config, es: seq<Event>)
    ensures |Run(cfg, INITIAL, es).tickets| <= Count(es, Ungated)
  {
    if es != [] {
      TicketsAreUngated(cfg, es[..|es| - 1]);
      StepAdmits(cfg, Run(cfg, INITIAL, es[..|es| - 1]), es[|es| - 1]);
    }
  }

  lemma StepAdmits(cfg: Config, s: System, e: Event)
    ensures |Apply(cfg, s, e).tickets| <= |s.tickets| + if Ungated(e) then 1 else 0
  {}

  /** The requests that arrived before Close and got no ticket. */
  function TurnedAway(cfg: Config, es: seq<Event>): nat {
    if es == [] then 0
    else
      var front, e := es[..|es| - 1], es[|es| - 1];
      TurnedAway(cfg, front)
      + if e.Admit? && CloseQueue !in front && |Run(cfg, INITIAL, es).tickets| == |Run(cfg, INITIAL, front).tickets|
        then 1 else 0
  }

  lemma {:induction false} RejectedIsTurnedAway(cfg: Config, es: seq<Event>)
    ensures Run(cfg, INITIAL, es).core.rejected == TurnedAway(cfg, es)
  {
    if es != [] {
      var front, e := es[..|es| - 1], es[|es| - 1];
      RejectedIsTurnedAway(cfg, front);
      ClosedIff(cfg, front);
      StepRejects(cfg, Run(cfg, INITIAL, front), e);
    }
  }

  lemma StepRejects(cfg: Config, s: System, e: Event)
    ensures Apply(cfg, s, e).core.rejected ==
      s.core.rejected + if e.Admit? && !s.core.closed && |Apply(cfg, s, e).tickets| == |s.tickets| then 1 else 0
  {}

  // ------------------------------------------------------------------------------------------
  // A slot whose waiter left after the pop is never returned

  lemma {:induction false} LeakIsForever(cfg: Config, s: System, es: seq<Event>)
    ensures |Run(cfg, s, es).tickets| >= |s.tickets|
    ensures forall t | 0 <= t < |s.tickets| && Leaked(s.tickets[t]) :: Leaked(Run(cfg, s, es).tickets[t])
  {
    if es != [] { LeakIsForever(cfg, s, es[..|es| - 1]); }
  }

  lemma {:induction false} CountMonotone<T>(a: seq<T>, b: seq<T>, p: T -> bool)
    requires |a| <= |b| && forall i | 0 <= i < |a| && p(a[i]) :: p(b[i])
    ensures Count(a, p) <= Count(b, p)
  {
    if |b| > |a| {
      CountMonotone(a, b[..|b| - 1], p);
    } else if a != [] {
      CountMonotone(a[..|a| - 1], b[..|b| - 1], p);
    }
  }

  lemma FullOfLeaks(cfg: Config, s: System, e: Event)
    requires Inv(cfg, s) && Count(s.tickets, Leaked) >= cfg.maxInflight
    ensures Apply(cfg, s, e).core.dispatched == s.core.dispatched
  {
    SlotsPartition(s.tickets);
    assert !s.core.CanPop(cfg);
  }

  /** Once as many slots have leaked as there are, the queue dispatches nothing more. */
  lemma {:induction false} LeaksStarve(cfg: Config, s: System, es: seq<Event>)
    requires Inv(cfg, s) && Count(s.tickets, Leaked) >= cfg.maxInflight
    ensures Run(cfg, s, es).core.dispatched == s.core.dispatched
  {
    if es != [] {
      var front := es[..|es| - 1];
      LeaksStarve(cfg, s, front);
      RunKeepsInv(cfg, s, front);
      LeakIsForever(cfg, s, front);
      CountMonotone(s.tickets, Run(cfg, s, front).tickets, Leaked);
      FullOfLeaks(cfg, Run(cfg, s, front), es[|es| - 1]);
    }
  }

  /** Nobody but the caller moved: same queue, same dispatch order, and the invariant. */
  ghost predicate Undisturbed(cfg: Config, s: System, s': System) {
    Inv(cfg, s') && s'.core.waiting == s.core.waiting && s'.order == s.order
  }

  /** The dispatcher can always finish the hand-over it is in. */
  lemma {:induction false} FinishHandover(cfg: Config, s: System) returns (more: seq<Event>)
    requires Inv(cfg, s)
    ensures Undisturbed(cfg, s, Run(cfg, s, more)) && Run(cfg, s, more).dispatcher == None
    ensures Count(Run(cfg, s, more).tickets, Leaked) == Count(s.tickets, Leaked)
  {
    more := [];
    if s.dispatcher.Some? {
      more := [CloseChannel];
      RunSnoc(cfg, s, [], CloseChannel);
      KeepsInv(cfg, s, CloseChannel);
      var t := s.dispatcher.value;
      CountUpdate(s.tickets, t, s.tickets[t].(closes := 1), Leaked);
    }
  }

  lemma {:induction false} Relayed(cfg: Config, s: System, t: nat)
    requires Inv(cfg, s) && t < |s.tickets| && s.tickets[t].waiter == Relaying
    ensures var s' := Apply(cfg, s, CallDone(t));
      Undisturbed(cfg, s, s') && s'.dispatcher == s.dispatcher && s'.core.inflight == s.core.inflight - 1
  {
    DoneNeverClamps(cfg, s, t);
    KeepsInv(cfg, s, CallDone(t));
  }

  lemma {:induction false} Noticed(cfg: Config, s: System, t: nat)
    requires Inv(cfg, s) && t < |s.tickets| && InHandover(s.tickets[t]) && s.dispatcher == None
    ensures var s' := Apply(cfg, s, SeeDispatch(t));
      && Undisturbed(cfg, s, s') && s'.dispatcher == None && s'.core.inflight == s.core.inflight
      && t < |s'.tickets| && s'.tickets[t].waiter == Relaying
  {
    KeepsInv(cfg, s, SeeDispatch(t));
  }

  /** A slot that is held but not leaked can be given back. */
  lemma {:induction false} FreeSlot(cfg: Config, s: System) returns (more: seq<Event>)
    requires Inv(cfg, s) && s.dispatcher == None && Count(s.tickets, Leaked) < cfg.maxInflight
    ensures Undisturbed(cfg, s, Run(cfg, s, more))
    ensures Run(cfg, s, more).dispatcher == None && Run(cfg, s, more).core.inflight < cfg.maxInflight
  {
    more := [];
    if s.core.inflight >= cfg.maxInflight {
      SlotsPartition(s.tickets);
      CountBound(s.tickets, IsRelaying);
      CountBound(s.tickets, InHandover);
      var t :| 0 <= t < |s.tickets| && (IsRelaying(s.tickets[t]) || InHandover(s.tickets[t]));
      if InHandover(s.tickets[t]) {
        more := [SeeDispatch(t)];
        RunSnoc(cfg, s, [], SeeDispatch(t));
        Noticed(cfg, s, t);
      }
      Relayed(cfg, Run(cfg, s, more), t);
      RunSnoc(cfg, s, more, CallDone(t));
      more := more + [CallDone(t)];
    }
  }

  lemma {:induction false} RunConcat(cfg: Config, s: System, a: seq<Event>, b: seq<Event>)
    ensures Run(cfg, s, a + b) == Run(cfg, Run(cfg, s, a), b)
  {
    if b == [] {
      assert a + b == a;
    } else {
      RunConcat(cfg, s, a, b[..|b| - 1]);
      assert (a + b)[..|a + b| - 1] == a + b[..|b| - 1];
    }
  }

  /** While fewer slots have leaked than there are, the head of the queue can still be dispatched. */
  lemma {:induction false} HeadCanGo(cfg: Config, s: System) returns (more: seq<Event>)
    requires Inv(cfg, s) && s.core.waiting != [] && Count(s.tickets, Leaked) < cfg.maxInflight
    ensures Run(cfg, s, more).order == s.order + [s.core.waiting[0]]
    ensures Run(cfg, s, more).core.dispatched == s.core.dispatched + 1
  {
    var first := FinishHandover(cfg, s);
    var s1 := Run(cfg, s, first);
    var second := FreeSlot(cfg, s1);
    var s2 := Run(cfg, s1, second);
    RunConcat(cfg, s, first, second);
    assert s2.core.waiting[0] in s2.core.waiting;
    RunSnoc(cfg, s, first + second, Pop);
    more := first + second + [Pop];
  }

  /** In every reachable state with somebody waiting, the queue can dispatch again if and
      only if fewer slots have leaked than there are. */
  lemma {:induction false} StarvedIffAllLeaked(cfg: Config, es: seq<Event>)
    requires Run(cfg, INITIAL, es).core.waiting != []
    ensures var s := Run(cfg, INITIAL, es);
      (exists more :: Run(cfg, s, more).core.dispatched > s.core.dispatched)
      <==> Count(s.tickets, Leaked) < cfg.maxInflight
  {
    RunKeepsInv(cfg, INITIAL, es);
    var s := Run(cfg, INITIAL, es);
    if Count(s.tickets, Leaked) < cfg.maxInflight {
      var more := HeadCanGo(cfg, s);
      assert Run(cfg, s, more).core.dispatched > s.core.dispatched;
    } else {
      forall more ensures Run(cfg, s, more).core.dispatched == s.core.dispatched { LeaksStarve(cfg, s, more); }
    }
  }

  /** Once every waiter has decided and every relayed request is done, all slots are back
      if and only if no waiter left after its ticket was popped. */
  lemma {:induction false} SlotsReturnIffNoLeak(cfg: Config, es: seq<Event>)
    requires var s := Run(cfg, INITIAL, es);
      forall i | 0 <= i < |s.tickets| :: s.tickets[i].waiter != Blocked && s.tickets[i].waiter != Relaying
    ensures var s := Run(cfg, INITIAL, es);
      s.core.inflight == 0 <==> forall i | 0 <= i < |s.tickets| :: !Leaked(s.tickets[i])
  {
    SlotAccounting(cfg, es);
    var s := Run(cfg, INITIAL, es);
    CountBound(s.tickets, IsRelaying);
    CountBound(s.tickets, InHandover);
    CountBound(s.tickets, Leaked);
  }

  lemma RunSnoc(cfg: Config, s: System, es: seq<Event>, e: Event)
    ensures Run(cfg, s, es + [e]) == Apply(cfg, Run(cfg, s, es), e)
  {
    assert (es + [e])[..|es|] == es;
  }

  // ------------------------------------------------------------------------------------------
  // When slots leak

  /** One more request: its ticket is popped, then its waiter gives up before it looks. */
  function LeakOne(t: nat, why: Why): seq<Event> {
    [Admit(None), Pop] + GiveUp(t, why) + [CloseChannel, LeaveList(t), CountExit(t)]
  }

  function GiveUp(t: nat, why: Why): seq<Event> {
    match why
    case Timeout => [SeeTimeout(t)]
    case Cancel => [ClientCancels(t), SeeCancel(t)]
  }

  function Leaks(n: nat, why: Why): seq<Event> { if n == 0 then [] else Leaks(n - 1, why) + LeakOne(n - 1, why) }

  function LeakedTicket(why: Why): Ticket { Ticket(Popped, GaveUp(why), 1, why == Cancel) }

  /** Nobody waits, nobody relays, the dispatcher is free, and every ticket has leaked. */
  ghost predicate AllLeaked(s: System, n: nat, why: Why) {
    && s.core.waiting == [] && !s.core.closed && s.dispatcher == None
    && s.core.arrivals == |s.tickets| == n && s.core.inflight == n == s.core.dispatched
    && forall i | 0 <= i < n :: s.tickets[i] == LeakedTicket(why)
  }

  ghost predicate CanGiveUp(cfg: Config, why: Why) { why == Timeout ==> cfg.timeoutEnabled }

  /** The `n`-th ticket waits alone; the ones before it have leaked. */
  ghost predicate Alone(s: System, n: nat, why: Why) {
    && s.core.waiting == [n] && !s.core.closed && s.dispatcher == None
    && s.core.arrivals == |s.tickets| == n + 1 && s.core.inflight == n == s.core.dispatched
    && s.tickets[n] == Ticket(Queued, Blocked, 0, false)
    && forall i | 0 <= i < n :: s.tickets[i] == LeakedTicket(why)
  }

  /** The `n`-th ticket is popped and its waiter at `w`; the ones before it have leaked. */
  ghost predicate OnItsWay(s: System, n: nat, why: Why, w: Waiter, cancelled: bool, closed: bool) {
    && s.core.waiting == [] && !s.core.closed && s.dispatcher == (if closed then None else Some(n))
    && s.core.arrivals == |s.tickets| == n + 1 && s.core.inflight == n + 1 == s.core.dispatched
    && s.tickets[n] == Ticket(Popped, w, if closed then 1 else 0, cancelled)
    && forall i | 0 <= i < n :: s.tickets[i] == LeakedTicket(why)
  }

  lemma Enter(cfg: Config, s: System, n: nat, why: Why)
    requires AllLeaked(s, n, why) && cfg.maxQueued > 0
    ensures Alone(Apply(cfg, s, Admit(None)), n, why)
  {
    assert s.core.Decide(cfg, None) == Admitted(n);
  }

  lemma Promote(cfg: Config, s: System, n: nat, why: Why)
    requires Alone(s, n, why) && n < cfg.maxInflight
    ensures OnItsWay(Apply(cfg, s, Pop), n, why, Blocked, false, false)
  {
    assert s.core.waiting[0] == n && s.core.waiting[1..] == [];
    assert Enabled(cfg, s, Pop);
  }

  lemma TimesOut(cfg: Config, s: System, n: nat)
    requires OnItsWay(s, n, Timeout, Blocked, false, false) && cfg.timeoutEnabled
    ensures OnItsWay(Apply(cfg, s, SeeTimeout(n)), n, Timeout, Leaving(Timeout), false, false)
  {}

  lemma IsCancelledNow(cfg: Config, s: System, n: nat)
    requires OnItsWay(s, n, Cancel, Blocked, false, false)
    ensures OnItsWay(Apply(cfg, s, ClientCancels(n)), n, Cancel, Blocked, true, false)
  {}

  lemma Cancels(cfg: Config, s: System, n: nat)
    requires OnItsWay(s, n, Cancel, Blocked, true, false)
    ensures OnItsWay(Apply(cfg, s, SeeCancel(n)), n, Cancel, Leaving(Cancel), true, false)
  {}

  lemma HandedOver(cfg: Config, s: System, n: nat, why: Why)
    requires OnItsWay(s, n, why, Leaving(why), why == Cancel, false)
    ensures OnItsWay(Apply(cfg, s, CloseChannel), n, why, Leaving(why), why == Cancel, true)
  {}

  lemma Leaves(cfg: Config, s: System, n: nat, why: Why)
    requires OnItsWay(s, n, why, Leaving(why), why == Cancel, true)
    ensures OnItsWay(Apply(cfg, s, LeaveList(n)), n, why, Left(why), why == Cancel, true)
  {
    assert Without([], n) == [];
  }

  lemma IsCounted(cfg: Config, s: System, n: nat, why: Why)
    requires OnItsWay(s, n, why, Left(why), why == Cancel, true)
    ensures AllLeaked(Apply(cfg, s, CountExit(n)), n + 1, why)
  {}

  lemma RunTwo(cfg: Config, s: System, a: Event, b: Event)
    ensures Run(cfg, s, [a, b]) == Apply(cfg, Apply(cfg, s, a), b)
  {
    RunSnoc(cfg, s, [], a);
    RunSnoc(cfg, s, [a], b);
    assert [a] + [b] == [a, b];
  }

  lemma PopNew(cfg: Config, s: System, n: nat, why: Why)
    requires AllLeaked(s, n, why) && n < cfg.maxInflight && cfg.maxQueued > 0
    ensures OnItsWay(Run(cfg, s, [Admit(None), Pop]), n, why, Blocked, false, false)
  {
    Enter(cfg, s, n, why);
    Promote(cfg, Apply(cfg, s, Admit(None)), n, why);
    RunTwo(cfg, s, Admit(None), Pop);
  }

  lemma Impatient(cfg: Config, s: System, n: nat, why: Why)
    requires OnItsWay(s, n, why, Blocked, false, false) && CanGiveUp(cfg, why)
    ensures OnItsWay(Run(cfg, s, GiveUp(n, why)), n, why, Leaving(why), why == Cancel, false)
  {
    match why
    case Timeout =>
      TimesOut(cfg, s, n);
      RunSnoc(cfg, s, [], SeeTimeout(n));
    case Cancel =>
      IsCancelledNow(cfg, s, n);
      Cancels(cfg, Apply(cfg, s, ClientCancels(n)), n);
      RunTwo(cfg, s, ClientCancels(n), SeeCancel(n));
  }

  lemma Depart(cfg: Config, s: System, n: nat, why: Why)
    requires OnItsWay(s, n, why, Leaving(why), why == Cancel, false)
    ensures AllLeaked(Run(cfg, s, [CloseChannel, LeaveList(n), CountExit(n)]), n + 1, why)
  {
    HandedOver(cfg, s, n, why);
    Leaves(cfg, Apply(cfg, s, CloseChannel), n, why);
    RunTwo(cfg, s, CloseChannel, LeaveList(n));
    IsCounted(cfg, Run(cfg, s, [CloseChannel, LeaveList(n)]), n, why);
    RunSnoc(cfg, s, [CloseChannel, LeaveList(n)], CountExit(n));
    assert [CloseChannel, LeaveList(n)] + [CountExit(n)] == [CloseChannel, LeaveList(n), CountExit(n)];
  }

  lemma {:induction false} LeakMany(cfg: Config, n: nat, why: Why)
    requires n <= cfg.maxInflight && cfg.maxQueued > 0 && CanGiveUp(cfg, why)
    ensures AllLeaked(Run(cfg, INITIAL, Leaks(n, why)), n, why)
  {
    if n > 0 {
      LeakMany(cfg, n - 1, why);
      OneMore(cfg, Run(cfg, INITIAL, Leaks(n - 1, why)), n - 1, why);
      RunConcat(cfg, INITIAL, Leaks(n - 1, why), LeakOne(n - 1, why));
    }
  }

  lemma OneMore(cfg: Config, s: System, n: nat, why: Why)
    requires AllLeaked(s, n, why) && n < cfg.maxInflight && cfg.maxQueued > 0 && CanGiveUp(cfg, why)
    ensures AllLeaked(Run(cfg, s, LeakOne(n, why)), n + 1, why)
  {
    var arrive, leave := [Admit(None), Pop], [CloseChannel, LeaveList(n), CountExit(n)];
    PopNew(cfg, s, n, why);
    Impatient(cfg, Run(cfg, s, arrive), n, why);
    RunConcat(cfg, s, arrive, GiveUp(n, why));
    Depart(cfg, Run(cfg, s, arrive + GiveUp(n, why)), n, why);
    RunConcat(cfg, s, arrive + GiveUp(n, why), leave);
  }

  /** Whatever the limits, giving up after the pop, by timeout or by cancellation, can take
      every slot: the queue is idle, and no continuation dispatches again. */
  lemma LeakHappens(cfg: Config, why: Why)
    requires cfg.maxInflight > 0 && cfg.maxQueued > 0 && CanGiveUp(cfg, why)
    ensures var s := Run(cfg, INITIAL, Leaks(cfg.maxInflight, why));
      && AllLeaked(s, cfg.maxInflight, why)
      && forall more :: Run(cfg, s, more).core.dispatched == cfg.maxInflight
  {
    LeakMany(cfg, cfg.maxInflight, why);
    var es := Leaks(cfg.maxInflight, why);
    RunKeepsInv(cfg, INITIAL, es);
    forall more { StarvedByLeaks(cfg, Run(cfg, INITIAL, es), why, more); }
  }

  lemma StarvedByLeaks(cfg: Config, s: System, why: Why, more: seq<Event>)
    requires cfg.maxInflight > 0 && Inv(cfg, s) && AllLeaked(s, cfg.maxInflight, why)
    ensures Run(cfg, s, more).core.dispatched == cfg.maxInflight
  {
    CountBound(s.tickets, Leaked);
    LeaksStarve(cfg, s, more);
  }

  predicate NoClientCancels(es: seq<Event>) { forall i | 0 <= i < |es| :: !es[i].ClientCancels? }

  predicate GivesUp(t: Ticket) { t.waiter.Leaving? || t.waiter.Left? || t.waiter.GaveUp? }

  /** Only a ticket dropped by Close was cancelled or given up. */
  ghost predicate Patient(s: System) {
    forall i | 0 <= i < |s.tickets| && (s.tickets[i].cancelled || GivesUp(s.tickets[i])) ::
      s.tickets[i].place == Dropped
  }

  lemma StaysPatient(cfg: Config, s: System, e: Event)
    requires Inv(cfg, s) && Patient(s) && !cfg.timeoutEnabled && !e.ClientCancels?
    ensures Patient(Apply(cfg, s, e))
  {
    if e.Pop? && Enabled(cfg, s, e) { assert s.core.waiting[0] in s.core.waiting; }
  }

  /** Without timeouts and cancelling clients nothing leaks, not even when the queue is closed. */
  lemma {:induction false} NoLeakWithoutGivingUp(cfg: Config, es: seq<Event>)
    requires !cfg.timeoutEnabled && NoClientCancels(es)
    ensures Patient(Run(cfg, INITIAL, es))
    ensures forall i | 0 <= i < |Run(cfg, INITIAL, es).tickets| :: !Leaked(Run(cfg, INITIAL, es).tickets[i])
  {
    if es != [] {
      NoLeakWithoutGivingUp(cfg, es[..|es| - 1]);
      RunKeepsInv(cfg, INITIAL, es[..|es| - 1]);
      StaysPatient(cfg, Run(cfg, INITIAL, es[..|es| - 1]), es[|es| - 1]);
    }
  }

  ghost predicate LeaksIn(cfg: Config, es: seq<Event>) {
    var s := Run(cfg, INITIAL, es);
    exists i :: 0 <= i < |s.tickets| && Leaked(s.tickets[i])
  }

  lemma {:induction false} NoCancelsInLeaks(n: nat)
    ensures NoClientCancels(Leaks(n, Timeout))
  {
    if n > 0 { NoCancelsInLeaks(n - 1); }
  }

  /** A queue whose clients never cancel can leak a slot if and only if it has a timeout. */
  lemma LeakIffTimeout(cfg: Config)
    requires cfg.maxInflight > 0 && cfg.maxQueued > 0
    ensures (exists es :: NoClientCancels(es) && LeaksIn(cfg, es)) <==> cfg.timeoutEnabled
  {
    if cfg.timeoutEnabled {
      var es := Leaks(cfg.maxInflight, Timeout);
      LeakHappens(cfg, Timeout);
      NoCancelsInLeaks(cfg.maxInflight);
      assert Leaked(Run(cfg, INITIAL, es).tickets[0]);
      assert LeaksIn(cfg, es);
    } else {
      forall es | NoClientCancels(es) ensures !LeaksIn(cfg, es) { NoLeakWithoutGivingUp(cfg, es); }
    }
  }
}
