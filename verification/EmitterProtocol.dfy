/** Every interleaving of producers, the shipping loop and Stop. A producer whose terminal
    event found the channel full waits in `retrying` for its second, timed try. */
module EmitterProtocol {
  import opened Sequences
  import opened Emitter

  /** Where the loop goroutine stands; `Last` is the flush before it returns. */
  datatype Phase = Looping | Draining | Last | Exited

  /** `accepted` and `shipped` record events in order; `mark` is how many had been accepted
      when the draining loop found the channel empty; `lost` counts unmarshalled events. */
  datatype State = State(
    core: Core,
    phase: Phase,
    shipping: bool,
    stopped: bool,
    retrying: seq<Event>,
    completed: nat,
    accepted: seq<Event>,
    shipped: seq<Event>,
    lost: nat,
    mark: nat)

  datatype Step =
    | EmitFirstTry(ev: Event)
    | EmitSecondTry(i: nat)
    | EmitGivesUp(i: nat)
    | Receive
    | Tick
    | Stop
    | SeeStop
    | FindEmpty
    | ShipEnds(how: Shipment)

  const INITIAL := State(EMPTY, Looping, false, false, [], 0, [], [], 0, 0)

  predicate LoopFree(s: State) { !s.shipping && (s.phase == Looping || s.phase == Draining) }

  predicate Enabled(cfg: Config, s: State, e: Step) {
    match e
    case EmitFirstTry(_) => true
    case EmitSecondTry(i) => i < |s.retrying| && s.core.HasRoom(cfg)
    case EmitGivesUp(i) => i < |s.retrying|
    case Receive => LoopFree(s) && s.core.queue != []
    case Tick => LoopFree(s) && s.phase == Looping
    case Stop => true
    case SeeStop => LoopFree(s) && s.phase == Looping && s.stopped
    case FindEmpty => LoopFree(s) && s.phase == Draining && s.core.queue == []
    case ShipEnds(_) => s.shipping
  }

  function Accept(s: State, ev: Event): State {
    s.(core := s.core.Accept(ev), accepted := s.accepted + [ev], completed := s.completed + 1)
  }

  function Drop(s: State): State { s.(core := s.core.Drop(), completed := s.completed + 1) }

  function Without(s: seq<Event>, i: nat): seq<Event>
    requires i < |s|
  {
    s[..i] + s[i + 1..]
  }

  /** A step that is not enabled changes nothing. */
  function Apply(cfg: Config, s: State, e: Step): State {
    if !Enabled(cfg, s, e) then s else
    match e
    case EmitFirstTry(ev) =>
      if s.core.HasRoom(cfg) then Accept(s, ev)
      else if ev.kind in TERMINAL_KINDS then s.(retrying := s.retrying + [ev])
      else Drop(s)
    case EmitSecondTry(i) => Accept(s, s.retrying[i]).(retrying := Without(s.retrying, i))
    case EmitGivesUp(i) => Drop(s).(retrying := Without(s.retrying, i))
    case Receive =>
      var core := s.core.Take();
      s.(core := core, shipping := |core.batch| >= cfg.batchSize)
    case Tick => s.(shipping := s.core.batch != [])
    case Stop => s.(stopped := true)
    case SeeStop => s.(phase := Draining)
    case FindEmpty =>
      s.(mark := |s.accepted|, shipping := s.core.batch != [], phase := if s.core.batch != [] then Last else Exited)
    case ShipEnds(how) =>
      s.(core := s.core.Ship(how), shipping := false,
         shipped := s.shipped + s.core.batch,
         lost := if how == Lost then s.lost + |s.core.batch| else s.lost,
         phase := if s.phase == Last then Exited else s.phase)
  }

  function Run(cfg: Config, s: State, es: seq<Step>): State {
    if es == [] then s else Apply(cfg, Run(cfg, s, es[..|es| - 1]), es[|es| - 1])
  }

  /** Nothing accepted is reordered, duplicated or forgotten. */
  predicate OrderInv(s: State) { s.accepted == s.shipped + s.core.batch + s.core.queue }

  predicate CountInv(s: State) {
    && s.completed == s.core.dropped + |s.accepted|
    && |s.shipped| == s.core.sent + s.core.failed + s.lost
  }

  predicate BoundInv(cfg: Config, s: State) {
    && |s.core.queue| <= cfg.queueCapacity
    && |s.core.batch| <= cfg.batchSize
    && (if s.shipping then s.core.batch != [] else |s.core.batch| < cfg.batchSize)
  }

  predicate ExitInv(s: State) {
    && (s.phase == Exited ==> s.core.batch == [] && !s.shipping)
    && (s.phase == Last ==> s.shipping)
    && (s.phase == Last || s.phase == Exited ==> s.mark <= |s.accepted| && s.core.queue == s.accepted[s.mark..])
  }

  predicate Inv(cfg: Config, s: State) { OrderInv(s) && CountInv(s) && BoundInv(cfg, s) && ExitInv(s) }

  lemma TakeKeepsOrder(s: State)
    requires OrderInv(s) && s.core.queue != []
    ensures s.accepted == s.shipped + s.core.Take().batch + s.core.Take().queue
  {
    var q := s.core.queue;
    assert q == [q[0]] + q[1..];
  }

  lemma KeepsOrder(cfg: Config, s: State, e: Step)
    requires OrderInv(s)
    ensures OrderInv(Apply(cfg, s, e))
  {
    if e.Receive? && Enabled(cfg, s, e) { TakeKeepsOrder(s); }
  }

  lemma KeepsRest(cfg: Config, s: State, e: Step)
    requires cfg.Ok() && Inv(cfg, s)
    ensures CountInv(Apply(cfg, s, e)) && BoundInv(cfg, Apply(cfg, s, e))
  {}

  lemma KeepsExit(cfg: Config, s: State, e: Step)
    requires cfg.Ok() && Inv(cfg, s)
    ensures ExitInv(Apply(cfg, s, e))
  {}

  lemma {:induction false} RunKeepsInv(cfg: Config, s: State, es: seq<Step>)
    requires cfg.Ok() && Inv(cfg, s)
    ensures Inv(cfg, Run(cfg, s, es))
  {
    if es != [] {
      var before := Run(cfg, s, es[..|es| - 1]);
      RunKeepsInv(cfg, s, es[..|es| - 1]);
      KeepsOrder(cfg, before, es[|es| - 1]);
      KeepsRest(cfg, before, es[|es| - 1]);
      KeepsExit(cfg, before, es[|es| - 1]);
    }
  }

  /** In this run a batch was being shipped and did not marshal. */
  ghost predicate ShipmentLost(cfg: Config, es: seq<Step>) {
    exists i :: 0 <= i < |es| && LostAt(cfg, es, i)
  }

  predicate LostAt(cfg: Config, es: seq<Step>, i: nat)
    requires i < |es|
  {
    es[i] == ShipEnds(Lost) && Run(cfg, INITIAL, es[..i]).shipping
  }

  lemma StepLoses(cfg: Config, s: State, e: Step)
    requires BoundInv(cfg, s)
    ensures Apply(cfg, s, e).lost >= s.lost
    ensures Apply(cfg, s, e).lost > s.lost <==> e == ShipEnds(Lost) && s.shipping
  {}

  lemma LostLastOrBefore(cfg: Config, es: seq<Step>)
    requires es != []
    ensures ShipmentLost(cfg, es) <==> ShipmentLost(cfg, es[..|es| - 1]) || LostAt(cfg, es, |es| - 1)
  {
    var front := es[..|es| - 1];
    forall i | 0 <= i < |front| ensures LostAt(cfg, es, i) <==> LostAt(cfg, front, i) { assert front[..i] == es[..i]; }
  }

  /** Events are lost exactly in the runs that lose a shipment. */
  lemma {:induction false} LossIsAShipment(cfg: Config, es: seq<Step>)
    requires cfg.Ok()
    ensures Run(cfg, INITIAL, es).lost > 0 <==> ShipmentLost(cfg, es)
  {
    if es != [] {
      var front := es[..|es| - 1];
      LossIsAShipment(cfg, front);
      LostLastOrBefore(cfg, es);
      RunKeepsInv(cfg, INITIAL, front);
      StepLoses(cfg, Run(cfg, INITIAL, front), es[|es| - 1]);
    }
  }

  lemma {:induction false} Reachable(cfg: Config, es: seq<Step>)
    requires cfg.Ok()
    ensures Inv(cfg, Run(cfg, INITIAL, es))
  {
    RunKeepsInv(cfg, INITIAL, es);
  }

  /** The events of the batches that were being shipped and ended this way. */
  function ShippedAs(cfg: Config, es: seq<Step>, how: Shipment): nat {
    if es == [] then 0
    else
      var front, s := es[..|es| - 1], Run(cfg, INITIAL, es[..|es| - 1]);
      ShippedAs(cfg, front, how) + if es[|es| - 1] == ShipEnds(how) && s.shipping then |s.core.batch| else 0
  }

  /** Each counter counts the shipments it is named for. */
  lemma {:induction false} CountedByOutcome(cfg: Config, es: seq<Step>)
    ensures var s := Run(cfg, INITIAL, es);
      && s.core.sent == ShippedAs(cfg, es, Sent)
      && s.core.failed == ShippedAs(cfg, es, Failed)
      && s.lost == ShippedAs(cfg, es, Lost)
  {
    if es != [] {
      CountedByOutcome(cfg, es[..|es| - 1]);
      StepShips(cfg, Run(cfg, INITIAL, es[..|es| - 1]), es[|es| - 1]);
    }
  }

  lemma StepShips(cfg: Config, s: State, e: Step)
    ensures var s', n := Apply(cfg, s, e), if s.shipping then |s.core.batch| else 0;
      && s'.core.sent == s.core.sent + (if e == ShipEnds(Sent) then n else 0)
      && s'.core.failed == s.core.failed + (if e == ShipEnds(Failed) then n else 0)
      && s'.lost == s.lost + (if e == ShipEnds(Lost) then n else 0)
  {}

  /** A drop is an event that is not terminal and found the channel full, or a terminal one whose
      timed second try ran out. */
  lemma DroppedOnlyWhenFull(cfg: Config, s: State, e: Step)
    ensures Apply(cfg, s, e).core.dropped > s.core.dropped <==>
              (e.EmitFirstTry? && e.ev.kind !in TERMINAL_KINDS && |s.core.queue| >= cfg.queueCapacity)
              || (e.EmitGivesUp? && e.i < |s.retrying|)
  {}

  /** Only terminal events are ever tried again. */
  lemma {:induction false} RetriedAreTerminal(cfg: Config, es: seq<Step>)
    ensures forall ev | ev in Run(cfg, INITIAL, es).retrying :: ev.kind in TERMINAL_KINDS
  {
    if es != [] { RetriedAreTerminal(cfg, es[..|es| - 1]); }
  }

  /** Completed Emit calls that are dropped, queued, in the batch, sent or failed. */
  function Accounted(s: State): nat {
    s.core.dropped + |s.core.queue| + |s.core.batch| + s.core.sent + s.core.failed
  }

  lemma Totals(cfg: Config, s: State)
    requires Inv(cfg, s)
    ensures s.completed == Accounted(s) + s.lost && s.accepted == s.shipped + s.core.batch + s.core.queue
    ensures |s.core.queue| <= cfg.queueCapacity && |s.core.batch| <= cfg.batchSize
  {
    assert |s.accepted| == |s.shipped| + |s.core.batch| + |s.core.queue|;
  }

  /** Conservation over every interleaving: each completed Emit call is accounted for, exactly
      unless a batch was lost while being shipped; nothing is reordered, duplicated or
      forgotten; and the channel and batch stay within their bounds. */
  lemma {:induction false} Conservation(cfg: Config, es: seq<Step>)
    requires cfg.Ok()
    ensures var s := Run(cfg, INITIAL, es);
      && (s.completed == Accounted(s) <==> !ShipmentLost(cfg, es))
      && s.completed == Accounted(s) + s.lost
      && s.accepted == s.shipped + s.core.batch + s.core.queue
      && |s.core.queue| <= cfg.queueCapacity && |s.core.batch| <= cfg.batchSize
  {
    Reachable(cfg, es);
    Totals(cfg, Run(cfg, INITIAL, es));
    LossIsAShipment(cfg, es);
  }

  predicate MarshalsAll(es: seq<Step>) { forall i | 0 <= i < |es| :: es[i] != ShipEnds(Lost) }

  lemma {:induction false} NothingLost(cfg: Config, s: State, es: seq<Step>)
    requires MarshalsAll(es)
    ensures Run(cfg, s, es).lost == s.lost
  {
    if es != [] { NothingLost(cfg, s, es[..|es| - 1]); }
  }

  /** The loop is done: it shipped what was accepted before its last look at the channel, in
      order, and the rest is still there. */
  ghost predicate LeftBehind(s: State) {
    && s.core.batch == [] && s.mark <= |s.accepted|
    && s.shipped == s.accepted[..s.mark] && s.core.queue == s.accepted[s.mark..]
    && (s.core.queue == [] <==> |s.accepted| == s.mark)
  }

  lemma ExitedLeaves(cfg: Config, s: State)
    requires Inv(cfg, s) && s.phase == Exited
    ensures LeftBehind(s)
  {
    Cut(s.accepted, s.shipped, s.core.queue, s.mark);
  }

  lemma Cut(all: seq<Event>, front: seq<Event>, back: seq<Event>, n: nat)
    requires n <= |all| && all == front + [] + back && back == all[n..]
    ensures front == all[..n]
  {
    assert |front| == n;
    assert forall i | 0 <= i < n :: front[i] == all[i];
  }

  /** When the loop has exited, everything accepted before its last look at the channel was
      shipped, in order; only events accepted after that look are left behind. */
  lemma {:induction false} ExitShipsEverything(cfg: Config, es: seq<Step>)
    requires cfg.Ok() && Run(cfg, INITIAL, es).phase == Exited
    ensures LeftBehind(Run(cfg, INITIAL, es))
  {
    Reachable(cfg, es);
    ExitedLeaves(cfg, Run(cfg, INITIAL, es));
  }

  /** After the exit nothing more is ever shipped: a late Emit is accepted and stranded. */
  lemma {:induction false} ExitIsFinal(cfg: Config, s: State, es: seq<Step>)
    requires s.phase == Exited && !s.shipping
    ensures var s' := Run(cfg, s, es);
      && s'.phase == Exited && !s'.shipping && s'.shipped == s.shipped && s.core.queue <= s'.core.queue
      && s'.core.sent == s.core.sent && s'.core.failed == s.core.failed
  {
    if es != [] { ExitIsFinal(cfg, s, es[..|es| - 1]); }
  }

  lemma LateEmitIsStranded(cfg: Config, s: State, ev: Event, es: seq<Step>)
    requires s.phase == Exited && !s.shipping && s.core.HasRoom(cfg)
    ensures var s' := Run(cfg, Apply(cfg, s, EmitFirstTry(ev)), es);
      s'.shipped == s.shipped && s.core.queue + [ev] <= s'.core.queue
  {
    ExitIsFinal(cfg, Apply(cfg, s, EmitFirstTry(ev)), es);
  }
}
