/** The trajectory emitter's moving parts: a bounded channel, the batch being filled and the
    counters. Each member function of `Core` is one indivisible step on them. */
module Emitter {
  import opened Sequences

  datatype Event = Event(kind: string, serial: nat)

  const TERMINAL_KINDS: set<string> := {
    "REQUEST_COMPLETED", "PARTIAL_STREAM_FAILED", "ROUTE_ATTEMPT_FAILED", "CLIENT_CANCELLED", "STREAM_COMPLETED",
    "QUEUE_REJECTED", "QUEUE_TIMED_OUT", "VLLM_REQUEST_FAILED", "UPSTREAM_CANCELLED"
  }

  datatype Config = Config(batchSize: nat, queueCapacity: nat) {
    predicate Ok() { batchSize > 0 && queueCapacity > 0 }
  }

  /** Non-positive settings fall back to the defaults. */
  function Normalise(batchSize: int, queueCapacity: int): (cfg: Config)
    ensures cfg.Ok()
    ensures batchSize > 0 ==> cfg.batchSize == batchSize
    ensures queueCapacity > 0 ==> cfg.queueCapacity == queueCapacity
    ensures batchSize <= 0 && queueCapacity <= 0 ==> cfg == Config(128, 10000)
  {
    Config(if batchSize <= 0 then 128 else batchSize, if queueCapacity <= 0 then 10000 else queueCapacity)
  }

  /** How shipping a batch ends. A batch that does not marshal is gone without a trace. */
  datatype Shipment = Sent | Failed | Lost

  /** How one try of Emit ends. */
  datatype Tried = Accepted | Dropped | TryAgain

  datatype Core = Core(queue: seq<Event>, batch: seq<Event>, dropped: nat, sent: nat, failed: nat)
  {
    predicate HasRoom(cfg: Config) { |queue| < cfg.queueCapacity }

    function Accept(ev: Event): Core { this.(queue := queue + [ev]) }

    function Drop(): Core { this.(dropped := dropped + 1) }

    function Take(): Core
      requires queue != []
    {
      this.(queue := queue[1..], batch := batch + [queue[0]])
    }

    function Ship(how: Shipment): Core {
      match how
      case Sent => this.(batch := [], sent := sent + |batch|)
      case Failed => this.(batch := [], failed := failed + |batch|)
      case Lost => this.(batch := [])
    }
  }

  const EMPTY := Core([], [], 0, 0, 0)

  /** Posts a batch: one retry, and counted once whatever happens. */
  method PostBatch(marshals: bool, ok: bool, okOnRetry: bool) returns (how: Shipment, posts: nat)
    ensures how == Sent <==> marshals && (ok || okOnRetry)
    ensures how == Lost <==> !marshals
    ensures posts == if !marshals then 0 else if ok then 1 else 2
  {
    posts := 0;
    if !marshals {
      return Lost, posts;
    }
    for attempt := 0 to 2
      invariant posts == attempt && (attempt > 0 ==> !ok) && (attempt > 1 ==> !okOnRetry)
    {
      posts := posts + 1;
      if (if attempt == 0 then ok else okOnRetry) {
        return Sent, posts;
      }
    }
    how := Failed;
  }

  class EventEmitter {
    const cfg: Config
    var queue: seq<Event>
    var batch: seq<Event>
    var dropped: nat
    var sent: nat
    var failed: nat

    ghost function View(): Core
      reads this
    {
      Core(queue, batch, dropped, sent, failed)
    }

    constructor (batchSize: int, queueCapacity: int)
      ensures cfg == Normalise(batchSize, queueCapacity) && View() == EMPTY
    {
      cfg := Normalise(batchSize, queueCapacity);
      queue, batch, dropped, sent, failed := [], [], 0, 0, 0;
    }

    /** The non-blocking half of Emit. Only a terminal event that found no room goes on. */
    method EmitFirstTry(ev: Event) returns (r: Tried)
      modifies this`queue, this`dropped
      ensures r == Accepted ==> View() == old(View()).Accept(ev)
      ensures r == Dropped ==> View() == old(View()).Drop()
      ensures r == TryAgain ==> View() == old(View())
      ensures r == Accepted <==> old(View()).HasRoom(cfg)
      ensures r == TryAgain ==> ev.kind in TERMINAL_KINDS
      ensures r == Dropped ==> ev.kind !in TERMINAL_KINDS
    {
      if |queue| < cfg.queueCapacity {
        queue := queue + [ev];
        return Accepted;
      }
      if ev.kind in TERMINAL_KINDS {
        return TryAgain;
      }
      dropped := dropped + 1;
      r := Dropped;
    }

    /** The bounded second try of a terminal event: room or the timer, whichever comes first. */
    method EmitSecondTry(ev: Event, timerFired: bool) returns (r: Tried)
      requires timerFired || |queue| < cfg.queueCapacity
      modifies this`queue, this`dropped
      ensures r == (if timerFired then Dropped else Accepted)
      ensures View() == if timerFired then old(View()).Drop() else old(View()).Accept(ev)
    {
      if !timerFired {
        queue := queue + [ev];
        return Accepted;
      }
      dropped := dropped + 1;
      r := Dropped;
    }

    /** The loop takes one event; a full batch must be flushed next. */
    method Receive() returns (full: bool)
      requires queue != []
      modifies this`queue, this`batch
      ensures View() == old(View()).Take() && (full <==> |batch| >= cfg.batchSize)
    {
      batch := batch + [queue[0]];
      queue := queue[1..];
      full := |batch| >= cfg.batchSize;
    }

    /** What the loop does once it sees the stop signal, with no Emit running: everything
        accepted is shipped, in order, in full batches but for the last. */
    method DrainOnStop(outcomes: seq<Shipment>) returns (batches: seq<seq<Event>>)
      requires cfg.Ok() && |batch| < cfg.batchSize
      requires |outcomes| > |queue|
      modifies this`queue, this`batch, this`sent, this`failed
      ensures queue == [] && batch == []
      ensures Flatten(batches) == old(batch) + old(queue)
      ensures forall i | 0 <= i < |batches| :: 0 < |batches[i]| <= cfg.batchSize
      ensures forall i | 0 <= i < |batches| - 1 :: |batches[i]| == cfg.batchSize
      ensures Lost !in outcomes ==> sent + failed == old(sent) + old(failed) + |old(batch)| + |old(queue)|
    {
      batches := [];
      while queue != []
        invariant |batch| < cfg.batchSize
        invariant |batches| + |queue| <= |old(queue)|
        invariant Flatten(batches) + batch + queue == old(batch) + old(queue)
        invariant forall i | 0 <= i < |batches| :: |batches[i]| == cfg.batchSize
        invariant Lost !in outcomes ==>
                    sent + failed + |batch| + |queue| == old(sent) + old(failed) + |old(batch)| + |old(queue)|
        decreases |queue|
      {
        MoveOne(Flatten(batches), batch, queue);
        var full := Receive();
        if full {
          FlattenPush(batches, batch);
          assert Flatten(batches) + batch == Flatten(batches) + batch + [];
          batches := batches + [batch];
          Flush(outcomes[|batches| - 1]);
        }
      }
      if batch != [] {
        FlattenPush(batches, batch);
        batches := batches + [batch];
        Flush(outcomes[|batches| - 1]);
      }
    }

    method Flush(how: Shipment)
      modifies this`batch, this`sent, this`failed
      ensures View() == old(View()).Ship(how)
    {
      if how == Sent {
        sent := sent + |batch|;
      } else if how == Failed {
        failed := failed + |batch|;
      }
      batch := [];
    }
  }

  function Flatten(batches: seq<seq<Event>>): seq<Event> {
    if batches == [] then [] else Flatten(batches[..|batches| - 1]) + batches[|batches| - 1]
  }

  lemma MoveOne(front: seq<Event>, batch: seq<Event>, queue: seq<Event>)
    requires queue != []
    ensures front + batch + queue == front + (batch + [queue[0]]) + queue[1..]
  {
    assert queue == [queue[0]] + queue[1..];
  }

  lemma FlattenPush(batches: seq<seq<Event>>, b: seq<Event>)
    ensures Flatten(batches + [b]) == Flatten(batches) + b
  {
    assert (batches + [b])[..|batches|] == batches;
  }
}
