/** The bounded admission queue. Each member function of `Core` is one critical section of
    the queue's mutex; the class performs the same sections in place. Tickets are named by
    their arrival number. */
module AdmissionQueue {
  import opened Sequences

  datatype Config = Config(maxQueued: int, maxInflight: int, timeoutEnabled: bool)

  datatype Refusal = BackendOffline | QueueFull | Gate(reason: string)

  datatype Admission = Admitted(ticket: nat) | Refused(why: Refusal)

  datatype Core = Core(
    waiting: seq<nat>,
    inflight: nat,
    closed: bool,
    arrivals: nat,
    dispatched: nat,
    completed: nat,
    rejected: nat,
    timedOut: nat,
    cancelled: nat)
  {
    /** A closed queue refuses without counting; a gate refusal or a full queue counts. */
    function Decide(cfg: Config, gate: Option<string>): Admission {
      if closed then Refused(BackendOffline)
      else if gate.Some? then Refused(Gate(gate.value))
      else if |waiting| >= cfg.maxQueued then Refused(QueueFull)
      else Admitted(arrivals)
    }

    function Admit(cfg: Config, gate: Option<string>): Core {
      match Decide(cfg, gate)
      case Admitted(t) => this.(waiting := waiting + [t], arrivals := arrivals + 1)
      case Refused(BackendOffline) => this
      case Refused(_) => this.(rejected := rejected + 1)
    }

    predicate CanPop(cfg: Config) { waiting != [] && inflight < cfg.maxInflight }

    function Pop(cfg: Config): Core
      requires CanPop(cfg)
    {
      this.(waiting := waiting[1..], inflight := inflight + 1, dispatched := dispatched + 1)
    }

    function Remove(t: nat): Core { this.(waiting := Without(waiting, t)) }

    function Done(): Core {
      this.(inflight := if inflight > 0 then inflight - 1 else inflight, completed := completed + 1)
    }

    function Close(): Core { this.(closed := true, waiting := []) }
  }

  const EMPTY := Core([], 0, false, 0, 0, 0, 0, 0, 0)

  /** Drops the first occurrence of a ticket. */
  function Without(s: seq<nat>, t: nat): seq<nat> {
    if s == [] then [] else if s[0] == t then s[1..] else [s[0]] + Without(s[1..], t)
  }

  lemma {:induction false} WithoutAt(s: seq<nat>, t: nat, i: nat)
    requires i < |s| && s[i] == t && t !in s[..i]
    ensures Without(s, t) == s[..i] + s[i + 1..]
  {
    if i > 0 {
      assert s[0] in s[..i];
      assert s[1..][..i - 1] == s[..i][1..];
      WithoutAt(s[1..], t, i - 1);
      assert s[..i] == [s[0]] + s[1..][..i - 1];
    }
  }

  lemma {:induction false} WithoutAbsent(s: seq<nat>, t: nat)
    requires t !in s
    ensures Without(s, t) == s
  {
    if s != [] {
      WithoutAbsent(s[1..], t);
      assert s == [s[0]] + s[1..];
    }
  }

  /** How many tickets one dispatcher pass can promote. */
  function Room(cfg: Config, c: Core): nat {
    if c.inflight >= cfg.maxInflight then 0 else Min(|c.waiting|, cfg.maxInflight - c.inflight)
  }

  class Queue {
    const cfg: Config
    var waiting: seq<nat>
    var inflight: nat
    var closed: bool
    var arrivals: nat
    var dispatched: nat
    var completed: nat
    var rejected: nat
    var timedOut: nat
    var cancelled: nat

    ghost function View(): Core
      reads this
    {
      Core(waiting, inflight, closed, arrivals, dispatched, completed, rejected, timedOut, cancelled)
    }

    constructor (cfg: Config)
      ensures this.cfg == cfg && View() == EMPTY
    {
      this.cfg := cfg;
      waiting, inflight, closed := [], 0, false;
      arrivals, dispatched, completed, rejected, timedOut, cancelled := 0, 0, 0, 0, 0, 0;
    }

    method Admit(gate: Option<string>) returns (r: Admission)
      modifies this
      ensures r == old(View()).Decide(cfg, gate)
      ensures View() == old(View()).Admit(cfg, gate)
      ensures r == Admitted(old(arrivals)) <==> !old(closed) && gate.None? && |old(waiting)| < cfg.maxQueued
      ensures r == Refused(BackendOffline) <==> old(closed)
      ensures r == Refused(QueueFull) <==> !old(closed) && gate.None? && |old(waiting)| >= cfg.maxQueued
      ensures !old(closed) && gate.Some? ==> r == Refused(Gate(gate.value))
      ensures waiting == if r.Admitted? then old(waiting) + [old(arrivals)] else old(waiting)
      ensures rejected == old(rejected) + if r.Refused? && !old(closed) then 1 else 0
    {
      if closed {
        return Refused(BackendOffline);
      }
      if gate.Some? {
        rejected := rejected + 1;
        return Refused(Gate(gate.value));
      }
      if |waiting| >= cfg.maxQueued {
        rejected := rejected + 1;
        return Refused(QueueFull);
      }
      r := Admitted(arrivals);
      waiting := waiting + [arrivals];
      arrivals := arrivals + 1;
    }

    method RemoveWaiting(t: nat)
      modifies this
      ensures View() == old(View()).Remove(t)
    {
      for i := 0 to |waiting|
        invariant View() == old(View())
        invariant t !in waiting[..i]
      {
        if waiting[i] == t {
          WithoutAt(waiting, t, i);
          waiting := waiting[..i] + waiting[i + 1..];
          return;
        }
      }
      WithoutAbsent(waiting, t);
    }

    /** The dispatcher's pass with nobody interfering: it promotes the longest prefix of
        the queue that fits, in order, and stops only when it must. */
    method Drain() returns (promoted: seq<nat>)
      modifies this
      ensures promoted == old(waiting)[..Room(cfg, old(View()))]
      ensures View() == old(View()).(waiting := old(waiting)[Room(cfg, old(View()))..],
                                     inflight := old(inflight) + |promoted|,
                                     dispatched := old(dispatched) + |promoted|)
      ensures !View().CanPop(cfg)
    {
      promoted := [];
      while waiting != [] && inflight < cfg.maxInflight
        invariant |promoted| <= Room(cfg, old(View()))
        invariant promoted == old(waiting)[..|promoted|]
        invariant View() == old(View()).(waiting := old(waiting)[|promoted|..],
                                         inflight := old(inflight) + |promoted|,
                                         dispatched := old(dispatched) + |promoted|)
        decreases |waiting|
      {
        var t := PopOne();
        promoted := promoted + [t];
      }
    }

    /** One turn of the dispatcher, under the lock. */
    method PopOne() returns (t: nat)
      requires View().CanPop(cfg)
      modifies this
      ensures t == old(waiting)[0] && View() == old(View()).Pop(cfg)
    {
      t := waiting[0];
      waiting := waiting[1..];
      inflight := inflight + 1;
      dispatched := dispatched + 1;
    }

    method Done()
      modifies this
      ensures View() == old(View()).Done()
    {
      if inflight > 0 {
        inflight := inflight - 1;
      }
      completed := completed + 1;
    }

    /** Empties the queue and hands back the tickets whose contexts must be cancelled. */
    method Close() returns (dropped: seq<nat>)
      modifies this
      ensures View() == old(View()).Close() && dropped == old(waiting)
    {
      closed := true;
      dropped := waiting;
      waiting := [];
    }
  }
}
