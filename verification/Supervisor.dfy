/** Disconnect and rejoin accounting: what the supervisor derives, poll by poll, from the
    lifecycle machine it drives. */
module Supervisor {
  import opened Sequences
  import opened LifecycleHistory
  import Lifecycle
  import Ring

  datatype FailureClass = NoFailure | FailureSoft | FailureHard

  /** What one adapter sample reports, before the access probe is folded in. */
  datatype Sample = Sample(
    visible: bool,
    failure: FailureClass,
    utilPct: real,
    utilSupported: bool,
    freeMemRatio: real)

  /** An unclassified sample whose access probe failed counts as a soft failure. */
  function PollObservation(s: Sample, access: bool, score: real, newUncorr: nat, mono: int): Observation {
    Observation(
      s.visible && access, s.visible, access,
      s.failure == FailureHard, s.failure == FailureSoft || (s.failure == NoFailure && !access),
      s.utilPct, s.utilSupported, s.freeMemRatio, score, newUncorr, mono)
  }

  /** The adapter's classification decides; without one, an invisible device is hard
      evidence only if the access probe nevertheless succeeded. */
  lemma PollEvidence(s: Sample, access: bool, score: real, newUncorr: nat, mono: int)
    ensures var e := EvidenceOf(PollObservation(s, access, score, newUncorr, mono));
      && (e == Hard <==> s.failure == FailureHard || (s.failure == NoFailure && !s.visible && access))
      && (e == Healthy <==> s.failure == NoFailure && s.visible && access)
  {}

  /** What the machine is told of the readings is what was read. */
  lemma PollCarries(s: Sample, access: bool, score: real, newUncorr: nat, mono: int)
    ensures var o := PollObservation(s, access, score, newUncorr, mono);
      && o.utilPct == s.utilPct && o.utilSupported == s.utilSupported && o.freeMemRatio == s.freeMemRatio
      && o.stabilityScore == score && o.newUncorrErrors == newUncorr && o.mono == mono
      && (o.probeOK <==> s.visible && access)
  {}

  // ------------------------------------------------------------------------------------------
  // Reference: outages read off the state history

  datatype Outage = Outage(from: int, to: int)

  /** The polls at which the device became OFFLINE. */
  function Disconnects(cfg: Config, log: Log): seq<int> {
    match log
    case Start => []
    case DrainSet(before, _) => Disconnects(cfg, before)
    case Observed(before, o) =>
      if StateOf(cfg, before) != Offline && StateOf(cfg, log) == Offline
      then Disconnects(cfg, before) + [o.mono] else Disconnects(cfg, before)
  }

  /** Completed outages, each from the poll that went OFFLINE to the poll that left it. */
  function Outages(cfg: Config, log: Log): seq<Outage> {
    match log
    case Start => []
    case DrainSet(before, _) => Outages(cfg, before)
    case Observed(before, o) =>
      if StateOf(cfg, before) == Offline && StateOf(cfg, log) != Offline && Disconnects(cfg, before) != []
      then Outages(cfg, before) + [Outage(Disconnects(cfg, before)[|Disconnects(cfg, before)| - 1], o.mono)]
      else Outages(cfg, before)
  }

  /** Polls read a clock that starts at zero and never goes back. */
  predicate ClockOrdered(log: Log) {
    match log
    case Start => true
    case DrainSet(before, _) => ClockOrdered(before)
    case Observed(before, o) => ClockOrdered(before) && LatestPoll(before) <= o.mono
  }

  function LatestPoll(log: Log): int {
    match log
    case Start => 0
    case DrainSet(before, _) => LatestPoll(before)
    case Observed(_, o) => o.mono
  }

  /** Disconnects and rejoins alternate, starting with a disconnect, and the i-th
      recovery duration starts at the i-th disconnect. */
  lemma {:induction false} DisconnectsAlternate(cfg: Config, log: Log)
    ensures |Disconnects(cfg, log)| == |Outages(cfg, log)| + if StateOf(cfg, log) == Offline then 1 else 0
    ensures forall i | 0 <= i < |Outages(cfg, log)| :: Outages(cfg, log)[i].from == Disconnects(cfg, log)[i]
  {
    match log
    case Start =>
    case DrainSet(before, _) => DisconnectsAlternate(cfg, before);
    case Observed(before, o) => DisconnectsAlternate(cfg, before);
  }

  /** With such a clock, outages neither run backwards nor overlap. */
  lemma {:induction false} OutagesAreOrdered(cfg: Config, log: Log)
    requires ClockOrdered(log)
    ensures forall i | 0 <= i < |Outages(cfg, log)| ::
              Outages(cfg, log)[i].from <= Outages(cfg, log)[i].to <= LatestPoll(log)
    ensures forall i | 0 <= i < |Disconnects(cfg, log)| :: Disconnects(cfg, log)[i] <= LatestPoll(log)
    ensures forall i | 0 <= i < |Outages(cfg, log)| && i + 1 < |Disconnects(cfg, log)| ::
              Outages(cfg, log)[i].to <= Disconnects(cfg, log)[i + 1]
  {
    match log
    case Start =>
    case DrainSet(before, _) => OutagesAreOrdered(cfg, before);
    case Observed(before, o) =>
      OutagesAreOrdered(cfg, before);
      DisconnectsAlternate(cfg, before);
  }

  /** `down` is the poll that started the spell of OFFLINE that lasted to `log`. */
  ghost predicate WentDown(cfg: Config, down: Log, log: Log) {
    && UpTo(down, log) && down.Observed?
    && StateOf(cfg, down.before) != Offline && StateOf(cfg, down) == Offline
    && forall l | Earlier(down, l) && UpTo(l, log) :: StateOf(cfg, l) == Offline
  }

  lemma {:induction false} LastDisconnect(cfg: Config, log: Log) returns (down: Log)
    requires StateOf(cfg, log) == Offline
    ensures WentDown(cfg, down, log) && Disconnects(cfg, log) != []
    ensures Disconnects(cfg, log)[|Disconnects(cfg, log)| - 1] == down.o.mono
  {
    if log.Observed? && StateOf(cfg, log.before) != Offline {
      down := log;
      forall l ensures !(Earlier(down, l) && UpTo(l, log)) { NotBothWays(down, l); }
    } else {
      down := LastDisconnect(cfg, log.before);
    }
  }

  lemma NotBothWays(a: Log, b: Log)
    ensures !(Earlier(a, b) && UpTo(b, a))
  {
    if Earlier(a, b) { SmallerWhenEarlier(a, b); }
    if Earlier(b, a) { SmallerWhenEarlier(b, a); }
  }

  function Size(log: Log): nat { if log.Start? then 0 else Size(log.before) + 1 }

  lemma {:induction false} SmallerWhenEarlier(a: Log, b: Log)
    requires Earlier(a, b)
    ensures Size(a) < Size(b)
  {
    if a != b.before { SmallerWhenEarlier(a, b.before); }
  }

  /** The outage a rejoin ends ran from the poll that found the device OFFLINE to this one, and is
      reported in whole milliseconds. */
  lemma RejoinMeasures(cfg: Config, log: Log) returns (down: Log)
    requires log.Observed? && StateOf(cfg, log.before) == Offline && StateOf(cfg, log) != Offline
    ensures WentDown(cfg, down, log.before)
    ensures Outages(cfg, log) == Outages(cfg, log.before) + [Outage(down.o.mono, log.o.mono)]
    ensures var ms := Device.LastRecovery(Outages(cfg, log));
      down.o.mono <= log.o.mono ==> ms * 1000000 <= log.o.mono - down.o.mono < (ms + 1) * 1000000
  {
    down := LastDisconnect(cfg, log.before);
  }

  /** Whole milliseconds, rounded towards zero. */
  function Millis(ns: int): int { if ns >= 0 then ns / 1000000 else -(-ns / 1000000) }

  const DISCONNECT_RING: nat := 64

  class Device {
    const machine: Lifecycle.LifecycleMachine
    const disconnects: Ring.RingBuffer<int>
    const windowNs: int
    var wasOffline: bool
    var offlineMono: int
    var disconnectCount: nat
    var rejoinCount: nat
    var lastRecoveryMs: int

    ghost function Repr(): set<object> { {this, machine, disconnects, disconnects.buf} }

    ghost predicate Valid()
      reads Repr()
    {
      && machine.Valid() && disconnects.Valid()
      && disconnects.buf.Length == DISCONNECT_RING
      && var cfg, log := machine.cfg, machine.log;
      && wasOffline == (StateOf(cfg, log) == Offline)
      && disconnects.pushed == Disconnects(cfg, log)
      && (wasOffline ==> disconnects.pushed != [] && offlineMono == disconnects.pushed[|disconnects.pushed| - 1])
      && disconnectCount == |Disconnects(cfg, log)|
      && rejoinCount == |Outages(cfg, log)|
      && lastRecoveryMs == LastRecovery(Outages(cfg, log))
    }

    static function LastRecovery(outages: seq<Outage>): int {
      if outages == [] then 0 else Millis(outages[|outages| - 1].to - outages[|outages| - 1].from)
    }

    constructor (cfg: Config, windowNs: int)
      ensures Valid() && fresh(Repr()) && machine.log == Start && machine.cfg == cfg
    {
      machine := new Lifecycle.LifecycleMachine(cfg);
      disconnects := new Ring.RingBuffer<int>(DISCONNECT_RING);
      this.windowNs := windowNs;
      wasOffline, offlineMono, disconnectCount, rejoinCount, lastRecoveryMs := false, 0, 0, 0, 0;
    }

    /** Steps the machine, then counts a disconnect on the way into OFFLINE and a rejoin
        when an outage ends in RECOVERING. */
    method Poll(s: Sample, access: bool, score: real, newUncorr: nat, mono: int) returns (newState: State)
      requires Valid()
      modifies Repr()
      ensures Valid()
      ensures machine.log == Observed(old(machine.log), PollObservation(s, access, score, newUncorr, mono))
      ensures newState == StateOf(machine.cfg, machine.log)
      ensures disconnectCount == rejoinCount + if newState == Offline then 1 else 0
    {
      var o := PollObservation(s, access, score, newUncorr, mono);
      ghost var before := machine.log;
      OfflineIffRun(machine.cfg, before);
      var stepped, _ := machine.Step(o);
      newState := stepped;
      if newState == Offline && !wasOffline {
        wasOffline := true;
        offlineMono := mono;
        disconnectCount := disconnectCount + 1;
        disconnects.Push(mono);
      }
      if wasOffline && newState == Recovering {
        rejoinCount := rejoinCount + 1;
        lastRecoveryMs := Millis(mono - offlineMono);
        wasOffline := false;
      }
      DisconnectsAlternate(machine.cfg, machine.log);
    }

    method SetDraining(d: bool) returns (changed: bool)
      requires Valid()
      modifies Repr()
      ensures Valid() && machine.log == DrainSet(old(machine.log), d)
      ensures changed <==> Drained(old(machine.log)) != d
      ensures disconnectCount == old(disconnectCount) && rejoinCount == old(rejoinCount)
    {
      var _, c := machine.SetDrainingChecked(d);
      changed := c;
    }

    /** Counts the remembered disconnects inside the window. */
    method DisconnectsInWindow(now: int) returns (c: nat)
      requires Valid()
      ensures c == Count(LastN(Disconnects(machine.cfg, machine.log), DISCONNECT_RING), t => t >= now - windowNs)
    {
      var items := disconnects.Items();
      var cutoff := now - windowNs;
      ghost var inWindow := t => t >= now - windowNs;
      c := 0;
      for i := 0 to |items|
        invariant c == Count(items[..i], inWindow)
      {
        CountPush(items[..i], items[i], inWindow);
        assert items[..i + 1] == items[..i] + [items[i]];
        if items[i] >= cutoff {
          c := c + 1;
        }
      }
      assert items[..|items|] == items;
    }
  }
}
