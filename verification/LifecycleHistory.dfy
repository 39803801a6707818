/** The device lifecycle read as a function of everything that happened to the device.
    Nothing here counts: a state is decided by the trailing run of observations, by the
    operator's last drain request and by the moment recovery was last entered. The
    machine of `Lifecycle`, which keeps counters and a latch instead, is proved to
    compute exactly these functions. */
module LifecycleHistory {

  datatype State = Unknown | Ready | Busy | Degraded | Draining | Offline | Recovering

  datatype Config = Config(
    busyUtilPct: real,
    busyMemRatio: real,
    degradedScore: real,
    offlineFailures: int,
    confirmSamples: int,
    recoveringHoldSec: real,
    recoveryStreak: int)

  /** One poll of the device. `mono` is a monotonic clock reading in nanoseconds. */
  datatype Observation = Observation(
    probeOK: bool,
    gpuVisible: bool,
    gpuAccessible: bool,
    hardOfflineEvidence: bool,
    softFailure: bool,
    utilPct: real,
    utilSupported: bool,
    freeMemRatio: real,
    stabilityScore: real,
    newUncorrErrors: nat,
    mono: int)

  datatype Evidence = Hard | Soft | Healthy

  /** An explicit soft classification outranks an invisible device. */
  function EvidenceOf(o: Observation): Evidence {
    if o.hardOfflineEvidence || (!o.gpuVisible && !o.softFailure) then Hard
    else if o.softFailure || !o.gpuAccessible || !o.probeOK then Soft
    else Healthy
  }

  function Classify(cfg: Config, draining: bool, o: Observation): State {
    if draining then Draining
    else if o.stabilityScore < cfg.degradedScore then Degraded
    else if o.newUncorrErrors > 0 then Degraded
    else if o.utilSupported && o.utilPct >= cfg.busyUtilPct then Busy
    else if o.freeMemRatio <= cfg.busyMemRatio then Busy
    else Ready
  }

  /** What happened to the device, newest last. Drain requests arrive between polls. */
  datatype Log = Start | Observed(before: Log, o: Observation) | DrainSet(before: Log, drain: bool)

  function Drained(log: Log): bool {
    match log
    case Start => false
    case Observed(before, _) => Drained(before)
    case DrainSet(_, d) => d
  }

  /** Length of the trailing run of failed observations. */
  function FailureRun(log: Log): nat {
    match log
    case Start => 0
    case Observed(before, o) => if EvidenceOf(o) == Healthy then 0 else FailureRun(before) + 1
    case DrainSet(before, _) => FailureRun(before)
  }

  /** Does the trailing run of failed observations contain hard evidence? */
  predicate HardInRun(log: Log) {
    match log
    case Start => false
    case Observed(before, o) => EvidenceOf(o) == Hard || (EvidenceOf(o) == Soft && HardInRun(before))
    case DrainSet(before, _) => HardInRun(before)
  }

  function HealthyRun(log: Log): nat {
    match log
    case Start => 0
    case Observed(before, o) => if EvidenceOf(o) == Healthy then HealthyRun(before) + 1 else 0
    case DrainSet(before, _) => HealthyRun(before)
  }

  /** Length of the trailing run of healthy observations that classified as `t` when they were made. */
  function ClassRun(cfg: Config, log: Log, t: State): nat {
    match log
    case Start => 0
    case Observed(before, o) =>
      if EvidenceOf(o) == Healthy && Classify(cfg, Drained(before), o) == t
      then ClassRun(cfg, before, t) + 1 else 0
    case DrainSet(before, _) => ClassRun(cfg, before, t)
  }

  predicate OfflineByRun(cfg: Config, log: Log) {
    HardInRun(log) || (FailureRun(log) > 0 && FailureRun(log) >= cfg.offlineFailures)
  }

  predicate InRecovery(s: State) { s == Offline || s == Recovering }

  predicate HoldMet(cfg: Config, since: int, now: int) {
    (now - since) as real / 1000000000.0 >= cfg.recoveringHoldSec
  }

  /** When did the device last go from OFFLINE to RECOVERING? Zero if it never did. */
  function RecoveryEntry(cfg: Config, log: Log): int
    decreases log, 0
  {
    match log
    case Start => 0
    case Observed(before, o) =>
      if StateOf(cfg, before) == Offline && EvidenceOf(o) == Healthy then o.mono else RecoveryEntry(cfg, before)
    case DrainSet(before, _) => RecoveryEntry(cfg, before)
  }

  /** A change between healthy states: leaving DEGRADED and entering DEGRADED or DRAINING
      are immediate, everything else waits for `confirmSamples` agreeing observations. */
  predicate Confirmed(cfg: Config, log: Log, from: State, to: State) {
    || to == Degraded
    || to == Draining
    || (from == Degraded && (to == Ready || to == Busy))
    || ClassRun(cfg, log, to) >= cfg.confirmSamples
  }

  function StateOf(cfg: Config, log: Log): State
    decreases log, 1
  {
    match log
    case Start => Unknown
    case DrainSet(before, _) => StateOf(cfg, before)
    case Observed(before, o) =>
      var prev := StateOf(cfg, before);
      if EvidenceOf(o) != Healthy then
        if OfflineByRun(cfg, log) then Offline else if InRecovery(prev) then Recovering else Degraded
      else
        var target := Classify(cfg, Drained(before), o);
        if prev == Offline then Recovering
        else if prev == Recovering then
          if HoldMet(cfg, RecoveryEntry(cfg, before), o.mono) && HealthyRun(log) >= cfg.recoveryStreak
          then target else Recovering
        else if target != prev && Confirmed(cfg, log, prev, target) then target
        else prev
  }

  predicate EverOffline(cfg: Config, log: Log) {
    match log
    case Start => false
    case Observed(before, _) => StateOf(cfg, log) == Offline || EverOffline(cfg, before)
    case DrainSet(before, _) => EverOffline(cfg, before)
  }

  // ------------------------------------------------------------------------------------------
  // The observations alone, as a sequence, for statements that do not mention the run functions

  function Observations(log: Log): seq<Observation> {
    match log
    case Start => []
    case Observed(before, o) => Observations(before) + [o]
    case DrainSet(before, _) => Observations(before)
  }

  ghost predicate LastAllFailed(obs: seq<Observation>, n: nat) {
    n <= |obs| && forall i | |obs| - n <= i < |obs| :: EvidenceOf(obs[i]) != Healthy
  }

  ghost predicate LastAllHealthy(obs: seq<Observation>, n: nat) {
    n <= |obs| && forall i | |obs| - n <= i < |obs| :: EvidenceOf(obs[i]) == Healthy
  }

  ghost predicate HardAmongLast(obs: seq<Observation>, n: nat)
    requires n <= |obs|
  {
    exists i :: |obs| - n <= i < |obs| && EvidenceOf(obs[i]) == Hard
  }

  lemma {:induction false} FailureRunIsSuffix(log: Log)
    ensures forall n: nat :: LastAllFailed(Observations(log), n) <==> n <= FailureRun(log)
    ensures FailureRun(log) <= |Observations(log)|
    ensures HardInRun(log) <==> HardAmongLast(Observations(log), FailureRun(log))
  {
    match log
    case Start =>
    case DrainSet(before, _) => FailureRunIsSuffix(before);
    case Observed(before, o) =>
      FailureRunIsSuffix(before);
      var prior, obs := Observations(before), Observations(log);
      forall n: nat ensures LastAllFailed(obs, n) <==> n <= FailureRun(log) {
        if n > 0 {
          assert obs[|obs| - 1] == o;
          assert LastAllFailed(obs, n) <==> EvidenceOf(o) != Healthy && LastAllFailed(prior, n - 1) by {
            assert forall i | 0 <= i < |prior| :: obs[i] == prior[i];
          }
        }
      }
      if EvidenceOf(o) != Healthy {
        var n := FailureRun(before);
        assert LastAllFailed(prior, n);
        if HardAmongLast(prior, n) {
          var i :| |prior| - n <= i < |prior| && EvidenceOf(prior[i]) == Hard;
          assert obs[i] == prior[i];
        }
        if HardAmongLast(obs, n + 1) && EvidenceOf(o) != Hard {
          var i :| |obs| - (n + 1) <= i < |obs| && EvidenceOf(obs[i]) == Hard;
          assert obs[i] == prior[i];
        }
        if EvidenceOf(o) == Hard { assert obs[|obs| - 1] == o; }
      }
  }

  lemma {:induction false} HealthyRunIsSuffix(log: Log, n: nat)
    ensures LastAllHealthy(Observations(log), n) <==> n <= HealthyRun(log)
  {
    match log
    case Start =>
    case DrainSet(before, _) => HealthyRunIsSuffix(before, n);
    case Observed(before, o) =>
      if n > 0 {
        HealthyRunIsSuffix(before, n - 1);
        var prior, obs := Observations(before), Observations(log);
        assert obs[|obs| - 1] == o;
        assert forall i | 0 <= i < |prior| :: obs[i] == prior[i];
      }
  }

  /** What counts as evidence, reading by reading. */
  lemma EvidenceMeaning(o: Observation)
    ensures EvidenceOf(o) == Healthy <==>
              o.probeOK && o.gpuVisible && o.gpuAccessible && !o.hardOfflineEvidence && !o.softFailure
    ensures EvidenceOf(o) == Hard <==> o.hardOfflineEvidence || !(o.gpuVisible || o.softFailure)
  {}

  // ------------------------------------------------------------------------------------------
  // OFFLINE means a failing suffix that is long enough or contains hard evidence

  lemma {:induction false} OfflineIffRun(cfg: Config, log: Log)
    ensures StateOf(cfg, log) == Offline <==> OfflineByRun(cfg, log)
  {
    match log
    case Start =>
    case DrainSet(before, _) => OfflineIffRun(cfg, before);
    case Observed(before, o) => OfflineIffRun(cfg, before);
  }

  lemma {:induction false} OfflineFacts(cfg: Config, log: Log)
    ensures StateOf(cfg, log) == Offline ==> EverOffline(cfg, log) && HealthyRun(log) == 0 && FailureRun(log) > 0
  {
    match log
    case Start =>
    case DrainSet(before, _) => OfflineFacts(cfg, before);
    case Observed(before, o) => OfflineFacts(cfg, before); OfflineIffRun(cfg, log);
  }

  lemma OfflineMeaning(cfg: Config, log: Log)
    ensures StateOf(cfg, log) == Offline <==>
            exists n: nat :: n > 0 && LastAllFailed(Observations(log), n)
                             && (n >= cfg.offlineFailures || HardAmongLast(Observations(log), n))
  {
    OfflineIffRun(cfg, log);
    FailureRunIsSuffix(log);
    var obs, run := Observations(log), FailureRun(log);
    if OfflineByRun(cfg, log) {
      assert run > 0 && LastAllFailed(obs, run);
    } else {
      forall n: nat | n > 0 && LastAllFailed(obs, n)
        ensures n < cfg.offlineFailures && !HardAmongLast(obs, n)
      {}
    }
  }

  // ------------------------------------------------------------------------------------------
  // Recovery cannot be bypassed

  predicate Earlier(a: Log, b: Log) {
    match b
    case Start => false
    case Observed(before, _) => a == before || Earlier(a, before)
    case DrainSet(before, _) => a == before || Earlier(a, before)
  }

  predicate UpTo(a: Log, b: Log) { a == b || Earlier(a, b) }

  /** `at` ends with the poll that released the device: hold elapsed, in nanoseconds, since the
      last OFFLINE -> RECOVERING poll and the last `recoveryStreak` polls all healthy. */
  ghost predicate Released(cfg: Config, at: Log) {
    && at.Observed?
    && StateOf(cfg, at.before) == Recovering
    && (at.o.mono - RecoveryEntry(cfg, at.before)) as real >= cfg.recoveringHoldSec * 1000000000.0
    && EvidenceOf(at.o) == Healthy
    && (cfg.recoveryStreak > 0 ==> LastAllHealthy(Observations(at), cfg.recoveryStreak))
  }

  /** Leaving RECOVERING for a serving state is exactly a release. */
  lemma ReleaseIff(cfg: Config, log: Log)
    requires log.Observed? && InRecovery(StateOf(cfg, log.before))
    ensures !InRecovery(StateOf(cfg, log)) <==> Released(cfg, log)
  {
    if cfg.recoveryStreak > 0 { HealthyRunIsSuffix(log, cfg.recoveryStreak); }
  }

  /** A device that was ever OFFLINE serves again only after a release in between. */
  lemma {:induction false} NoBypass(cfg: Config, down: Log, now: Log)
    requires StateOf(cfg, down) == Offline
    requires Earlier(down, now)
    requires !InRecovery(StateOf(cfg, now))
    ensures exists at: Log :: Earlier(down, at) && UpTo(at, now) && Released(cfg, at)
  {
    var before := now.before;
    if before != down && !InRecovery(StateOf(cfg, before)) {
      NoBypass(cfg, down, before);
      var at: Log :| Earlier(down, at) && UpTo(at, before) && Released(cfg, at);
      assert UpTo(at, now);
    } else {
      if now.Observed? { ReleaseIff(cfg, now); }
      assert Released(cfg, now) && UpTo(now, now);
    }
  }

  function Feed(log: Log, obs: seq<Observation>): Log {
    if obs == [] then log else Observed(Feed(log, obs[..|obs| - 1]), obs[|obs| - 1])
  }

  /** The hold counts from the last entry into RECOVERING, or from the poll that will be it. */
  function HoldStart(cfg: Config, log: Log, first: Observation): int {
    if StateOf(cfg, log) == Offline then first.mono else RecoveryEntry(cfg, log)
  }

  /** Healthy polls keep a device in RECOVERING, with its hold running, until it is released. */
  lemma {:induction false} HealthyPollsRecover(cfg: Config, log: Log, obs: seq<Observation>)
    requires InRecovery(StateOf(cfg, log)) && obs != []
    requires forall i | 0 <= i < |obs| :: EvidenceOf(obs[i]) == Healthy
    requires forall k | 0 < k <= |obs| :: InRecovery(StateOf(cfg, Feed(log, obs[..k])))
    ensures StateOf(cfg, Feed(log, obs)) == Recovering && HealthyRun(Feed(log, obs)) >= |obs|
    ensures RecoveryEntry(cfg, Feed(log, obs)) == HoldStart(cfg, log, obs[0])
  {
    assert obs[..|obs|] == obs;
    OfflineIffRun(cfg, Feed(log, obs));
    var front := obs[..|obs| - 1];
    if front != [] {
      forall k | 0 < k <= |front| ensures InRecovery(StateOf(cfg, Feed(log, front[..k]))) {
        assert front[..k] == obs[..k];
      }
      HealthyPollsRecover(cfg, log, front);
    }
  }

  /** Recovery is not a trap: two healthy polls in a row, as many as the streak asks for, the
      last of them past the hold, release the device. */
  lemma RecoveryCompletes(cfg: Config, log: Log, obs: seq<Observation>)
    requires InRecovery(StateOf(cfg, log))
    requires |obs| >= 2 && |obs| >= cfg.recoveryStreak
    requires forall i | 0 <= i < |obs| :: EvidenceOf(obs[i]) == Healthy
    requires HoldMet(cfg, HoldStart(cfg, log, obs[0]), obs[|obs| - 1].mono)
    ensures exists k :: 0 < k <= |obs| && !InRecovery(StateOf(cfg, Feed(log, obs[..k])))
  {
    var front := obs[..|obs| - 1];
    if forall k | 0 < k <= |front| :: InRecovery(StateOf(cfg, Feed(log, obs[..k]))) {
      forall k | 0 < k <= |front| ensures InRecovery(StateOf(cfg, Feed(log, front[..k]))) {
        assert front[..k] == obs[..k];
      }
      HealthyPollsRecover(cfg, log, front);
      assert obs[..|obs|] == obs;
      assert !InRecovery(StateOf(cfg, Feed(log, obs[..|obs|])));
    }
  }

  /** RECOVERING is only ever entered from OFFLINE, so every spell of RECOVERING has an entry poll. */
  lemma RecoveringComesFromOffline(cfg: Config, log: Log)
    requires log.Observed? && StateOf(cfg, log) == Recovering
    ensures InRecovery(StateOf(cfg, log.before))
    ensures StateOf(cfg, log.before) == Offline ==>
              EvidenceOf(log.o) == Healthy && RecoveryEntry(cfg, log) == log.o.mono
  {
    if StateOf(cfg, log.before) == Offline { OfflineIffRun(cfg, log.before); }
  }

  /** Outside recovery a lone soft failure degrades and the next good poll undoes it, and a
      drain request takes effect with the first healthy poll. */
  lemma ImmediateEdges(cfg: Config, log: Log, o: Observation)
    requires !InRecovery(StateOf(cfg, log))
    ensures EvidenceOf(o) == Soft && FailureRun(log) + 1 < cfg.offlineFailures ==>
              StateOf(cfg, Observed(log, o)) == Degraded
    ensures EvidenceOf(o) == Healthy && Drained(log) ==> StateOf(cfg, Observed(log, o)) == Draining
    ensures EvidenceOf(o) == Healthy && StateOf(cfg, log) == Degraded && !Drained(log) ==>
              StateOf(cfg, Observed(log, o)) == Classify(cfg, false, o)
  {
    OfflineIffRun(cfg, log);
  }

  // ------------------------------------------------------------------------------------------
  // Anti-flapping

  predicate Flip(a: State, b: State) { (a == Ready && b == Busy) || (a == Busy && b == Ready) }

  function Flips(cfg: Config, log: Log): nat {
    match log
    case Start => 0
    case DrainSet(before, _) => Flips(cfg, before)
    case Observed(before, _) =>
      Flips(cfg, before) + if Flip(StateOf(cfg, before), StateOf(cfg, log)) then 1 else 0
  }

  /** One observation with the drain flag it was made under. */
  datatype Poll = Poll(o: Observation, draining: bool)

  function Polls(log: Log): seq<Poll> {
    match log
    case Start => []
    case Observed(before, o) => Polls(before) + [Poll(o, Drained(before))]
    case DrainSet(before, _) => Polls(before)
  }

  ghost predicate LastAllClassify(cfg: Config, polls: seq<Poll>, n: nat, t: State) {
    && n <= |polls|
    && forall i | |polls| - n <= i < |polls| ::
         EvidenceOf(polls[i].o) == Healthy && Classify(cfg, polls[i].draining, polls[i].o) == t
  }

  lemma {:induction false} ClassRunIsSuffix(cfg: Config, log: Log, n: nat, t: State)
    ensures LastAllClassify(cfg, Polls(log), n, t) <==> n <= ClassRun(cfg, log, t)
  {
    match log
    case Start =>
    case DrainSet(before, _) => ClassRunIsSuffix(cfg, before, n, t);
    case Observed(before, o) =>
      if n > 0 {
        ClassRunIsSuffix(cfg, before, n - 1, t);
        var prior, polls := Polls(before), Polls(log);
        assert polls[|polls| - 1] == Poll(o, Drained(before));
        assert forall i | 0 <= i < |prior| :: polls[i] == prior[i];
      }
  }

  /** Becoming READY or BUSY, other than out of DEGRADED or recovery, is backed by the last
      `confirmSamples` observations: all healthy, each classified as the new state under the
      drain flag of its time. */
  lemma FlipIsConfirmed(cfg: Config, log: Log)
    requires log.Observed? && StateOf(cfg, log) != StateOf(cfg, log.before) && StateOf(cfg, log) in {Ready, Busy}
    requires !InRecovery(StateOf(cfg, log.before)) && StateOf(cfg, log.before) != Degraded
    ensures cfg.confirmSamples > 0 ==> LastAllClassify(cfg, Polls(log), cfg.confirmSamples, StateOf(cfg, log))
    ensures EvidenceOf(log.o) == Healthy
  {
    if cfg.confirmSamples > 0 { ClassRunIsSuffix(cfg, log, cfg.confirmSamples, StateOf(cfg, log)); }
  }

  /** And conversely: a serving device follows that many agreeing observations. */
  lemma {:induction false} AgreementFlips(cfg: Config, log: Log, t: State)
    requires log.Observed? && !InRecovery(StateOf(cfg, log.before))
    requires LastAllClassify(cfg, Polls(log), Needed(cfg), t)
    ensures StateOf(cfg, log) == t
  {
    ClassRunIsSuffix(cfg, log, Needed(cfg), t);
    OfflineIffRun(cfg, log);
  }

  /** At least the poll at hand. */
  function Needed(cfg: Config): nat { if cfg.confirmSamples < 1 then 1 else cfg.confirmSamples }

  // ------------------------------------------------------------------------------------------
  // What the serving states say about the readings

  predicate Degrading(cfg: Config, o: Observation) {
    o.stabilityScore < cfg.degradedScore || o.newUncorrErrors > 0
  }

  predicate AtCapacity(cfg: Config, o: Observation) {
    (o.utilSupported && o.utilPct >= cfg.busyUtilPct) || o.freeMemRatio <= cfg.busyMemRatio
  }

  /** The last polls, as many as a change needs, were healthy, undrained, stable and free of errors. */
  ghost predicate SoundOfLate(cfg: Config, polls: seq<Poll>) {
    && Needed(cfg) <= |polls|
    && forall i | |polls| - Needed(cfg) <= i < |polls| ::
         EvidenceOf(polls[i].o) == Healthy && !polls[i].draining && !Degrading(cfg, polls[i].o)
  }

  /** And all of them found the device at capacity, or all of them below. */
  ghost predicate LatelyAtCapacity(cfg: Config, polls: seq<Poll>, full: bool)
    requires Needed(cfg) <= |polls|
  {
    forall i | |polls| - Needed(cfg) <= i < |polls| :: AtCapacity(cfg, polls[i].o) == full
  }

  /** Outside recovery, sound polls that all found the device at capacity make it BUSY, and sound
      polls that all found it below make it READY. */
  lemma ServingMeaning(cfg: Config, log: Log, full: bool)
    requires log.Observed? && !InRecovery(StateOf(cfg, log.before))
    requires SoundOfLate(cfg, Polls(log)) && LatelyAtCapacity(cfg, Polls(log), full)
    ensures StateOf(cfg, log) == if full then Busy else Ready
  {
    AgreementFlips(cfg, log, if full then Busy else Ready);
  }

  /** Outside recovery a healthy poll leaves the device DEGRADED if and only if the device is not
      drained and that poll found it unstable or found new errors. */
  lemma DegradedMeaning(cfg: Config, log: Log)
    requires log.Observed? && !InRecovery(StateOf(cfg, log.before)) && EvidenceOf(log.o) == Healthy
    ensures StateOf(cfg, log) == Degraded <==> !Drained(log) && Degrading(cfg, log.o)
  {}

  /** A released device takes the state of the releasing poll at once. */
  lemma ReleasedInto(cfg: Config, log: Log)
    requires Released(cfg, log)
    ensures StateOf(cfg, log) ==
      if Drained(log) then Draining
      else if Degrading(cfg, log.o) then Degraded
      else if AtCapacity(cfg, log.o) then Busy
      else Ready
  {
    ReleaseIff(cfg, log);
  }

  /** Every flip costs `confirmSamples` polls of its own, and the polls already
      collected towards another state come on top. */
  lemma {:induction false} FlapBudget(cfg: Config, log: Log)
    ensures Flips(cfg, log) * cfg.confirmSamples <= |Observations(log)|
    ensures forall t: State | t != StateOf(cfg, log) && !InRecovery(StateOf(cfg, log)) ::
              Flips(cfg, log) * cfg.confirmSamples + ClassRun(cfg, log, t) <= |Observations(log)|
  {
    match log
    case Start =>
    case DrainSet(before, _) => FlapBudget(cfg, before);
    case Observed(before, o) =>
      FlapBudget(cfg, before);
      var s := StateOf(cfg, log);
      if Flip(StateOf(cfg, before), s) {
        assert ClassRun(cfg, log, s) >= cfg.confirmSamples;
        var k := Flips(cfg, before);
        assert (k + 1) * cfg.confirmSamples == k * cfg.confirmSamples + cfg.confirmSamples;
        assert k * cfg.confirmSamples + ClassRun(cfg, before, s) <= |Observations(before)|;
      }
  }
}
