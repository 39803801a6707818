/** The lifecycle machine as it runs: counters, a pending state and a recovery latch,
    updated in place once per poll. The ghost log records what the machine was told;
    `Valid` says every field is the corresponding function of that log. */
module Lifecycle {
  import opened LifecycleHistory

  /** The pending pair is the length of the trailing run towards any other state. */
  ghost predicate PendingIsRun(cfg: Config, log: Log, state: State, pending: State, pendingCount: nat) {
    forall t: State | t != state :: ClassRun(cfg, log, t) == if pending == t then pendingCount else 0
  }

  class LifecycleMachine {
    const cfg: Config
    var state: State
    var pending: State
    var pendingCount: nat
    var draining: bool
    var softFailures: nat
    var healthyStreak: nat
    var recoveryLatched: bool
    var recoveryStartedAt: int
    var recoveryHealthyStreak: nat
    var hasBeenOffline: bool
    ghost var log: Log

    ghost predicate Valid()
      reads this
    {
      && state == StateOf(cfg, log)
      && draining == Drained(log)
      && healthyStreak == HealthyRun(log)
      && (!HardInRun(log) ==> softFailures == FailureRun(log))
      && recoveryLatched == InRecovery(state)
      && (recoveryLatched ==> recoveryHealthyStreak == healthyStreak)
      && recoveryStartedAt == RecoveryEntry(cfg, log)
      && hasBeenOffline == EverOffline(cfg, log)
      && (!recoveryLatched ==> PendingIsRun(cfg, log, state, pending, pendingCount))
    }

    constructor (cfg: Config)
      ensures Valid() && log == Start && this.cfg == cfg
    {
      this.cfg := cfg;
      state, pending, pendingCount := Unknown, Unknown, 0;
      draining, softFailures, healthyStreak := false, 0, 0;
      recoveryLatched, hasBeenOffline := false, false;
      recoveryStartedAt, recoveryHealthyStreak := 0, 0;
      log := Start;
    }

    /** Sets the drain flag and reports the state and whether the flag changed. */
    method SetDrainingChecked(d: bool) returns (prevState: State, changed: bool)
      requires Valid()
      modifies this
      ensures Valid() && log == DrainSet(old(log), d)
      ensures prevState == state == StateOf(cfg, old(log))
      ensures changed <==> Drained(old(log)) != d
    {
      prevState := state;
      changed := draining != d;
      if changed {
        draining := d;
      }
      log := DrainSet(log, d);
    }

    method Step(o: Observation) returns (newState: State, transitioned: bool)
      requires Valid()
      modifies this
      ensures Valid() && log == Observed(old(log), o)
      ensures newState == StateOf(cfg, log)
      ensures transitioned <==> StateOf(cfg, log) != StateOf(cfg, old(log))
    {
      OfflineIffRun(cfg, log);
      OfflineFacts(cfg, log);
      var prev := state;
      var hard := o.hardOfflineEvidence || (!o.gpuVisible && !o.softFailure);
      var soft := !hard && (o.softFailure || !o.gpuAccessible || !o.probeOK);
      if hard {
        GoOffline(o, 0);
      } else if soft {
        if softFailures + 1 >= cfg.offlineFailures {
          GoOffline(o, softFailures + 1);
        } else {
          StaySoft(o);
        }
      } else if state == Offline {
        BeginRecovery(o);
      } else if recoveryLatched {
        ContinueRecovery(o);
      } else {
        StepServing(o);
      }
      newState := state;
      transitioned := prev != state;
    }

    /** Hard evidence, or the soft failure that reaches the threshold. */
    method GoOffline(o: Observation, failures: nat)
      requires Valid() && EvidenceOf(o) != Healthy
      requires OfflineByRun(cfg, Observed(log, o))
      requires !HardInRun(Observed(log, o)) ==> failures == FailureRun(log) + 1
      requires state == Offline ==> hasBeenOffline
      modifies this
      ensures Valid() && log == Observed(old(log), o)
      ensures state == Offline
    {
      ghost var next := Observed(log, o);
      assert StateOf(cfg, next) == Offline && EverOffline(cfg, next);
      assert RecoveryEntry(cfg, next) == RecoveryEntry(cfg, log);
      assert Drained(next) == Drained(log) && HealthyRun(next) == 0 && FailureRun(next) == FailureRun(log) + 1;
      if state != Offline {
        hasBeenOffline := true;
      }
      assert hasBeenOffline;
      softFailures, healthyStreak, recoveryHealthyStreak := failures, 0, 0;
      recoveryLatched := true;
      state, pending, pendingCount := Offline, Offline, 0;
      log := next;
    }

    /** A soft failure below the threshold: OFFLINE and RECOVERING stay, the rest degrades. */
    method StaySoft(o: Observation)
      requires Valid() && EvidenceOf(o) == Soft
      requires softFailures + 1 < cfg.offlineFailures
      requires state == Offline <==> OfflineByRun(cfg, log)
      requires state == Offline ==> hasBeenOffline
      modifies this
      ensures Valid() && log == Observed(old(log), o)
    {
      softFailures := softFailures + 1;
      healthyStreak, recoveryHealthyStreak := 0, 0;
      if state != Offline {
        if recoveryLatched {
          state := Recovering;
        } else {
          state, pending, pendingCount := Degraded, Degraded, 0;
        }
      }
      log := Observed(log, o);
    }

    method BeginRecovery(o: Observation)
      requires Valid() && EvidenceOf(o) == Healthy && state == Offline
      requires healthyStreak == 0 && hasBeenOffline
      modifies this
      ensures Valid() && log == Observed(old(log), o)
    {
      softFailures := 0;
      healthyStreak := healthyStreak + 1;
      state := Recovering;
      recoveryStartedAt := o.mono;
      recoveryHealthyStreak := 1;
      pending, pendingCount := Recovering, 0;
      log := Observed(log, o);
    }

    /** Latched: stay RECOVERING until hold and streak are both met. */
    method ContinueRecovery(o: Observation)
      requires Valid() && EvidenceOf(o) == Healthy && state == Recovering
      modifies this
      ensures Valid() && log == Observed(old(log), o)
    {
      softFailures := 0;
      healthyStreak := healthyStreak + 1;
      recoveryHealthyStreak := recoveryHealthyStreak + 1;
      var target := Classify(cfg, draining, o);
      if HoldMet(cfg, recoveryStartedAt, o.mono) && recoveryHealthyStreak >= cfg.recoveryStreak {
        recoveryLatched := false;
        state := target;
        pending, pendingCount := target, 0;
      } else {
        state := Recovering;
      }
      log := Observed(log, o);
    }

    /** Not latched: hysteresis between the healthy states. */
    method StepServing(o: Observation)
      requires Valid() && EvidenceOf(o) == Healthy && !InRecovery(state)
      modifies this
      ensures Valid() && log == Observed(old(log), o)
    {
      softFailures := 0;
      healthyStreak := healthyStreak + 1;
      var target := Classify(cfg, draining, o);
      if target == state {
        pending, pendingCount := target, 0;
      } else if state == Degraded && (target == Ready || target == Busy) {
        state := target;
        pending, pendingCount := target, 0;
      } else {
        assert ClassRun(cfg, log, target) == if pending == target then pendingCount else 0;
        if target == pending {
          pendingCount := pendingCount + 1;
        } else {
          pending, pendingCount := target, 1;
        }
        var need := cfg.confirmSamples;
        if target == Degraded || target == Draining {
          need := 1;
        }
        if pendingCount >= need {
          state := target;
          pendingCount := 0;
        }
      }
      log := Observed(log, o);
    }
  }
}
