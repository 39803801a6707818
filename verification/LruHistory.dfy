/** Explicit mode only stores and resets. Its bounded index is an LRU cache: as full as the cap
    allows, and never without a key observed more recently than one it holds. Where the clock
    separates observations that leaves one choice, the most recently observed distinct keys. */
module LruHistory {
  import opened IndexHistory
  import opened Sequences

  /** Logs of the explicit provider: stores of non-empty keys with positive counts and
      ever-growing sequence numbers, resets, and evictions. */
  predicate Explicit(log: Log) {
    match log
    case Empty => true
    case Stored(b, q, k, n, _) => Explicit(b) && k != "" && n > 0 && HighSeq(b) < q
    case WasReset(b) => Explicit(b)
    case Evicted(b, _) => Explicit(b)
    case _ => false
  }

  /** The provider's counter starts at zero and survives resets. */
  function HighSeq(log: Log): int {
    match log
    case Empty => 0
    case Stored(b, q, _, _, _) => if q > HighSeq(b) then q else HighSeq(b)
    case _ => HighSeq(log.before)
  }

  predicate ClockAdvances(log: Log) {
    match log
    case Empty => true
    case Stored(b, _, _, _, t) => ClockAdvances(b) && (LastUpdate(b).Some? ==> LastUpdate(b).value < t)
    case _ => ClockAdvances(log.before)
  }

  /** Keys observed since the last reset. Evictions do not matter. */
  function Observed(log: Log): set<Key> {
    match log
    case Stored(b, _, k, _, _) => Observed(b) + {k}
    case Evicted(b, _) => Observed(b)
    case _ => {}
  }

  datatype Observation = Observation(tokens: int, at: int)

  /** The latest observation of `k` since the last reset. */
  function Latest(log: Log, k: Key): Observation {
    match log
    case Stored(b, _, k', n, t) => if k' == k then Observation(n, t) else Latest(b, k)
    case Evicted(b, _) => Latest(b, k)
    case _ => Observation(0, 0)
  }

  /** Keys observed more recently than `k`. */
  function NewerThan(log: Log, k: Key): set<Key> {
    set j | j in Observed(log) && Latest(log, j).at > Latest(log, k).at
  }

  /** Is `k` one of the `max` most recently observed distinct keys? */
  predicate AmongNewest(max: nat, log: Log, k: Key) {
    k in Observed(log) && |NewerThan(log, k)| < max
  }

  /** Under the advancing clock no two keys were last observed at the same time. */
  lemma {:induction false} TimesDiffer(log: Log)
    requires Explicit(log) && ClockAdvances(log)
    ensures Observed(log) != {} ==> LastUpdate(log).Some?
    ensures forall k | k in Observed(log) :: Latest(log, k).at <= LastUpdate(log).value
    ensures forall j, k | j in Observed(log) && k in Observed(log) && j != k :: Latest(log, j).at != Latest(log, k).at
  {
    match log
    case Stored(b, _, _, _, _) => TimesDiffer(b);
    case Evicted(b, _) => TimesDiffer(b);
    case _ =>
  }

  /** What is held is the latest observation, and its sequence number is an old one. */
  lemma {:induction false} HeldIsLatest(log: Log, k: Key)
    requires Explicit(log) && k in Records(log)
    ensures k in Observed(log) && Records(log)[k].present
    ensures Observation(Records(log)[k].tokens, Records(log)[k].at) == Latest(log, k)
    ensures Records(log)[k].seqNo <= HighSeq(log)
  {
    if log.Stored? && log.key == k {
      if k in Records(log.before) { HeldIsLatest(log.before, k); }
    } else {
      HeldIsLatest(log.before, k);
    }
  }

  lemma {:induction false} NoEmptyKey(log: Log)
    requires Explicit(log)
    ensures "" !in Records(log)
  {
    if "" in Records(log) { NoEmptyKey(log.before); }
  }

  /** `held` is a choice of most recently observed keys: as many as the cap allows, and none of
      the others was observed later than any of them. */
  ghost predicate NewestChoice(max: nat, log: Log, held: set<Key>) {
    && held <= Observed(log)
    && |held| == Min(max, |Observed(log)|)
    && NoneNewerLeftOut(log, held)
  }

  ghost predicate NoneNewerLeftOut(log: Log, held: set<Key>) {
    forall h, o | h in held && o in Observed(log) && o !in held :: Latest(log, o).at <= Latest(log, h).at
  }

  lemma {:induction false} LastUpdateIsLatest(log: Log, k: Key)
    requires Explicit(log) && ClockNeverBack(log) && k in Observed(log)
    ensures LastUpdate(log).Some? && Latest(log, k).at <= LastUpdate(log).value
  {
    match log
    case Stored(b, _, _, _, _) => if k in Observed(b) { LastUpdateIsLatest(b, k); }
    case Evicted(b, _) => LastUpdateIsLatest(b, k);
  }

  lemma {:induction false} NoneNewer(max: nat, log: Log)
    requires Explicit(log) && ClockNeverBack(log) && Legal(max, log)
    ensures NoneNewerLeftOut(log, Records(log).Keys)
  {
    match log
    case Empty =>
    case WasReset(_) =>
    case Stored(b, _, _, _, _) =>
      NoneNewer(max, b);
      forall h, o | h in Records(log) && o in Observed(log) && o !in Records(log)
        ensures Latest(log, o).at <= Latest(log, h).at
      {
        LastUpdateIsLatest(b, o);
      }
    case Evicted(b, k) =>
      NoneNewer(max, b);
      forall h, o | h in Records(log) && o in Observed(log) && o !in Records(log)
        ensures Latest(log, o).at <= Latest(log, h).at
      {
        HeldIsLatest(b, h);
        HeldIsLatest(b, k);
      }
  }

  lemma GrowTogether(max: nat, held: set<Key>, seen: set<Key>, k: Key)
    requires held <= seen && |held| >= Min(max, |seen|)
    ensures |held + {k}| >= Min(max, |seen + {k}|)
  {
    if k in held { assert held + {k} == held && seen + {k} == seen; }
    if k in seen { assert seen + {k} == seen; }
  }

  /** Nothing is evicted without need. */
  lemma {:induction false} FullEnough(max: nat, log: Log)
    requires Explicit(log) && Legal(max, log)
    ensures |Records(log)| >= Min(max, |Observed(log)|)
  {
    match log
    case Empty =>
    case WasReset(_) =>
    case Stored(b, _, k, _, _) =>
      FullEnough(max, b);
      HeldAreObserved(b);
      SizeIsKeys(Records(b));
      GrowTogether(max, Records(b).Keys, Observed(b), k);
      assert Records(log).Keys == Records(b).Keys + {k};
      SizeIsKeys(Records(log));
    case Evicted(b, _) => SizeAfterEviction(log);
  }

  lemma HeldAreObserved(log: Log)
    requires Explicit(log)
    ensures Records(log).Keys <= Observed(log)
  {
    forall k | k in Records(log) ensures k in Observed(log) { HeldIsLatest(log, k); }
  }

  /** The LRU law on any clock that never goes back, ties included. */
  lemma {:induction false} HoldsANewestChoice(max: nat, log: Log)
    requires Explicit(log) && ClockNeverBack(log) && Legal(max, log) && Rested(max, log)
    ensures NewestChoice(max, log, Records(log).Keys)
  {
    NoneNewer(max, log);
    FullEnough(max, log);
    RestedExplicit(max, log);
    HeldAreObserved(log);
    SubsetSize(Records(log).Keys, Observed(log));
    SizeIsKeys(Records(log));
  }

  lemma RestedExplicit(max: nat, log: Log)
    requires Explicit(log) && Rested(max, log)
    ensures |Records(log)| <= max
  {
    NoEmptyKey(log);
  }

  lemma {:induction false} AdvancingNeverBack(log: Log)
    requires Explicit(log) && ClockAdvances(log)
    ensures ClockNeverBack(log)
  {
    if !log.Empty? { AdvancingNeverBack(log.before); }
  }

  /** On an advancing clock the choice is forced: the index holds exactly the `max` most
      recently observed distinct keys since the last reset, each with its latest count. */
  lemma {:induction false} HoldsTheNewest(max: nat, log: Log)
    requires Explicit(log) && ClockAdvances(log) && Legal(max, log) && Rested(max, log)
    ensures forall k :: k in Records(log) <==> AmongNewest(max, log, k)
    ensures forall k | k in Records(log) :: Records(log)[k].present && Records(log)[k].tokens == Latest(log, k).tokens
  {
    AdvancingNeverBack(log);
    HoldsANewestChoice(max, log);
    TimesDiffer(log);
    forall k ensures k in Records(log) <==> AmongNewest(max, log, k) {
      if k in Observed(log) { ChoiceIsForced(max, log, Records(log).Keys, k); }
    }
    forall k | k in Records(log) ensures Records(log)[k].present && Records(log)[k].tokens == Latest(log, k).tokens {
      HeldIsLatest(log, k);
    }
  }

  lemma {:induction false} ChoiceIsForced(max: nat, log: Log, held: set<Key>, k: Key)
    requires NewestChoice(max, log, held) && k in Observed(log)
    requires forall j | j in Observed(log) && j != k :: Latest(log, j).at != Latest(log, k).at
    ensures k in held <==> AmongNewest(max, log, k)
  {
    if k in held {
      SubsetSize(NewerThan(log, k), held - {k});
    } else {
      SubsetSize(held, Observed(log));
      SubsetSize(held, NewerThan(log, k));
    }
  }

  /** No entry is evicted while one observed earlier is held; on an advancing clock the victim
      is the least recently observed of all. */
  lemma VictimIsOldest(max: nat, log: Log)
    requires log.Evicted? && Legal(max, log) && Explicit(log)
    ensures var b := log.before;
      && log.key in Records(b)
      && (forall j | j in Records(b) :: Latest(b, log.key).at <= Latest(b, j).at)
      && (ClockAdvances(log) ==> forall j | j in Records(b) && j != log.key :: Latest(b, log.key).at < Latest(b, j).at)
  {
    var b := log.before;
    forall j | j in Records(b) ensures j in Observed(b) && Latest(b, j).at == Records(b)[j].at { HeldIsLatest(b, j); }
    if ClockAdvances(log) { TimesDiffer(b); }
  }

  /** The key just stored may be the one evicted if and only if every entry held has its time. */
  lemma NewestGoesIffTied(max: nat, store: Log)
    requires store.Stored? && Explicit(store) && ClockNeverBack(store) && Legal(max, store) && |Records(store)| > max
    ensures Legal(max, Evicted(store, store.key)) <==>
              forall h | h in Records(store) :: Records(store)[h].at == store.at
  {
    HeldIsLatest(store, store.key);
    forall h | h in Records(store) ensures Records(store)[h].at <= store.at {
      HeldIsLatest(store, h);
      LastUpdateIsLatest(store, h);
    }
  }

  /** On a clock that stands still even the newest key may be the one to go. */
  lemma TieMayEvictNewest()
    ensures var log := Evicted(Stored(Stored(Empty, 1, "a", 1, 0), 2, "b", 1, 0), "b");
      Explicit(log) && Legal(1, log) && "b" !in Records(log) && Latest(log, "b") == Observation(1, 0)
  {
    assert Records(Stored(Empty, 1, "a", 1, 0)) == map["a" := Entry(1, true, 1, 0)];
    assert Records(Stored(Stored(Empty, 1, "a", 1, 0), 2, "b", 1, 0))
        == map["a" := Entry(1, true, 1, 0), "b" := Entry(1, true, 2, 0)];
  }
}
