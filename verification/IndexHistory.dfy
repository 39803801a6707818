/** The prefix index read as a function of the events applied to it. `Records` is the map
    those events describe; evictions are events too, so dropping them from the log gives
    the index an unbounded memory would hold. */
module IndexHistory {
  import opened Sequences

  type Key = string

  /** Metadata of one prefix. A removed prefix stays as an entry that is not present. */
  datatype Entry = Entry(tokens: int, present: bool, seqNo: int, at: int)

  datatype Log =
    | Empty
    | Stored(before: Log, seqNo: int, key: Key, tokens: int, at: int)
    | Removed(before: Log, seqNo: int, key: Key, at: int)
    | Cleared(before: Log, seqNo: int, at: int)
    | WasReset(before: Log)
    | Evicted(before: Log, key: Key)

  /** A store repeated with the sequence number already recorded is a duplicate. */
  predicate IsDuplicate(m: map<Key, Entry>, k: Key, seqNo: int) {
    k in m && m[k].present && m[k].seqNo == seqNo
  }

  /** A store that claims no tokens keeps the count on record. */
  function AfterStore(m: map<Key, Entry>, k: Key, seqNo: int, tokens: int, at: int): map<Key, Entry> {
    if IsDuplicate(m, k, seqNo) then m
    else m[k := Entry(if tokens <= 0 && k in m then m[k].tokens else tokens, true, seqNo, at)]
  }

  function Records(log: Log): map<Key, Entry> {
    match log
    case Empty => map[]
    case Stored(b, q, k, n, t) => AfterStore(Records(b), k, q, n, t)
    case Removed(b, q, k, t) =>
      var m := Records(b);
      if k in m then m[k := m[k].(present := false, seqNo := q, at := t)] else m
    case Cleared(_, _, _) => map[]
    case WasReset(_) => map[]
    case Evicted(b, k) => Records(b) - {k}
  }

  ghost predicate Oldest(m: map<Key, Entry>, k: Key) {
    k in m && forall j | j in m :: m[k].at <= m[j].at
  }

  /** Eviction is over: within the cap, or holding the one key it never removes. */
  predicate Rested(max: nat, log: Log) { |Records(log)| <= max || "" in Records(log) }

  /** The logs an index with this cap can produce: a new key may push out oldest entries,
      one at a time, and the next event finds eviction over. */
  ghost predicate Legal(max: nat, log: Log) {
    match log
    case Empty => true
    case Evicted(b, k) =>
      Legal(max, b) && (b.Stored? || b.Evicted?) && |Records(b)| > max && k != "" && Oldest(Records(b), k)
    case _ => Legal(max, log.before) && Rested(max, log.before)
  }

  // ------------------------------------------------------------------------------------------
  // Freshness and sequence numbers

  /** Time of the last event since the last reset. */
  function LastUpdate(log: Log): Option<int> {
    match log
    case Empty => None
    case Stored(_, _, _, _, t) => Some(t)
    case Removed(_, _, _, t) => Some(t)
    case Cleared(_, _, t) => Some(t)
    case WasReset(_) => None
    case Evicted(b, _) => LastUpdate(b)
  }

  predicate ClockNeverBack(log: Log) {
    match log
    case Empty => true
    case WasReset(b) => ClockNeverBack(b)
    case Evicted(b, _) => ClockNeverBack(b)
    case _ => ClockNeverBack(log.before) && (LastUpdate(log.before).Some? ==> LastUpdate(log.before).value <= log.at)
  }

  predicate HasSeq(log: Log) { log.Stored? || log.Removed? || log.Cleared? }

  /** Some event since the last reset was at `t`. */
  predicate EventAt(log: Log, t: int) {
    match log
    case Empty => false
    case WasReset(_) => false
    case Evicted(b, _) => EventAt(b, t)
    case _ => log.at == t || EventAt(log.before, t)
  }

  /** The time on record is that of an event, and on a clock that never goes back of the newest. */
  lemma {:induction false} LastUpdateMeaning(log: Log, t: int)
    ensures LastUpdate(log).Some? ==> EventAt(log, LastUpdate(log).value)
    ensures EventAt(log, t) ==> LastUpdate(log).Some? && (ClockNeverBack(log) ==> t <= LastUpdate(log).value)
  {
    if !log.Empty? { LastUpdateMeaning(log.before, t); }
  }

  /** The highest sequence number since the last reset. */
  function MaxSeq(log: Log): Option<int> {
    match log
    case Empty => None
    case WasReset(_) => None
    case Evicted(b, _) => MaxSeq(b)
    case _ =>
      match MaxSeq(log.before)
      case None => Some(log.seqNo)
      case Some(m) => Some(if log.seqNo > m then log.seqNo else m)
  }

  function FirstSeq(log: Log): Option<int> {
    match log
    case Empty => None
    case WasReset(_) => None
    case Evicted(b, _) => FirstSeq(b)
    case _ => if FirstSeq(log.before) == None then Some(log.seqNo) else FirstSeq(log.before)
  }

  /** Events that skipped ahead of the highest number by more than one batch. */
  function Gaps(log: Log): nat {
    match log
    case Empty => 0
    case WasReset(b) => Gaps(b)
    case Evicted(b, _) => Gaps(b)
    case _ => Gaps(log.before) + if Skips(log.before, log.seqNo) then 1 else 0
  }

  predicate Skips(log: Log, q: int) { MaxSeq(log).Some? && q > MaxSeq(log).value + 1 }

  /** A tracker's fields say what the log does. */
  predicate Tracks(haveSeq: bool, lastSeq: int, gaps: nat, log: Log) {
    MaxSeq(log) == (if haveSeq then Some(lastSeq) else None) && gaps == Gaps(log)
  }

  predicate GapSinceReset(log: Log) {
    match log
    case Empty => false
    case WasReset(_) => false
    case Evicted(b, _) => GapSinceReset(b)
    case _ => GapSinceReset(log.before) || Skips(log.before, log.seqNo)
  }

  predicate Seen(log: Log, q: int) {
    match log
    case Empty => false
    case WasReset(_) => false
    case Evicted(b, _) => Seen(b, q)
    case _ => log.seqNo == q || Seen(log.before, q)
  }

  /** Without a gap no batch was missed: every number from the first to the highest arrived. */
  lemma {:induction false} NoGapNoLoss(log: Log, q: int)
    requires !GapSinceReset(log) && MaxSeq(log).Some?
    ensures FirstSeq(log).Some?
    ensures FirstSeq(log).value <= q <= MaxSeq(log).value ==> Seen(log, q)
  {
    if HasSeq(log) {
      if MaxSeq(log.before).Some? { NoGapNoLoss(log.before, q); } else { FirstIffMax(log.before); }
    } else {
      NoGapNoLoss(log.before, q);
    }
  }

  lemma {:induction false} FirstIffMax(log: Log)
    ensures FirstSeq(log).None? <==> MaxSeq(log).None?
  {
    if !log.Empty? { FirstIffMax(log.before); }
  }

  /** A gap is never a false alarm: the number after the highest had not arrived. */
  lemma {:induction false} GapIsReal(log: Log, q: int)
    requires MaxSeq(log).Some?
    ensures Seen(log, q) ==> q <= MaxSeq(log).value
  {
    if HasSeq(log) {
      if MaxSeq(log.before).Some? { GapIsReal(log.before, q); } else { NothingSeen(log.before, q); }
    } else {
      GapIsReal(log.before, q);
    }
  }

  lemma {:induction false} HighestWasSeen(log: Log)
    requires MaxSeq(log).Some?
    ensures Seen(log, MaxSeq(log).value)
  {
    if HasSeq(log) {
      if MaxSeq(log.before).Some? { HighestWasSeen(log.before); }
    } else {
      HighestWasSeen(log.before);
    }
  }

  /** The last event came after others, and its number is not even next to any of theirs. */
  ghost predicate SkippedAhead(log: Log) {
    && HasSeq(log)
    && (exists p :: Seen(log.before, p))
    && (forall p | Seen(log.before, p) :: p + 1 < log.seqNo)
  }

  ghost function SkippingEvents(log: Log): nat {
    if log.Empty? then 0 else SkippingEvents(log.before) + if SkippedAhead(log) then 1 else 0
  }

  /** The gap count is the number of events that skipped ahead of everything since the reset. */
  lemma {:induction false} GapsAreSkips(log: Log)
    ensures Gaps(log) == SkippingEvents(log)
  {
    if !log.Empty? {
      GapsAreSkips(log.before);
      if HasSeq(log) { SkipMeaning(log); }
    }
  }

  lemma SkipMeaning(log: Log)
    requires HasSeq(log)
    ensures Skips(log.before, log.seqNo) <==> SkippedAhead(log)
  {
    var b := log.before;
    if MaxSeq(b).Some? {
      HighestWasSeen(b);
      forall p ensures Seen(b, p) ==> p <= MaxSeq(b).value { GapIsReal(b, p); }
    } else {
      forall p ensures !Seen(b, p) { NothingSeen(b, p); }
    }
  }

  lemma {:induction false} NothingSeen(log: Log, q: int)
    requires MaxSeq(log).None?
    ensures !Seen(log, q)
  {
    if log.Evicted? { NothingSeen(log.before, q); }
  }

  // ------------------------------------------------------------------------------------------
  // Answers

  datatype Config = Config(maxEntries: nat, entryTTL: int, staleAfter: int)

  /** Ten minutes for an entry, half a minute for the index, in nanoseconds. */
  const DEFAULT_CONFIG := Config(100000, 600000000000, 30000000000)

  predicate Stale(cfg: Config, last: Option<int>, now: int) {
    cfg.staleAfter > 0 && (last.None? || now - last.value > cfg.staleAfter)
  }

  predicate Live(cfg: Config, e: Entry, now: int) {
    e.present && (cfg.entryTTL <= 0 || now - e.at <= cfg.entryTTL)
  }

  /** The tokens LookupKey reports. */
  function Lookup(cfg: Config, m: map<Key, Entry>, last: Option<int>, k: Key, now: int): int {
    if Stale(cfg, last, now) then 0
    else if k in m && Live(cfg, m[k], now) then m[k].tokens
    else 0
  }

  function Answer(cfg: Config, log: Log, k: Key, now: int): int {
    Lookup(cfg, Records(log), LastUpdate(log), k, now)
  }

  /** Some store of `k` for `n` tokens at `t`, not a redelivered one, is not followed by a
      remove of `k`, a clear or a reset. */
  predicate LiveStore(log: Log, k: Key, n: int, t: int) {
    match log
    case Empty => false
    case Stored(b, q, k', n', t') =>
      (k' == k && n' == n && t' == t && !IsDuplicate(Records(b), k, q)) || LiveStore(b, k, n, t)
    case Removed(b, _, k', _) => k' != k && LiveStore(b, k, n, t)
    case Cleared(_, _, _) => false
    case WasReset(_) => false
    case Evicted(b, _) => LiveStore(b, k, n, t)
  }

  /** Some store of `k` for `n` tokens since the last clear or reset. */
  predicate StoredSomeTime(log: Log, k: Key, n: int) {
    match log
    case Empty => false
    case Stored(b, _, k', n', _) => (k' == k && n' == n) || StoredSomeTime(b, k, n)
    case Cleared(_, _, _) => false
    case WasReset(_) => false
    case _ => StoredSomeTime(log.before, k, n)
  }

  predicate PositiveStores(log: Log) {
    match log
    case Empty => true
    case Stored(b, _, _, n, _) => n > 0 && PositiveStores(b)
    case _ => PositiveStores(log.before)
  }

  /** Every present entry has a live store that wrote its time, and its count was stored. */
  lemma {:induction false} EntryHasStore(log: Log, k: Key) returns (n: int)
    requires k in Records(log)
    ensures StoredSomeTime(log, k, Records(log)[k].tokens)
    ensures Records(log)[k].present ==>
              LiveStore(log, k, n, Records(log)[k].at) && (n > 0 ==> n == Records(log)[k].tokens)
    ensures PositiveStores(log) && Records(log)[k].present ==> n > 0
  {
    var m := Records(log.before);
    if log.Stored? && log.key == k && !IsDuplicate(m, k, log.seqNo) {
      n := log.tokens;
      if k in m { var _ := EntryHasStore(log.before, k); }
    } else {
      n := EntryHasStore(log.before, k);
    }
  }

  /** Is some live store of `k` for exactly `n` tokens? */
  ghost predicate StoredFor(log: Log, k: Key, n: int) { exists t :: LiveStore(log, k, n, t) }

  /** Does some live store of `k` claim tokens at all? */
  ghost predicate StoredPositive(log: Log, k: Key) { exists n :: n > 0 && StoredFor(log, k, n) }

  /** The same inside the TTL. */
  ghost predicate FreshFor(cfg: Config, log: Log, k: Key, n: int, now: int) {
    exists t :: LiveStore(log, k, n, t) && (cfg.entryTTL > 0 ==> now - t <= cfg.entryTTL)
  }

  ghost predicate FreshPositive(cfg: Config, log: Log, k: Key, now: int) {
    exists n :: n > 0 && FreshFor(cfg, log, k, n, now)
  }

  lemma {:induction false} StoresArePast(log: Log, k: Key, n: int, t: int)
    requires ClockNeverBack(log) && LiveStore(log, k, n, t)
    ensures LastUpdate(log).Some? && t <= LastUpdate(log).value
  {
    if LiveStore(log.before, k, n, t) { StoresArePast(log.before, k, n, t); }
  }

  lemma {:induction false} AbsentHasNoStore(log: Log, k: Key, n: int, t: int)
    requires k in Records(log) && !Records(log)[k].present
    ensures !LiveStore(log, k, n, t)
  {
    if !(log.Removed? && log.key == k) { AbsentHasNoStore(log.before, k, n, t); }
  }

  /** A live store that claimed tokens leaves a live store of exactly the count on record, and
      no earlier one. */
  lemma {:induction false} CountWasStored(log: Log, k: Key, n: int, t: int) returns (t': int)
    requires k in Records(log) && LiveStore(log, k, n, t) && n > 0
    ensures LiveStore(log, k, Records(log)[k].tokens, t') && (ClockNeverBack(log) ==> t <= t')
  {
    if log.Stored? && log.key == k && !IsDuplicate(Records(log.before), k, log.seqNo) {
      if log.tokens > 0 || k !in Records(log.before) {
        t' := log.at;
        if ClockNeverBack(log) { StoresArePast(log, k, n, t); }
      } else {
        t' := CountWasStored(log.before, k, n, t);
      }
    } else {
      t' := CountWasStored(log.before, k, n, t);
    }
  }

  /** A reported match is never invented: behind it is a store inside the TTL that no remove,
      clear or reset followed. Some live store is for exactly the reported number of tokens if
      and only if some live store claimed tokens at all; and on a clock that never goes back the
      same is true of those inside the TTL. */
  lemma NoInventedHit(cfg: Config, log: Log, k: Key, now: int)
    requires Answer(cfg, log, k, now) > 0
    ensures exists n, t :: LiveStore(log, k, n, t) && (cfg.entryTTL > 0 ==> now - t <= cfg.entryTTL)
              && (n > 0 || PositiveStores(log) ==> n == Answer(cfg, log, k, now))
    ensures StoredFor(log, k, Answer(cfg, log, k, now)) <==> StoredPositive(log, k)
    ensures ClockNeverBack(log) ==>
              (FreshFor(cfg, log, k, Answer(cfg, log, k, now), now) <==> FreshPositive(cfg, log, k, now))
    ensures StoredSomeTime(log, k, Answer(cfg, log, k, now))
  {
    var n := EntryHasStore(log, k);
    assert LiveStore(log, k, n, Records(log)[k].at);
    if StoredPositive(log, k) {
      var p :| p > 0 && StoredFor(log, k, p);
      var t :| LiveStore(log, k, p, t);
      var t' := CountWasStored(log, k, p, t);
    }
    if FreshPositive(cfg, log, k, now) {
      var p :| p > 0 && FreshFor(cfg, log, k, p, now);
      var t :| LiveStore(log, k, p, t) && (cfg.entryTTL > 0 ==> now - t <= cfg.entryTTL);
      var t' := CountWasStored(log, k, p, t);
    }
  }

  /** A live store of a held key is on record, or a later one is. */
  lemma {:induction false} LiveStoreOnRecord(log: Log, k: Key, n: int, t: int)
    requires PositiveStores(log) && ClockNeverBack(log) && k in Records(log) && LiveStore(log, k, n, t)
    ensures Records(log)[k].present && Records(log)[k].tokens > 0 && t <= Records(log)[k].at && n > 0
  {
    if log.Stored? && log.key == k && !IsDuplicate(Records(log.before), k, log.seqNo) {
      StoresArePast(log, k, n, t);
      if LiveStore(log.before, k, n, t) { PositiveStore(log.before, k, n, t); }
    } else {
      LiveStoreOnRecord(log.before, k, n, t);
    }
  }

  lemma {:induction false} PositiveStore(log: Log, k: Key, n: int, t: int)
    requires PositiveStores(log) && LiveStore(log, k, n, t)
    ensures n > 0
  {
    if LiveStore(log.before, k, n, t) { PositiveStore(log.before, k, n, t); }
  }

  lemma {:induction false} HeldUnlessEvicted(log: Log, k: Key, n: int, t: int)
    requires LiveStore(log, k, n, t) && !EvictedRecently(log, k)
    ensures k in Records(log)
  {
    if !(log.Stored? && log.key == k) { HeldUnlessEvicted(log.before, k, n, t); }
  }

  /** The last event is recent enough for the index to answer at all. */
  predicate Current(cfg: Config, last: Option<int>, now: int) {
    cfg.staleAfter <= 0 || (last.Some? && now <= last.value + cfg.staleAfter)
  }

  /** When the index does report a match, if stores claim tokens and the clock never goes back:
      exactly if it is current, still holds the key, and the key has a live store inside the
      TTL. A key that was not evicted is still held. */
  lemma HitIff(cfg: Config, log: Log, k: Key, now: int)
    requires PositiveStores(log) && ClockNeverBack(log)
    ensures Answer(cfg, log, k, now) > 0 <==>
              Current(cfg, LastUpdate(log), now) && k in Records(log) && FreshPositive(cfg, log, k, now)
    ensures !EvictedRecently(log, k) ==>
              (Answer(cfg, log, k, now) > 0 <==> Current(cfg, LastUpdate(log), now) && FreshPositive(cfg, log, k, now))
    ensures Answer(cfg, log, k, now) >= 0
  {
    if k in Records(log) { var n := EntryHasStore(log, k); }
    if Answer(cfg, log, k, now) > 0 {
      NoInventedHit(cfg, log, k, now);
      var n, t :| LiveStore(log, k, n, t) && (cfg.entryTTL > 0 ==> now - t <= cfg.entryTTL)
                  && (n > 0 || PositiveStores(log) ==> n == Answer(cfg, log, k, now));
      assert FreshFor(cfg, log, k, n, now);
    }
    if FreshPositive(cfg, log, k, now) {
      var n :| n > 0 && FreshFor(cfg, log, k, n, now);
      var t :| LiveStore(log, k, n, t) && (cfg.entryTTL > 0 ==> now - t <= cfg.entryTTL);
      if k in Records(log) { LiveStoreOnRecord(log, k, n, t); }
      if !EvictedRecently(log, k) { HeldUnlessEvicted(log, k, n, t); }
    }
  }

  /** The other case: a store of no tokens revives a removed count. */
  lemma ZeroStoreRevives(cfg: Config)
    requires cfg.staleAfter <= 0 && cfg.entryTTL <= 0
    ensures var log := Stored(Removed(Stored(Empty, 1, "k", 10, 0), 2, "k", 1), 3, "k", 0, 2);
      Answer(cfg, log, "k", 2) == 10 && !StoredFor(log, "k", 10) && !StoredPositive(log, "k")
  {
    var log1 := Stored(Empty, 1, "k", 10, 0);
    assert Records(log1) == map["k" := Entry(10, true, 1, 0)];
    var log2 := Removed(log1, 2, "k", 1);
    assert Records(log2) == map["k" := Entry(10, false, 2, 1)];
    var log3 := Stored(log2, 3, "k", 0, 2);
    assert forall n, t :: !LiveStore(log2, "k", n, t);
    assert forall n, t :: LiveStore(log3, "k", n, t) ==> n == 0;
  }

  // ------------------------------------------------------------------------------------------
  // Against an unbounded index

  function Unbounded(log: Log): Log {
    match log
    case Empty => Empty
    case Stored(b, q, k, n, t) => Stored(Unbounded(b), q, k, n, t)
    case Removed(b, q, k, t) => Removed(Unbounded(b), q, k, t)
    case Cleared(b, q, t) => Cleared(Unbounded(b), q, t)
    case WasReset(b) => WasReset(Unbounded(b))
    case Evicted(b, _) => Unbounded(b)
  }

  /** Was `k` evicted since the last clear or reset? */
  predicate EvictedRecently(log: Log, k: Key) {
    match log
    case Empty => false
    case Cleared(_, _, _) => false
    case WasReset(_) => false
    case Evicted(b, k') => k' == k || EvictedRecently(b, k)
    case _ => EvictedRecently(log.before, k)
  }

  /** Every eviction there ever was. */
  function Evictions(log: Log): nat {
    match log
    case Empty => 0
    case Evicted(b, _) => Evictions(b) + 1
    case _ => Evictions(log.before)
  }

  lemma {:induction false} NoEvictionsAtAll(log: Log, k: Key)
    requires Evictions(log) == 0
    ensures !EvictedRecently(log, k)
  {
    if !log.Empty? { NoEvictionsAtAll(log.before, k); }
  }

  lemma {:induction false} SameFreshness(log: Log)
    ensures LastUpdate(Unbounded(log)) == LastUpdate(log)
  {
    if log.Evicted? { SameFreshness(log.before); }
  }

  lemma {:induction false} SameUnlessEvicted(log: Log, k: Key)
    requires !EvictedRecently(log, k)
    ensures k in Records(log) <==> k in Records(Unbounded(log))
    ensures k in Records(log) ==> Records(log)[k] == Records(Unbounded(log))[k]
  {
    if !log.Empty? && !log.Cleared? && !log.WasReset? { SameUnlessEvicted(log.before, k); }
  }

  /** A key that eviction spared is answered as an unbounded index would answer it. */
  lemma BoundedAgrees(cfg: Config, log: Log, k: Key, now: int)
    requires !EvictedRecently(log, k)
    ensures Answer(cfg, log, k, now) == Answer(cfg, Unbounded(log), k, now)
  {
    SameUnlessEvicted(log, k);
    SameFreshness(log);
  }

  /** Until the first eviction the bounded index answers every key as the unbounded one does. */
  lemma UnevictedAgrees(cfg: Config, log: Log, k: Key, now: int)
    requires Evictions(log) == 0
    ensures Answer(cfg, log, k, now) == Answer(cfg, Unbounded(log), k, now)
  {
    NoEvictionsAtAll(log, k);
    BoundedAgrees(cfg, log, k, now);
  }

  /** Every entry held is the unbounded index's entry. */
  ghost predicate HeldAgree(log: Log) {
    forall k | k in Records(log) ::
      k in Records(Unbounded(log)) && Records(Unbounded(log))[k] == Records(log)[k]
  }

  /** And was at every moment. */
  ghost predicate AlwaysAgreed(log: Log) { HeldAgree(log) && (log.Empty? || AlwaysAgreed(log.before)) }

  /** A store of a key the index has forgotten and an unbounded one, holding `u`, has not. To the
      index it is new. It does no harm if the other takes it to the same entry: a redelivery
      must repeat time and count, a new store must not rely on the count on record. */
  predicate ReturnsAlike(u: Entry, q: int, n: int, t: int) {
    if u.present && u.seqNo == q then u.at == t && u.tokens == n else n > 0 || u.tokens == n
  }

  predicate AllReturnAlike(log: Log) {
    match log
    case Empty => true
    case Stored(b, q, k, n, t) =>
      && AllReturnAlike(b)
      && (k !in Records(b) && k in Records(Unbounded(b)) ==> ReturnsAlike(Records(Unbounded(b))[k], q, n, t))
    case _ => AllReturnAlike(log.before)
  }

  lemma StoreAgrees(log: Log)
    requires log.Stored? && HeldAgree(log.before)
    ensures var b, k := log.before, log.key;
      HeldAgree(log) <==> (k !in Records(b) && k in Records(Unbounded(b)) ==>
                             ReturnsAlike(Records(Unbounded(b))[k], log.seqNo, log.tokens, log.at))
  {
    assert log.key in Records(log) && log.key in Records(Unbounded(log));
  }

  lemma OthersAgree(log: Log)
    requires !log.Empty? && !log.Stored? && HeldAgree(log.before)
    ensures HeldAgree(log)
  {}

  /** Eviction only forgets, at every moment, if and only if every forgotten key that is stored
      again returns alike. */
  lemma {:induction false} OnlyForgetsIff(log: Log)
    ensures AlwaysAgreed(log) <==> AllReturnAlike(log)
  {
    if !log.Empty? {
      OnlyForgetsIff(log.before);
      if HeldAgree(log.before) {
        if log.Stored? { StoreAgrees(log); } else { OthersAgree(log); }
      }
    }
  }

  lemma EvictionOnlyForgets(log: Log, k: Key)
    requires AllReturnAlike(log) && k in Records(log)
    ensures k in Records(Unbounded(log)) && Records(Unbounded(log))[k] == Records(log)[k]
  {
    OnlyForgetsIff(log);
  }

  /** No store carries the sequence number the unbounded index already recorded for its key. */
  predicate NoReplays(log: Log) {
    match log
    case Empty => true
    case Stored(b, q, k, _, _) => NoReplays(b) && !IsDuplicate(Records(Unbounded(b)), k, q)
    case _ => NoReplays(log.before)
  }

  /** A publisher that neither redelivers nor claims nothing is always safe. */
  lemma {:induction false} PlainStoresReturnAlike(log: Log)
    requires NoReplays(log) && PositiveStores(log)
    ensures AllReturnAlike(log)
  {
    if !log.Empty? { PlainStoresReturnAlike(log.before); }
  }

  /** A forgotten key that returns with no tokens has lost its count. */
  lemma ZeroReturnLosesCount()
    ensures var log := Evicted(Stored(Evicted(Stored(
                         Stored(Empty, 1, "k", 10, 0), 2, "j", 1, 1), "k"), 3, "k", 0, 5), "j");
      && Legal(1, log) && Rested(1, log) && NoReplays(log)
      && "k" in Records(log) && Records(log)["k"].tokens == 0
      && "k" in Records(Unbounded(log)) && Records(Unbounded(log))["k"].tokens == 10
  {
    var gone := KeyMakesWay();
    var again := Stored(gone, 3, "k", 0, 5);
    assert Records(again) == map["j" := Entry(1, true, 2, 1), "k" := Entry(0, true, 3, 5)];
    assert Records(Evicted(again, "j")) == map["k" := Entry(0, true, 3, 5)];
    assert Unbounded(Evicted(again, "j")) == Stored(gone.before, 3, "k", 0, 5);
  }

  /** With room for one key, "k" makes way for "j". */
  lemma KeyMakesWay() returns (gone: Log)
    ensures gone == Evicted(Stored(Stored(Empty, 1, "k", 10, 0), 2, "j", 1, 1), "k")
    ensures Legal(1, gone) && NoReplays(gone) && Unbounded(gone) == gone.before
    ensures Records(gone.before) == map["k" := Entry(10, true, 1, 0), "j" := Entry(1, true, 2, 1)]
    ensures Records(gone) == map["j" := Entry(1, true, 2, 1)]
  {
    var one := Stored(Empty, 1, "k", 10, 0);
    assert Records(one) == map["k" := Entry(10, true, 1, 0)];
    gone := Evicted(Stored(one, 2, "j", 1, 1), "k");
  }

  /** A batch redelivered after its key was evicted looks new: with room for one key, "k" makes
      way for "j" and then comes back under its old number. */
  lemma ReplayLooksNew()
    ensures var log := Evicted(Stored(Evicted(Stored(
                         Stored(Empty, 1, "k", 10, 0), 2, "j", 1, 1), "k"), 1, "k", 10, 5), "j");
      && Legal(1, log) && Rested(1, log)
      && "k" in Records(log) && Records(log)["k"].at == 5
      && "k" in Records(Unbounded(log)) && Records(Unbounded(log))["k"].at == 0
  {
    var gone := KeyMakesWay();
    var again := Stored(gone, 1, "k", 10, 5);
    assert Records(again) == map["j" := Entry(1, true, 2, 1), "k" := Entry(10, true, 1, 5)];
    assert Records(Evicted(again, "j")) == map["k" := Entry(10, true, 1, 5)];
    assert Unbounded(Evicted(again, "j")) == Stored(gone.before, 1, "k", 10, 5);
  }

  // ------------------------------------------------------------------------------------------
  // The cap

  /** `done` is `store` followed by the evictions it caused, carried to the end. */
  ghost predicate EvictionEnds(max: nat, store: Log, done: Log) {
    && Follows(store, done)
    && Legal(max, done)
    && (|Records(done)| <= max || Oldest(Records(done), ""))
  }

  predicate Follows(store: Log, done: Log) {
    done == store || (done.Evicted? && Follows(store, done.before))
  }

  /** The entries strictly older than the empty key, which eviction takes before stopping at it. */
  function OlderThanEmpty(m: map<Key, Entry>): set<Key> {
    set k | k in m && "" in m && m[k].at < m[""].at
  }

  /** The entries eviction may take at all, if it is to stop at the empty key. */
  function NoNewerThanEmpty(m: map<Key, Entry>): set<Key> {
    set k | k in m && k != "" && ("" in m ==> m[k].at <= m[""].at)
  }

  /** `rest` is `m` after evicting `gone`. */
  ghost predicate Leaves(m: map<Key, Entry>, gone: set<Key>, rest: map<Key, Entry>) {
    gone <= NoNewerThanEmpty(m) && rest == m - gone && |rest| == |m| - |gone|
  }

  lemma TakeOne(m: map<Key, Entry>, gone: set<Key>, rest: map<Key, Entry>, k: Key)
    requires Leaves(m, gone, rest) && Oldest(rest, k) && k != ""
    ensures Leaves(m, gone + {k}, rest - {k})
  {
    assert k in m && ("" in m ==> "" in rest && rest[k].at <= rest[""].at);
    assert k in NoNewerThanEmpty(m);
    assert (rest - {k}).Keys == rest.Keys - {k};
    SizeIsKeys(rest);
    SizeIsKeys(rest - {k});
  }

  /** What a store's evictions took: entries no newer than the empty key, and never too many. */
  lemma {:induction false} EvictedSet(max: nat, store: Log, done: Log) returns (gone: set<Key>)
    requires store.Stored? && Follows(store, done) && Legal(max, done)
    ensures Leaves(Records(store), gone, Records(done))
    ensures |Records(done)| >= Min(max, |Records(store)|)
  {
    if done == store {
      gone := {};
    } else {
      gone := EvictedSet(max, store, done.before);
      TakeOne(Records(store), gone, Records(done.before), done.key);
      gone := gone + {done.key};
      SizeAfterEviction(done);
    }
  }

  /** Does evicting from `m` down to `max` entries succeed? Without the empty key it does. With
      it, it does when the entries strictly older than the empty key are enough to make room and
      does not when those no newer are too few; unless another entry shares the empty key's
      time, those two are one condition. */
  ghost predicate FitsWhenItShould(max: nat, m: map<Key, Entry>, fits: bool) {
    && ("" !in m ==> fits)
    && ("" in m && |m| - max <= |OlderThanEmpty(m)| ==> fits)
    && ("" in m && |m| - max > |NoNewerThanEmpty(m)| ==> !fits)
    && ("" in m && (forall k | k in m && k != "" :: m[k].at != m[""].at) ==>
          (fits <==> |m| - max <= |OlderThanEmpty(m)|))
  }

  lemma FitByCounting(max: nat, m: map<Key, Entry>, gone: set<Key>, rest: map<Key, Entry>)
    requires Leaves(m, gone, rest) && (|rest| <= max || Oldest(rest, ""))
    ensures FitsWhenItShould(max, m, |rest| <= max)
  {
    SubsetSize(gone, NoNewerThanEmpty(m));
    if |rest| > max {
      forall k | k in rest.Keys ensures k !in OlderThanEmpty(m) { assert rest[""].at <= rest[k].at; }
      assert rest.Keys == m.Keys - gone;
      assert OlderThanEmpty(m) <= gone;
      SubsetSize(OlderThanEmpty(m), gone);
    }
    if "" in m && forall k | k in m && k != "" :: m[k].at != m[""].at { NoTies(m); }
  }

  lemma NoTies(m: map<Key, Entry>)
    requires "" in m && forall k | k in m && k != "" :: m[k].at != m[""].at
    ensures OlderThanEmpty(m) == NoNewerThanEmpty(m)
  {}

  /** When a store fits the cap, whatever the size of the index before it; and it never evicts
      below the cap. */
  lemma {:induction false} StoreFits(max: nat, store: Log, done: Log)
    requires store.Stored? && EvictionEnds(max, store, done)
    ensures FitsWhenItShould(max, Records(store), |Records(done)| <= max)
    ensures |Records(done)| >= Min(max, |Records(store)|)
  {
    var gone := EvictedSet(max, store, done);
    FitByCounting(max, Records(store), gone, Records(done));
  }

  /** Was the empty key stored since the last clear or reset? */
  predicate EmptyKeyStored(log: Log) {
    match log
    case Empty => false
    case Stored(b, _, k, _, _) => k == "" || EmptyKeyStored(b)
    case Cleared(_, _, _) => false
    case WasReset(_) => false
    case _ => EmptyKeyStored(log.before)
  }

  lemma {:induction false} EmptyKeyWasStored(log: Log)
    requires "" in Records(log)
    ensures EmptyKeyStored(log)
  {
    if !(log.Stored? && log.key == "") { EmptyKeyWasStored(log.before); }
  }

  /** Over every sequence of stores, removes, clears and resets, the index is within its cap
      whenever the empty key was not stored since the last clear or reset. */
  lemma {:induction false} StaysWithinCap(max: nat, log: Log)
    requires Rested(max, log) && !EmptyKeyStored(log)
    ensures |Records(log)| <= max
  {
    if "" in Records(log) { EmptyKeyWasStored(log); }
  }

  function Name(n: nat): Key { seq(n, _ => 'k') }

  /** The empty key first, then `n` new keys, one after the other. */
  function Pinned(n: nat): Log {
    if n == 0 then Stored(Empty, 0, "", 1, 0) else Stored(Pinned(n - 1), n, Name(n), 1, n)
  }

  lemma {:induction false} PinnedRecords(n: nat)
    ensures |Records(Pinned(n))| == n + 1 && Oldest(Records(Pinned(n)), "")
    ensures forall k | k in Records(Pinned(n)) :: |k| <= n && Records(Pinned(n))[k].at == |k|
  {
    if n == 0 {
      assert Records(Pinned(0)) == map["" := Entry(1, true, 0, 0)];
    } else {
      PinnedRecords(n - 1);
      var m, m' := Records(Pinned(n - 1)), Records(Pinned(n));
      assert Name(n) !in m;
      assert m'.Keys == m.Keys + {Name(n)};
      SizeIsKeys(m);
      SizeIsKeys(m');
    }
  }

  /** And otherwise nothing bounds it: with the empty key oldest no store evicts anything, so
      under every cap there are runs of every size. */
  lemma {:induction false} EmptyKeyUnbounds(max: nat, n: nat)
    ensures |Records(Pinned(n))| == n + 1
    ensures EvictionEnds(max, Pinned(n), Pinned(n)) && Rested(max, Pinned(n))
    ensures forall k :: !Legal(max, Evicted(Pinned(n), k))
  {
    PinnedRecords(n);
    if n > 0 { EmptyKeyUnbounds(max, n - 1); }
    forall k ensures !Legal(max, Evicted(Pinned(n), k)) { NothingToEvict(max, n, k); }
  }

  lemma NothingToEvict(max: nat, n: nat, k: Key)
    ensures !Legal(max, Evicted(Pinned(n), k))
  {
    PinnedRecords(n);
    var m := Records(Pinned(n));
    if k in m && k != "" { assert m[""].at == 0 && m[k].at == |k| > 0; }
  }

  lemma SizeAfterEviction(log: Log)
    requires log.Evicted? && log.key in Records(log.before)
    ensures |Records(log)| == |Records(log.before)| - 1
  {
    assert Records(log).Keys == Records(log.before).Keys - {log.key};
    SizeIsKeys(Records(log));
    SizeIsKeys(Records(log.before));
  }

  /** Events about keys already held move nobody in or out. */
  lemma TouchKeepsRest(max: nat, log: Log)
    requires (log.Stored? && log.key in Records(log.before)) || log.Removed?
    requires Rested(max, log.before)
    ensures Records(log).Keys == Records(log.before).Keys
    ensures Rested(max, log)
  {
    SizeIsKeys(Records(log));
    SizeIsKeys(Records(log.before));
  }

  lemma SizeIsKeys(m: map<Key, Entry>)
    ensures |m| == |m.Keys|
  {}
}
