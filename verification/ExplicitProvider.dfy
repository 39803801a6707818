/** The deterministic provider: it stores what this backend served, forgets on a runtime
    restart, and answers lookups from the index it owns. */
module ExplicitProvider {
  import opened Sequences
  import opened IndexHistory
  import opened LruHistory
  import opened PrefixIndex

  datatype Reason = NoPrefixKey | ColdPrefix | StaleRecord | WarmPrefix

  datatype MatchResult = MatchResult(matched: int, confidence: real, reason: Reason)

  lemma {:induction false} EvictionsStayExplicit(store: Log, done: Log)
    requires Explicit(store) && Follows(store, done)
    ensures Explicit(done) && HighSeq(done) == HighSeq(store)
  {
    if done != store { EvictionsStayExplicit(store, done.before); }
  }

  lemma {:induction false} ExplicitIsPositive(log: Log)
    requires Explicit(log)
    ensures PositiveStores(log)
  {
    if !log.Empty? { ExplicitIsPositive(log.before); }
  }

  class Provider {
    const index: Index
    var seqNo: nat

    ghost predicate Valid()
      reads this, index
    {
      index.Valid() && Explicit(index.log) && HighSeq(index.log) == seqNo
    }

    /** A cap of zero stands for the default configuration, lifetimes included; a negative one
        for the default cap alone. */
    constructor (maxEntries: int, entryTTL: int, staleAfter: int)
      ensures Valid() && fresh(index) && index.log == Empty && seqNo == 0
      ensures maxEntries == 0 ==> index.cfg == DEFAULT_CONFIG
      ensures maxEntries != 0 ==>
                index.cfg == Config(if maxEntries < 0 then DEFAULT_CONFIG.maxEntries else maxEntries,
                                    entryTTL, staleAfter)
    {
      if maxEntries == 0 {
        index := new Index(DEFAULT_CONFIG.maxEntries, DEFAULT_CONFIG.entryTTL, DEFAULT_CONFIG.staleAfter);
      } else {
        index := new Index(maxEntries, entryTTL, staleAfter);
      }
      seqNo := 0;
    }

    /** Records a served prefix. An empty key or a non-positive count is ignored. */
    method Observe(keyHash: Key, tokens: int, now: int)
      requires Valid()
      modifies this, index
      ensures Valid()
      ensures keyHash == "" || tokens <= 0 ==> index.log == old(index.log)
      ensures keyHash != "" && tokens > 0 ==>
                Follows(Stored(old(index.log), old(seqNo) + 1, keyHash, tokens, now), index.log)
    {
      if keyHash == "" || tokens <= 0 {
        return;
      }
      seqNo := seqNo + 1;
      index.ApplyStore(seqNo, keyHash, tokens, now);
      EvictionsStayExplicit(Stored(old(index.log), seqNo, keyHash, tokens, now), index.log);
    }

    method OnRuntimeRestart()
      requires Valid()
      modifies index
      ensures Valid() && index.log == WasReset(old(index.log))
    {
      index.Reset();
    }

    /** A warm answer is backed by an observation of this key since the last restart, inside
        the TTL, and claims no more tokens than that observation or the request did. */
    method Lookup(keyHash: Key, prefixTokens: int, now: int) returns (r: MatchResult)
      requires Valid()
      ensures r.reason == NoPrefixKey <==> keyHash == ""
      ensures keyHash == "" ==> r.confidence == 1.0
      ensures r.reason != WarmPrefix ==> r.matched == 0
      ensures r.reason == WarmPrefix ==>
                exists n, t :: (LiveStore(index.log, keyHash, n, t) && n > 0 && r.matched == Min(prefixTokens, n)
                                && (index.cfg.entryTTL > 0 ==> now - t <= index.cfg.entryTTL))
      ensures r.reason == ColdPrefix <==> keyHash != "" && Answer(index.cfg, index.log, keyHash, now) == 0
      ensures keyHash != "" ==> r.confidence == Confidence(index.cfg, LastUpdate(index.log), Gaps(index.log), now)
      ensures r.reason == WarmPrefix <==>
                (keyHash != "" && Answer(index.cfg, index.log, keyHash, now) != 0
                 && Confidence(index.cfg, LastUpdate(index.log), Gaps(index.log), now) > 0.0)
    {
      if keyHash == "" {
        return MatchResult(0, 1.0, NoPrefixKey);
      }
      var recorded, conf := index.LookupKey(keyHash, now);
      if recorded == 0 {
        return MatchResult(0, conf, ColdPrefix);
      }
      var matched := prefixTokens;
      if recorded < matched {
        matched := recorded;
      }
      ConfidenceNonNegative(index.cfg, LastUpdate(index.log), Gaps(index.log), now);
      if conf <= 0.0 {
        return MatchResult(0, 0.0, StaleRecord);
      }
      ExplicitIsPositive(index.log);
      PositiveAnswer(recorded, keyHash, now);
      NoInventedHit(index.cfg, index.log, keyHash, now);
      return MatchResult(matched, conf, WarmPrefix);
    }

    /** When a lookup is warm, as its contract has it: on a clock that never goes back, exactly if
        the last observation is inside the stale window, the key is still held and it was
        observed since the restart, inside the TTL. */
    lemma WarmIff(k: Key, now: int)
      requires Valid() && ClockNeverBack(index.log) && k != ""
      ensures (Answer(index.cfg, index.log, k, now) != 0
               && Confidence(index.cfg, LastUpdate(index.log), Gaps(index.log), now) > 0.0)
              <==> k in index.entries && FreshPositive(index.cfg, index.log, k, now) && LastUpdate(index.log).Some?
                   && (index.cfg.staleAfter > 0 ==> now - LastUpdate(index.log).value < index.cfg.staleAfter)
    {
      ExplicitIsPositive(index.log);
      HitIff(index.cfg, index.log, k, now);
      ConfidenceEdges(index.cfg, LastUpdate(index.log), Gaps(index.log), now);
      NeverUpdated(index.log);
    }

    lemma PositiveAnswer(recorded: int, k: Key, now: int)
      requires Valid() && PositiveStores(index.log) && recorded == Answer(index.cfg, index.log, k, now) != 0
      ensures recorded > 0
    {
      var n := EntryHasStore(index.log, k);
    }

    /** The provider's index is an LRU cache of its observations. */
    lemma IsLru()
      requires Valid() && ClockNeverBack(index.log)
      ensures NewestChoice(index.cfg.maxEntries, index.log, index.entries.Keys)
      ensures ClockAdvances(index.log) ==>
                forall k :: k in index.entries <==> AmongNewest(index.cfg.maxEntries, index.log, k)
      ensures forall k | k in index.entries :: index.entries[k].tokens == Latest(index.log, k).tokens
      ensures |index.entries| <= index.cfg.maxEntries
    {
      RestedExplicit(index.cfg.maxEntries, index.log);
      HoldsANewestChoice(index.cfg.maxEntries, index.log);
      if ClockAdvances(index.log) { HoldsTheNewest(index.cfg.maxEntries, index.log); }
      forall k | k in index.entries ensures index.entries[k].tokens == Latest(index.log, k).tokens {
        HeldIsLatest(index.log, k);
      }
    }
  }
}
