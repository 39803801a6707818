/** The bounded prefix index as it runs: one map and a few counters, updated in place. Map
    iteration order is arbitrary, so which of several equally old entries goes is too. */
module PrefixIndex {
  import opened Sequences
  import opened IndexHistory
  import Sorting

  /** Linear decay over the stale window, reduced by a quarter per sequence gap, three at most. */
  function Confidence(cfg: Config, last: Option<int>, gaps: nat, now: int): real {
    if last.None? || Stale(cfg, last, now) then 0.0
    else Freshness(cfg, now - last.value) * (1.0 - GapPenalty(gaps))
  }

  function Freshness(cfg: Config, age: int): real {
    if cfg.staleAfter <= 0 then 1.0
    else
      var f := 1.0 - age as real / cfg.staleAfter as real;
      if f < 0.0 then 0.0 else f
  }

  function GapPenalty(gaps: nat): real { if gaps >= 3 then 0.75 else 0.25 * gaps as real }

  /** Confidence is a ratio, never grows while nothing arrives, never grows with a gap, and
      gaps alone leave at least a quarter of it: they degrade the index without silencing it. */
  lemma ConfidenceBehaves(cfg: Config, last: int, gaps: nat, more: nat, now: int, later: int)
    requires last <= now <= later && gaps <= more
    ensures 0.0 <= Confidence(cfg, Some(last), more, later) <= Confidence(cfg, Some(last), gaps, now) <= 1.0
    ensures Confidence(cfg, Some(last), more, now) >= 0.25 * Confidence(cfg, Some(last), 0, now)
  {
    FreshnessFalls(cfg, now - last, later - last);
    assert 0.0 <= GapPenalty(gaps) <= GapPenalty(more) <= 0.75;
    var f, g := Freshness(cfg, now - last), Freshness(cfg, later - last);
    var p, q := 1.0 - GapPenalty(gaps), 1.0 - GapPenalty(more);
    ProductMonotone(g, q, f, p);
    ProductMonotone(f, 0.25, f, q);
  }

  /** Certain right after an event, a quarter less for each of up to three gaps, and positive
      exactly until the stale window has passed. */
  lemma ConfidenceEdges(cfg: Config, last: Option<int>, gaps: nat, now: int)
    ensures Confidence(cfg, Some(now), gaps, now) == 1.0 - 0.25 * Min(gaps, 3) as real
    ensures Confidence(cfg, last, gaps, now) > 0.0 <==>
              last.Some? && (cfg.staleAfter > 0 ==> now - last.value < cfg.staleAfter)
  {
    assert Freshness(cfg, 0) == 1.0;
    if last.Some? {
      var f, p := Freshness(cfg, now - last.value), 1.0 - GapPenalty(gaps);
      assert p >= 0.25;
      if cfg.staleAfter > 0 { ShareBelowOne((now - last.value) as real, cfg.staleAfter as real); }
      PositiveTimes(f, p);
    }
  }

  lemma PositiveTimes(f: real, p: real)
    requires f >= 0.0 && p > 0.0
    ensures f * p > 0.0 <==> f > 0.0
  {
    if f > 0.0 { NegativeProduct(-f, p); }
  }

  lemma ShareBelowOne(a: real, s: real)
    requires s > 0.0
    ensures a / s < 1.0 <==> a < s
  {
    var x := a / s;
    assert x * s == a;
    if x < 1.0 { NegativeProduct(x - 1.0, s); }
    if x > 1.0 { NegativeProduct(1.0 - x, s); }
  }

  lemma ConfidenceNonNegative(cfg: Config, last: Option<int>, gaps: nat, now: int)
    ensures Confidence(cfg, last, gaps, now) >= 0.0
  {
    if last.Some? {
      var f, p := Freshness(cfg, now - last.value), 1.0 - GapPenalty(gaps);
      assert f >= 0.0 && p >= 0.0;
      assert f * p >= 0.0;
    }
  }

  lemma FreshnessFalls(cfg: Config, age: int, older: int)
    requires 0 <= age <= older
    ensures 0.0 <= Freshness(cfg, older) <= Freshness(cfg, age) <= 1.0
  {
    if cfg.staleAfter > 0 { SharesOrdered(age as real, older as real, cfg.staleAfter as real); }
  }

  lemma SharesOrdered(a: real, b: real, s: real)
    requires 0.0 <= a <= b && s > 0.0
    ensures 0.0 <= a / s <= b / s
  {
    var x, y := a / s, b / s;
    assert x * s == a && y * s == b;
    if x < 0.0 { NegativeProduct(x, s); }
    if y < x { NegativeProduct(y - x, s); }
  }

  lemma NegativeProduct(x: real, s: real)
    requires x < 0.0 && s > 0.0
    ensures x * s < 0.0
  {}

  lemma ProductMonotone(a: real, b: real, c: real, d: real)
    requires 0.0 <= a <= c <= 1.0 && 0.0 <= b <= d <= 1.0
    ensures 0.0 <= a * b <= c * d <= 1.0
  {
    assert a * b <= c * b <= c * d;
    assert c * d <= 1.0 * d;
  }

  datatype Row = Row(key: Key, at: int, tokens: int)

  predicate NewerFirst(a: Row, b: Row) { a.at >= b.at }

  /** The keys that can be published. */
  function LiveKeys(cfg: Config, m: map<Key, Entry>, now: int): set<Key> {
    set k | k in m && Live(cfg, m[k], now)
  }

  /** A directory of at most `cap` live keys, none older than a live key left out. */
  ghost predicate IsDirectory(cfg: Config, m: map<Key, Entry>, now: int, cap: nat, out: map<Key, int>) {
    var live := LiveKeys(cfg, m, now);
    && out.Keys <= live
    && |out| == Min(cap, |live|)
    && (forall k | k in out :: out[k] == m[k].tokens)
    && (forall k, p | k in live && k !in out && p in out :: m[k].at <= m[p].at)
  }

  function RowOf(m: map<Key, Entry>, k: Key): Row
    requires k in m
  {
    Row(k, m[k].at, m[k].tokens)
  }

  /** `rows` lists every live key once, in some order. */
  ghost predicate ListsLive(cfg: Config, m: map<Key, Entry>, now: int, rows: seq<Row>) {
    && (forall i | 0 <= i < |rows| :: rows[i].key in LiveKeys(cfg, m, now) && rows[i] == RowOf(m, rows[i].key))
    && (forall i, j | 0 <= i < j < |rows| :: rows[i].key != rows[j].key)
    && (forall k | k in LiveKeys(cfg, m, now) :: RowOf(m, k) in rows)
  }

  lemma Occurrences<T>(s: seq<T>, i: nat, j: nat)
    requires i < j < |s| && s[i] == s[j]
    ensures multiset(s)[s[i]] >= 2
  {
    assert s == s[..j] + [s[j]] + s[j + 1..];
    assert s[i] in s[..j];
  }

  lemma {:induction false} OccursOnce<T>(s: seq<T>, x: T)
    requires forall i, j | 0 <= i < j < |s| :: s[i] != s[j]
    ensures multiset(s)[x] <= 1
  {
    if s != [] {
      var front := s[..|s| - 1];
      assert s == front + [s[|s| - 1]];
      OccursOnce(front, x);
    }
  }

  lemma PermutationLists(cfg: Config, m: map<Key, Entry>, now: int, rows: seq<Row>, sorted: seq<Row>)
    requires ListsLive(cfg, m, now, rows) && multiset(sorted) == multiset(rows)
    ensures ListsLive(cfg, m, now, sorted)
  {
    forall i | 0 <= i < |sorted| ensures sorted[i] in rows { assert sorted[i] in multiset(sorted); }
    forall r | r in rows ensures r in sorted { assert r in multiset(rows); }
    forall i, j | 0 <= i < j < |sorted| ensures sorted[i].key != sorted[j].key {
      if sorted[i] == sorted[j] {
        Occurrences(sorted, i, j);
        OccursOnce(rows, sorted[i]);
      }
    }
  }

  function KeysOf(rows: seq<Row>): set<Key> { set i | 0 <= i < |rows| :: rows[i].key }

  lemma {:induction false} DistinctKeysCount(rows: seq<Row>)
    requires forall i, j | 0 <= i < j < |rows| :: rows[i].key != rows[j].key
    ensures |KeysOf(rows)| == |rows|
  {
    if rows != [] {
      var front, last := rows[..|rows| - 1], rows[|rows| - 1];
      DistinctKeysCount(front);
      assert KeysOf(rows) == KeysOf(front) + {last.key};
    }
  }

  lemma ListedKeys(cfg: Config, m: map<Key, Entry>, now: int, rows: seq<Row>)
    requires ListsLive(cfg, m, now, rows)
    ensures KeysOf(rows) == LiveKeys(cfg, m, now) && |rows| == |LiveKeys(cfg, m, now)|
  {
    DistinctKeysCount(rows);
    forall k | k in LiveKeys(cfg, m, now) ensures k in KeysOf(rows) {
      var i :| 0 <= i < |rows| && rows[i] == RowOf(m, k);
    }
  }

  /** Any prefix of a list of the live keys, newest first, is a directory of its length. */
  lemma PrefixIsDirectory(cfg: Config, m: map<Key, Entry>, now: int, rows: seq<Row>, cap: nat, out: map<Key, int>)
    requires ListsLive(cfg, m, now, rows)
    requires Sorting.Sorted(rows, NewerFirst) || |rows| <= cap
    requires var top := rows[..Min(cap, |rows|)];
      out.Keys == KeysOf(top) && forall i | 0 <= i < |top| :: out[top[i].key] == top[i].tokens
    ensures IsDirectory(cfg, m, now, cap, out)
  {
    var n := Min(cap, |rows|);
    var top := rows[..n];
    DistinctKeysCount(top);
    ListedKeys(cfg, m, now, rows);
    assert |out| == |out.Keys| == n;
    forall k | k in out ensures k in LiveKeys(cfg, m, now) && out[k] == m[k].tokens {
      var j :| 0 <= j < |top| && top[j].key == k;
      assert rows[j] == top[j];
    }
    forall k, p | k in LiveKeys(cfg, m, now) && k !in out && p in out ensures m[k].at <= m[p].at {
      OmittedIsOlder(m, rows, n, k, p);
    }
  }

  lemma OmittedIsOlder(m: map<Key, Entry>, rows: seq<Row>, n: nat, k: Key, p: Key)
    requires n <= |rows| && (Sorting.Sorted(rows, NewerFirst) || n == |rows|)
    requires k in m && RowOf(m, k) in rows && k !in KeysOf(rows[..n])
    requires p in m && p in KeysOf(rows[..n])
    requires forall i | 0 <= i < |rows| && rows[i].key == p :: rows[i] == RowOf(m, p)
    ensures m[k].at <= m[p].at
  {
    var i :| 0 <= i < |rows| && rows[i] == RowOf(m, k);
    var j :| 0 <= j < n && rows[..n][j].key == p;
    forall x | 0 <= x < n ensures rows[x].key in KeysOf(rows[..n]) { assert rows[..n][x] == rows[x]; }
    assert NewerFirst(rows[j], rows[i]);
  }

  lemma {:induction false} NeverUpdated(log: Log)
    ensures LastUpdate(log).None? ==> Records(log) == map[]
  {
    if log.Evicted? { NeverUpdated(log.before); }
  }

  /** Evictions are not events of the publisher: they leave freshness and numbering alone. */
  predicate SameTimes(a: Log, b: Log) {
    LastUpdate(a) == LastUpdate(b) && MaxSeq(a) == MaxSeq(b) && Gaps(a) == Gaps(b)
  }

  class Index {
    const cfg: Config
    var entries: map<Key, Entry>
    var haveSeq: bool
    var lastSeq: int
    var lastUpdate: Option<int>
    var sequenceGaps: nat
    var eventsDropped: nat
    ghost var log: Log

    ghost predicate Valid()
      reads this
    {
      && cfg.maxEntries > 0
      && entries == Records(log)
      && lastUpdate == LastUpdate(log)
      && Tracks(haveSeq, lastSeq, sequenceGaps, log)
      && eventsDropped == Evictions(log)
      && Legal(cfg.maxEntries, log) && Rested(cfg.maxEntries, log)
    }

    constructor (maxEntries: int, entryTTL: int, staleAfter: int)
      ensures Valid() && log == Empty
      ensures cfg == Config(if maxEntries <= 0 then DEFAULT_CONFIG.maxEntries else maxEntries, entryTTL, staleAfter)
    {
      cfg := Config(if maxEntries <= 0 then DEFAULT_CONFIG.maxEntries else maxEntries, entryTTL, staleAfter);
      entries, haveSeq, lastSeq, lastUpdate := map[], false, 0, None;
      sequenceGaps, eventsDropped, log := 0, 0, Empty;
    }

    /** Tracks the highest batch number over the event about to be applied; nothing is refused. */
    method CheckSeq(q: int, ghost event: Log)
      requires HasSeq(event) && event.seqNo == q && Tracks(haveSeq, lastSeq, sequenceGaps, event.before)
      modifies this`haveSeq, this`lastSeq, this`sequenceGaps
      ensures haveSeq && Tracks(haveSeq, lastSeq, sequenceGaps, event)
    {
      if !haveSeq {
        haveSeq := true;
        lastSeq := q;
      } else if q == lastSeq + 1 {
        lastSeq := q;
      } else if q > lastSeq + 1 {
        sequenceGaps := sequenceGaps + 1;
        lastSeq := q;
      }
    }

    method ApplyStore(q: int, key: Key, tokens: int, now: int)
      requires Valid()
      modifies this
      ensures Valid()
      ensures key in old(entries) ==> log == Stored(old(log), q, key, tokens, now)
      ensures key !in old(entries) ==> EvictionEnds(cfg.maxEntries, Stored(old(log), q, key, tokens, now), log)
    {
      CheckSeq(q, Stored(log, q, key, tokens, now));
      lastUpdate := Some(now);
      if key in entries {
        Touch(q, key, tokens, now);
      } else {
        StoreNew(q, key, tokens, now);
      }
    }

    method StoreNew(q: int, key: Key, tokens: int, now: int)
      requires key !in entries && entries == Records(log) && eventsDropped == Evictions(log)
      requires Legal(cfg.maxEntries, log) && Rested(cfg.maxEntries, log)
      modifies this`entries, this`eventsDropped, this`log
      ensures EvictionEnds(cfg.maxEntries, Stored(old(log), q, key, tokens, now), log)
      ensures entries == Records(log) && eventsDropped == Evictions(log)
      ensures SameTimes(Stored(old(log), q, key, tokens, now), log)
    {
      entries := entries[key := Entry(tokens, true, q, now)];
      log := Stored(log, q, key, tokens, now);
      Evict();
    }

    /** A store for a key already held: a duplicate changes nothing. */
    method Touch(q: int, key: Key, tokens: int, now: int)
      requires key in entries && entries == Records(log) && Rested(cfg.maxEntries, log)
      modifies this`entries, this`log
      ensures log == Stored(old(log), q, key, tokens, now) && entries == Records(log) && Rested(cfg.maxEntries, log)
    {
      TouchKeepsRest(cfg.maxEntries, Stored(log, q, key, tokens, now));
      var e := entries[key];
      if !(e.present && e.seqNo == q) {
        entries := entries[key := Entry(if tokens > 0 then tokens else e.tokens, true, q, now)];
      }
      log := Stored(log, q, key, tokens, now);
    }

    method ApplyRemove(q: int, key: Key, now: int)
      requires Valid()
      modifies this
      ensures Valid() && log == Removed(old(log), q, key, now)
    {
      CheckSeq(q, Removed(log, q, key, now));
      lastUpdate := Some(now);
      if key in entries {
        entries := entries[key := entries[key].(present := false, seqNo := q, at := now)];
      }
      log := Removed(log, q, key, now);
      TouchKeepsRest(cfg.maxEntries, log);
    }

    method ApplyClear(q: int, now: int)
      requires Valid()
      modifies this
      ensures Valid() && log == Cleared(old(log), q, now)
    {
      CheckSeq(q, Cleared(log, q, now));
      entries := map[];
      lastUpdate := Some(now);
      log := Cleared(log, q, now);
    }

    method Reset()
      requires Valid()
      modifies this
      ensures Valid() && log == WasReset(old(log))
    {
      entries := map[];
      haveSeq := false;
      lastSeq := 0;
      lastUpdate := None;
      log := WasReset(log);
    }

    /** Removes oldest entries until the cap is met, or until the empty key turns up oldest. */
    method Evict()
      requires log.Stored? && entries == Records(log) && Legal(cfg.maxEntries, log) && eventsDropped == Evictions(log)
      modifies this`entries, this`eventsDropped, this`log
      ensures EvictionEnds(cfg.maxEntries, old(log), log)
      ensures entries == Records(log) && eventsDropped == Evictions(log)
      ensures SameTimes(old(log), log)
    {
      var over := |entries| - cfg.maxEntries;
      while over > 0
        invariant over == |entries| - cfg.maxEntries
        invariant Follows(old(log), log) && Legal(cfg.maxEntries, log)
        invariant entries == Records(log) && eventsDropped == Evictions(log)
        invariant SameTimes(old(log), log)
        decreases over
      {
        var oldest := FindOldest();
        if oldest == "" {
          return;
        }
        ghost var was := entries;
        log := Evicted(log, oldest);
        entries := entries - {oldest};
        assert entries.Keys == was.Keys - {oldest};
        SizeIsKeys(was);
        SizeIsKeys(entries);
        eventsDropped := eventsDropped + 1;
        over := over - 1;
      }
    }

    /** Scans the map in any order for an entry no other entry is older than. */
    method FindOldest() returns (oldestKey: Key)
      requires |entries| > 0
      ensures Oldest(entries, oldestKey)
    {
      SizeIsKeys(entries);
      var todo := entries.Keys;
      oldestKey :| oldestKey in todo;
      todo := todo - {oldestKey};
      var oldest := entries[oldestKey].at;
      while todo != {}
        invariant todo <= entries.Keys && oldestKey in entries && oldest == entries[oldestKey].at
        invariant forall k | k in entries && k !in todo :: oldest <= entries[k].at
        decreases todo
      {
        var k :| k in todo;
        if entries[k].at < oldest {
          oldest := entries[k].at;
          oldestKey := k;
        }
        todo := todo - {k};
      }
    }

    method LookupKey(key: Key, now: int) returns (tokens: int, confidence: real)
      requires Valid()
      ensures tokens == Answer(cfg, log, key, now)
      ensures confidence == Confidence(cfg, LastUpdate(log), Gaps(log), now)
    {
      if Stale(cfg, lastUpdate, now) {
        return 0, 0.0;
      }
      confidence := Confidence(cfg, lastUpdate, sequenceGaps, now);
      tokens := 0;
      if key in entries && entries[key].present {
        if !(cfg.entryTTL > 0 && now - entries[key].at > cfg.entryTTL) {
          tokens := entries[key].tokens;
        }
      }
    }

    /** The published directory agrees with LookupKey, key by key, and is as full and as
        recent as the cap allows. A cap of zero or less means the index's own. */
    method Directory(max: int, now: int) returns (out: map<Key, int>)
      requires Valid()
      ensures Stale(cfg, lastUpdate, now) ==> out == map[]
      ensures !Stale(cfg, lastUpdate, now) ==>
                IsDirectory(cfg, entries, now, if max <= 0 then cfg.maxEntries else max, out)
      ensures forall k | k in out :: out[k] == Answer(cfg, log, k, now)
    {
      NeverUpdated(log);
      if Stale(cfg, lastUpdate, now) || lastUpdate.None? {
        return map[];
      }
      var cap: nat := if max <= 0 then cfg.maxEntries else max;
      var rows := LiveRows(now);
      if |entries| > cap {
        var sorted := Sorting.SortSlice(rows, NewerFirst);
        PermutationLists(cfg, entries, now, rows, sorted);
        rows := sorted;
      } else {
        FewRows(rows, now);
      }
      out := ToMap(rows[..Min(cap, |rows|)]);
      PrefixIsDirectory(cfg, entries, now, rows, cap, out);
    }

    lemma FewRows(rows: seq<Row>, now: int)
      requires ListsLive(cfg, entries, now, rows)
      ensures |rows| <= |entries|
    {
      DistinctKeysCount(rows);
      assert KeysOf(rows) <= entries.Keys;
      SubsetSize(KeysOf(rows), entries.Keys);
      SizeIsKeys(entries);
    }

    method LiveRows(now: int) returns (rows: seq<Row>)
      ensures ListsLive(cfg, entries, now, rows)
    {
      rows := [];
      var todo := entries.Keys;
      while todo != {}
        invariant todo <= entries.Keys
        invariant forall i | 0 <= i < |rows| ::
                    rows[i].key in LiveKeys(cfg, entries, now) - todo && rows[i] == RowOf(entries, rows[i].key)
        invariant forall i, j | 0 <= i < j < |rows| :: rows[i].key != rows[j].key
        invariant forall k | k in LiveKeys(cfg, entries, now) - todo :: RowOf(entries, k) in rows
        decreases todo
      {
        var k :| k in todo;
        if Live(cfg, entries[k], now) {
          rows := rows + [RowOf(entries, k)];
        }
        todo := todo - {k};
      }
    }
  }

  method ToMap(rows: seq<Row>) returns (out: map<Key, int>)
    requires forall i, j | 0 <= i < j < |rows| :: rows[i].key != rows[j].key
    ensures out.Keys == KeysOf(rows) && forall i | 0 <= i < |rows| :: out[rows[i].key] == rows[i].tokens
  {
    out := map[];
    for i := 0 to |rows|
      invariant out.Keys == KeysOf(rows[..i])
      invariant forall j | 0 <= j < i :: rows[j].key in out && out[rows[j].key] == rows[j].tokens
    {
      assert rows[..i + 1] == rows[..i] + [rows[i]];
      assert KeysOf(rows[..i + 1]) == KeysOf(rows[..i]) + {rows[i].key};
      out := out[rows[i].key := rows[i].tokens];
    }
    assert rows[..|rows|] == rows;
  }
}
