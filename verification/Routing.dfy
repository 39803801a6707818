/** Backend selection over a materialised snapshot. */
module Routing {
  import opened Sequences
  import Sorting

  /** One backend as the router sees it. Nothing ever writes a negative match. */
  datatype Backend = Backend(
    id: string,
    reachable: bool,
    runtimeHealthy: bool,
    lifecycle: string,
    queueDepth: int,
    queueInflight: int,
    queueMax: int,
    runtimeWaiting: real,
    runtimeRunning: real,
    serviceRateSupported: bool,
    genTokensPerSec: real,
    kvCacheUtil: real,
    stabilityScore: real,
    cacheObservationSupported: bool,
    cacheConfidence: real,
    kvHeadroomSupported: bool,
    kvHeadroom: real,
    prefixMatchedTokens: nat)

  datatype Request = Request(
    inputLenEst: int,
    requestedOutput: int,
    prefixKeyHash: string,
    prefixTokens: int,
    cacheEligible: bool)

  predicate IsEligible(b: Backend) {
    && b.reachable && b.runtimeHealthy
    && b.lifecycle != "OFFLINE" && b.lifecycle != "DRAINING"
    && !(b.queueMax > 0 && b.queueDepth >= b.queueMax)
  }

  ghost predicate IsEligibleId(snap: seq<Backend>, id: string) {
    exists b :: b in snap && IsEligible(b) && b.id == id
  }

  /** What every policy promises: the id of an eligible backend, or none if there is none. */
  ghost predicate PolicyContract(snap: seq<Backend>, choice: Option<string>) {
    match choice
    case None => forall b | b in snap :: !IsEligible(b)
    case Some(id) => IsEligibleId(snap, id)
  }

  /** May be given work now. */
  predicate Fit(b: Backend) {
    && b.reachable && b.runtimeHealthy
    && b.lifecycle !in {"OFFLINE", "DRAINING"} && (b.queueMax <= 0 || b.queueDepth < b.queueMax)
  }

  /** So a policy that keeps its promise never sends work to a backend that is out of reach,
      unhealthy, offline, draining or full, and always finds one where there is one. */
  lemma ContractMeaning(snap: seq<Backend>, choice: Option<string>)
    requires PolicyContract(snap, choice)
    ensures choice.Some? ==> exists b :: b in snap && b.id == choice.value && Fit(b)
    ensures choice.Some? <==> exists b :: b in snap && Fit(b)
  {
    if choice.Some? { var b :| b in snap && IsEligible(b) && b.id == choice.value; assert Fit(b); }
  }

  /** How many of the first `n` backends are eligible. */
  function EligibleBefore(snap: seq<Backend>, n: nat): nat
    requires n <= |snap|
  {
    if n == 0 then 0 else EligibleBefore(snap, n - 1) + if IsEligible(snap[n - 1]) then 1 else 0
  }

  /** The i-th backend of the snapshot is the k-th eligible one. */
  ghost predicate NthEligible(snap: seq<Backend>, k: nat, i: nat) {
    i < |snap| && IsEligible(snap[i]) && EligibleBefore(snap, i) == k
  }

  /** `out` lists the eligible backends of the first `n`, in order; `idx` says where they were. */
  ghost predicate Filters(snap: seq<Backend>, n: nat, out: seq<Backend>, idx: seq<nat>) {
    && n <= |snap| && |idx| == |out| == EligibleBefore(snap, n)
    && (forall k | 0 <= k < |idx| :: idx[k] < n && NthEligible(snap, k, idx[k]) && out[k] == snap[idx[k]])
    && (forall i | 0 <= i < n && IsEligible(snap[i]) ::
         EligibleBefore(snap, i) < |idx| && idx[EligibleBefore(snap, i)] == i)
  }

  method Eligible(snap: seq<Backend>) returns (out: seq<Backend>, ghost idx: seq<nat>)
    ensures Filters(snap, |snap|, out, idx)
    ensures forall b :: b in out <==> b in snap && IsEligible(b)
  {
    out, idx := [], [];
    for i := 0 to |snap|
      invariant Filters(snap, i, out, idx)
    {
      if IsEligible(snap[i]) {
        out, idx := out + [snap[i]], idx + [i];
      }
    }
    FilterMembers(snap, out, idx);
  }

  lemma FilterMembers(snap: seq<Backend>, out: seq<Backend>, idx: seq<nat>)
    requires Filters(snap, |snap|, out, idx)
    ensures forall b :: b in out <==> b in snap && IsEligible(b)
  {
    forall b | b in snap && IsEligible(b) ensures b in out {
      var i :| 0 <= i < |snap| && snap[i] == b;
      assert out[EligibleBefore(snap, i)] == b;
    }
  }

  lemma {:induction false} RankGrows(snap: seq<Backend>, i: nat, j: nat)
    requires i < j <= |snap| && IsEligible(snap[i])
    ensures EligibleBefore(snap, i) < EligibleBefore(snap, j)
  {
    if i < j - 1 { RankGrows(snap, i, j - 1); }
  }

  /** Eligible backends ahead of the k-th come earlier in the filtered list. */
  lemma EarlierInFilter(snap: seq<Backend>, out: seq<Backend>, idx: seq<nat>, k: nat, i: nat) returns (j: nat)
    requires Filters(snap, |snap|, out, idx) && k < |out| && i < idx[k] && IsEligible(snap[i])
    ensures j < k && out[j] == snap[i]
  {
    RankGrows(snap, i, idx[k]);
    j := EligibleBefore(snap, i);
  }

  // ------------------------------------------------------------------------------------------
  // Ordering candidates

  /** Lexicographic order of ids. */
  predicate LexLe(a: string, b: string) {
    a == "" || (b != "" && (a[0] < b[0] || (a[0] == b[0] && LexLe(a[1..], b[1..]))))
  }

  lemma {:induction false} LexTotal(a: string, b: string)
    ensures LexLe(a, b) || LexLe(b, a)
    ensures LexLe(a, b) && LexLe(b, a) ==> a == b
  {
    if a != "" && b != "" {
      LexTotal(a[1..], b[1..]);
      if LexLe(a, b) && LexLe(b, a) { assert a == [a[0]] + a[1..] && b == [b[0]] + b[1..]; }
    }
  }

  lemma {:induction false} LexTransitive(a: string, b: string, c: string)
    requires LexLe(a, b) && LexLe(b, c)
    ensures LexLe(a, c)
  {
    if a != "" && a[0] == b[0] == c[0] { LexTransitive(a[1..], b[1..], c[1..]); }
  }

  /** Letter by letter: one id comes strictly before another exactly if it is a beginning of it or
      has the smaller letter where they first differ. */
  ghost predicate DiffersAt(a: string, b: string, k: nat) {
    k <= |a| && k < |b| && a[..k] == b[..k] && (k == |a| || a[k] < b[k])
  }

  lemma {:induction false} LexMeaning(a: string, b: string)
    ensures LexLe(a, b) && a != b <==> exists k :: 0 <= k <= |a| && DiffersAt(a, b, k)
  {
    if a == "" {
      assert b != "" ==> DiffersAt(a, b, 0);
    } else if b != "" {
      var a', b' := a[1..], b[1..];
      assert a == [a[0]] + a' && b == [b[0]] + b';
      if a[0] < b[0] {
        assert DiffersAt(a, b, 0);
      } else if a[0] == b[0] {
        LexMeaning(a', b');
        forall k | 0 <= k <= |a'| ensures DiffersAt(a', b', k) <==> DiffersAt(a, b, k + 1) { Shift(a, b, k); }
        if exists k :: 0 <= k <= |a| && DiffersAt(a, b, k) {
          var k :| 0 <= k <= |a| && DiffersAt(a, b, k);
          assert DiffersAt(a', b', k - 1);
        }
      } else {
        forall k | 0 <= k <= |a| ensures !DiffersAt(a, b, k) {
          assert k > 0 && k <= |b| ==> a[..k][0] == a[0] && b[..k][0] == b[0];
        }
      }
    }
  }

  lemma Shift(a: string, b: string, k: nat)
    requires a != "" && b != "" && a[0] == b[0] && k <= |a| - 1
    ensures DiffersAt(a[1..], b[1..], k) <==> DiffersAt(a, b, k + 1)
  {
    if k < |b| - 1 {
      assert a[..k + 1] == [a[0]] + a[1..][..k];
      assert b[..k + 1] == [b[0]] + b[1..][..k];
    }
  }

  datatype Candidate = Candidate(id: string, score: real)

  predicate Before(a: Candidate, b: Candidate) {
    a.score < b.score || (a.score == b.score && LexLe(a.id, b.id))
  }

  lemma BeforeIsPreorder()
    ensures Sorting.TotalPreorder(Before)
  {
    forall a, b ensures Before(a, b) || Before(b, a) { LexTotal(a.id, b.id); }
    forall a, b, c | Before(a, b) && Before(b, c) ensures Before(a, c) {
      if a.score == b.score == c.score { LexTransitive(a.id, b.id, c.id); }
    }
  }

  /** `id` names an eligible backend that no eligible backend comes before. */
  ghost predicate IsBest(snap: seq<Backend>, score: Backend -> real, id: string) {
    exists b :: b in snap && IsEligible(b) && b.id == id
                && forall c | c in snap && IsEligible(c) :: Before(Candidate(id, score(b)), Candidate(c.id, score(c)))
  }

  /** The best id does not depend on the order of the snapshot, nor on anything but the scores. */
  lemma BestIsOrderFree(snap: seq<Backend>, other: seq<Backend>, f: Backend -> real, g: Backend -> real,
                        x: string, y: string)
    requires IsBest(snap, f, x) && IsBest(other, g, y)
    requires forall b | IsEligible(b) :: b in snap <==> b in other
    requires forall b | b in snap && IsEligible(b) :: f(b) == g(b)
    ensures x == y
  {
    var b :| b in snap && IsEligible(b) && b.id == x
             && forall c | c in snap && IsEligible(c) :: Before(Candidate(x, f(b)), Candidate(c.id, f(c)));
    var d :| d in other && IsEligible(d) && d.id == y
             && forall c | c in other && IsEligible(c) :: Before(Candidate(y, g(d)), Candidate(c.id, g(c)));
    LexTotal(x, y);
  }

  lemma PermutedSnapshot(snap: seq<Backend>, other: seq<Backend>, score: Backend -> real, x: string, y: string)
    requires multiset(snap) == multiset(other)
    requires IsBest(snap, score, x) && IsBest(other, score, y)
    ensures x == y
  {
    forall b ensures b in snap <==> b in other { assert b in multiset(snap) <==> b in multiset(other); }
    BestIsOrderFree(snap, other, score, score, x, y);
  }

  // ------------------------------------------------------------------------------------------
  // Estimated finish time

  datatype Config = Config(
    prefillMsPerToken: real,
    decodeMsPerToken: real,
    queueMsPerQueued: real,
    runtimeWaitingMsPerReq: real,
    runtimeRunningMsPerReq: real,
    cacheStalenessPenaltyMs: real,
    kvPressurePenaltyMs: real,
    confidenceFloor: real,
    defaultDecodeTokens: int,
    defaultServiceRateTokPerSec: real)

  /** Prefix tokens the router's directory holds for (backend, key); 0 when unknown. */
  type Locator = (string, string) -> int

  function Clamp01(x: real): real { if x < 0.0 then 0.0 else if x > 1.0 then 1.0 else x }

  function Matched(cfg: Config, req: Request, b: Backend, locate: Locator): nat {
    if !b.cacheObservationSupported || b.cacheConfidence < cfg.confidenceFloor then 0
    else if !req.cacheEligible || req.prefixKeyHash == "" then 0
    else
      var found := locate(b.id, req.prefixKeyHash);
      var m := if found > 0 then found else b.prefixMatchedTokens;
      var m := if req.prefixTokens > 0 && m > req.prefixTokens then req.prefixTokens else m;
      if req.inputLenEst > 0 && m > req.inputLenEst then req.inputLenEst else m
  }

  function DecodeMsPerToken(cfg: Config, b: Backend): real {
    if b.serviceRateSupported && b.genTokensPerSec > 1.0 then 1000.0 / b.genTokensPerSec
    else if cfg.defaultServiceRateTokPerSec > 1.0 then 1000.0 / cfg.defaultServiceRateTokPerSec
    else cfg.decodeMsPerToken
  }

  function InputLen(req: Request): nat { if req.inputLenEst < 0 then 0 else req.inputLenEst }

  function Uncached(req: Request, matched: nat): nat {
    if InputLen(req) < matched then 0 else InputLen(req) - matched
  }

  function QueueMs(cfg: Config, b: Backend): real {
    (b.queueDepth + b.queueInflight) as real * cfg.queueMsPerQueued
    + b.runtimeWaiting * cfg.runtimeWaitingMsPerReq + b.runtimeRunning * cfg.runtimeRunningMsPerReq
  }

  function DecodeMs(cfg: Config, req: Request, b: Backend): real {
    var out := if req.requestedOutput <= 0 then cfg.defaultDecodeTokens else req.requestedOutput;
    out as real * DecodeMsPerToken(cfg, b)
  }

  /** Only where the cache is observed: a backend whose cache cannot be trusted is held back. */
  function StaleMs(cfg: Config, b: Backend): real {
    if b.cacheObservationSupported then cfg.cacheStalenessPenaltyMs * (1.0 - Clamp01(b.cacheConfidence)) else 0.0
  }

  function KvMs(cfg: Config, b: Backend): real {
    if b.kvHeadroomSupported then cfg.kvPressurePenaltyMs * (1.0 - Clamp01(b.kvHeadroom)) else 0.0
  }

  /** Everything but the prefill of uncached tokens. */
  function LoadMs(cfg: Config, req: Request, b: Backend): real {
    QueueMs(cfg, b) + DecodeMs(cfg, req, b) + StaleMs(cfg, b) + KvMs(cfg, b)
  }

  function FinishMs(cfg: Config, req: Request, b: Backend, locate: Locator): real {
    LoadMs(cfg, req, b) + Uncached(req, Matched(cfg, req, b, locate)) as real * cfg.prefillMsPerToken
  }

  /** The finish time the backend would have without any cached prefix. */
  function ColdMs(cfg: Config, req: Request, b: Backend): real {
    LoadMs(cfg, req, b) + InputLen(req) as real * cfg.prefillMsPerToken
  }

  /** Picks the backend with the least estimated finish time; ids break ties. */
  method SelectCacheAware(cfg: Config, req: Request, snap: seq<Backend>, locate: Locator) returns (r: Option<string>)
    ensures PolicyContract(snap, r)
    ensures r.Some? ==> IsBest(snap, b => FinishMs(cfg, req, b, locate), r.value)
  {
    var e, _ := Eligible(snap);
    if e == [] {
      return None;
    }
    assert e[0] in e;
    var costs: seq<Candidate> := [];
    for i := 0 to |e|
      invariant |costs| == i
      invariant forall j | 0 <= j < i :: costs[j] == Candidate(e[j].id, FinishMs(cfg, req, e[j], locate))
    {
      costs := costs + [Candidate(e[i].id, FinishMs(cfg, req, e[i], locate))];
    }
    BeforeIsPreorder();
    var sorted := Sorting.SortSlice(costs, Before);
    HeadIsLeast(costs, sorted);
    ghost var score := b => FinishMs(cfg, req, b, locate);
    ghost var i :| 0 <= i < |costs| && costs[i] == sorted[0];
    assert e[i] in snap && IsEligible(e[i]);
    forall c | c in snap && IsEligible(c) ensures Before(sorted[0], Candidate(c.id, score(c))) {
      var j :| 0 <= j < |e| && e[j] == c;
      assert costs[j] in costs;
    }
    r := Some(sorted[0].id);
  }

  lemma HeadIsLeast(costs: seq<Candidate>, sorted: seq<Candidate>)
    requires costs != [] && Sorting.Sorted(sorted, Before) && multiset(sorted) == multiset(costs)
    ensures sorted != [] && sorted[0] in costs && forall c | c in costs :: Before(sorted[0], c)
  {
    assert |multiset(sorted)| == |multiset(costs)|;
    assert sorted[0] in multiset(sorted);
    forall c | c in costs ensures Before(sorted[0], c) {
      assert c in multiset(costs);
      var j :| 0 <= j < |sorted| && sorted[j] == c;
      LexTotal(c.id, c.id);
    }
  }

  lemma PrefillBounds(load: real, uncached: nat, len: nat, p: real)
    requires uncached <= len && p >= 0.0
    ensures load <= load + uncached as real * p <= load + len as real * p
  {
    assert uncached as real * p <= len as real * p;
  }

  lemma FinishBounds(cfg: Config, req: Request, b: Backend, locate: Locator)
    requires cfg.prefillMsPerToken >= 0.0
    ensures ColdMs(cfg, req, b) - InputLen(req) as real * cfg.prefillMsPerToken <= FinishMs(cfg, req, b, locate)
    ensures FinishMs(cfg, req, b, locate) <= ColdMs(cfg, req, b)
  {
    var uncached := Uncached(req, Matched(cfg, req, b, locate));
    PrefillBounds(LoadMs(cfg, req, b), uncached, InputLen(req), cfg.prefillMsPerToken);
  }

  /** Locality is worth at most the prefill it saves: a backend that is slower cold than some
      eligible backend by more than the whole prompt's prefill time is never chosen. */
  lemma LocalityIsBounded(cfg: Config, req: Request, snap: seq<Backend>, locate: Locator, id: string)
    requires cfg.prefillMsPerToken >= 0.0
    requires IsBest(snap, d => FinishMs(cfg, req, d, locate), id)
    ensures exists b :: b in snap && IsEligible(b) && b.id == id && forall c | c in snap && IsEligible(c) ::
              ColdMs(cfg, req, b) <= ColdMs(cfg, req, c) + InputLen(req) as real * cfg.prefillMsPerToken
  {
    var score := d => FinishMs(cfg, req, d, locate);
    var b :| b in snap && IsEligible(b) && b.id == id
             && forall d | d in snap && IsEligible(d) :: Before(Candidate(id, score(b)), Candidate(d.id, score(d)));
    FinishBounds(cfg, req, b, locate);
    forall c | c in snap && IsEligible(c)
      ensures ColdMs(cfg, req, b) <= ColdMs(cfg, req, c) + InputLen(req) as real * cfg.prefillMsPerToken
    {
      FinishBounds(cfg, req, c, locate);
      assert Before(Candidate(id, score(b)), Candidate(c.id, score(c)));
    }
  }

  // ------------------------------------------------------------------------------------------
  // What moves the estimate

  /** `c` is `b` with other load. */
  predicate SameButLoad(b: Backend, c: Backend) {
    c == b.(queueDepth := c.queueDepth, queueInflight := c.queueInflight,
            runtimeWaiting := c.runtimeWaiting, runtimeRunning := c.runtimeRunning)
  }

  /** Every request queued, in flight, waiting or running costs what the configuration says. */
  lemma LoadCosts(cfg: Config, req: Request, b: Backend, c: Backend, locate: Locator)
    requires SameButLoad(b, c)
    ensures FinishMs(cfg, req, c, locate) - FinishMs(cfg, req, b, locate)
            == (c.queueDepth - b.queueDepth + c.queueInflight - b.queueInflight) as real * cfg.queueMsPerQueued
               + (c.runtimeWaiting - b.runtimeWaiting) * cfg.runtimeWaitingMsPerReq
               + (c.runtimeRunning - b.runtimeRunning) * cfg.runtimeRunningMsPerReq
  {
    var p, q := (b.queueDepth + b.queueInflight) as real, (c.queueDepth + c.queueInflight) as real;
    assert (c.queueDepth - b.queueDepth + c.queueInflight - b.queueInflight) as real == q - p;
    Difference(p, q, cfg.queueMsPerQueued);
    Difference(b.runtimeWaiting, c.runtimeWaiting, cfg.runtimeWaitingMsPerReq);
    Difference(b.runtimeRunning, c.runtimeRunning, cfg.runtimeRunningMsPerReq);
  }

  lemma Difference(x: real, y: real, k: real)
    ensures y * k - x * k == (y - x) * k
  {}

  /** So more of it never makes a backend look better. */
  lemma MoreLoadNoBetter(cfg: Config, req: Request, b: Backend, c: Backend, locate: Locator)
    requires SameButLoad(b, c) && b.queueDepth <= c.queueDepth && b.queueInflight <= c.queueInflight
    requires b.runtimeWaiting <= c.runtimeWaiting && b.runtimeRunning <= c.runtimeRunning
    requires cfg.queueMsPerQueued >= 0.0 && cfg.runtimeWaitingMsPerReq >= 0.0 && cfg.runtimeRunningMsPerReq >= 0.0
    ensures FinishMs(cfg, req, b, locate) <= FinishMs(cfg, req, c, locate)
  {
    LoadCosts(cfg, req, b, c, locate);
    var q := (c.queueDepth - b.queueDepth + c.queueInflight - b.queueInflight) as real;
    NonNegative(q, cfg.queueMsPerQueued);
    NonNegative(c.runtimeWaiting - b.runtimeWaiting, cfg.runtimeWaitingMsPerReq);
    NonNegative(c.runtimeRunning - b.runtimeRunning, cfg.runtimeRunningMsPerReq);
  }

  lemma NonNegative(x: real, y: real)
    requires x >= 0.0 && y >= 0.0
    ensures x * y >= 0.0
  {}

  /** A match within the request's claim and prompt saves exactly the prefill of its tokens. */
  lemma MatchSaves(cfg: Config, req: Request, b: Backend, locate: Locator)
    requires LocalityUsable(cfg, req, b) && 0 < locate(b.id, req.prefixKeyHash) <= req.inputLenEst
    requires req.prefixTokens > 0 ==> locate(b.id, req.prefixKeyHash) <= req.prefixTokens
    ensures FinishMs(cfg, req, b, locate)
            == ColdMs(cfg, req, b) - locate(b.id, req.prefixKeyHash) as real * cfg.prefillMsPerToken
  {
    var n, m := req.inputLenEst, locate(b.id, req.prefixKeyHash);
    assert Uncached(req, Matched(cfg, req, b, locate)) == n - m;
    assert (n - m) as real == n as real - m as real;
    Difference(m as real, n as real, cfg.prefillMsPerToken);
  }

  /** A longer match never costs: whatever the claims, it leaves no more to prefill. */
  lemma LongerMatchNoWorse(cfg: Config, req: Request, b: Backend, shorter: Locator, longer: Locator)
    requires 0 < shorter(b.id, req.prefixKeyHash) <= longer(b.id, req.prefixKeyHash) && cfg.prefillMsPerToken >= 0.0
    ensures FinishMs(cfg, req, b, longer) <= FinishMs(cfg, req, b, shorter)
  {
    var u, v := Uncached(req, Matched(cfg, req, b, longer)), Uncached(req, Matched(cfg, req, b, shorter));
    assert u <= v;
    PrefillBounds(LoadMs(cfg, req, b), u, v, cfg.prefillMsPerToken);
  }

  /** Less confidence in the cache, or less room in it, never makes a backend look better. */
  lemma LessTrustNoBetter(cfg: Config, req: Request, b: Backend, c: Backend, locate: Locator)
    requires c == b.(cacheConfidence := c.cacheConfidence, kvHeadroom := c.kvHeadroom)
    requires c.cacheConfidence <= b.cacheConfidence && c.kvHeadroom <= b.kvHeadroom
    requires cfg.cacheStalenessPenaltyMs >= 0.0 && cfg.kvPressurePenaltyMs >= 0.0 && cfg.prefillMsPerToken >= 0.0
    ensures FinishMs(cfg, req, b, locate) <= FinishMs(cfg, req, c, locate)
  {
    PenaltiesGrow(cfg, req, b, c);
    Prefilled(LoadMs(cfg, req, b), LoadMs(cfg, req, c), Uncached(req, Matched(cfg, req, b, locate)),
              Uncached(req, Matched(cfg, req, c, locate)), cfg.prefillMsPerToken);
  }

  lemma Prefilled(load: real, more: real, u: nat, v: nat, p: real)
    requires load <= more && u <= v && p >= 0.0
    ensures load + u as real * p <= more + v as real * p
  {
    PrefillBounds(load, u, v, p);
  }

  lemma PenaltiesGrow(cfg: Config, req: Request, b: Backend, c: Backend)
    requires c == b.(cacheConfidence := c.cacheConfidence, kvHeadroom := c.kvHeadroom)
    requires c.cacheConfidence <= b.cacheConfidence && c.kvHeadroom <= b.kvHeadroom
    requires cfg.cacheStalenessPenaltyMs >= 0.0 && cfg.kvPressurePenaltyMs >= 0.0
    ensures LoadMs(cfg, req, b) <= LoadMs(cfg, req, c)
  {
    SameBase(cfg, req, b, c);
    StaleGrows(cfg, b, c);
    KvGrows(cfg, b, c);
  }

  lemma SameBase(cfg: Config, req: Request, b: Backend, c: Backend)
    requires c == b.(cacheConfidence := c.cacheConfidence, kvHeadroom := c.kvHeadroom)
    ensures QueueMs(cfg, b) == QueueMs(cfg, c) && DecodeMs(cfg, req, b) == DecodeMs(cfg, req, c)
  {}

  lemma StaleGrows(cfg: Config, b: Backend, c: Backend)
    requires b.cacheObservationSupported == c.cacheObservationSupported && c.cacheConfidence <= b.cacheConfidence
    requires cfg.cacheStalenessPenaltyMs >= 0.0
    ensures StaleMs(cfg, b) <= StaleMs(cfg, c)
  {
    PenaltyGrows(cfg.cacheStalenessPenaltyMs, c.cacheConfidence, b.cacheConfidence);
  }

  lemma KvGrows(cfg: Config, b: Backend, c: Backend)
    requires b.kvHeadroomSupported == c.kvHeadroomSupported && c.kvHeadroom <= b.kvHeadroom
    requires cfg.kvPressurePenaltyMs >= 0.0
    ensures KvMs(cfg, b) <= KvMs(cfg, c)
  {
    PenaltyGrows(cfg.kvPressurePenaltyMs, c.kvHeadroom, b.kvHeadroom);
  }

  lemma PenaltyGrows(w: real, x: real, y: real)
    requires w >= 0.0 && x <= y
    ensures w * (1.0 - Clamp01(y)) <= w * (1.0 - Clamp01(x))
  {
    NonNegative(w, Clamp01(y) - Clamp01(x));
  }

  /** An idle backend takes the prompt's prefill and the expected output at its measured rate, or
      the default one. */
  lemma IdleEstimate(cfg: Config, req: Request, b: Backend, locate: Locator, rate: real, out: int)
    requires b.queueDepth == b.queueInflight == 0 && b.runtimeWaiting == b.runtimeRunning == 0.0
    requires !b.cacheObservationSupported && !b.kvHeadroomSupported && req.inputLenEst >= 0
    requires out == if req.requestedOutput > 0 then req.requestedOutput else cfg.defaultDecodeTokens
    requires rate > 1.0 && rate == if b.serviceRateSupported && b.genTokensPerSec > 1.0 then b.genTokensPerSec
                                   else cfg.defaultServiceRateTokPerSec
    ensures (FinishMs(cfg, req, b, locate) - req.inputLenEst as real * cfg.prefillMsPerToken) * rate
            == 1000.0 * out as real
  {
    var ms := 1000.0 / rate;
    assert LoadMs(cfg, req, b) == out as real * ms;
    assert ms * rate == 1000.0;
    Reassociate(out as real, ms, rate);
  }

  lemma Reassociate(x: real, y: real, z: real)
    ensures (x * y) * z == x * (y * z)
  {}

  /** May a match on this backend count at all? */
  predicate LocalityUsable(cfg: Config, req: Request, b: Backend) {
    && b.cacheObservationSupported && b.cacheConfidence >= cfg.confidenceFloor
    && req.cacheEligible && req.prefixKeyHash != ""
  }

  lemma UnusableIsCold(cfg: Config, req: Request, b: Backend, locate: Locator)
    requires !LocalityUsable(cfg, req, b)
    ensures FinishMs(cfg, req, b, locate) == ColdMs(cfg, req, b)
  {
    assert Uncached(req, Matched(cfg, req, b, locate)) == InputLen(req);
  }

  /** Where no eligible backend offers usable locality the directory cannot sway the choice:
      it is the choice of the estimate without a cache. */
  lemma LocatorIrrelevant(cfg: Config, req: Request, snap: seq<Backend>, locate: Locator, id: string)
    requires forall b | b in snap && IsEligible(b) :: !LocalityUsable(cfg, req, b)
    requires IsBest(snap, d => FinishMs(cfg, req, d, locate), id)
    ensures IsBest(snap, d => ColdMs(cfg, req, d), id)
  {
    var warm, cold := d => FinishMs(cfg, req, d, locate), d => ColdMs(cfg, req, d);
    forall b | b in snap && IsEligible(b) ensures warm(b) == cold(b) { UnusableIsCold(cfg, req, b, locate); }
    SameScoresSameBest(snap, warm, cold, id);
  }

  lemma SameScoresSameBest(snap: seq<Backend>, f: Backend -> real, g: Backend -> real, id: string)
    requires IsBest(snap, f, id) && forall b | b in snap && IsEligible(b) :: f(b) == g(b)
    ensures IsBest(snap, g, id)
  {
    var b :| b in snap && IsEligible(b) && b.id == id
             && forall c | c in snap && IsEligible(c) :: Before(Candidate(id, f(b)), Candidate(c.id, f(c)));
    forall c | c in snap && IsEligible(c) ensures Before(Candidate(id, g(b)), Candidate(c.id, g(c))) {
      assert Before(Candidate(id, f(b)), Candidate(c.id, f(c)));
    }
  }

  // ------------------------------------------------------------------------------------------
  // Affinity alone

  function AffinityMatch(req: Request, b: Backend, locate: Locator): nat {
    if req.prefixKeyHash != "" && b.cacheObservationSupported && locate(b.id, req.prefixKeyHash) > b.prefixMatchedTokens
    then locate(b.id, req.prefixKeyHash) else b.prefixMatchedTokens
  }

  /** What affinity means: no eligible backend has a longer match, on record or, where its cache
      is observed, in the directory. */
  lemma AffinityIsLongest(req: Request, snap: seq<Backend>, locate: Locator, id: string) returns (b: Backend, n: nat)
    requires IsBest(snap, d => -(AffinityMatch(req, d, locate) as real), id)
    ensures b in snap && b.id == id && IsEligible(b)
    ensures n == b.prefixMatchedTokens
            || (req.prefixKeyHash != "" && b.cacheObservationSupported && n == locate(id, req.prefixKeyHash))
    ensures forall c | c in snap && IsEligible(c) ::
              c.prefixMatchedTokens <= n
              && (req.prefixKeyHash != "" && c.cacheObservationSupported ==> locate(c.id, req.prefixKeyHash) <= n)
  {
    var score := d => -(AffinityMatch(req, d, locate) as real);
    b :| b in snap && IsEligible(b) && b.id == id
         && forall c | c in snap && IsEligible(c) :: Before(Candidate(id, score(b)), Candidate(c.id, score(c)));
    n := AffinityMatch(req, b, locate);
    forall c | c in snap && IsEligible(c) ensures AffinityMatch(req, c, locate) <= n {
      assert Before(Candidate(id, score(b)), Candidate(c.id, score(c)));
    }
  }

  /** Most matched tokens, ids breaking ties. */
  method SelectAffinity(req: Request, snap: seq<Backend>, locate: Locator) returns (r: Option<string>)
    ensures PolicyContract(snap, r)
    ensures r.Some? ==> IsBest(snap, b => -(AffinityMatch(req, b, locate) as real), r.value)
  {
    var e, _ := Eligible(snap);
    if e == [] {
      return None;
    }
    assert e[0] in e;
    var bestIdx := ScanMost(req, e, locate);
    LeaderIsBest(snap, e, b => -(AffinityMatch(req, b, locate) as real), bestIdx);
    r := Some(e[bestIdx].id);
  }

  method ScanMost(req: Request, e: seq<Backend>, locate: Locator) returns (bestIdx: nat)
    requires e != []
    ensures LeadsFirst(e, |e|, b => -(AffinityMatch(req, b, locate) as real), bestIdx)
  {
    ghost var score := b => -(AffinityMatch(req, b, locate) as real);
    bestIdx := 0;
    var bestMatch: int := -1;
    for i := 0 to |e|
      invariant bestIdx < |e| && (i == 0 ==> bestMatch == -1)
      invariant i > 0 ==> bestMatch == AffinityMatch(req, e[bestIdx], locate)
      invariant LeadsFirst(e, i, score, bestIdx)
    {
      var m := AffinityMatch(req, e[i], locate);
      LexTotal(e[i].id, e[bestIdx].id);
      if m > bestMatch || (m == bestMatch && e[i].id != e[bestIdx].id && LexLe(e[i].id, e[bestIdx].id)) {
        NewLeader(e, i, score, bestIdx);
        bestMatch := m;
        bestIdx := i;
      }
    }
  }

  lemma LeaderIsBest(snap: seq<Backend>, e: seq<Backend>, score: Backend -> real, k: nat)
    requires LeadsFirst(e, |e|, score, k) && forall b :: b in e <==> b in snap && IsEligible(b)
    ensures IsBest(snap, score, e[k].id) && IsEligibleId(snap, e[k].id)
  {
    assert e[k] in e;
    forall c | c in snap && IsEligible(c) ensures Before(Scored(e[k], score), Scored(c, score)) {
      assert c in e;
    }
  }

  function Scored(b: Backend, score: Backend -> real): Candidate { Candidate(b.id, score(b)) }

  /** None of the first `n` comes before the k-th. */
  ghost predicate LeadsFirst(e: seq<Backend>, n: nat, score: Backend -> real, k: nat) {
    n <= |e| && k < |e| && forall j | 0 <= j < n :: Before(Scored(e[k], score), Scored(e[j], score))
  }

  lemma NewLeader(e: seq<Backend>, n: nat, score: Backend -> real, k: nat)
    requires LeadsFirst(e, n, score, k) && n < |e|
    requires n > 0 ==> Before(Scored(e[n], score), Scored(e[k], score))
    ensures LeadsFirst(e, n + 1, score, n)
  {
    BeforeIsPreorder();
  }

  // ------------------------------------------------------------------------------------------
  // The other baselines

  /** The i-th backend is eligible, no eligible one scores less, and no earlier one as little. */
  ghost predicate FirstLeast(snap: seq<Backend>, score: Backend -> real, i: nat)
    requires i < |snap|
  {
    && IsEligible(snap[i])
    && forall j | 0 <= j < |snap| && IsEligible(snap[j]) ::
         score(snap[i]) <= score(snap[j]) && (j < i ==> score(snap[i]) < score(snap[j]))
  }

  ghost predicate IsFirstLeast(snap: seq<Backend>, score: Backend -> real, id: string) {
    exists i :: 0 <= i < |snap| && snap[i].id == id && FirstLeast(snap, score, i)
  }

  /** The scan the three load-based baselines share: a later backend must be strictly better. */
  method SelectFirstLeast(snap: seq<Backend>, score: Backend -> real) returns (r: Option<string>)
    ensures PolicyContract(snap, r)
    ensures r.Some? ==> IsFirstLeast(snap, score, r.value)
  {
    var e, idx := Eligible(snap);
    if e == [] {
      return None;
    }
    var at := ScanLeast(e, score);
    FirstLeastInFilter(snap, e, idx, score, at);
    r := Some(e[at].id);
  }

  /** The k-th element scores least, and strictly less than the ones before it. */
  ghost predicate LeastAt(e: seq<Backend>, n: nat, score: Backend -> real, k: nat) {
    && k < n <= |e|
    && forall j | 0 <= j < n :: score(e[k]) <= score(e[j]) && (j < k ==> score(e[k]) < score(e[j]))
  }

  method ScanLeast(e: seq<Backend>, score: Backend -> real) returns (at: nat)
    requires e != []
    ensures LeastAt(e, |e|, score, at)
  {
    at := 0;
    for i := 1 to |e|
      invariant LeastAt(e, i, score, at)
    {
      if score(e[i]) < score(e[at]) {
        at := i;
      }
    }
  }

  lemma FirstLeastInFilter(snap: seq<Backend>, e: seq<Backend>, idx: seq<nat>, score: Backend -> real, at: nat)
    requires Filters(snap, |snap|, e, idx) && LeastAt(e, |e|, score, at)
    ensures IsFirstLeast(snap, score, e[at].id) && IsEligibleId(snap, e[at].id)
  {
    forall j | 0 <= j < |snap| && IsEligible(snap[j])
      ensures score(e[at]) <= score(snap[j]) && (j < idx[at] ==> score(e[at]) < score(snap[j]))
    {
      assert e[EligibleBefore(snap, j)] == snap[j];
      if j < idx[at] { var _ := EarlierInFilter(snap, e, idx, at, j); }
    }
    assert FirstLeast(snap, score, idx[at]);
    assert snap[idx[at]] in snap;
  }

  function QueueLoad(b: Backend): real { (b.queueDepth + b.queueInflight) as real }

  function RuntimeWaiting(b: Backend): real { b.runtimeWaiting }

  /** Load in the queue, the runtime and the KV cache, held against an unstable backend. */
  function Pressure(b: Backend): real {
    var p := QueueLoad(b) + b.runtimeWaiting + b.runtimeRunning + 4.0 * b.kvCacheUtil;
    if b.stabilityScore > 0.0 then p / b.stabilityScore else p
  }

  /** The default policy: nobody eligible has fewer requests queued and in flight. */
  method SelectLeastQueued(snap: seq<Backend>) returns (r: Option<string>)
    ensures PolicyContract(snap, r)
    ensures r.Some? ==> IsFirstLeast(snap, QueueLoad, r.value)
    ensures r.Some? ==> exists b :: b in snap && b.id == r.value && forall c | c in snap && IsEligible(c) ::
              b.queueDepth + b.queueInflight <= c.queueDepth + c.queueInflight
  {
    r := SelectFirstLeast(snap, QueueLoad);
    if r.Some? {
      ghost var b := LeastOfAll(snap, QueueLoad, r.value);
      assert forall c | c in snap && IsEligible(c) :: QueueLoad(b) <= QueueLoad(c);
    }
  }

  lemma LeastOfAll(snap: seq<Backend>, score: Backend -> real, id: string) returns (b: Backend)
    requires IsFirstLeast(snap, score, id)
    ensures b in snap && IsEligible(b) && b.id == id && forall c | c in snap && IsEligible(c) :: score(b) <= score(c)
  {
    var i :| 0 <= i < |snap| && snap[i].id == id && FirstLeast(snap, score, i);
    b := snap[i];
  }

  /** A backend as stable as can be feels each request once and a full cache as four. */
  lemma PressureOfStable(b: Backend)
    requires b.stabilityScore == 1.0
    ensures Pressure(b) == b.queueDepth as real + b.queueInflight as real
                           + b.runtimeWaiting + b.runtimeRunning + 4.0 * b.kvCacheUtil
  {}

  /** More load never relieves a backend. */
  lemma PressureBehaves(b: Backend, c: Backend)
    requires SameButLoad(b.(kvCacheUtil := c.kvCacheUtil), c) && b.kvCacheUtil <= c.kvCacheUtil
    requires b.queueDepth <= c.queueDepth && b.queueInflight <= c.queueInflight
    requires b.runtimeWaiting <= c.runtimeWaiting && b.runtimeRunning <= c.runtimeRunning
    ensures Pressure(b) <= Pressure(c)
  {
    var p := QueueLoad(b) + b.runtimeWaiting + b.runtimeRunning + 4.0 * b.kvCacheUtil;
    var q := QueueLoad(c) + c.runtimeWaiting + c.runtimeRunning + 4.0 * c.kvCacheUtil;
    if b.stabilityScore > 0.0 { SharesOrdered(p, q, b.stabilityScore); }
  }

  /** And under a given load, the stabler a backend, the less its pressure. */
  lemma StablerNoWorse(b: Backend, c: Backend)
    requires c == b.(stabilityScore := c.stabilityScore) && 0.0 < c.stabilityScore <= b.stabilityScore
    requires QueueLoad(b) + b.runtimeWaiting + b.runtimeRunning + 4.0 * b.kvCacheUtil >= 0.0
    ensures Pressure(b) <= Pressure(c)
  {
    var p := QueueLoad(b) + b.runtimeWaiting + b.runtimeRunning + 4.0 * b.kvCacheUtil;
    BiggerDivisor(p, c.stabilityScore, b.stabilityScore);
  }

  lemma BiggerDivisor(p: real, s: real, t: real)
    requires p >= 0.0 && 0.0 < s <= t
    ensures p / t <= p / s
  {
    var x, y := p / t, p / s;
    assert x * t == p && y * s == p;
    CancelOrder(0.0, x, t);
    NonNegative(x, t - s);
    assert x * (t - s) == x * t - x * s;
    CancelOrder(x, y, s);
  }

  lemma CancelOrder(x: real, y: real, s: real)
    requires s > 0.0 && x * s <= y * s
    ensures x <= y
  {
    Difference(y, x, s);
    if y < x { NonNegative(x - y, s); }
  }

  lemma SharesOrdered(a: real, b: real, s: real)
    requires a <= b && s > 0.0
    ensures a / s <= b / s
  {
    var x, y := a / s, b / s;
    assert x * s == a && y * s == b;
    CancelOrder(x, y, s);
  }

  /** Nobody eligible has fewer requests waiting in its runtime. */
  method SelectLeastWaiting(snap: seq<Backend>) returns (r: Option<string>)
    ensures PolicyContract(snap, r)
    ensures r.Some? ==> IsFirstLeast(snap, RuntimeWaiting, r.value)
    ensures r.Some? ==> exists b :: b in snap && b.id == r.value && forall c | c in snap && IsEligible(c) ::
              b.runtimeWaiting <= c.runtimeWaiting
  {
    r := SelectFirstLeast(snap, RuntimeWaiting);
    if r.Some? {
      ghost var b := LeastOfAll(snap, RuntimeWaiting, r.value);
      assert forall c | c in snap && IsEligible(c) :: RuntimeWaiting(b) <= RuntimeWaiting(c);
    }
  }

  method SelectLeastPressure(snap: seq<Backend>) returns (r: Option<string>)
    ensures PolicyContract(snap, r)
    ensures r.Some? ==> IsFirstLeast(snap, Pressure, r.value)
  {
    r := SelectFirstLeast(snap, Pressure);
  }

  /** Takes the eligible backends in turn, by a counter that only successful calls advance. The
      ghost fields record, call by successful call, how many were eligible and which rank among
      them was picked. */
  class RoundRobin {
    var n: nat
    ghost var sizes: seq<nat>
    ghost var ranks: seq<nat>

    ghost predicate Valid()
      reads this
    {
      && n == |sizes| == |ranks|
      && forall j | 0 <= j < n :: sizes[j] > 0 && ranks[j] == j % sizes[j]
    }

    constructor ()
      ensures Valid() && ranks == []
    {
      n, sizes, ranks := 0, [], [];
    }

    /** Besides the id: its rank among the eligible backends and its place in the snapshot. */
    method Select(snap: seq<Backend>) returns (r: Option<string>, ghost k: nat, ghost i: nat)
      requires Valid()
      modifies this
      ensures Valid() && PolicyContract(snap, r)
      ensures r.None? ==> ranks == old(ranks) && sizes == old(sizes)
      ensures r.Some? ==> ranks == old(ranks) + [k] && sizes == old(sizes) + [EligibleBefore(snap, |snap|)]
      ensures r.Some? ==> NthEligible(snap, k, i) && snap[i].id == r.value
    {
      var e, idx := Eligible(snap);
      if e == [] {
        return None, 0, 0;
      }
      var turn := n % |e|;
      n := n + 1;
      assert e[turn] in e && NthEligible(snap, turn, idx[turn]);
      k, i := turn, idx[turn];
      sizes, ranks := sizes + [|e|], ranks + [k];
      r := Some(e[turn].id);
    }

    /** Any `m` consecutive successful calls, each with `m` eligible backends to choose from, pick
        each rank among them exactly once. */
    lemma FullRound(from: nat, m: nat, k: nat) returns (j: nat)
      requires Valid() && from + m <= n && k < m
      requires forall i | from <= i < from + m :: sizes[i] == m
      ensures from <= j < from + m && ranks[j] == k
      ensures forall i | from <= i < from + m && ranks[i] == k :: i == j
    {
      j := EachTurnOnce(from, m, k);
    }
  }

  /** Each remainder has one turn among `m` consecutive ones. */
  lemma {:induction false} EachTurnOnce(n: nat, m: nat, k: nat) returns (i: nat)
    requires k < m
    ensures n <= i < n + m && i % m == k
    ensures forall j | n <= j < n + m && j % m == k :: j == i
  {
    if n == 0 {
      i := k;
      forall j | 0 <= j < m ensures j % m == j { Remainder(j, 0, m, j); }
    } else {
      i := EachTurnOnce(n - 1, m, k);
      var first := n - 1;
      Remainder(first + m, first / m + 1, m, first % m);
      if i == first { i := first + m; }
    }
  }

  lemma {:induction false} Remainder(a: nat, q: nat, m: nat, r: nat)
    requires m > 0 && a == q * m + r && r < m
    ensures a % m == r
  {
    AtLeastOne(q - a / m, m);
    assert (q - a / m) * m == a % m - r;
  }

  lemma AtLeastOne(d: int, m: int)
    requires m > 0
    ensures d >= 1 ==> d * m >= m
    ensures d <= -1 ==> d * m <= -m
  {
    if d >= 1 { assert (d - 1) * m >= 0; }
    if d <= -1 { assert (d + 1) * m <= 0; }
  }
}
