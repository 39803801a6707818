/** Worker appearances and disappearances, kept in lists bounded by age and by size. */
module WorkerLog {
  import opened Sequences

  ghost predicate Nondecreasing(s: seq<int>) { forall i, j | 0 <= i < j < |s| :: s[i] <= s[j] }

  /** How many of the first `n` events are not older than `cutoff`. */
  function RecentTo(all: seq<int>, n: nat, cutoff: int): (k: nat)
    requires n <= |all|
    ensures k <= n
  {
    if n == 0 then 0 else RecentTo(all, n - 1, cutoff) + if all[n - 1] >= cutoff then 1 else 0
  }

  function Recent(all: seq<int>, cutoff: int): (k: nat)
    ensures k <= |all|
  {
    RecentTo(all, |all|, cutoff)
  }

  /** In an ordered history the recent events are the last ones. */
  lemma {:induction false} RecentIsSuffix(all: seq<int>, n: nat, cutoff: int)
    requires Nondecreasing(all) && n <= |all|
    ensures forall i | 0 <= i < n :: all[i] >= cutoff <==> i >= n - RecentTo(all, n, cutoff)
  {
    if n > 0 { RecentIsSuffix(all, n - 1, cutoff); }
  }

  lemma RecentUnique(s: seq<int>, cutoff: int, k: nat)
    requires Nondecreasing(s) && k <= |s|
    requires forall i | 0 <= i < |s| :: s[i] >= cutoff <==> i >= |s| - k
    ensures Recent(s, cutoff) == k
  {
    RecentIsSuffix(s, |s|, cutoff);
    var m := Recent(s, cutoff);
    var i := |s| - if m > k then m else k;
    if i < |s| { assert s[i] >= cutoff; }
  }

  lemma {:induction false} LaterSeesFewer(all: seq<int>, n: nat, cutoff: int, later: int)
    requires cutoff <= later && n <= |all|
    ensures RecentTo(all, n, later) <= RecentTo(all, n, cutoff)
  {
    if n > 0 { LaterSeesFewer(all, n - 1, cutoff, later); }
  }

  /** `r` is the end of `s`. */
  ghost predicate Tail(r: seq<int>, s: seq<int>) {
    |r| <= |s| && forall i | 0 <= i < |r| :: r[i] == s[|s| - |r| + i]
  }

  lemma TailOrdered(r: seq<int>, s: seq<int>)
    requires Tail(r, s) && Nondecreasing(s)
    ensures Nondecreasing(r)
  {
    forall i, j | 0 <= i < j < |r| ensures r[i] <= r[j] {
      assert r[i] == s[|s| - |r| + i] && r[j] == s[|s| - |r| + j];
    }
  }

  lemma RecentOfTail(r: seq<int>, s: seq<int>, cutoff: int)
    requires Tail(r, s) && Nondecreasing(s)
    ensures Recent(r, cutoff) == Min(|r|, Recent(s, cutoff))
  {
    RecentIsSuffix(s, |s|, cutoff);
    TailOrdered(r, s);
    RecentUnique(r, cutoff, Min(|r|, Recent(s, cutoff)));
  }

  /** What pruning keeps: the events inside the window, and of those the last `cap`. */
  ghost predicate Kept(r: seq<int>, s: seq<int>, cutoff: int, cap: nat) {
    Tail(r, s) && |r| == Min(cap, Recent(s, cutoff))
  }

  /** Pruning a long enough tail of a history is pruning the history. */
  lemma PruneTail(r: seq<int>, mid: seq<int>, s: seq<int>, cutoff: int, cap: nat)
    requires Nondecreasing(s) && Tail(mid, s) && Min(cap, Recent(s, cutoff)) <= |mid| && Kept(r, mid, cutoff, cap)
    ensures Kept(r, s, cutoff, cap)
  {
    RecentOfTail(mid, s, cutoff);
    forall i | 0 <= i < |r| ensures r[i] == s[|s| - |r| + i] {
      assert r[i] == mid[|mid| - |r| + i];
    }
  }

  /** Drops events older than the window from the front, then caps the size. */
  method PruneTimes(s: seq<int>, cutoff: int, maxEntries: nat) returns (r: seq<int>)
    requires Nondecreasing(s)
    ensures Kept(r, s, cutoff, maxEntries)
  {
    var i := 0;
    while i < |s| && s[i] < cutoff
      invariant 0 <= i <= |s| && forall j | 0 <= j < i :: s[j] < cutoff
    {
      i := i + 1;
    }
    FirstRecent(s, i, cutoff);
    r := s[i..];
    if |r| > maxEntries {
      r := r[|r| - maxEntries..];
    }
  }

  /** Prunes what an earlier pruning kept, which comes to pruning the complete history. */
  method PruneAgain(kept: seq<int>, ghost all: seq<int>, ghost before: int, cutoff: int, maxEntries: nat)
    returns (r: seq<int>)
    requires Nondecreasing(all) && Kept(kept, all, before, maxEntries) && before <= cutoff
    ensures Kept(r, all, cutoff, maxEntries)
  {
    TailOrdered(kept, all);
    LaterSeesFewer(all, |all|, before, cutoff);
    r := PruneTimes(kept, cutoff, maxEntries);
    PruneTail(r, kept, all, cutoff, maxEntries);
  }

  lemma FirstRecent(s: seq<int>, i: nat, cutoff: int)
    requires Nondecreasing(s) && i <= |s| && (forall j | 0 <= j < i :: s[j] < cutoff) && (i < |s| ==> s[i] >= cutoff)
    ensures Recent(s, cutoff) == |s| - i
  {
    RecentUnique(s, cutoff, |s| - i);
  }

  /** One bounded list. `all` is everything ever recorded, `latest` the last clock reading used. */
  class TimedLog {
    const windowNs: int
    const maxEntries: nat
    var times: seq<int>
    ghost var all: seq<int>
    ghost var latest: int

    /** The list is the newest part of the complete history: the events inside the window,
        and of those the last `maxEntries`. */
    ghost predicate Valid()
      reads this
    {
      && Nondecreasing(all)
      && (all != [] ==> all[|all| - 1] <= latest)
      && Kept(times, all, latest - windowNs, maxEntries)
    }

    constructor (windowNs: int, maxEntries: nat)
      ensures Valid() && all == [] && this.windowNs == windowNs && this.maxEntries == maxEntries
    {
      this.windowNs, this.maxEntries := windowNs, maxEntries;
      times, all, latest := [], [], 0;
    }

    method Prune(now: int)
      requires Valid() && latest <= now
      modifies this`times, this`latest
      ensures Valid() && latest == now
    {
      times := PruneAgain(times, all, latest - windowNs, now - windowNs, maxEntries);
      latest := now;
    }

    method Record(now: int)
      requires Valid() && latest <= now
      modifies this
      ensures Valid() && latest == now && all == old(all) + [now]
    {
      Append(times, all, now, latest - windowNs, now - windowNs, maxEntries);
      TailOrdered(times + [now], all + [now]);
      var pruned := PruneTimes(times + [now], now - windowNs, maxEntries);
      PruneTail(pruned, times + [now], all + [now], now - windowNs, maxEntries);
      times, all, latest := pruned, all + [now], now;
    }
  }

  /** After an append the kept list plus the new event is still long enough to prune from. */
  lemma Append(r: seq<int>, s: seq<int>, now: int, cutoff: int, later: int, cap: nat)
    requires Nondecreasing(s) && (s != [] ==> s[|s| - 1] <= now) && Kept(r, s, cutoff, cap) && cutoff <= later
    ensures Nondecreasing(s + [now]) && Tail(r + [now], s + [now])
    ensures Min(cap, Recent(s + [now], later)) <= |r + [now]|
  {
    assert forall i | 0 <= i < |s| :: s[i] <= now;
    LaterSeesFewer(s, |s|, cutoff, later);
    SamePrefix(s, now, |s|, later);
  }

  lemma {:induction false} SamePrefix(all: seq<int>, x: int, n: nat, cutoff: int)
    requires n <= |all|
    ensures RecentTo(all + [x], n, cutoff) == RecentTo(all, n, cutoff)
  {
    if n > 0 { SamePrefix(all, x, n - 1, cutoff); }
  }

  // ------------------------------------------------------------------------------------------
  // Rapid restarts

  /** Did a worker appear within `thresh` after the disappearance at `d`? */
  predicate Restarted(d: int, apps: seq<int>, thresh: int) {
    exists j :: 0 <= j < |apps| && d < apps[j] && apps[j] - d <= thresh
  }

  /** Of the first `n` disappearances, those since `cutoff` followed by a rapid restart. */
  function RapidTo(dis: seq<int>, n: nat, apps: seq<int>, cutoff: int, thresh: int): nat
    requires n <= |dis|
  {
    if n == 0 then 0
    else RapidTo(dis, n - 1, apps, cutoff, thresh)
         + if dis[n - 1] >= cutoff && Restarted(dis[n - 1], apps, thresh) then 1 else 0
  }

  function Rapid(dis: seq<int>, apps: seq<int>, cutoff: int, thresh: int): nat {
    RapidTo(dis, |dis|, apps, cutoff, thresh)
  }

  /** `d` was followed by an appearance no later than `thresh` after it. */
  ghost predicate Followed(d: int, apps: seq<int>, thresh: int) {
    exists a :: a in apps && 0 < a - d <= thresh
  }

  lemma RestartedIsFollowed(d: int, apps: seq<int>, thresh: int)
    ensures Restarted(d, apps, thresh) <==> Followed(d, apps, thresh)
  {
    if Followed(d, apps, thresh) {
      var a :| a in apps && 0 < a - d <= thresh;
      var j :| 0 <= j < |apps| && apps[j] == a;
    }
    if Restarted(d, apps, thresh) {
      var j :| 0 <= j < |apps| && d < apps[j] && apps[j] - d <= thresh;
      assert apps[j] in apps;
    }
  }

  /** The count is zero exactly if no recent disappearance was followed in time, and complete
      exactly if all were recent and followed. */
  lemma {:induction false} RapidEdges(dis: seq<int>, n: nat, apps: seq<int>, cutoff: int, thresh: int)
    requires n <= |dis|
    ensures RapidTo(dis, n, apps, cutoff, thresh) <= n
    ensures RapidTo(dis, n, apps, cutoff, thresh) == 0 <==>
              forall i | 0 <= i < n && dis[i] >= cutoff :: !Followed(dis[i], apps, thresh)
    ensures RapidTo(dis, n, apps, cutoff, thresh) == n <==>
              forall i | 0 <= i < n :: dis[i] >= cutoff && Followed(dis[i], apps, thresh)
  {
    if n > 0 {
      RapidEdges(dis, n - 1, apps, cutoff, thresh);
      RestartedIsFollowed(dis[n - 1], apps, thresh);
    }
  }

  lemma {:induction false} NoneRapid(dis: seq<int>, n: nat, apps: seq<int>, cutoff: int, thresh: int)
    requires n <= |dis| && forall j | 0 <= j < n :: dis[j] < cutoff
    ensures RapidTo(dis, n, apps, cutoff, thresh) == 0
  {
    if n > 0 { NoneRapid(dis, n - 1, apps, cutoff, thresh); }
  }

  /** Holds everything not older than `cutoff`. */
  ghost predicate Covers(r: seq<int>, s: seq<int>, cutoff: int) {
    Tail(r, s) && forall j | 0 <= j < |s| - |r| :: s[j] < cutoff
  }

  lemma RestartOnTail(d: int, r: seq<int>, s: seq<int>, cutoff: int, thresh: int)
    requires d >= cutoff && Covers(r, s, cutoff)
    ensures Restarted(d, r, thresh) == Restarted(d, s, thresh)
  {
    var gone := |s| - |r|;
    if Restarted(d, s, thresh) {
      var j :| 0 <= j < |s| && d < s[j] && s[j] - d <= thresh;
      assert r[j - gone] == s[j];
    }
  }

  /** Older events do not matter to either side of the count. */
  lemma {:induction false} RapidOnTail(d: seq<int>, dis: seq<int>, a: seq<int>, apps: seq<int>,
                                       i: nat, cutoff: int, thresh: int)
    requires Covers(d, dis, cutoff) && Covers(a, apps, cutoff) && i <= |d|
    ensures RapidTo(d, i, a, cutoff, thresh) == RapidTo(dis, |dis| - |d| + i, apps, cutoff, thresh)
  {
    if i == 0 {
      NoneRapid(dis, |dis| - |d|, apps, cutoff, thresh);
    } else {
      RapidOnTail(d, dis, a, apps, i - 1, cutoff, thresh);
      if d[i - 1] >= cutoff { RestartOnTail(d[i - 1], a, apps, cutoff, thresh); }
    }
  }

  /** Whatever was left out, the kept ends of the histories give no more than the histories. */
  lemma {:induction false} RapidOfTail(d: seq<int>, dis: seq<int>, a: seq<int>, apps: seq<int>,
                                       i: nat, cutoff: int, thresh: int)
    requires Tail(d, dis) && Tail(a, apps) && i <= |d|
    ensures RapidTo(d, i, a, cutoff, thresh) <= RapidTo(dis, |dis| - |d| + i, apps, cutoff, thresh)
  {
    if i > 0 {
      RapidOfTail(d, dis, a, apps, i - 1, cutoff, thresh);
      if Restarted(d[i - 1], a, thresh) { RestartKnown(d[i - 1], a, apps, thresh); }
    }
  }

  lemma RestartKnown(d: int, r: seq<int>, s: seq<int>, thresh: int)
    requires Tail(r, s) && Restarted(d, r, thresh)
    ensures Restarted(d, s, thresh)
  {
    var j :| 0 <= j < |r| && d < r[j] && r[j] - d <= thresh;
    assert s[|s| - |r| + j] == r[j];
  }

  lemma KeptCovers(r: seq<int>, s: seq<int>, cutoff: int, cap: nat)
    requires Nondecreasing(s) && Kept(r, s, cutoff, cap)
    ensures forall i | 0 <= i < |r| :: r[i] >= cutoff
    ensures Recent(s, cutoff) <= cap ==> Covers(r, s, cutoff)
  {
    RecentIsSuffix(s, |s|, cutoff);
  }

  /** Counts rapid restarts. The bounded lists never give more than the complete histories, and
      exactly as many as long as the size cap leaves out nothing in the window. */
  method RapidRestartEvents(dis: TimedLog, apps: TimedLog, now: int, thresh: int) returns (count: nat)
    requires dis != apps && dis.Valid() && apps.Valid() && dis.latest <= now && apps.latest <= now
    requires dis.windowNs == apps.windowNs
    modifies dis, apps
    ensures dis.Valid() && apps.Valid() && dis.all == old(dis.all) && apps.all == old(apps.all)
    ensures dis.latest == apps.latest == now
    ensures count == Rapid(dis.times, apps.times, now - dis.windowNs, thresh)
    ensures count <= Rapid(dis.all, apps.all, now - dis.windowNs, thresh)
    ensures Recent(dis.all, now - dis.windowNs) <= dis.maxEntries
            && Recent(apps.all, now - dis.windowNs) <= apps.maxEntries ==>
              count == Rapid(dis.all, apps.all, now - dis.windowNs, thresh)
  {
    dis.Prune(now);
    apps.Prune(now);
    ghost var cutoff := now - dis.windowNs;
    KeptCovers(dis.times, dis.all, cutoff, dis.maxEntries);
    count := CountRapid(dis.times, apps.times, cutoff, thresh);
    AgainstAll(dis.times, dis.all, dis.maxEntries, apps.times, apps.all, apps.maxEntries, cutoff, thresh);
  }

  lemma AgainstAll(d: seq<int>, dis: seq<int>, dcap: nat, a: seq<int>, apps: seq<int>, acap: nat,
                   cutoff: int, thresh: int)
    requires Nondecreasing(dis) && Kept(d, dis, cutoff, dcap) && Nondecreasing(apps) && Kept(a, apps, cutoff, acap)
    ensures Rapid(d, a, cutoff, thresh) <= Rapid(dis, apps, cutoff, thresh)
    ensures Recent(dis, cutoff) <= dcap && Recent(apps, cutoff) <= acap ==>
              Rapid(d, a, cutoff, thresh) == Rapid(dis, apps, cutoff, thresh)
  {
    RapidOfTail(d, dis, a, apps, |d|, cutoff, thresh);
    if Recent(dis, cutoff) <= dcap && Recent(apps, cutoff) <= acap {
      KeptCovers(d, dis, cutoff, dcap);
      KeptCovers(a, apps, cutoff, acap);
      RapidOnTail(d, dis, a, apps, |d|, cutoff, thresh);
    }
  }

  method CountRapid(dis: seq<int>, apps: seq<int>, ghost cutoff: int, thresh: int) returns (count: nat)
    requires forall i | 0 <= i < |dis| :: dis[i] >= cutoff
    ensures count == Rapid(dis, apps, cutoff, thresh)
  {
    count := 0;
    for i := 0 to |dis|
      invariant count == RapidTo(dis, i, apps, cutoff, thresh)
    {
      var found := false;
      for j := 0 to |apps|
        invariant !found && forall k | 0 <= k < j :: !(dis[i] < apps[k] && apps[k] - dis[i] <= thresh)
      {
        if dis[i] < apps[j] && apps[j] - dis[i] <= thresh {
          found := true;
          break;
        }
      }
      if found {
        count := count + 1;
      }
    }
  }
}
