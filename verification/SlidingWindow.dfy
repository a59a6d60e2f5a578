/**
 The sliding window limiter used by one caller at a time: a sorted set holds one timestamped
 entry per unit of cost.  Each check drops the entries that left the window, counts the rest,
 adds its own units, and takes them out again when it turns out to be refused.
 */
module SlidingWindow {
  import opened Prelude

  datatype Config = Config(requests: int, window: real)

  /** The scores of the set's entries, in order of insertion, and the moment the key expires. */
  datatype SortedSet = SortedSet(scores: seq<real>, deadline: real)

  datatype Call = Call(cost: int, now: real)

  datatype Verdict = Verdict(allowed: bool, limit: int, remaining: int, resetAt: real)

  const EmptySet := SortedSet([], 0.0)

  function Ttl(cfg: Config): real {
    (cfg.window.Floor + 1) as real
  }

  lemma TtlOutlivesWindow(cfg: Config)
    ensures Ttl(cfg) > cfg.window
  {
  }

  /** Removal of all entries with a score from `low` to `high`, both included. */
  function RemoveRange(scores: seq<real>, low: real, high: real): (kept: seq<real>)
    ensures forall x :: x in kept <==> x in scores && !(low <= x <= high)
  {
    if scores == [] then []
    else
      var n := |scores| - 1;
      FrontAndLast(scores);
      var rest := RemoveRange(scores[..n], low, high);
      if low <= scores[n] <= high then rest else rest + [scores[n]]
  }

  /** The entries a call adds: one per unit of cost, none for a cost of zero or less. */
  function Units(stamp: real, cost: int): (added: seq<real>)
    ensures |added| == MaxInt(0, cost) && forall x :: x in added ==> x == stamp
  {
    seq(MaxInt(0, cost), _ => stamp)
  }

  /** The entries the store still holds under the key. */
  function Live(z: SortedSet, now: real): seq<real> {
    if now < z.deadline then z.scores else []
  }

  /** A whole check with its rollback, undisturbed by other callers. */
  function Check(cfg: Config, z: SortedSet, c: Call): (SortedSet, Verdict) {
    var purged := RemoveRange(Live(z, c.now), 0.0, c.now - cfg.window);
    var filled := purged + Units(c.now, c.cost);
    var current := |purged| + c.cost;
    var deadline := c.now + Ttl(cfg);
    var resetAt := c.now + cfg.window;
    if current > cfg.requests then
      (SortedSet(RemoveRange(filled, c.now, c.now), deadline), Verdict(false, cfg.requests, 0, resetAt))
    else
      (SortedSet(filled, deadline),
       Verdict(true, cfg.requests, MaxInt(0, cfg.requests - current), resetAt))
  }

  function SetAfter(cfg: Config, calls: seq<Call>): SortedSet {
    if calls == [] then EmptySet
    else Check(cfg, SetAfter(cfg, calls[..|calls| - 1]), calls[|calls| - 1]).0
  }

  // ----- The reference limiter -----

  /** The units stamped later than `since`. */
  function Recent(log: seq<real>, since: real): (kept: seq<real>)
    ensures forall x :: x in kept <==> x in log && x > since
  {
    if log == [] then []
    else
      var n := |log| - 1;
      FrontAndLast(log);
      Recent(log[..n], since) + if log[n] > since then [log[n]] else []
  }

  /** The reference decision: do the units admitted in the last window leave room for the cost? */
  function Reference(cfg: Config, log: seq<real>, c: Call): Verdict {
    var used := |Recent(log, c.now - cfg.window)|;
    if used + c.cost > cfg.requests then Verdict(false, cfg.requests, 0, c.now + cfg.window)
    else Verdict(true, cfg.requests, MaxInt(0, cfg.requests - used - c.cost), c.now + cfg.window)
  }

  /** Every unit the reference limiter has ever admitted; it keeps its whole log and never expires. */
  function LogAfter(cfg: Config, calls: seq<Call>): seq<real> {
    if calls == [] then []
    else
      var last := calls[|calls| - 1];
      var log := LogAfter(cfg, calls[..|calls| - 1]);
      if Reference(cfg, log, last).allowed then log + Units(last.now, last.cost) else log
  }

  // ----- Facts about removal -----

  lemma {:induction false} RemoveFromAppend(a: seq<real>, b: seq<real>, low: real, high: real)
    ensures RemoveRange(a + b, low, high) == RemoveRange(a, low, high) + RemoveRange(b, low, high)
    decreases |b|
  {
    if b == [] {
      assert a + b == a;
    } else {
      var n := |b| - 1;
      assert (a + b)[..|a + b| - 1] == a + b[..n];
      RemoveFromAppend(a, b[..n], low, high);
    }
  }

  lemma {:induction false} RemoveNothing(scores: seq<real>, low: real, high: real)
    requires forall x :: x in scores ==> !(low <= x <= high)
    ensures RemoveRange(scores, low, high) == scores
    decreases |scores|
  {
    if scores != [] {
      var n := |scores| - 1;
      FrontAndLast(scores);
      RemoveNothing(scores[..n], low, high);
    }
  }

  lemma RemoveEverything(scores: seq<real>, low: real, high: real)
    requires forall x :: x in scores ==> low <= x <= high
    ensures RemoveRange(scores, low, high) == []
  {
    var kept := RemoveRange(scores, low, high);
    EmptyOrMember(kept);
  }

  lemma {:induction false} RecentFromAppend(a: seq<real>, b: seq<real>, since: real)
    ensures Recent(a + b, since) == Recent(a, since) + Recent(b, since)
    decreases |b|
  {
    if b == [] {
      assert a + b == a;
    } else {
      var n := |b| - 1;
      assert (a + b)[..|a + b| - 1] == a + b[..n];
      RecentFromAppend(a, b[..n], since);
    }
  }

  /** For scores since the epoch, dropping what left the window is keeping what is recent. */
  lemma {:induction false} PurgeIsRecent(log: seq<real>, earlier: real, since: real)
    requires earlier <= since && forall x :: x in log ==> x >= 0.0
    ensures RemoveRange(Recent(log, earlier), 0.0, since) == Recent(log, since)
    decreases |log|
  {
    if log != [] {
      var n := |log| - 1;
      FrontAndLast(log);
      PurgeIsRecent(log[..n], earlier, since);
      var tail := if log[n] > earlier then [log[n]] else [];
      RemoveFromAppend(Recent(log[..n], earlier), tail, 0.0, since);
    }
  }

  lemma {:induction false} AllRecent(log: seq<real>, since: real)
    requires forall x :: x in log ==> x > since
    ensures Recent(log, since) == log
    decreases |log|
  {
    if log != [] {
      var n := |log| - 1;
      FrontAndLast(log);
      AllRecent(log[..n], since);
    }
  }

  // ----- Refinement -----

  /** Timestamps since the epoch, no two calls on the key sharing one. */
  ghost predicate Distinct(calls: seq<Call>) {
    && (forall i :: 0 <= i < |calls| ==> calls[i].now >= 0.0)
    && (forall i, j :: 0 <= i < j < |calls| ==> calls[i].now < calls[j].now)
  }

  lemma {:induction false} LogIsPast(cfg: Config, calls: seq<Call>)
    requires Distinct(calls)
    ensures forall x :: x in LogAfter(cfg, calls) ==> calls != [] && 0.0 <= x <= calls[|calls| - 1].now
    decreases |calls|
  {
    if calls != [] {
      LogIsPast(cfg, calls[..|calls| - 1]);
    }
  }

  /**
   After every check the set holds exactly the units the reference limiter admitted in the last
   window, in the same order, and its key outlives them.
   */
  lemma {:induction false} SetIsAdmittedLog(cfg: Config, calls: seq<Call>)
    requires cfg.window > 0.0 && Distinct(calls) && calls != []
    ensures var now := calls[|calls| - 1].now;
            && SetAfter(cfg, calls).scores == Recent(LogAfter(cfg, calls), now - cfg.window)
            && SetAfter(cfg, calls).deadline > now + cfg.window
    decreases |calls|, 1
  {
    hide RemoveRange, Recent, Ttl;
    var n := |calls| - 1;
    var c := calls[n];
    var log := LogAfter(cfg, calls[..n]);
    TtlOutlivesWindow(cfg);
    CountIsReference(cfg, calls);
    LogIsPast(cfg, calls[..n]);
    var purged := Recent(log, c.now - cfg.window);
    var units := Units(c.now, c.cost);
    if Reference(cfg, log, c).allowed {
      RecentFromAppend(log, units, c.now - cfg.window);
      AllRecent(units, c.now - cfg.window);
    } else {
      RemoveFromAppend(purged, units, c.now, c.now);
      RemoveNothing(purged, c.now, c.now);
      RemoveEverything(units, c.now, c.now);
    }
  }

  /** What the last check counted is what the reference limiter counts. */
  lemma {:induction false} CountIsReference(cfg: Config, calls: seq<Call>)
    requires cfg.window > 0.0 && Distinct(calls) && calls != []
    ensures var n := |calls| - 1;
            RemoveRange(Live(SetAfter(cfg, calls[..n]), calls[n].now), 0.0, calls[n].now - cfg.window)
            == Recent(LogAfter(cfg, calls[..n]), calls[n].now - cfg.window)
    decreases |calls|, 0
  {
    hide RemoveRange, Recent, Check, Reference;
    var n := |calls| - 1;
    var c := calls[n];
    var log := LogAfter(cfg, calls[..n]);
    RemoveEverything([], 0.0, c.now - cfg.window);
    AllRecent([], c.now - cfg.window);
    if n > 0 {
      SetIsAdmittedLog(cfg, calls[..n]);
      LogIsPast(cfg, calls[..n]);
      if c.now < SetAfter(cfg, calls[..n]).deadline {
        PurgeIsRecent(log, calls[n - 1].now - cfg.window, c.now - cfg.window);
      } else {
        var recent := Recent(log, c.now - cfg.window);
        EmptyOrMember(recent);
      }
    }
  }

  /** Every verdict, `remaining` included, is that of the limiter that counts its admitted log. */
  lemma Refinement(cfg: Config, calls: seq<Call>, i: nat)
    requires cfg.window > 0.0 && Distinct(calls) && i < |calls|
    ensures Check(cfg, SetAfter(cfg, calls[..i]), calls[i]).1
            == Reference(cfg, LogAfter(cfg, calls[..i]), calls[i])
  {
    assert calls[..i + 1][..i] == calls[..i];
    hide Check, SetAfter, LogAfter;
    CountIsReference(cfg, calls[..i + 1]);
  }

  // ----- The bound over a whole run -----

  /** The units admitted at moments in `(since, until]`. */
  function AdmittedDuring(cfg: Config, calls: seq<Call>, since: real, until: real): nat {
    if calls == [] then 0
    else
      var n := |calls| - 1;
      AdmittedDuring(cfg, calls[..n], since, until)
      + if since < calls[n].now <= until && Check(cfg, SetAfter(cfg, calls[..n]), calls[n]).1.allowed
        then MaxInt(0, calls[n].cost) else 0
  }

  /** Up to now, what was admitted since a moment is what the reference log shows since then. */
  lemma {:induction false} AdmittedIsLogged(cfg: Config, calls: seq<Call>, since: real, until: real)
    requires cfg.window > 0.0 && Distinct(calls)
    ensures AdmittedDuring(cfg, calls, since, until) <= |Recent(LogAfter(cfg, calls), since)|
    decreases |calls|
  {
    if calls != [] {
      var n := |calls| - 1;
      AdmittedIsLogged(cfg, calls[..n], since, until);
      Refinement(cfg, calls, n);
      var units := Units(calls[n].now, calls[n].cost);
      RecentFromAppend(LogAfter(cfg, calls[..n]), units, since);
      hide Check, Recent, Units, SetAfter;
      if since < calls[n].now {
        AllRecent(units, since);
      }
    }
  }

  /** With no call after `until`, what was admitted since a moment is exactly what the log shows since then. */
  lemma {:induction false} AdmittedIsRecent(cfg: Config, calls: seq<Call>, since: real, until: real)
    requires cfg.window > 0.0 && Distinct(calls) && forall i :: 0 <= i < |calls| ==> calls[i].now <= until
    ensures AdmittedDuring(cfg, calls, since, until) == |Recent(LogAfter(cfg, calls), since)|
    decreases |calls|
  {
    hide Check, SetAfter, Distinct;
    if calls != [] {
      var n := |calls| - 1;
      DistinctPrefix(calls, n);
      AdmittedIsRecent(cfg, calls[..n], since, until);
      Refinement(cfg, calls, n);
      var units := Units(calls[n].now, calls[n].cost);
      RecentFromAppend(LogAfter(cfg, calls[..n]), units, since);
      NoneRecent(units, since);
      if since < calls[n].now {
        AllRecent(units, since);
      }
    }
  }

  lemma {:induction false} NoneRecent(log: seq<real>, since: real)
    ensures (forall x :: x in log ==> x <= since) ==> Recent(log, since) == []
    decreases |log|
  {
    if log != [] {
      FrontAndLast(log);
      NoneRecent(log[..|log| - 1], since);
    }
  }

  /** A check is admitted exactly if what was admitted in the window before it leaves room for its cost. */
  lemma DecisionIsExact(cfg: Config, calls: seq<Call>, c: Call)
    requires cfg.window > 0.0 && Distinct(calls + [c])
    ensures var v := Check(cfg, SetAfter(cfg, calls), c).1;
            var used := AdmittedDuring(cfg, calls, c.now - cfg.window, c.now);
            && (v.allowed <==> used + c.cost <= cfg.requests)
            && v.limit == cfg.requests
            && v.remaining == if v.allowed then cfg.requests - used - c.cost else 0
  {
    hide Check, SetAfter, LogAfter, Recent, AdmittedDuring, Distinct;
    OneMoreCall(calls, c);
    Refinement(cfg, calls + [c], |calls|);
    AdmittedIsRecent(cfg, calls, c.now - cfg.window, c.now);
  }

  lemma OneMoreCall(calls: seq<Call>, c: Call)
    requires Distinct(calls + [c])
    ensures (calls + [c])[..|calls|] == calls && (calls + [c])[|calls|] == c && Distinct(calls)
    ensures forall i :: 0 <= i < |calls| ==> calls[i].now <= c.now
  {
    var run := calls + [c];
    assert run[..|calls|] == calls;
    DistinctPrefix(run, |calls|);
    assert forall i :: 0 <= i < |calls| ==> calls[i] == run[i];
  }

  lemma DistinctPrefix(calls: seq<Call>, i: nat)
    requires Distinct(calls) && i <= |calls|
    ensures Distinct(calls[..i])
  {
  }

  lemma AdmittedHadRoom(cfg: Config, calls: seq<Call>, i: nat)
    requires cfg.window > 0.0 && Distinct(calls) && i < |calls|
    requires Check(cfg, SetAfter(cfg, calls[..i]), calls[i]).1.allowed
    ensures |Recent(LogAfter(cfg, calls[..i]), calls[i].now - cfg.window)| + calls[i].cost <= cfg.requests
  {
    hide Check, SetAfter, LogAfter, Recent, Distinct;
    Refinement(cfg, calls, i);
  }

  lemma AdmittedFits(cfg: Config, calls: seq<Call>, i: nat, t: real)
    requires cfg.window > 0.0 && Distinct(calls) && i < |calls| && calls[i].now <= t
    requires Check(cfg, SetAfter(cfg, calls[..i]), calls[i]).1.allowed
    ensures AdmittedDuring(cfg, calls[..i], t - cfg.window, t) + calls[i].cost <= cfg.requests
  {
    hide Check, SetAfter, LogAfter, Recent, AdmittedDuring, Distinct;
    DistinctPrefix(calls, i);
    AdmittedHadRoom(cfg, calls, i);
    AdmittedIsLogged(cfg, calls[..i], t - cfg.window, t);
    RecentShrinks(LogAfter(cfg, calls[..i]), calls[i].now - cfg.window, t - cfg.window);
  }

  /** No window of a sequential run admits more than the limit, whatever the costs. */
  lemma {:induction false} WindowBound(cfg: Config, calls: seq<Call>, t: real)
    requires cfg.window > 0.0 && Distinct(calls)
    ensures AdmittedDuring(cfg, calls, t - cfg.window, t) <= MaxInt(0, cfg.requests)
    decreases |calls|
  {
    if calls != [] {
      var n := |calls| - 1;
      hide Check, SetAfter, Distinct;
      DistinctPrefix(calls, n);
      WindowBound(cfg, calls[..n], t);
      if calls[n].now <= t && Check(cfg, SetAfter(cfg, calls[..n]), calls[n]).1.allowed {
        AdmittedFits(cfg, calls, n, t);
      }
    }
  }

  lemma {:induction false} RecentShrinks(log: seq<real>, earlier: real, later: real)
    requires earlier <= later
    ensures |Recent(log, later)| <= |Recent(log, earlier)|
    decreases |log|
  {
    if log != [] {
      RecentShrinks(log[..|log| - 1], earlier, later);
    }
  }

  /** After an admission `remaining` is exact: at the same moment any cost up to it is admitted, and none above. */
  lemma RemainingIsExact(cfg: Config, z: SortedSet, c: Call, more: int)
    requires cfg.window > 0.0 && c.cost >= 0 && Check(cfg, z, c).1.allowed
    ensures var (after, v) := Check(cfg, z, c);
            Check(cfg, after, Call(more, c.now)).1.allowed <==> more <= v.remaining
  {
    hide RemoveRange;
    TtlOutlivesWindow(cfg);
    RemoveNothing(Check(cfg, z, c).0.scores, 0.0, c.now - cfg.window);
  }

  lemma CheckDetails(cfg: Config, z: SortedSet, c: Call)
    ensures Check(cfg, z, c).1.resetAt == c.now + cfg.window
    ensures Check(cfg, z, c).1.allowed <==>
            |RemoveRange(Live(z, c.now), 0.0, c.now - cfg.window)| + c.cost <= cfg.requests
  {
  }

  /** At the reported reset time nothing of the past counts any more: any cost within the limit is then admitted. */
  lemma ResetEmptiesWindow(cfg: Config, calls: seq<Call>, cost: int)
    requires cfg.window > 0.0 && Distinct(calls) && calls != [] && cost <= cfg.requests
    ensures var n := |calls| - 1;
            var resetAt := Check(cfg, SetAfter(cfg, calls[..n]), calls[n]).1.resetAt;
            resetAt > calls[n].now && Check(cfg, SetAfter(cfg, calls), Call(cost, resetAt)).1.allowed
  {
    hide RemoveRange, Recent, Reference, Check, SetAfter, LogAfter;
    var n := |calls| - 1;
    CheckDetails(cfg, SetAfter(cfg, calls[..n]), calls[n]);
    var next := Call(cost, calls[n].now + cfg.window);
    var later := calls + [next];
    assert later[..n + 1] == calls && Distinct(later);
    LogIsPast(cfg, calls);
    CountIsReference(cfg, later);
    assert calls[n].now + cfg.window - cfg.window == calls[n].now;
    EmptyOrMember(Recent(LogAfter(cfg, calls), calls[n].now));
    CheckDetails(cfg, SetAfter(cfg, calls), next);
  }

  // ----- Usage queries -----

  /** What a usage query leaves in the set: it purges what has left the window, and keeps the expiry. */
  function Queried(cfg: Config, z: SortedSet, now: real): SortedSet {
    SortedSet(RemoveRange(Live(z, now), 0.0, now - cfg.window), z.deadline)
  }

  lemma {:induction false} RemoveTwice(scores: seq<real>, low: real, mid: real, high: real)
    requires mid <= high
    ensures RemoveRange(RemoveRange(scores, low, mid), low, high) == RemoveRange(scores, low, high)
    decreases |scores|
  {
    if scores != [] {
      var n := |scores| - 1;
      FrontAndLast(scores);
      RemoveTwice(scores[..n], low, mid, high);
      var tail := if low <= scores[n] <= mid then [] else [scores[n]];
      RemoveFromAppend(RemoveRange(scores[..n], low, mid), tail, low, high);
    }
  }

  /** A query changes nothing for a check or query that reads its clock later, so sequential runs leave it out. */
  lemma QueryIsInvisible(cfg: Config, z: SortedSet, asked: real, c: Call)
    requires asked <= c.now
    ensures Check(cfg, Queried(cfg, z, asked), c) == Check(cfg, z, c)
    ensures Queried(cfg, Queried(cfg, z, asked), c.now) == Queried(cfg, z, c.now)
  {
    RemoveTwice(Live(z, asked), 0.0, asked - cfg.window, c.now - cfg.window);
    RemoveEverything([], 0.0, asked - cfg.window);
    hide RemoveRange;
  }

  /** A query answers with the number of units admitted in the last window. */
  lemma UsageIsRecent(cfg: Config, calls: seq<Call>, now: real)
    requires cfg.window > 0.0 && Distinct(calls) && now >= 0.0
    requires forall i :: 0 <= i < |calls| ==> calls[i].now < now
    ensures |Queried(cfg, SetAfter(cfg, calls), now).scores| == |Recent(LogAfter(cfg, calls), now - cfg.window)|
  {
    hide RemoveRange, Recent, SetAfter, LogAfter;
    var next := calls + [Call(0, now)];
    assert next[..|calls|] == calls && Distinct(next);
    CountIsReference(cfg, next);
  }

  // ----- Shared timestamps -----

  /** Taking back a refused call leaves the admitted units alone exactly when none carries its timestamp. */
  lemma RollbackKeepsAdmittedIff(admitted: seq<real>, stamp: real, cost: int)
    ensures RemoveRange(admitted + Units(stamp, cost), stamp, stamp) == admitted <==> stamp !in admitted
  {
    RemoveFromAppend(admitted, Units(stamp, cost), stamp, stamp);
    RemoveEverything(Units(stamp, cost), stamp, stamp);
    if stamp !in admitted {
      RemoveNothing(admitted, stamp, stamp);
    }
  }

  /** Three calls at one moment: the refusal of the second wipes out the first, and the third gets in too. */
  lemma SharedStampOverAdmits(cfg: Config, now: real)
    requires cfg.requests >= 1 && cfg.window > 0.0 && now >= 0.0
    ensures var calls := [Call(cfg.requests, now), Call(1, now), Call(cfg.requests, now)];
            && Check(cfg, SetAfter(cfg, calls[..0]), calls[0]).1.allowed
            && !Check(cfg, SetAfter(cfg, calls[..1]), calls[1]).1.allowed
            && Check(cfg, SetAfter(cfg, calls[..2]), calls[2]).1.allowed
  {
    hide RemoveRange, Ttl;
    TtlOutlivesWindow(cfg);
    RemoveEverything([], 0.0, now - cfg.window);
    var a, b := Call(cfg.requests, now), Call(1, now);
    var first := Units(now, cfg.requests);
    assert [a, b, a][..0] == [] && [a, b, a][..1] == [a] && [a, b, a][..2] == [a, b];
    assert [a][..0] == [] && [a, b][..1] == [a];
    assert SetAfter(cfg, [a]) == SortedSet(first, now + Ttl(cfg));
    RemoveNothing(first, 0.0, now - cfg.window);
    RemoveEverything(first + Units(now, 1), now, now);
    assert SetAfter(cfg, [a, b]).scores == [];
  }

  // ----- The limiter object -----

  class SlidingWindowRateLimiter {
    const cfg: Config
    var sets: map<string, SortedSet>

    constructor (cfg: Config)
      ensures this.cfg == cfg && sets == map[]
    {
      this.cfg := cfg;
      sets := map[];
    }

    function Stored(key: string): SortedSet
      reads this
    {
      if key in sets then sets[key] else EmptySet
    }

    /** The pipeline and, on refusal, the rollback, on this key's set only. */
    method CheckLimit(key: string, cost: int, now: real) returns (v: Verdict)
      modifies this
      ensures var (z, verdict) := Check(cfg, old(Stored(key)), Call(cost, now));
              v == verdict && sets == old(sets)[key := z]
    {
      var scores := RemoveRange(Live(Stored(key), now), 0.0, now - cfg.window);
      var current := |scores| + cost;
      ghost var purged := scores;
      var added := 0;
      while added < cost
        invariant 0 <= added <= MaxInt(0, cost)
        invariant scores == purged + seq(added, _ => now)
      {
        scores := scores + [now];
        added := added + 1;
      }
      assert scores == purged + Units(now, cost);
      var remaining := MaxInt(0, cfg.requests - current);
      var allowed := current <= cfg.requests;
      if !allowed {
        scores, remaining := RemoveRange(scores, now, now), 0;
      }
      sets := sets[key := SortedSet(scores, now + Ttl(cfg))];
      v := Verdict(allowed, cfg.requests, remaining, now + cfg.window);
    }

    /** The usage query drops what left the window and counts the rest. */
    method CurrentUsage(key: string, now: real) returns (used: nat)
      modifies this
      ensures Stored(key) == Queried(cfg, old(Stored(key)), now) && used == |Stored(key).scores|
      ensures sets == old(sets)[key := Stored(key)]
    {
      var z := Stored(key);
      var kept := RemoveRange(Live(z, now), 0.0, now - cfg.window);
      sets := sets[key := SortedSet(kept, z.deadline)];
      used := |kept|;
    }
  }
}
