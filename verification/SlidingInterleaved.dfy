/**
 The sliding window limiter under many concurrent callers.  A check is one atomic pipeline;
 the rollback of a refused check is a separate step that may land at any later moment or never; a usage
 query purges the set as a check does; the store may drop the key at any moment from its deadline on.  A
 caller reads its clock before its step runs, so a clock reading may lag behind the store, and two steps
 may run against the order of their readings.
 */
module SlidingInterleaved {
  import opened Prelude
  import opened SlidingWindow

  /** An admitted check. */
  datatype Grant = Grant(stamp: real, units: nat)

  /**
   One key of the store (`scores`, `deadline`), the moment of the last step, the timestamp of the last
   check and of all checks, the latest clock reading of a query, the history of admitted checks, and the
   refused checks whose rollback is still to come.
   */
  datatype State = State(scores: seq<real>, deadline: real, clock: real, lastStamp: real, used: set<real>,
                         lastQuery: real, grants: seq<Grant>, pending: set<real>)

  datatype Step =
    | Pipeline(stamp: real, at: real, cost: int)
    | Rollback(stamp: real, at: real)
    | Query(now: real, at: real)
    | Expire(at: real)

  const Start := State([], 0.0, 0.0, 0.0, {}, 0.0, [], {})

  /**
   How the callers of one key behave: a clock reading lags behind its step by at most `lag`; if `distinct`
   no two checks share a timestamp; if `ordered` pipelines run in the strict order of their timestamps; if
   `queriesOrdered` no check runs after a query whose reading is later than its timestamp.
   */
  datatype Callers = Callers(lag: real, distinct: bool, ordered: bool, queriesOrdered: bool)

  function InOrder(lag: real): Callers {
    Callers(lag, true, true, true)
  }

  /** The store's clock never goes back. */
  predicate Enabled(callers: Callers, s: State, step: Step) {
    && s.clock <= step.at
    && match step
       case Pipeline(stamp, at, _) =>
         && 0.0 < stamp <= at <= stamp + callers.lag
         && (callers.distinct ==> stamp !in s.used)
         && (callers.ordered ==> s.lastStamp < stamp)
         && (callers.queriesOrdered ==> s.lastQuery <= stamp)
       case Rollback(stamp, _) => stamp in s.pending
       case Query(now, at) => 0.0 < now <= at <= now + callers.lag
       case Expire(at) => s.deadline <= at
  }

  /** The entries a check or query finds after its own purge. */
  function Purged(cfg: Config, s: State, stamp: real): seq<real> {
    RemoveRange(s.scores, 0.0, stamp - cfg.window)
  }

  predicate Admits(cfg: Config, s: State, stamp: real, cost: int) {
    |Purged(cfg, s, stamp)| + cost <= cfg.requests
  }

  function Next(cfg: Config, s: State, step: Step): State {
    match step
    case Pipeline(stamp, at, cost) =>
      var allowed := Admits(cfg, s, stamp, cost);
      State(Purged(cfg, s, stamp) + Units(stamp, cost), at + Ttl(cfg), at, stamp, s.used + {stamp}, s.lastQuery,
            if allowed then s.grants + [Grant(stamp, MaxInt(0, cost))] else s.grants,
            if allowed then s.pending else s.pending + {stamp})
    case Rollback(stamp, at) =>
      s.(scores := RemoveRange(s.scores, stamp, stamp), clock := at, pending := s.pending - {stamp})
    case Query(now, at) =>
      s.(scores := Purged(cfg, s, now), clock := at, lastQuery := MaxReal(s.lastQuery, now))
    case Expire(at) =>
      s.(scores := [], clock := at)
  }

  /** A caller nobody interrupts: pipeline, then rollback if refused, is the sequential check. */
  lemma UninterruptedIsSequential(cfg: Config, s: State, z: SortedSet, c: Call)
    requires s.scores == Live(z, c.now)
    ensures var afterPipeline := Next(cfg, s, Pipeline(c.now, c.now, c.cost));
            var (z', verdict) := Check(cfg, z, c);
            var s' := if Admits(cfg, s, c.now, c.cost) then afterPipeline
                      else Next(cfg, afterPipeline, Rollback(c.now, c.now));
            && verdict.allowed == Admits(cfg, s, c.now, c.cost)
            && SortedSet(s'.scores, s'.deadline) == z'
            && s'.pending == if verdict.allowed then s.pending else s.pending + {c.now} - {c.now}
  {
  }

  function Run(cfg: Config, steps: seq<Step>): State {
    if steps == [] then Start else Next(cfg, Run(cfg, steps[..|steps| - 1]), steps[|steps| - 1])
  }

  ghost predicate Legal(cfg: Config, callers: Callers, steps: seq<Step>) {
    steps != [] ==>
      var n := |steps| - 1;
      Legal(cfg, callers, steps[..n]) && Enabled(callers, Run(cfg, steps[..n]), steps[n])
  }

  /** The units admitted at moments in `(t - window, t]`. */
  function WindowUnits(cfg: Config, grants: seq<Grant>, t: real): nat {
    if grants == [] then 0
    else
      var g := grants[|grants| - 1];
      WindowUnits(cfg, grants[..|grants| - 1], t) + if t - cfg.window < g.stamp <= t then g.units else 0
  }

  // ----- Counting entries -----

  lemma {:induction false} RemovalCounts(scores: seq<real>, low: real, high: real, x: real)
    ensures multiset(RemoveRange(scores, low, high))[x] == if low <= x <= high then 0 else multiset(scores)[x]
    decreases |scores|
  {
    if scores != [] {
      FrontAndLast(scores);
      RemovalCounts(scores[..|scores| - 1], low, high, x);
    }
  }

  lemma {:induction false} RemovalLength(scores: seq<real>, x: real)
    ensures |scores| == |RemoveRange(scores, x, x)| + multiset(scores)[x]
    decreases |scores|
  {
    if scores != [] {
      FrontAndLast(scores);
      RemovalLength(scores[..|scores| - 1], x);
    }
  }

  ghost predicate Increasing(grants: seq<Grant>) {
    forall i, j :: 0 <= i < j < |grants| ==> grants[i].stamp < grants[j].stamp
  }

  /** Every grant stamped after `since` still has all its entries in the set. */
  ghost predicate Backed(grants: seq<Grant>, scores: seq<real>, since: real) {
    forall i :: 0 <= i < |grants| && grants[i].stamp > since ==> multiset(scores)[grants[i].stamp] >= grants[i].units
  }

  /** Grants with their entries present cannot outnumber the entries. */
  lemma {:induction false} BackedUnitsFit(cfg: Config, grants: seq<Grant>, scores: seq<real>, t: real)
    requires Increasing(grants) && Backed(grants, scores, t - cfg.window)
    ensures WindowUnits(cfg, grants, t) <= |scores|
    decreases |grants|
  {
    if grants != [] {
      var n := |grants| - 1;
      var g := grants[n];
      if t - cfg.window < g.stamp <= t {
        var rest := RemoveRange(scores, g.stamp, g.stamp);
        forall i | 0 <= i < n && grants[..n][i].stamp > t - cfg.window
          ensures multiset(rest)[grants[..n][i].stamp] >= grants[..n][i].units
        {
          RemovalCounts(scores, g.stamp, g.stamp, grants[i].stamp);
        }
        RemovalLength(scores, g.stamp);
        BackedUnitsFit(cfg, grants[..n], rest, t);
      } else {
        BackedUnitsFit(cfg, grants[..n], scores, t);
      }
    }
  }

  /**
   What a step does to the entries with timestamp `x`: a check or query drops those that have left its window,
   a check adds its units, a rollback drops those of its timestamp, and an expiry drops them all.  Only a
   check renews the expiry, by the whole seconds of the window and one more from its pipeline on.
   */
  lemma StepCounts(cfg: Config, s: State, step: Step, x: real)
    requires cfg.window > 0.0 && x >= 0.0
    ensures var before, after := multiset(s.scores)[x], multiset(Next(cfg, s, step).scores)[x];
            match step
            case Pipeline(stamp, _, cost) =>
              after == (if x <= stamp - cfg.window then 0 else before) + (if x == stamp then MaxInt(0, cost) else 0)
            case Rollback(stamp, _) => after == if x == stamp then 0 else before
            case Query(now, _) => after == if x <= now - cfg.window then 0 else before
            case Expire(_) => after == 0
    ensures Next(cfg, s, step).deadline
            == if step.Pipeline? then step.at + (cfg.window.Floor + 1) as real else s.deadline
  {
    match step
    case Pipeline(stamp, _, cost) =>
      RemovalCounts(s.scores, 0.0, stamp - cfg.window, x);
      UnitsCount(stamp, cost);
      NoOtherUnits(stamp, cost, x);
    case Rollback(stamp, _) => RemovalCounts(s.scores, stamp, stamp, x);
    case Query(now, _) => RemovalCounts(s.scores, 0.0, now - cfg.window, x);
    case Expire(_) =>
  }

  lemma NoOtherUnits(stamp: real, cost: int, x: real)
    ensures x != stamp ==> multiset(Units(stamp, cost))[x] == 0
  {
    assert forall y :: y in Units(stamp, cost) ==> y == stamp;
    assert x != stamp ==> x !in Units(stamp, cost);
  }

  // ----- The invariant -----

  /** No check still to come can carry a timestamp below this one: it neither overtakes nor lags further behind. */
  function Horizon(lag: real, s: State): real {
    MaxReal(MaxReal(s.lastStamp, s.lastQuery), s.clock - lag)
  }

  ghost predicate Stamped(s: State) {
    && Increasing(s.grants)
    && (forall i :: 0 <= i < |s.grants| ==> s.grants[i].stamp <= s.lastStamp && s.grants[i].stamp !in s.pending)
    && (forall x :: x in s.pending ==> x <= s.lastStamp)
    && (forall x :: x in s.used ==> x <= s.lastStamp)
    && (forall x :: x in s.scores ==> 0.0 <= x <= s.lastStamp)
  }

  ghost predicate Inv(cfg: Config, lag: real, s: State) {
    && Stamped(s)
    && (s.scores != [] || s.grants != [] ==> s.deadline >= s.lastStamp + Ttl(cfg))
    && s.lastStamp >= 0.0
    && Backed(s.grants, s.scores, Horizon(lag, s) - cfg.window)
    && forall t :: WindowUnits(cfg, s.grants, t) <= MaxInt(0, cfg.requests)
  }

  /** A grant inside the check's window keeps all its entries through the purge. */
  lemma PurgeKeepsBacking(cfg: Config, lag: real, s: State, stamp: real)
    requires Backed(s.grants, s.scores, Horizon(lag, s) - cfg.window) && Horizon(lag, s) <= stamp
    ensures Backed(s.grants, Purged(cfg, s, stamp), stamp - cfg.window)
  {
    hide RemoveRange;
    forall i | 0 <= i < |s.grants| && s.grants[i].stamp > stamp - cfg.window
      ensures multiset(Purged(cfg, s, stamp))[s.grants[i].stamp] >= s.grants[i].units
    {
      RemovalCounts(s.scores, 0.0, stamp - cfg.window, s.grants[i].stamp);
    }
  }

  /** Adding entries takes no backing away, and backs one more grant. */
  lemma AddingKeepsBacking(grants: seq<Grant>, scores: seq<real>, stamp: real, cost: int, since: real)
    requires Backed(grants, scores, since)
    ensures Backed(grants, scores + Units(stamp, cost), since)
    ensures Backed(grants + [Grant(stamp, MaxInt(0, cost))], scores + Units(stamp, cost), since)
  {
    UnitsCount(stamp, cost);
    hide Units;
    assert multiset(scores + Units(stamp, cost)) == multiset(scores) + multiset(Units(stamp, cost));
  }

  lemma PipelineKeepsBacking(cfg: Config, lag: real, s: State, stamp: real, at: real, cost: int)
    requires cfg.window > 0.0 && Inv(cfg, lag, s) && Enabled(InOrder(lag), s, Pipeline(stamp, at, cost))
    ensures Backed(s.grants, Purged(cfg, s, stamp), stamp - cfg.window)
    ensures var s' := Next(cfg, s, Pipeline(stamp, at, cost));
            Backed(s'.grants, s'.scores, stamp - cfg.window)
  {
    hide RemoveRange, Units, Backed, WindowUnits, Ttl;
    PurgeKeepsBacking(cfg, lag, s, stamp);
    AddingKeepsBacking(s.grants, Purged(cfg, s, stamp), stamp, cost, stamp - cfg.window);
  }

  lemma UnitsCount(stamp: real, cost: int)
    ensures multiset(Units(stamp, cost))[stamp] == MaxInt(0, cost)
  {
    RemovalLength(Units(stamp, cost), stamp);
    RemoveEverything(Units(stamp, cost), stamp, stamp);
  }

  /** The heart of the safety argument: an admitted check found room for all live grants and itself. */
  lemma PipelineKeepsBound(cfg: Config, lag: real, s: State, stamp: real, at: real, cost: int, t: real)
    requires cfg.window > 0.0 && Inv(cfg, lag, s) && Enabled(InOrder(lag), s, Pipeline(stamp, at, cost))
    ensures WindowUnits(cfg, Next(cfg, s, Pipeline(stamp, at, cost)).grants, t) <= MaxInt(0, cfg.requests)
  {
    if Admits(cfg, s, stamp, cost) {
      var g := Grant(stamp, MaxInt(0, cost));
      assert (s.grants + [g])[..|s.grants|] == s.grants;
      if cost > 0 && t - cfg.window < stamp <= t {
        PipelineKeepsBacking(cfg, lag, s, stamp, at, cost);
        assert Backed(s.grants, Purged(cfg, s, stamp), t - cfg.window);
        BackedUnitsFit(cfg, s.grants, Purged(cfg, s, stamp), t);
      }
    }
  }

  lemma PipelineKeepsInv(cfg: Config, lag: real, s: State, stamp: real, at: real, cost: int)
    requires cfg.window > 0.0 && Inv(cfg, lag, s) && Enabled(InOrder(lag), s, Pipeline(stamp, at, cost))
    ensures Inv(cfg, lag, Next(cfg, s, Pipeline(stamp, at, cost)))
  {
    hide WindowUnits, RemoveRange, Units, Ttl;
    var s' := Next(cfg, s, Pipeline(stamp, at, cost));
    PipelineKeepsBacking(cfg, lag, s, stamp, at, cost);
    forall t
      ensures WindowUnits(cfg, s'.grants, t) <= MaxInt(0, cfg.requests)
    {
      PipelineKeepsBound(cfg, lag, s, stamp, at, cost, t);
    }
    assert Stamped(s');
  }

  lemma RollbackKeepsInv(cfg: Config, lag: real, s: State, stamp: real, at: real)
    requires Inv(cfg, lag, s) && Enabled(InOrder(lag), s, Rollback(stamp, at))
    ensures Inv(cfg, lag, Next(cfg, s, Rollback(stamp, at)))
  {
    var s' := Next(cfg, s, Rollback(stamp, at));
    forall i | 0 <= i < |s.grants| && s.grants[i].stamp > Horizon(lag, s') - cfg.window
      ensures multiset(s'.scores)[s.grants[i].stamp] >= s.grants[i].units
    {
      RemovalCounts(s.scores, stamp, stamp, s.grants[i].stamp);
    }
  }

  /** A query purges no further than the checks still to come will. */
  lemma QueryKeepsInv(cfg: Config, lag: real, s: State, now: real, at: real)
    requires Inv(cfg, lag, s) && Enabled(InOrder(lag), s, Query(now, at))
    ensures Inv(cfg, lag, Next(cfg, s, Query(now, at)))
  {
    var s' := Next(cfg, s, Query(now, at));
    var since := Horizon(lag, s') - cfg.window;
    forall i | 0 <= i < |s.grants| && s.grants[i].stamp > since
      ensures multiset(s'.scores)[s.grants[i].stamp] >= s.grants[i].units
    {
      RemovalCounts(s.scores, 0.0, now - cfg.window, s.grants[i].stamp);
    }
    hide RemoveRange, WindowUnits, Ttl;
    PurgeSubset(s.scores, 0.0, now - cfg.window);
  }

  lemma {:induction false} PurgeSubset(scores: seq<real>, low: real, high: real)
    ensures forall x :: x in RemoveRange(scores, low, high) ==> x in scores
    decreases |scores|
  {
    if scores != [] {
      FrontAndLast(scores);
      PurgeSubset(scores[..|scores| - 1], low, high);
    }
  }

  /** The lag is at most what the whole seconds of the window, and one more, exceed it by. */
  ghost predicate LagWithinExpiry(cfg: Config, lag: real) {
    lag <= (cfg.window.Floor + 1) as real - cfg.window
  }

  lemma LagAgainstTtl(cfg: Config, lag: real)
    ensures LagWithinExpiry(cfg, lag) <==> lag <= Ttl(cfg) - cfg.window
  {
  }

  /** A run's clock stands at the moment of its last step, and its last timestamp is the last check's. */
  lemma ClockIsLast(cfg: Config, steps: seq<Step>)
    requires steps != []
    ensures var last := steps[|steps| - 1];
            && Run(cfg, steps).clock == last.at
            && (last.Pipeline? ==> Run(cfg, steps).lastStamp == last.stamp)
  {
    hide Purged, Admits, RemoveRange;
  }

  /** The check at step `i` carries timestamp `x`, was refused, and has not been taken back by the end. */
  ghost predicate Outstanding(cfg: Config, steps: seq<Step>, i: int, x: real) {
    && 0 <= i < |steps| && steps[i].Pipeline? && steps[i].stamp == x
    && !Admits(cfg, Run(cfg, steps[..i]), x, steps[i].cost)
    && forall k :: i < k < |steps| && steps[k].Rollback? ==> steps[k].stamp != x
  }

  lemma OutstandingBefore(cfg: Config, steps: seq<Step>, i: int, x: real)
    requires steps != [] && i < |steps| - 1
    ensures var n := |steps| - 1;
            Outstanding(cfg, steps, i, x)
            <==> Outstanding(cfg, steps[..n], i, x) && (steps[n].Rollback? ==> steps[n].stamp != x)
  {
    hide Run, Admits;
    var n := |steps| - 1;
    if 0 <= i {
      assert steps[..n][..i] == steps[..i] && steps[..n][i] == steps[i];
      if Outstanding(cfg, steps[..n], i, x) && (steps[n].Rollback? ==> steps[n].stamp != x) {
        forall k | i < k < |steps| && steps[k].Rollback?
          ensures steps[k].stamp != x
        {
          assert k < n ==> steps[k] == steps[..n][k];
        }
      }
      if Outstanding(cfg, steps, i, x) {
        forall k | i < k < n && steps[..n][k].Rollback?
          ensures steps[..n][k].stamp != x
        {
          assert steps[..n][k] == steps[k];
        }
      }
    }
  }

  /** A rollback is still to come, or missing, exactly for the timestamps of refused checks not taken back since. */
  lemma {:induction false} PendingIff(cfg: Config, steps: seq<Step>, x: real)
    ensures x in Run(cfg, steps).pending <==> exists i :: Outstanding(cfg, steps, i, x)
    decreases |steps|
  {
    if steps != [] {
      var n := |steps| - 1;
      PendingIff(cfg, steps[..n], x);
      PendingStep(cfg, Run(cfg, steps[..n]), steps[n], x);
      forall i | i < n
        ensures Outstanding(cfg, steps, i, x)
                <==> Outstanding(cfg, steps[..n], i, x) && (steps[n].Rollback? ==> steps[n].stamp != x)
      {
        OutstandingBefore(cfg, steps, i, x);
      }
      hide Next, Admits;
      if x in Run(cfg, steps).pending && !Outstanding(cfg, steps, n, x) {
        var i :| Outstanding(cfg, steps[..n], i, x);
        assert Outstanding(cfg, steps, i, x);
      }
      if i :| Outstanding(cfg, steps, i, x) {
        assert i < n ==> Outstanding(cfg, steps[..n], i, x);
      }
    }
  }

  lemma PendingStep(cfg: Config, s: State, step: Step, x: real)
    ensures x in Next(cfg, s, step).pending
            <==> || (step.Pipeline? && step.stamp == x && !Admits(cfg, s, x, step.cost))
                 || (x in s.pending && !(step.Rollback? && step.stamp == x))
  {
    hide Admits, Purged, RemoveRange;
  }

  lemma ExpireKeepsInv(cfg: Config, lag: real, s: State, at: real)
    requires LagWithinExpiry(cfg, lag) && Inv(cfg, lag, s) && Enabled(InOrder(lag), s, Expire(at))
    ensures Inv(cfg, lag, Next(cfg, s, Expire(at)))
  {
  }

  lemma {:induction false} Reachable(cfg: Config, lag: real, steps: seq<Step>)
    requires cfg.window > 0.0 && lag >= 0.0 && LagWithinExpiry(cfg, lag) && Legal(cfg, InOrder(lag), steps)
    ensures Inv(cfg, lag, Run(cfg, steps))
    decreases |steps|
  {
    if steps != [] {
      var n := |steps| - 1;
      var s := Run(cfg, steps[..n]);
      Reachable(cfg, lag, steps[..n]);
      hide Inv;
      match steps[n]
      case Pipeline(stamp, at, cost) => PipelineKeepsInv(cfg, lag, s, stamp, at, cost);
      case Rollback(stamp, at) => RollbackKeepsInv(cfg, lag, s, stamp, at);
      case Query(now, at) => QueryKeepsInv(cfg, lag, s, now, at);
      case Expire(at) => ExpireKeepsInv(cfg, lag, s, at);
    }
  }

  // ----- Main results -----

  /** In every reachable state, no window has admitted more than the limit. */
  ghost predicate Safe(cfg: Config, callers: Callers) {
    forall steps: seq<Step>, t: real ::
      Legal(cfg, callers, steps) ==> WindowUnits(cfg, Run(cfg, steps).grants, t) <= MaxInt(0, cfg.requests)
  }

  /** Readings that keep the whole order, or that are distinct and do not lag at all. */
  predicate InEffectOrdered(callers: Callers) {
    || (callers.ordered && callers.queriesOrdered)
    || ((callers.ordered || callers.distinct) && callers.lag == 0.0)
  }

  /** Ordered timestamps are distinct, and readings that do not lag at all are ordered if distinct. */
  lemma {:induction false} RunsInOrder(cfg: Config, callers: Callers, steps: seq<Step>)
    requires InEffectOrdered(callers)
    requires Legal(cfg, callers, steps)
    ensures Legal(cfg, InOrder(callers.lag), steps)
    ensures var s := Run(cfg, steps);
            && (forall x :: x in s.used ==> x <= s.lastStamp)
            && s.lastStamp <= s.clock && (s.lastStamp == 0.0 || s.lastStamp in s.used) && s.lastQuery <= s.clock
    decreases |steps|
  {
    if steps != [] {
      RunsInOrder(cfg, callers, steps[..|steps| - 1]);
    }
  }

  lemma SafeInOrder(cfg: Config, callers: Callers)
    requires cfg.window > 0.0 && callers.lag >= 0.0 && LagWithinExpiry(cfg, callers.lag)
    requires InEffectOrdered(callers)
    ensures Safe(cfg, callers)
  {
    forall steps: seq<Step>, t: real | Legal(cfg, callers, steps)
      ensures WindowUnits(cfg, Run(cfg, steps).grants, t) <= MaxInt(0, cfg.requests)
    {
      RunsInOrder(cfg, callers, steps);
      Reachable(cfg, callers.lag, steps);
    }
  }

  /** Whenever the store drops the key, a check still to come would have purged every entry itself. */
  lemma ExpiryDropsOnlyDead(cfg: Config, lag: real, steps: seq<Step>, at: real, stamp: real, at': real, cost: int)
    requires cfg.window > 0.0 && lag >= 0.0 && LagWithinExpiry(cfg, lag)
    requires Legal(cfg, InOrder(lag), steps) && Enabled(InOrder(lag), Run(cfg, steps), Expire(at))
    requires Enabled(InOrder(lag), Next(cfg, Run(cfg, steps), Expire(at)), Pipeline(stamp, at', cost))
    ensures Purged(cfg, Run(cfg, steps), stamp) == []
  {
    var s := Run(cfg, steps);
    Reachable(cfg, lag, steps);
    hide Run, Legal, RemoveRange, WindowUnits, Ttl, Backed, Increasing;
    forall x | x in s.scores
      ensures 0.0 <= x <= stamp - cfg.window
    {
    }
    RemoveEverything(s.scores, 0.0, stamp - cfg.window);
  }

  lemma ThreeSteps(cfg: Config, callers: Callers, first: Step, middle: Step, last: Step)
    requires Enabled(callers, Start, first)
    requires var s := Next(cfg, Start, first);
             Enabled(callers, s, middle) && Enabled(callers, Next(cfg, s, middle), last)
    ensures Legal(cfg, callers, [first, middle, last])
    ensures Run(cfg, [first, middle, last]) == Next(cfg, Next(cfg, Next(cfg, Start, first), middle), last)
  {
    hide Next, Enabled;
    assert [first, middle, last][..2] == [first, middle] && [first, middle][..1] == [first] && [first][..0] == [];
    assert Run(cfg, [first]) == Next(cfg, Start, first) && Legal(cfg, callers, [first]);
    assert Run(cfg, [first, middle]) == Next(cfg, Next(cfg, Start, first), middle);
    assert Legal(cfg, callers, [first, middle]);
  }

  /** Three steps, the first and last of them checks that are admitted: what the first got, the last gets on top. */
  lemma AdmittedOnTop(cfg: Config, callers: Callers, first: Step, middle: Step, last: Step)
    requires cfg.window > 0.0 && cfg.requests >= 1
    requires first.Pipeline? && first.cost == cfg.requests && first.at == first.stamp > 0.0 && callers.lag >= 0.0
    requires var s := Next(cfg, Start, first);
             && Enabled(callers, s, middle)
             && Next(cfg, s, middle).scores == []
             && (Next(cfg, s, middle).grants == s.grants
                 || Next(cfg, s, middle).grants == s.grants + [Grant(middle.at, 0)])
             && Enabled(callers, Next(cfg, s, middle), last)
    requires last.Pipeline? && 1 <= last.cost <= cfg.requests
    requires last.stamp - cfg.window < first.stamp <= last.stamp
    ensures Legal(cfg, callers, [first, middle, last])
    ensures WindowUnits(cfg, Run(cfg, [first, middle, last]).grants, last.stamp) == cfg.requests + last.cost
  {
    hide RemoveRange, Ttl, Run, Legal;
    var steps := [first, middle, last];
    RemoveEverything([], 0.0, first.stamp - cfg.window);
    RemoveEverything([], 0.0, last.stamp - cfg.window);
    var s1 := Next(cfg, Start, first);
    var s2 := Next(cfg, s1, middle);
    ThreeSteps(cfg, callers, first, middle, last);
    var g, h := Grant(first.stamp, cfg.requests), Grant(last.stamp, last.cost);
    assert s1.grants == [g];
    GrantsAddUp(cfg, g, middle.at, h);
    assert Run(cfg, steps).grants == s2.grants + [h];
    assert s2.grants == [g] ==> s2.grants + [h] == [g, h];
    assert s2.grants == [g] + [Grant(middle.at, 0)] ==> s2.grants + [h] == [g, Grant(middle.at, 0), h];
  }

  lemma GrantsAddUp(cfg: Config, g: Grant, between: real, h: Grant)
    requires cfg.window > 0.0 && h.stamp - cfg.window < g.stamp <= h.stamp
    ensures WindowUnits(cfg, [g, h], h.stamp) == g.units + h.units
    ensures WindowUnits(cfg, [g, Grant(between, 0), h], h.stamp) == g.units + h.units
  {
    var none := Grant(between, 0);
    assert [g, h][..1] == [g] && [g][..0] == [] && [g, none, h][..2] == [g, none] && [g, none][..1] == [g];
    assert WindowUnits(cfg, [g], h.stamp) == g.units;
    assert WindowUnits(cfg, [g, none], h.stamp) == g.units;
  }

  /** A check admitted before the key expires, and one more whose timestamp lags behind the expiry. */
  function LateCaller(cfg: Config, lag: real): seq<Step> {
    var expiry := 1.0 + Ttl(cfg);
    var stamp := if expiry - lag >= 1.0 + cfg.window / 2.0 then expiry - lag else 1.0 + cfg.window / 2.0;
    [Pipeline(1.0, 1.0, cfg.requests), Expire(expiry), Pipeline(stamp, expiry, 1)]
  }

  lemma LateCallerOverAdmits(cfg: Config, lag: real)
    requires cfg.window > 0.0 && cfg.requests >= 1 && lag >= 0.0 && !LagWithinExpiry(cfg, lag)
    ensures Legal(cfg, InOrder(lag), LateCaller(cfg, lag))
    ensures exists t :: WindowUnits(cfg, Run(cfg, LateCaller(cfg, lag)).grants, t) == cfg.requests + 1
  {
    var steps := LateCaller(cfg, lag);
    LagAgainstTtl(cfg, lag);
    TtlOutlivesWindow(cfg);
    hide Ttl, RemoveRange, WindowUnits, Run, Legal;
    RemoveEverything([], 0.0, 1.0 - cfg.window);
    AdmittedOnTop(cfg, InOrder(lag), steps[0], steps[1], steps[2]);
  }

  /**
   A check admitted, one of no cost a window later that purges its entries, and a third whose timestamp is
   older than the second's and still within a window of the first's.
   */
  function OvertakenCaller(cfg: Config, lag: real): seq<Step> {
    var end := 1.0 + cfg.window;
    var behind := MinReal(lag, cfg.window) / 2.0;
    [Pipeline(1.0, 1.0, cfg.requests), Pipeline(end, end, 0), Pipeline(end - behind, end, cfg.requests)]
  }

  /** However short the lag, distinct timestamps out of order admit twice the limit, with the key alive all the time. */
  lemma OvertakenCallerOverAdmits(cfg: Config, lag: real)
    requires cfg.window > 0.0 && cfg.requests >= 1 && lag > 0.0
    ensures Legal(cfg, Callers(lag, true, false, true), OvertakenCaller(cfg, lag))
    ensures exists t :: WindowUnits(cfg, Run(cfg, OvertakenCaller(cfg, lag)).grants, t) == 2 * cfg.requests
  {
    var steps := OvertakenCaller(cfg, lag);
    hide Ttl, RemoveRange, WindowUnits, Run, Legal;
    RemoveEverything([], 0.0, 1.0 - cfg.window);
    RemoveEverything(Units(1.0, cfg.requests), 0.0, 1.0);
    assert 1.0 + cfg.window - cfg.window == 1.0;
    assert [] + Units(1.0, cfg.requests) == Units(1.0, cfg.requests);
    var s1 := Next(cfg, Start, steps[0]);
    assert s1.scores == Units(1.0, cfg.requests);
    assert Units(1.0 + cfg.window, 0) == [];
    assert Next(cfg, s1, steps[1]).scores == [];
    AdmittedOnTop(cfg, Callers(lag, true, false, true), steps[0], steps[1], steps[2]);
  }

  /** A check admitted, a query a window later that purges its entries, and a check with an older timestamp. */
  function OvertakenByQuery(cfg: Config, lag: real): seq<Step> {
    var end := 1.0 + cfg.window;
    var behind := MinReal(lag, cfg.window) / 2.0;
    [Pipeline(1.0, 1.0, cfg.requests), Query(end, end), Pipeline(end - behind, end, cfg.requests)]
  }

  /** However short the lag, a query between two checks in order doubles what they admit; the key stays alive. */
  lemma QueryOverAdmits(cfg: Config, lag: real)
    requires cfg.window > 0.0 && cfg.requests >= 1 && lag > 0.0
    ensures Legal(cfg, Callers(lag, true, true, false), OvertakenByQuery(cfg, lag))
    ensures exists t :: WindowUnits(cfg, Run(cfg, OvertakenByQuery(cfg, lag)).grants, t) == 2 * cfg.requests
  {
    var steps := OvertakenByQuery(cfg, lag);
    hide Ttl, RemoveRange, WindowUnits, Run, Legal;
    RemoveEverything([], 0.0, 1.0 - cfg.window);
    RemoveEverything(Units(1.0, cfg.requests), 0.0, 1.0);
    assert 1.0 + cfg.window - cfg.window == 1.0;
    assert [] + Units(1.0, cfg.requests) == Units(1.0, cfg.requests);
    var s1 := Next(cfg, Start, steps[0]);
    assert s1.scores == Units(1.0, cfg.requests);
    assert Next(cfg, s1, steps[1]).scores == [];
    AdmittedOnTop(cfg, Callers(lag, true, true, false), steps[0], steps[1], steps[2]);
  }

  /** At one and the same moment: a check, one more that is refused, its rollback, and the first check again. */
  function SharedStamp(cfg: Config): seq<Step> {
    [Pipeline(1.0, 1.0, cfg.requests), Pipeline(1.0, 1.0, 1), Rollback(1.0, 1.0), Pipeline(1.0, 1.0, cfg.requests)]
  }

  /** Without any lag, a shared timestamp admits twice the limit. */
  lemma SharedStampOverAdmits(cfg: Config, lag: real)
    requires cfg.window > 0.0 && cfg.requests >= 1 && lag >= 0.0
    ensures Legal(cfg, Callers(lag, false, false, true), SharedStamp(cfg))
    ensures exists t :: WindowUnits(cfg, Run(cfg, SharedStamp(cfg)).grants, t) == 2 * cfg.requests
  {
    var callers := Callers(lag, false, false, true);
    var steps := SharedStamp(cfg);
    var units := Units(1.0, cfg.requests);
    hide Ttl, RemoveRange, WindowUnits;
    RemoveEverything([], 0.0, 1.0 - cfg.window);
    RemoveNothing(units, 0.0, 1.0 - cfg.window);
    RemoveEverything(units + Units(1.0, 1), 1.0, 1.0);
    assert steps[..3][..2] == steps[..2] && steps[..2][..1] == steps[..1] && steps[..1][..0] == [];
    var g := Grant(1.0, cfg.requests);
    assert [] + units == units;
    assert Run(cfg, steps[..1]) == Next(cfg, Start, steps[0]);
    assert Run(cfg, steps[..1]).scores == units && Run(cfg, steps[..1]).grants == [g];
    assert Run(cfg, steps[..2]) == Next(cfg, Run(cfg, steps[..1]), steps[1]);
    assert Run(cfg, steps[..2]).scores == units + Units(1.0, 1) && Run(cfg, steps[..2]).pending == {1.0};
    assert Run(cfg, steps[..3]).scores == [];
    assert Run(cfg, steps).grants == [g, g];
    assert Legal(cfg, callers, steps[..1]);
    assert Run(cfg, steps[..1]).clock == 1.0 && Enabled(callers, Run(cfg, steps[..1]), steps[1]);
    assert Legal(cfg, callers, steps[..2]);
    assert Run(cfg, steps[..2]).clock == 1.0 && Enabled(callers, Run(cfg, steps[..2]), steps[2]);
    assert Legal(cfg, callers, steps[..3]);
    GrantsAddUp(cfg, g, 1.0, g);
    assert WindowUnits(cfg, Run(cfg, steps).grants, 1.0) == 2 * cfg.requests;
  }

  /** What a discipline allows, a looser one allows too. */
  lemma {:induction false} LooserCallers(cfg: Config, strict: Callers, loose: Callers, steps: seq<Step>)
    requires strict.lag <= loose.lag && (loose.distinct ==> strict.distinct) && (loose.ordered ==> strict.ordered)
    requires loose.queriesOrdered ==> strict.queriesOrdered
    requires Legal(cfg, strict, steps)
    ensures Legal(cfg, loose, steps)
    decreases |steps|
  {
    if steps != [] {
      LooserCallers(cfg, strict, loose, steps[..|steps| - 1]);
    }
  }

  /**
   The limit holds on every interleaving exactly when no clock reading lags by more than the margin of the
   expiry over the window and checks run in the order of their timestamps, with no query of a later reading
   before them; or when checks have timestamps of their own and no reading lags at all.
   */
  lemma SafeIff(cfg: Config, callers: Callers)
    requires cfg.window > 0.0 && cfg.requests >= 1 && callers.lag >= 0.0
    ensures Safe(cfg, callers) <==>
            || (callers.ordered && callers.queriesOrdered && LagWithinExpiry(cfg, callers.lag))
            || ((callers.ordered || callers.distinct) && callers.lag == 0.0)
  {
    var lag := callers.lag;
    TtlOutlivesWindow(cfg);
    hide Run, Legal, WindowUnits, Ttl;
    if InEffectOrdered(callers) && LagWithinExpiry(cfg, lag) {
      SafeInOrder(cfg, callers);
    } else if !callers.ordered && !callers.distinct {
      SharedStampOverAdmits(cfg, lag);
      LooserCallers(cfg, Callers(lag, false, false, true), callers, SharedStamp(cfg));
    } else if !callers.ordered {
      OvertakenCallerOverAdmits(cfg, lag);
      LooserCallers(cfg, Callers(lag, true, false, true), callers, OvertakenCaller(cfg, lag));
    } else if !callers.queriesOrdered {
      QueryOverAdmits(cfg, lag);
      LooserCallers(cfg, Callers(lag, true, true, false), callers, OvertakenByQuery(cfg, lag));
    } else {
      LateCallerOverAdmits(cfg, lag);
      LooserCallers(cfg, InOrder(lag), callers, LateCaller(cfg, lag));
    }
  }
}
