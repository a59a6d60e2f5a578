/**
 The sliding window behind the quota, with nothing taken as one step that is not one: a charge, a pipeline
 with its lagging timestamp, and on any key a late rollback, a usage query or the expiry of the set.
 */
module SlidingBehindQuota {
  import opened Prelude
  import F = QuotaFront
  import SI = SlidingInterleaved
  import SW = SlidingWindow

  datatype World = World(front: F.Front, keys: map<string, SI.State>)

  /** `Pipeline` runs the check of a request in flight; `Other` is a step on one key that is no check. */
  datatype Step =
    | Charge(r: F.Request, now: real)
    | Pipeline(i: nat, stamp: real, at: real)
    | Other(key: string, step: SI.Step)

  function StateOf(w: World, key: string): SI.State {
    if key in w.keys then w.keys[key] else SI.Start
  }

  function KeyOf(r: F.Request): string {
    F.CompositeKey(r.tenant, r.key)
  }

  /** The step that one key takes, if the step concerns it. */
  function KeyStep(w: World, step: Step, key: string): seq<SI.Step> {
    match step
    case Charge(_, _) => []
    case Pipeline(i, stamp, at) =>
      if i < |w.front.inFlight| && KeyOf(w.front.inFlight[i]) == key
      then [SI.Pipeline(stamp, at, w.front.inFlight[i].cost)] else []
    case Other(k, s) => if k == key && !s.Pipeline? then [s] else []
  }

  /** The key a step concerns. */
  function Touched(w: World, step: Step): Option<string> {
    match step
    case Charge(_, _) => None
    case Pipeline(i, _, _) => if i < |w.front.inFlight| then Some(KeyOf(w.front.inFlight[i])) else None
    case Other(k, s) => if s.Pipeline? then None else Some(k)
  }

  predicate Granted(cfg: SW.Config, w: World, i: nat, stamp: real)
    requires i < |w.front.inFlight|
  {
    var r := w.front.inFlight[i];
    SI.Admits(cfg, StateOf(w, KeyOf(r)), stamp, r.cost)
  }

  /** What the quota sees of a step. */
  function FrontStep(cfg: SW.Config, w: World, step: Step): seq<F.Step> {
    match step
    case Charge(r, now) => [F.Charge(r, now)]
    case Pipeline(i, stamp, _) => [F.Execute(i, i < |w.front.inFlight| && Granted(cfg, w, i, stamp))]
    case Other(_, _) => []
  }

  function Next(cfg: SW.Config, w: World, step: Step): World {
    World(if FrontStep(cfg, w, step) != [] then F.Next(w.front, FrontStep(cfg, w, step)[0]) else w.front,
          if Touched(w, step).Some? then
            var key := Touched(w, step).value;
            w.keys[key := SI.Next(cfg, StateOf(w, key), KeyStep(w, step, key)[0])]
          else w.keys)
  }

  /**
   A request in flight that is checked takes a check of its own cost on the key that names its tenant, and no
   other key moves; the quota is told the verdict of that check.
   */
  lemma PipelineIsCheck(cfg: SW.Config, w: World, i: nat, stamp: real, at: real)
    requires i < |w.front.inFlight|
    ensures var r := w.front.inFlight[i];
            var key := F.CompositeKey(r.tenant, r.key);
            var s := StateOf(w, key);
            var after := Next(cfg, w, Pipeline(i, stamp, at));
            && StateOf(after, key) == SI.Next(cfg, s, SI.Pipeline(stamp, at, r.cost))
            && (forall other :: other != key ==> StateOf(after, other) == StateOf(w, other))
            && after.front == F.Next(w.front, F.Execute(i, SI.Admits(cfg, s, stamp, r.cost)))
  {
    hide SI.Next, SI.Admits, F.CompositeKey, F.Next;
  }

  /** A step on one key that is no check moves that key and nothing else. */
  lemma OtherIsOwn(cfg: SW.Config, w: World, key: string, step: SI.Step)
    requires !step.Pipeline?
    ensures var after := Next(cfg, w, Other(key, step));
            && StateOf(after, key) == SI.Next(cfg, StateOf(w, key), step)
            && (forall other :: other != key ==> StateOf(after, other) == StateOf(w, other))
            && after.front == w.front
  {
    hide SI.Next;
  }

  // ----- Runs and their two sides -----

  function WorldAfter(cfg: SW.Config, w: World, steps: seq<Step>): World {
    if steps == [] then w else Next(cfg, WorldAfter(cfg, w, steps[..|steps| - 1]), steps[|steps| - 1])
  }

  function FrontRun(cfg: SW.Config, w: World, steps: seq<Step>): seq<F.Step> {
    if steps == [] then []
    else
      var n := |steps| - 1;
      FrontRun(cfg, w, steps[..n]) + FrontStep(cfg, WorldAfter(cfg, w, steps[..n]), steps[n])
  }

  function KeyRun(cfg: SW.Config, w: World, steps: seq<Step>, key: string): seq<SI.Step> {
    if steps == [] then []
    else
      var n := |steps| - 1;
      KeyRun(cfg, w, steps[..n], key) + KeyStep(WorldAfter(cfg, w, steps[..n]), steps[n], key)
  }

  lemma NoStepsYet(cfg: SW.Config, w: World, key: string)
    requires w.keys == map[]
    ensures StateOf(WorldAfter(cfg, w, []), key) == SI.Start == SI.Run(cfg, [])
  {
  }

  lemma LastStep(cfg: SW.Config, w: World, steps: seq<Step>)
    requires steps != []
    ensures var n := |steps| - 1; WorldAfter(cfg, w, steps) == Next(cfg, WorldAfter(cfg, w, steps[..n]), steps[n])
  {
  }

  lemma KeyRunGrows(cfg: SW.Config, run: seq<SI.Step>, own: SI.Step)
    ensures SI.Run(cfg, run + [own]) == SI.Next(cfg, SI.Run(cfg, run), own)
  {
    assert (run + [own])[..|run|] == run;
  }

  /** The quota lives in a world of its own, given the limiter's verdicts. */
  lemma {:induction false} FrontIsRun(cfg: SW.Config, w: World, steps: seq<Step>)
    ensures WorldAfter(cfg, w, steps).front == F.After(w.front, FrontRun(cfg, w, steps))
    decreases |steps|
  {
    F.AfterNothing(w.front);
    hide FrontStep, Next, WorldAfter, F.After;
    if steps == [] {
      NothingYet(cfg, w);
    } else {
      var n := |steps| - 1;
      var before := WorldAfter(cfg, w, steps[..n]);
      var run, last := FrontRun(cfg, w, steps[..n]), FrontStep(cfg, before, steps[n]);
      FrontIsRun(cfg, w, steps[..n]);
      LastStep(cfg, w, steps);
      FrontAfterStep(cfg, before, steps[n]);
      if last == [] {
        assert run + last == run;
      } else {
        assert last == [last[0]];
        F.AfterAppend(w.front, run, last[0]);
      }
    }
  }

  lemma NothingYet(cfg: SW.Config, w: World)
    ensures WorldAfter(cfg, w, []) == w
  {
  }

  /** What a step does to the quota. */
  lemma FrontAfterStep(cfg: SW.Config, w: World, step: Step)
    ensures var seen := FrontStep(cfg, w, step);
            && |seen| <= 1
            && Next(cfg, w, step).front == if seen == [] then w.front else F.Next(w.front, seen[0])
  {
  }

  /** What a step does to one key. */
  lemma KeyAfterStep(cfg: SW.Config, w: World, step: Step, key: string)
    ensures var own := KeyStep(w, step, key);
            && |own| <= 1
            && StateOf(Next(cfg, w, step), key)
               == if own == [] then StateOf(w, key) else SI.Next(cfg, StateOf(w, key), own[0])
  {
    hide SI.Next, FrontStep;
  }

  /** Each key's set lives in a world of its own: it is that of a limiter that only ever took this key's steps. */
  lemma {:induction false} KeyIsRun(cfg: SW.Config, w: World, steps: seq<Step>, key: string)
    requires w.keys == map[]
    ensures StateOf(WorldAfter(cfg, w, steps), key) == SI.Run(cfg, KeyRun(cfg, w, steps, key))
    decreases |steps|
  {
    NoStepsYet(cfg, w, key);
    hide Next, KeyStep, StateOf, WorldAfter, SI.Next, SI.Run;
    if steps != [] {
      var n := |steps| - 1;
      var before := WorldAfter(cfg, w, steps[..n]);
      var run, own := KeyRun(cfg, w, steps[..n], key), KeyStep(before, steps[n], key);
      KeyIsRun(cfg, w, steps[..n], key);
      LastStep(cfg, w, steps);
      KeyAfterStep(cfg, before, steps[n], key);
      if own == [] {
        assert run + own == run;
      } else {
        assert own == [own[0]];
        KeyRunGrows(cfg, run, own[0]);
      }
    }
  }

  // ----- Both bounds -----

  ghost predicate CostsNonNegative(w: World, steps: seq<Step>) {
    && F.NonNegative(w.front.inFlight)
    && (forall i :: 0 <= i < |steps| && steps[i].Charge? ==> steps[i].r.cost >= 0)
  }

  lemma {:induction false} FrontCostsNonNegative(cfg: SW.Config, w: World, steps: seq<Step>)
    requires CostsNonNegative(w, steps)
    ensures F.CostsNonNegative(w.front, FrontRun(cfg, w, steps))
    decreases |steps|
  {
    hide WorldAfter, F.NonNegative;
    if steps != [] {
      FrontCostsNonNegative(cfg, w, steps[..|steps| - 1]);
    }
  }

  /** The cost admitted on a key to requests whose timestamps lie in the window that ends at `t`. */
  function AdmittedInWindow(cfg: SW.Config, w: World, steps: seq<Step>, key: string, t: real): int {
    if steps == [] then 0
    else
      var n := |steps| - 1;
      var before := WorldAfter(cfg, w, steps[..n]);
      AdmittedInWindow(cfg, w, steps[..n], key, t)
      + match steps[n]
        case Pipeline(i, stamp, _) =>
          if i < |before.front.inFlight| && KeyOf(before.front.inFlight[i]) == key && Granted(cfg, before, i, stamp)
             && t - cfg.window < stamp <= t
          then before.front.inFlight[i].cost else 0
        case _ => 0
  }

  /** A step of no check grants nothing; a check that is admitted grants its cost. */
  lemma StepGrants(cfg: SW.Config, s: SI.State, step: SI.Step, t: real)
    ensures SI.WindowUnits(cfg, SI.Next(cfg, s, step).grants, t)
            == SI.WindowUnits(cfg, s.grants, t)
               + if step.Pipeline? && SI.Admits(cfg, s, step.stamp, step.cost) && t - cfg.window < step.stamp <= t
                 then MaxInt(0, step.cost) else 0
  {
    hide SW.RemoveRange, SI.Admits, SI.Purged;
    if step.Pipeline? && SI.Admits(cfg, s, step.stamp, step.cost) {
      var g := SI.Grant(step.stamp, MaxInt(0, step.cost));
      assert (s.grants + [g])[..|s.grants|] == s.grants;
    }
  }

  lemma {:induction false} AdmittedIsGranted(cfg: SW.Config, w: World, steps: seq<Step>, key: string, t: real)
    requires w.keys == map[] && CostsNonNegative(w, steps)
    ensures AdmittedInWindow(cfg, w, steps, key, t)
            == SI.WindowUnits(cfg, StateOf(WorldAfter(cfg, w, steps), key).grants, t)
    decreases |steps|
  {
    hide SI.Next, SI.Admits, SI.Run, WorldAfter, Next;
    if steps == [] {
      NoStepsYet(cfg, w, key);
    } else {
      var n := |steps| - 1;
      var before := WorldAfter(cfg, w, steps[..n]);
      AdmittedIsGranted(cfg, w, steps[..n], key, t);
      LastStep(cfg, w, steps);
      KeyAfterStep(cfg, before, steps[n], key);
      InFlightNonNegative(cfg, w, steps[..n]);
      if KeyStep(before, steps[n], key) != [] {
        StepGrants(cfg, StateOf(before, key), KeyStep(before, steps[n], key)[0], t);
      }
    }
  }

  lemma InFlightNonNegative(cfg: SW.Config, w: World, steps: seq<Step>)
    requires CostsNonNegative(w, steps)
    ensures F.NonNegative(WorldAfter(cfg, w, steps).front.inFlight)
  {
    var front := FrontRun(cfg, w, steps);
    hide WorldAfter, FrontRun, F.NonNegative;
    FrontIsRun(cfg, w, steps);
    FrontCostsNonNegative(cfg, w, steps);
    assert front[..|front|] == front;
    F.InFlightNonNegative(w.front, front, |front|);
  }

  /**
   Admitted cost obeys both bounds at once on every interleaving: the tenant's quota since its last reset,
   and the limit in every window of a key whose callers behave as SlidingInterleaved.SafeIff shows they must.
   */
  lemma BothBounds(cfg: SW.Config, callers: SI.Callers, w: World, steps: seq<Step>, tenant: string, lo: nat,
                   key: string, t: real)
    requires cfg.window > 0.0 && w.keys == map[] && CostsNonNegative(w, steps)
    requires F.Registered(w.front, tenant) && 0 <= F.ApiUsage(w.front, tenant) <= F.ApiLimit(w.front, tenant)
    requires F.LastReset(w.front, FrontRun(cfg, w, steps), tenant, lo, |FrontRun(cfg, w, steps)|)
    requires callers.lag >= 0.0 && SI.InEffectOrdered(callers) && SI.LagWithinExpiry(cfg, callers.lag)
    requires SI.Legal(cfg, callers, KeyRun(cfg, w, steps, key))
    ensures var front := FrontRun(cfg, w, steps);
            F.ExecutedCost(w.front, front, tenant, true, lo, |front|)
            <= F.ApiLimit(w.front, tenant) + F.InFlightCost(F.After(w.front, front[..lo]).inFlight, tenant)
    ensures AdmittedInWindow(cfg, w, steps, key, t) <= MaxInt(0, cfg.requests)
  {
    var front := FrontRun(cfg, w, steps);
    hide FrontRun, KeyRun, WorldAfter, CostsNonNegative, AdmittedInWindow, SI.Legal, SI.Run, SI.WindowUnits, F.After,
      F.ExecutedCost, F.InFlightCost, F.Registered, F.ApiUsage, F.ApiLimit;
    FrontCostsNonNegative(cfg, w, steps);
    F.AdmittedWithinQuota(w.front, front, tenant, lo, |front|);
    AdmittedIsGranted(cfg, w, steps, key, t);
    KeyIsRun(cfg, w, steps, key);
    SI.SafeInOrder(cfg, callers);
  }
}
