/**
 The tenant-aware front of the limiters: a request is first charged to its tenant's quota, and only if
 the quota takes it does it reach the rate limiter, under a key that names the tenant.  Between the two a
 request is in flight, and any number of others may be charged or executed.
 */
module Distributed {
  import opened Prelude
  import Q = Quota
  import FW = FixedWindow
  import SW = SlidingWindow
  import TB = TokenBucket
  import TN = TenantNamespace
  import F = QuotaFront

  datatype Algorithm = FixedWindow | SlidingWindow | SlidingWindowLog | TokenBucket | LeakyBucket

  datatype Config = Config(algorithm: Algorithm, requests: int, window: real,
                           burst: Option<int>, refillRate: Option<real>)

  /** What the limiters keep in the shared store; each algorithm uses its own part. */
  datatype Limiter = Limiter(counters: FW.Store, sets: map<string, SW.SortedSet>, buckets: map<string, TB.Bucket>)

  const Idle := Limiter(map[], map[], map[])

  /** A call that reached the limiter. */
  datatype Call = Call(key: string, cost: int, now: real)

  datatype Verdict = Verdict(allowed: bool, limit: int, remaining: int)

  function Params(cfg: Config): TB.Params
    requires cfg.window > 0.0
  {
    TB.Configure(cfg.requests, cfg.window, cfg.burst, cfg.refillRate)
  }

  function Fixed(cfg: Config): FW.Config {
    FW.Config(cfg.requests, cfg.window)
  }

  function Sliding(cfg: Config): SW.Config {
    SW.Config(cfg.requests, cfg.window)
  }

  function FixedCall(c: Call): FW.Call {
    FW.Call(c.key, c.cost, c.now, c.now)
  }

  function BucketCall(c: Call): TB.Call {
    TB.Call(c.cost, c.now, c.now)
  }

  function SetOf(l: Limiter, key: string): SW.SortedSet {
    if key in l.sets then l.sets[key] else SW.EmptySet
  }

  function BucketOf(l: Limiter, key: string): Option<TB.Bucket> {
    if key in l.buckets then Some(l.buckets[key]) else None
  }

  /** Dispatch on the algorithm; every name without a limiter of its own gets the sliding window. */
  function Limit(cfg: Config, l: Limiter, c: Call): (Limiter, Verdict)
    requires cfg.window > 0.0
  {
    match cfg.algorithm
    case FixedWindow =>
      var (counters, v) := FW.Check(Fixed(cfg), l.counters, FixedCall(c));
      (l.(counters := counters), Verdict(v.allowed, v.limit, v.remaining))
    case TokenBucket =>
      var (bucket, v) := TB.Script(Params(cfg), TB.Fetch(BucketOf(l, c.key), c.now, true), BucketCall(c));
      (l.(buckets := l.buckets[c.key := bucket]), Verdict(v.allowed, v.limit, v.remaining))
    case _ =>
      var (z, v) := SW.Check(Sliding(cfg), SetOf(l, c.key), SW.Call(c.cost, c.now));
      (l.(sets := l.sets[c.key := z]), Verdict(v.allowed, v.limit, v.remaining))
  }

  // ----- The two layers -----

  /** The quota with the requests between it and the limiter, and the limiter. */
  datatype World = World(front: F.Front, limiter: Limiter)

  /** A request is charged at one moment, and executed by the limiter at a later one. */
  datatype Step = Charge(r: F.Request, now: real) | Execute(i: nat, now: real)

  function LimiterCall(r: F.Request, now: real): Call {
    Call(F.CompositeKey(r.tenant, r.key), r.cost, now)
  }

  /** What the quota sees of a step: an execution comes with the limiter's verdict. */
  function FrontStep(cfg: Config, w: World, step: Step): F.Step
    requires cfg.window > 0.0
  {
    match step
    case Charge(r, now) => F.Charge(r, now)
    case Execute(i, now) => F.Execute(i, i < |w.front.inFlight| && Granted(cfg, w, i, now))
  }

  /** The limiter's verdict on a request in flight. */
  predicate Granted(cfg: Config, w: World, i: nat, now: real)
    requires cfg.window > 0.0 && i < |w.front.inFlight|
  {
    Limit(cfg, w.limiter, LimiterCall(w.front.inFlight[i], now)).1.allowed
  }

  function Next(cfg: Config, w: World, step: Step): World
    requires cfg.window > 0.0
  {
    World(F.Next(w.front, FrontStep(cfg, w, step)),
          if CallOf(w, step) != [] then Limit(cfg, w.limiter, CallOf(w, step)[0]).0 else w.limiter)
  }

  /** The call a step puts to the limiter, if any. */
  function CallOf(w: World, step: Step): seq<Call> {
    if step.Execute? && step.i < |w.front.inFlight| then [LimiterCall(w.front.inFlight[step.i], step.now)] else []
  }

  // ----- Runs -----

  function WorldAfter(cfg: Config, w: World, steps: seq<Step>): World
    requires cfg.window > 0.0
  {
    if steps == [] then w else Next(cfg, WorldAfter(cfg, w, steps[..|steps| - 1]), steps[|steps| - 1])
  }

  /** The limiter after serving a number of calls. */
  function Serve(cfg: Config, l: Limiter, calls: seq<Call>): Limiter
    requires cfg.window > 0.0
  {
    if calls == [] then l else Limit(cfg, Serve(cfg, l, calls[..|calls| - 1]), calls[|calls| - 1]).0
  }

  function LimiterAfter(cfg: Config, calls: seq<Call>): Limiter
    requires cfg.window > 0.0
  {
    Serve(cfg, Idle, calls)
  }

  /** The calls put to the limiter, in the order in which it executed them. */
  function ExecutedCalls(cfg: Config, w: World, steps: seq<Step>): seq<Call>
    requires cfg.window > 0.0
  {
    if steps == [] then []
    else
      var n := |steps| - 1;
      ExecutedCalls(cfg, w, steps[..n]) + CallOf(WorldAfter(cfg, w, steps[..n]), steps[n])
  }

  /**
   A request that is executed, and nothing else, is put to the limiter, at its own cost and under the key
   that names its tenant; the quota is told the limiter's verdict on it.
   */
  lemma ExecutionIsCall(cfg: Config, w: World, steps: seq<Step>, step: Step)
    requires cfg.window > 0.0
    ensures var before := WorldAfter(cfg, w, steps);
            var after := WorldAfter(cfg, w, steps + [step]);
            var calls := ExecutedCalls(cfg, w, steps + [step]);
            if step.Execute? && step.i < |before.front.inFlight| then
              var r := before.front.inFlight[step.i];
              var call := Call(F.CompositeKey(r.tenant, r.key), r.cost, step.now);
              && calls == ExecutedCalls(cfg, w, steps) + [call]
              && after.limiter == Limit(cfg, before.limiter, call).0
              && after.front == F.Next(before.front, F.Execute(step.i, Limit(cfg, before.limiter, call).1.allowed))
            else calls == ExecutedCalls(cfg, w, steps) && after.limiter == before.limiter
  {
    assert (steps + [step])[..|steps|] == steps;
    hide Limit, F.CompositeKey;
    assert ExecutedCalls(cfg, w, steps) + [] == ExecutedCalls(cfg, w, steps);
  }

  lemma EmptyRuns(cfg: Config, w: World)
    requires cfg.window > 0.0
    ensures LimiterAfter(cfg, []) == Idle && ExecutedCalls(cfg, w, []) == [] && WorldAfter(cfg, w, []) == w
  {
  }

  /** The run as the quota sees it. */
  function FrontRun(cfg: Config, w: World, steps: seq<Step>): seq<F.Step>
    requires cfg.window > 0.0
  {
    if steps == [] then []
    else
      var n := |steps| - 1;
      FrontRun(cfg, w, steps[..n]) + [FrontStep(cfg, WorldAfter(cfg, w, steps[..n]), steps[n])]
  }

  /** The quota lives in a world of its own, given the limiter's verdicts: what it guarantees, it guarantees here. */
  lemma {:induction false} FrontIsRun(cfg: Config, w: World, steps: seq<Step>)
    requires cfg.window > 0.0
    ensures WorldAfter(cfg, w, steps).front == F.After(w.front, FrontRun(cfg, w, steps))
    ensures |FrontRun(cfg, w, steps)| == |steps|
    decreases |steps|
  {
    hide FrontStep, F.Next, F.After;
    if steps == [] {
      F.AfterNothing(w.front);
    } else {
      var n := |steps| - 1;
      FrontIsRun(cfg, w, steps[..n]);
      F.AfterAppend(w.front, FrontRun(cfg, w, steps[..n]), FrontStep(cfg, WorldAfter(cfg, w, steps[..n]), steps[n]));
    }
  }

  lemma LimiterStep(cfg: Config, calls: seq<Call>, c: Call)
    requires cfg.window > 0.0
    ensures LimiterAfter(cfg, calls + [c]) == Limit(cfg, LimiterAfter(cfg, calls), c).0
  {
    assert (calls + [c])[..|calls|] == calls;
  }

  /**
   The limiter lives in a world of its own: its state is that of a limiter that only ever saw the calls
   the quota let through.  So whatever a limiter guarantees alone, it guarantees here.
   */
  lemma {:induction false} LimiterSeesPassedCalls(cfg: Config, w: World, steps: seq<Step>)
    requires cfg.window > 0.0 && w.limiter == Idle
    ensures WorldAfter(cfg, w, steps).limiter == LimiterAfter(cfg, ExecutedCalls(cfg, w, steps))
    decreases |steps|
  {
    hide Limit, LimiterAfter, F.Next;
    EmptyRuns(cfg, w);
    if steps != [] {
      var n := |steps| - 1;
      var before := WorldAfter(cfg, w, steps[..n]);
      var calls := ExecutedCalls(cfg, w, steps[..n]);
      LimiterSeesPassedCalls(cfg, w, steps[..n]);
      if CallOf(before, steps[n]) != [] {
        LimiterStep(cfg, calls, CallOf(before, steps[n])[0]);
      } else {
        assert calls + [] == calls;
      }
    }
  }

  // ----- The limiter's own bounds survive the composition -----

  /** The cost the limiter admits on the calls selected. */
  function AdmittedWhere(cfg: Config, w: World, steps: seq<Step>, selects: Call -> bool): int
    requires cfg.window > 0.0
  {
    if steps == [] then 0
    else
      var n := |steps| - 1;
      var before := WorldAfter(cfg, w, steps[..n]);
      var call := CallOf(before, steps[n]);
      AdmittedWhere(cfg, w, steps[..n], selects)
      + if call != [] && selects(call[0]) && Limit(cfg, before.limiter, call[0]).1.allowed then call[0].cost else 0
  }

  /** The same of a limiter that stands alone. */
  function AloneWhere(cfg: Config, calls: seq<Call>, selects: Call -> bool): int
    requires cfg.window > 0.0
  {
    if calls == [] then 0
    else
      var n := |calls| - 1;
      AloneWhere(cfg, calls[..n], selects)
      + if selects(calls[n]) && Limit(cfg, LimiterAfter(cfg, calls[..n]), calls[n]).1.allowed then calls[n].cost else 0
  }

  lemma AloneStep(cfg: Config, calls: seq<Call>, c: Call, selects: Call -> bool)
    requires cfg.window > 0.0
    ensures AloneWhere(cfg, calls + [c], selects)
            == AloneWhere(cfg, calls, selects)
               + if selects(c) && Limit(cfg, LimiterAfter(cfg, calls), c).1.allowed then c.cost else 0
  {
    assert (calls + [c])[..|calls|] == calls;
  }

  /** Behind the quota the limiter admits exactly what it would admit alone on the calls put to it. */
  lemma {:induction false} AdmitsAsAlone(cfg: Config, w: World, steps: seq<Step>, selects: Call -> bool)
    requires cfg.window > 0.0 && w.limiter == Idle
    ensures AdmittedWhere(cfg, w, steps, selects) == AloneWhere(cfg, ExecutedCalls(cfg, w, steps), selects)
    decreases |steps|
  {
    EmptyRuns(cfg, w);
    hide Limit, LimiterAfter, WorldAfter;
    if steps != [] {
      var n := |steps| - 1;
      var calls := ExecutedCalls(cfg, w, steps[..n]);
      var call := CallOf(WorldAfter(cfg, w, steps[..n]), steps[n]);
      AdmitsAsAlone(cfg, w, steps[..n], selects);
      LimiterSeesPassedCalls(cfg, w, steps[..n]);
      if call != [] {
        assert call == [call[0]];
        AloneStep(cfg, calls, call[0], selects);
      } else {
        assert calls + call == calls;
      }
    }
  }

  /** The calls on a key in the `k`-th window after the epoch. */
  function InWindow(cfg: Config, key: string, k: int): Call -> bool {
    (c: Call) => c.key == key && k as real * cfg.window <= c.now < (k + 1) as real * cfg.window
  }

  /** The calls on a key at moments in `[from, to]`. */
  function Between(key: string, from: real, to: real): Call -> bool {
    (c: Call) => c.key == key && from <= c.now <= to
  }

  /** The calls on a key at moments in `(since, until]`. */
  function Lately(key: string, since: real, until: real): Call -> bool {
    (c: Call) => c.key == key && since < c.now <= until
  }

  function FixedCalls(calls: seq<Call>): seq<FW.Call> {
    seq(|calls|, i requires 0 <= i < |calls| => FixedCall(calls[i]))
  }

  lemma {:induction false} CountersAreFixedWindow(cfg: Config, calls: seq<Call>)
    requires cfg.window > 0.0 && cfg.algorithm == FixedWindow
    ensures LimiterAfter(cfg, calls).counters == FW.StoreAfter(Fixed(cfg), FixedCalls(calls))
    decreases |calls|
  {
    hide FW.Check;
    if calls != [] {
      var n := |calls| - 1;
      CountersAreFixedWindow(cfg, calls[..n]);
      assert FixedCalls(calls)[..n] == FixedCalls(calls[..n]);
    }
  }

  lemma SlotIff(cfg: Config, c: Call, key: string, k: int)
    requires cfg.window > 0.0
    ensures FW.Slot(Fixed(cfg), FixedCall(c)) == (key, k) <==> InWindow(cfg, key, k)(c)
  {
    FW.WindowIff(Fixed(cfg), c.now, k);
    hide FW.WindowIndex;
  }

  lemma {:induction false} FixedAlone(cfg: Config, calls: seq<Call>, key: string, k: int)
    requires cfg.window > 0.0 && cfg.algorithm == FixedWindow
    ensures AloneWhere(cfg, calls, InWindow(cfg, key, k)) == FW.AdmittedIn(Fixed(cfg), FixedCalls(calls), (key, k))
    decreases |calls|
  {
    hide FW.Check, FW.Slot, LimiterAfter, FW.StoreAfter;
    if calls != [] {
      var n := |calls| - 1;
      FixedAlone(cfg, calls[..n], key, k);
      CountersAreFixedWindow(cfg, calls[..n]);
      SlotIff(cfg, calls[n], key, k);
      assert FixedCalls(calls)[..n] == FixedCalls(calls[..n]);
    }
  }

  /** The cost asked for by the calls selected. */
  function AskedWhere(calls: seq<Call>, selects: Call -> bool): int {
    if calls == [] then 0
    else
      var n := |calls| - 1;
      AskedWhere(calls[..n], selects) + if selects(calls[n]) then calls[n].cost else 0
  }

  lemma {:induction false} AskedIsCharged(cfg: Config, calls: seq<Call>, key: string, k: int)
    requires cfg.window > 0.0
    ensures AskedWhere(calls, InWindow(cfg, key, k)) == FW.Charged(Fixed(cfg), FixedCalls(calls), (key, k))
    decreases |calls|
  {
    hide FW.Slot;
    if calls != [] {
      var n := |calls| - 1;
      AskedIsCharged(cfg, calls[..n], key, k);
      SlotIff(cfg, calls[n], key, k);
      assert FixedCalls(calls)[..n] == FixedCalls(calls[..n]);
    }
  }

  // ----- Keys do not interfere -----

  function OnKey(calls: seq<Call>, key: string): seq<Call> {
    if calls == [] then []
    else
      var n := |calls| - 1;
      OnKey(calls[..n], key) + if calls[n].key == key then [calls[n]] else []
  }

  function BucketCalls(calls: seq<Call>): seq<TB.Call> {
    seq(|calls|, i requires 0 <= i < |calls| => BucketCall(calls[i]))
  }

  function SetCalls(calls: seq<Call>): seq<SW.Call> {
    seq(|calls|, i requires 0 <= i < |calls| => SW.Call(calls[i].cost, calls[i].now))
  }

  lemma OnKeyEmpty(key: string)
    ensures OnKey([], key) == []
  {
  }

  lemma OnKeyStep(calls: seq<Call>, key: string)
    requires calls != []
    ensures var n := |calls| - 1;
            var earlier := OnKey(calls[..n], key);
            OnKey(calls, key) == if calls[n].key == key then earlier + [calls[n]] else earlier
  {
  }

  /** Each key's bucket is that of a limiter used for that key alone. */
  lemma {:induction false} BucketsAreIndependent(cfg: Config, calls: seq<Call>, key: string)
    requires cfg.window > 0.0 && cfg.algorithm == TokenBucket
    ensures BucketOf(LimiterAfter(cfg, calls), key) == TB.After(Params(cfg), BucketCalls(OnKey(calls, key)), true)
    decreases |calls|
  {
    hide TB.Script, TB.Fetch, Params, OnKey;
    OnKeyEmpty(key);
    if calls != [] {
      var n := |calls| - 1;
      var mine := OnKey(calls[..n], key);
      BucketsAreIndependent(cfg, calls[..n], key);
      OnKeyStep(calls, key);
      assert BucketCalls(mine + [calls[n]])[..|mine|] == BucketCalls(mine);
    }
  }

  lemma SetStep(cfg: Config, calls: seq<Call>, c: Call)
    requires cfg.window > 0.0
    ensures SW.SetAfter(Sliding(cfg), SetCalls(calls + [c]))
            == SW.Check(Sliding(cfg), SW.SetAfter(Sliding(cfg), SetCalls(calls)), SW.Call(c.cost, c.now)).0
  {
    hide SW.Check;
    assert SetCalls(calls + [c])[..|calls|] == SetCalls(calls);
  }

  predicate Slides(cfg: Config) {
    cfg.algorithm != FixedWindow && cfg.algorithm != TokenBucket
  }

  lemma NoSetYet(cfg: Config)
    ensures SW.SetAfter(Sliding(cfg), SetCalls([])) == SW.EmptySet
  {
  }

  /** Each key's sorted set is that of a limiter used for that key alone. */
  lemma {:induction false} SetsAreIndependent(cfg: Config, calls: seq<Call>, key: string)
    requires cfg.window > 0.0 && Slides(cfg)
    ensures SetOf(LimiterAfter(cfg, calls), key) == SW.SetAfter(Sliding(cfg), SetCalls(OnKey(calls, key)))
    decreases |calls|
  {
    hide SW.Check, SW.SetAfter, OnKey, SetCalls;
    OnKeyEmpty(key);
    NoSetYet(cfg);
    if calls != [] {
      var n := |calls| - 1;
      SetsAreIndependent(cfg, calls[..n], key);
      OnKeyStep(calls, key);
      SetStep(cfg, OnKey(calls[..n], key), calls[n]);
    }
  }

  /**
   So every verdict past the quota is that of a limiter serving this key alone, on the calls the quota
   let through.
   */
  lemma VerdictIsSingleKey(cfg: Config, w: World, steps: seq<Step>, c: Call)
    requires cfg.window > 0.0 && w.limiter == Idle && cfg.algorithm != FixedWindow
    ensures var mine := OnKey(ExecutedCalls(cfg, w, steps), c.key);
            var v := Limit(cfg, WorldAfter(cfg, w, steps).limiter, c).1;
            && (cfg.algorithm == TokenBucket ==>
                  var bucket := TB.After(Params(cfg), BucketCalls(mine), true);
                  var alone := TB.Script(Params(cfg), TB.Fetch(bucket, c.now, true), BucketCall(c)).1;
                  v == Verdict(alone.allowed, alone.limit, alone.remaining))
            && (Slides(cfg) ==>
                  var held := SW.SetAfter(Sliding(cfg), SetCalls(mine));
                  var alone := SW.Check(Sliding(cfg), held, SW.Call(c.cost, c.now)).1;
                  v == Verdict(alone.allowed, alone.limit, alone.remaining))
  {
    hide TB.Script, TB.After, TB.Fetch, SW.Check, SW.SetAfter, OnKey, ExecutedCalls, WorldAfter, Params, LimiterAfter;
    var calls := ExecutedCalls(cfg, w, steps);
    LimiterSeesPassedCalls(cfg, w, steps);
    if cfg.algorithm == TokenBucket {
      BucketsAreIndependent(cfg, calls, c.key);
    } else {
      SetsAreIndependent(cfg, calls, c.key);
    }
  }

  /**
   The fixed window's decision in numbers: a call in the `k`-th window is admitted exactly if all that the
   calls let through have asked for on its key in that window leaves room for it.
   */
  lemma FixedDecision(cfg: Config, w: World, steps: seq<Step>, c: Call, k: int)
    requires cfg.window > 0.0 && cfg.algorithm == FixedWindow && w.limiter == Idle
    requires Ordered(ExecutedCalls(cfg, w, steps) + [c])
    requires k as real * cfg.window <= c.now < (k + 1) as real * cfg.window
    ensures var v := Limit(cfg, WorldAfter(cfg, w, steps).limiter, c).1;
            var asked := AskedWhere(ExecutedCalls(cfg, w, steps), InWindow(cfg, c.key, k));
            && (v.allowed <==> asked + c.cost <= cfg.requests)
            && v.limit == cfg.requests
            && v.remaining == if v.allowed then cfg.requests - asked - c.cost else 0
  {
    hide WorldAfter, ExecutedCalls, LimiterAfter, FW.WindowIndex, FW.WindowEnd, FW.Charged, FW.StoreAfter, AskedWhere;
    var calls := ExecutedCalls(cfg, w, steps);
    LimiterSeesPassedCalls(cfg, w, steps);
    CountersAreFixedWindow(cfg, calls);
    AskedIsCharged(cfg, calls, c.key, k);
    FW.WindowIff(Fixed(cfg), c.now, k);
    OrderedBefore(calls, c);
    FW.CounterSurvivesItsWindow(Fixed(cfg), 0.0, FixedCalls(calls), c.key, c.now, c.now);
  }

  lemma OrderedBefore(calls: seq<Call>, c: Call)
    requires Ordered(calls + [c])
    ensures Ordered(calls) && FW.Timed(0.0, FixedCalls(calls)) && FW.NotAfter(FixedCalls(calls), c.now)
  {
    var run := calls + [c];
    forall i | 0 <= i < |calls|
      ensures calls[i] == run[i] && calls[i].now <= c.now
    {
      assert run[i].now <= run[|calls|].now;
    }
  }

  /**
   The sliding window's decision in numbers: a call is admitted exactly if what was admitted on its key in
   the window up to it leaves room for it.
   */
  lemma SlidingDecision(cfg: Config, w: World, steps: seq<Step>, c: Call)
    requires cfg.window > 0.0 && Slides(cfg) && w.limiter == Idle && CostsNonNegative(w, steps)
    requires SW.Distinct(SetCalls(OnKey(ExecutedCalls(cfg, w, steps), c.key)) + [SW.Call(c.cost, c.now)])
    ensures var v := Limit(cfg, WorldAfter(cfg, w, steps).limiter, c).1;
            var used := AdmittedWhere(cfg, w, steps, Lately(c.key, c.now - cfg.window, c.now));
            && (v.allowed <==> used + c.cost <= cfg.requests)
            && v.limit == cfg.requests
            && v.remaining == if v.allowed then cfg.requests - used - c.cost else 0
  {
    hide WorldAfter, ExecutedCalls, AdmittedWhere, AloneWhere, OnKey, SetCalls, SW.AdmittedDuring, SW.SetAfter,
      SW.Check, SW.Distinct, CostsNonNegative;
    var calls := ExecutedCalls(cfg, w, steps);
    VerdictIsSingleKey(cfg, w, steps, c);
    SW.DecisionIsExact(Sliding(cfg), SetCalls(OnKey(calls, c.key)), SW.Call(c.cost, c.now));
    ExecutedCostsNonNegative(cfg, w, steps);
    SetAlone(cfg, calls, c.key, c.now - cfg.window, c.now);
    AdmitsAsAlone(cfg, w, steps, Lately(c.key, c.now - cfg.window, c.now));
  }

  /**
   The token bucket's decision, for the burst `b` and rate `r` that the configuration means: a call is
   refused exactly if it exceeds the burst or would overdraw it since some earlier call on its key.
   */
  lemma BucketDecision(cfg: Config, w: World, steps: seq<Step>, c: Call, b: int, r: real)
    requires cfg.window > 0.0 && cfg.algorithm == TokenBucket && w.limiter == Idle
    requires TB.Means(cfg.requests, cfg.window, cfg.burst, cfg.refillRate, b, r)
    requires b >= 0 && r >= 0.0 && b as real <= r * (cfg.window.Floor + 1) as real
    requires Ordered(ExecutedCalls(cfg, w, steps) + [c])
    ensures var v := Limit(cfg, WorldAfter(cfg, w, steps).limiter, c).1;
            var mine := OnKey(ExecutedCalls(cfg, w, steps), c.key);
            var p := TB.Params(b, r, cfg.window.Floor + 1);
            && v.limit == b
            && (!v.allowed <==> c.cost > b || TB.OverdrawsSome(p, BucketCalls(mine + [c]), |mine|))
  {
    hide WorldAfter, ExecutedCalls, OnKey, TB.Script, TB.Fetch, TB.After, TB.Means, TB.OverdrawsSome, TB.Timed,
      TB.RefillsInTime, TB.Admits, Params, BucketCalls, Ordered;
    var calls := ExecutedCalls(cfg, w, steps);
    var mine := OnKey(calls, c.key);
    var p := TB.Params(b, r, cfg.window.Floor + 1);
    ParamsMean(cfg, b, r);
    BurstReturns(cfg, b, r);
    VerdictIsSingleKey(cfg, w, steps, c);
    OneMoreBucketCall(calls, c);
    TB.RefusedIff(p, 0.0, BucketCalls(mine + [c]), |mine|);
    LastBucketCall(p, mine, c);
  }

  lemma ParamsMean(cfg: Config, b: int, r: real)
    requires cfg.window > 0.0 && TB.Means(cfg.requests, cfg.window, cfg.burst, cfg.refillRate, b, r)
    ensures Params(cfg) == TB.Params(b, r, cfg.window.Floor + 1)
  {
    hide TB.Configure, TB.Means;
    TB.ConfigureMeans(cfg.requests, cfg.window, cfg.burst, cfg.refillRate, b, r);
  }

  lemma BurstReturns(cfg: Config, b: int, r: real)
    requires cfg.window > 0.0 && b >= 0 && b as real <= r * (cfg.window.Floor + 1) as real
    ensures TB.RefillsInTime(TB.Params(b, r, cfg.window.Floor + 1), 0.0) && cfg.window.Floor + 1 > 0
  {
    TB.RefillsInSeconds(TB.Params(b, r, cfg.window.Floor + 1), 0.0);
  }

  lemma LastBucketCall(p: TB.Params, mine: seq<Call>, c: Call)
    ensures |BucketCalls(mine + [c])| == |mine| + 1 && BucketCalls(mine + [c])[|mine|].cost == c.cost
    ensures var v := TB.Script(p, TB.Fetch(TB.After(p, BucketCalls(mine), true), c.now, true), BucketCall(c)).1;
            v.limit == p.burst && (v.allowed <==> TB.Admits(p, BucketCalls(mine + [c]), |mine|, true))
  {
    assert BucketCalls(mine + [c])[..|mine|] == BucketCalls(mine);
  }

  lemma OneMoreBucketCall(calls: seq<Call>, c: Call)
    requires Ordered(calls + [c])
    ensures TB.Timed(0.0, BucketCalls(OnKey(calls, c.key) + [c]))
    ensures |BucketCalls(OnKey(calls, c.key) + [c])| == |OnKey(calls, c.key)| + 1
  {
    var run := calls + [c];
    OnKeyOrdered(run, c.key);
    assert run[..|calls|] == calls;
    OnKeyStep(run, c.key);
    hide OnKey;
  }

  lemma {:induction false} BucketAlone(cfg: Config, calls: seq<Call>, key: string, from: real, to: real)
    requires cfg.window > 0.0 && cfg.algorithm == TokenBucket
    ensures AloneWhere(cfg, calls, Between(key, from, to))
            == TB.AdmittedDuring(Params(cfg), BucketCalls(OnKey(calls, key)), from, to)
    decreases |calls|
  {
    OnKeyEmpty(key);
    hide TB.Script, TB.Fetch, TB.After, Params, OnKey, LimiterAfter;
    if calls != [] {
      var n := |calls| - 1;
      var mine := OnKey(calls[..n], key);
      BucketAlone(cfg, calls[..n], key, from, to);
      BucketsAreIndependent(cfg, calls[..n], key);
      OnKeyStep(calls, key);
      assert BucketCalls(mine + [calls[n]])[..|mine|] == BucketCalls(mine);
    }
  }

  lemma DuringStep(cfg: Config, mine: seq<Call>, c: Call, since: real, until: real)
    requires cfg.window > 0.0
    ensures SW.AdmittedDuring(Sliding(cfg), SetCalls([]), since, until) == 0
    ensures SW.AdmittedDuring(Sliding(cfg), SetCalls(mine + [c]), since, until)
            == SW.AdmittedDuring(Sliding(cfg), SetCalls(mine), since, until)
               + var held := SW.SetAfter(Sliding(cfg), SetCalls(mine));
                 if since < c.now <= until && SW.Check(Sliding(cfg), held, SW.Call(c.cost, c.now)).1.allowed
                 then MaxInt(0, c.cost) else 0
  {
    hide SW.Check, SW.SetAfter;
    assert SetCalls(mine + [c])[..|mine|] == SetCalls(mine);
  }

  lemma {:induction false} SetAlone(cfg: Config, calls: seq<Call>, key: string, since: real, until: real)
    requires cfg.window > 0.0 && Slides(cfg)
    requires forall i :: 0 <= i < |calls| ==> calls[i].cost >= 0
    ensures AloneWhere(cfg, calls, Lately(key, since, until))
            == SW.AdmittedDuring(Sliding(cfg), SetCalls(OnKey(calls, key)), since, until)
    decreases |calls|
  {
    OnKeyEmpty(key);
    hide SW.Check, SW.SetAfter, SW.AdmittedDuring, SetCalls, OnKey, LimiterAfter;
    if calls == [] {
      DuringStep(cfg, [], Call(key, 0, since), since, until);
    } else {
      var n := |calls| - 1;
      SetAlone(cfg, calls[..n], key, since, until);
      SetsAreIndependent(cfg, calls[..n], key);
      OnKeyStep(calls, key);
      DuringStep(cfg, OnKey(calls[..n], key), calls[n], since, until);
    }
  }

  // ----- Both bounds at once -----

  /** The limiter's clock never goes back. */
  ghost predicate Ordered(calls: seq<Call>) {
    forall i, j :: 0 <= i < j < |calls| ==> calls[i].now <= calls[j].now
  }

  ghost predicate CostsNonNegative(w: World, steps: seq<Step>) {
    && F.NonNegative(w.front.inFlight)
    && (forall i :: 0 <= i < |steps| && steps[i].Charge? ==> steps[i].r.cost >= 0)
  }

  lemma {:induction false} FrontCostsNonNegative(cfg: Config, w: World, steps: seq<Step>)
    requires cfg.window > 0.0 && CostsNonNegative(w, steps)
    ensures F.CostsNonNegative(w.front, FrontRun(cfg, w, steps))
    decreases |steps|
  {
    hide WorldAfter, F.NonNegative;
    if steps != [] {
      FrontCostsNonNegative(cfg, w, steps[..|steps| - 1]);
    }
  }

  lemma {:induction false} ExecutedCostsNonNegative(cfg: Config, w: World, steps: seq<Step>)
    requires cfg.window > 0.0 && CostsNonNegative(w, steps)
    ensures var calls := ExecutedCalls(cfg, w, steps); forall i :: 0 <= i < |calls| ==> calls[i].cost >= 0
    decreases |steps|
  {
    hide WorldAfter, FrontRun;
    if steps != [] {
      var n := |steps| - 1;
      var front := FrontRun(cfg, w, steps[..n]);
      ExecutedCostsNonNegative(cfg, w, steps[..n]);
      FrontIsRun(cfg, w, steps[..n]);
      FrontCostsNonNegative(cfg, w, steps[..n]);
      assert front[..|front|] == front;
      F.InFlightNonNegative(w.front, front, |front|);
      var call := CallOf(WorldAfter(cfg, w, steps[..n]), steps[n]);
      assert call != [] ==> call[0].cost >= 0;
      assert ExecutedCalls(cfg, w, steps) == ExecutedCalls(cfg, w, steps[..n]) + call;
    }
  }

  lemma {:induction false} OnKeyOrdered(calls: seq<Call>, key: string)
    requires Ordered(calls)
    ensures Ordered(OnKey(calls, key))
    ensures var mine := OnKey(calls, key);
            forall i :: 0 <= i < |mine| ==> calls != [] && mine[i].now <= calls[|calls| - 1].now
    decreases |calls|
  {
    OnKeyEmpty(key);
    hide OnKey;
    if calls != [] {
      OnKeyOrdered(calls[..|calls| - 1], key);
      OnKeyStep(calls, key);
    }
  }

  /**
   The bound of the configured algorithm on one key behind the quota: on the `k`-th window after the epoch,
   on the stretch `[from, to]` for the token bucket that means burst `b` and rate `r`, and on the window
   ending at `to` for the sliding window.
   */
  ghost predicate LimiterBound(cfg: Config, w: World, steps: seq<Step>, key: string, k: int, from: real, to: real,
                               b: int, r: real)
    requires cfg.window > 0.0 && from <= to
  {
    && (cfg.algorithm == FixedWindow ==>
          AdmittedWhere(cfg, w, steps, InWindow(cfg, key, k)) <= MaxInt(0, cfg.requests))
    && (cfg.algorithm == TokenBucket ==>
          AdmittedWhere(cfg, w, steps, Between(key, from, to)) as real <= b as real + r * (to - from))
    && (Slides(cfg) ==>
          AdmittedWhere(cfg, w, steps, Lately(key, to - cfg.window, to)) <= MaxInt(0, cfg.requests))
  }

  /**
   What an algorithm's own bound rests on: a clock that never goes back; for the token bucket also a burst
   that refills within the window's whole seconds and one more, for the sliding window no two calls of the
   key at one moment.
   */
  ghost predicate Sound(cfg: Config, calls: seq<Call>, key: string, b: int, r: real)
    requires cfg.window > 0.0
  {
    && (!Slides(cfg) ==> Ordered(calls))
    && (cfg.algorithm == TokenBucket ==>
          && TB.Means(cfg.requests, cfg.window, cfg.burst, cfg.refillRate, b, r)
          && b >= 0 && r >= 0.0 && b as real <= r * (cfg.window.Floor + 1) as real)
    && (Slides(cfg) ==> SW.Distinct(SetCalls(OnKey(calls, key))))
  }

  lemma FixedBound(cfg: Config, w: World, steps: seq<Step>, key: string, k: int)
    requires cfg.window > 0.0 && cfg.algorithm == FixedWindow && w.limiter == Idle
    requires CostsNonNegative(w, steps) && Ordered(ExecutedCalls(cfg, w, steps))
    ensures AdmittedWhere(cfg, w, steps, InWindow(cfg, key, k)) <= MaxInt(0, cfg.requests)
  {
    hide AdmittedWhere, AloneWhere, ExecutedCalls, FW.AdmittedIn, InWindow;
    var calls := ExecutedCalls(cfg, w, steps);
    AdmitsAsAlone(cfg, w, steps, InWindow(cfg, key, k));
    FixedAlone(cfg, calls, key, k);
    ExecutedCostsNonNegative(cfg, w, steps);
    FW.WindowBound(Fixed(cfg), 0.0, FixedCalls(calls), (key, k));
  }

  lemma {:induction false} OnKeyPaid(calls: seq<Call>, key: string)
    requires forall i :: 0 <= i < |calls| ==> calls[i].cost >= 0
    ensures var mine := OnKey(calls, key); forall i :: 0 <= i < |mine| ==> mine[i].cost >= 0
    decreases |calls|
  {
    OnKeyEmpty(key);
    hide OnKey;
    if calls != [] {
      OnKeyPaid(calls[..|calls| - 1], key);
      OnKeyStep(calls, key);
    }
  }

  lemma BucketRunIsTimed(calls: seq<Call>, key: string)
    requires Ordered(calls) && forall i :: 0 <= i < |calls| ==> calls[i].cost >= 0
    ensures TB.Timed(0.0, BucketCalls(OnKey(calls, key))) && TB.CostsNonNegative(BucketCalls(OnKey(calls, key)))
  {
    hide OnKey;
    OnKeyOrdered(calls, key);
    OnKeyPaid(calls, key);
  }

  lemma SoundBucket(cfg: Config, calls: seq<Call>, key: string, b: int, r: real)
    requires cfg.window > 0.0 && cfg.algorithm == TokenBucket && Sound(cfg, calls, key, b, r)
    ensures var p := TB.Params(b, r, cfg.window.Floor + 1);
            && Params(cfg) == p && p.burst >= 0 && p.refillRate >= 0.0 && p.ttl > 0
            && TB.RefillsInTime(p, 0.0) && Ordered(calls)
  {
    hide TB.Means, TB.RefillsInTime, Params, Ordered;
    ParamsMean(cfg, b, r);
    BurstReturns(cfg, b, r);
  }

  lemma BucketGainBound(cfg: Config, w: World, steps: seq<Step>, key: string, from: real, to: real, p: TB.Params)
    requires cfg.window > 0.0 && cfg.algorithm == TokenBucket && w.limiter == Idle && from <= to
    requires Params(cfg) == p && p.burst >= 0 && p.refillRate >= 0.0 && p.ttl > 0 && TB.RefillsInTime(p, 0.0)
    requires CostsNonNegative(w, steps) && Ordered(ExecutedCalls(cfg, w, steps))
    ensures AdmittedWhere(cfg, w, steps, Between(key, from, to)) as real <= p.burst as real + TB.Gain(p, from, to)
  {
    var calls := ExecutedCalls(cfg, w, steps);
    hide AdmittedWhere, AloneWhere, ExecutedCalls, OnKey, TB.AdmittedDuring, TB.RefillsInTime, TB.Timed,
      TB.CostsNonNegative, TB.Gain, Params, Between, Ordered, BucketCalls, CostsNonNegative;
    AdmitsAsAlone(cfg, w, steps, Between(key, from, to));
    BucketAlone(cfg, calls, key, from, to);
    ExecutedCostsNonNegative(cfg, w, steps);
    BucketRunIsTimed(calls, key);
    TB.IntervalBound(p, 0.0, BucketCalls(OnKey(calls, key)), from, to);
  }

  lemma BucketBound(cfg: Config, w: World, steps: seq<Step>, key: string, from: real, to: real, b: int, r: real)
    requires cfg.window > 0.0 && cfg.algorithm == TokenBucket && w.limiter == Idle && from <= to
    requires CostsNonNegative(w, steps) && Sound(cfg, ExecutedCalls(cfg, w, steps), key, b, r)
    ensures AdmittedWhere(cfg, w, steps, Between(key, from, to)) as real <= b as real + r * (to - from)
  {
    var p := TB.Params(b, r, cfg.window.Floor + 1);
    hide AdmittedWhere, ExecutedCalls, TB.RefillsInTime, Params, Sound, Between, Ordered, CostsNonNegative;
    SoundBucket(cfg, ExecutedCalls(cfg, w, steps), key, b, r);
    BucketGainBound(cfg, w, steps, key, from, to, p);
    TB.GainIs(p, from, to);
  }

  lemma SlidingBound(cfg: Config, w: World, steps: seq<Step>, key: string, t: real, b: int, r: real)
    requires cfg.window > 0.0 && Slides(cfg) && w.limiter == Idle
    requires CostsNonNegative(w, steps) && Sound(cfg, ExecutedCalls(cfg, w, steps), key, b, r)
    ensures AdmittedWhere(cfg, w, steps, Lately(key, t - cfg.window, t)) <= MaxInt(0, cfg.requests)
  {
    hide AdmittedWhere, AloneWhere, ExecutedCalls, OnKey, SW.AdmittedDuring;
    var calls := ExecutedCalls(cfg, w, steps);
    AdmitsAsAlone(cfg, w, steps, Lately(key, t - cfg.window, t));
    ExecutedCostsNonNegative(cfg, w, steps);
    SetAlone(cfg, calls, key, t - cfg.window, t);
    SW.WindowBound(Sliding(cfg), SetCalls(OnKey(calls, key)), t);
  }

  /**
   Admitted cost obeys both bounds at once, under every algorithm and any interleaving of charges and
   executions: the tenant's quota since its last reset, and the limiter's own bound on each key.
   */
  lemma BothBounds(cfg: Config, w: World, steps: seq<Step>, tenant: string, lo: nat,
                   key: string, k: int, from: real, to: real, b: int, r: real)
    requires cfg.window > 0.0 && w.limiter == Idle && from <= to && CostsNonNegative(w, steps)
    requires F.Registered(w.front, tenant) && 0 <= F.ApiUsage(w.front, tenant) <= F.ApiLimit(w.front, tenant)
    requires F.LastReset(w.front, FrontRun(cfg, w, steps), tenant, lo, |FrontRun(cfg, w, steps)|)
    requires Sound(cfg, ExecutedCalls(cfg, w, steps), key, b, r)
    ensures var front := FrontRun(cfg, w, steps);
            F.ExecutedCost(w.front, front, tenant, true, lo, |front|)
            <= F.ApiLimit(w.front, tenant) + F.InFlightCost(F.After(w.front, front[..lo]).inFlight, tenant)
    ensures LimiterBound(cfg, w, steps, key, k, from, to, b, r)
  {
    hide AdmittedWhere, ExecutedCalls, WorldAfter, FrontRun, Ordered, SW.Distinct, OnKey, CostsNonNegative, InWindow,
      TB.Means, F.ExecutedCost, F.InFlightCost, F.Registered, F.ApiUsage, F.ApiLimit, F.After;
    FrontCostsNonNegative(cfg, w, steps);
    F.AdmittedWithinQuota(w.front, FrontRun(cfg, w, steps), tenant, lo, |FrontRun(cfg, w, steps)|);
    if cfg.algorithm == FixedWindow {
      FixedBound(cfg, w, steps, key, k);
    } else if cfg.algorithm == TokenBucket {
      BucketBound(cfg, w, steps, key, from, to, b, r);
    } else {
      SlidingBound(cfg, w, steps, key, to, b, r);
    }
  }

  // ----- A run past the quota -----

  /** One tenant with an hourly limit, on an idle limiter with nothing in flight. */
  function OneTenant(limit: int): World {
    var account := Q.Account(map[], 0.0);
    World(F.Front(Some(map["acme" := F.TenantState(map[Q.ApiRequests := limit], Q.Hourly, account)]), []), Idle)
  }

  /** Two charges of the whole limit on the two sides of the hour, and then both executions. */
  function AcrossTheHour(limit: int): seq<Step> {
    var r := F.Request("key", limit, "acme");
    [Charge(r, 1.0), Charge(r, 3601.0), Execute(0, 3602.0), Execute(0, 3603.0)]
  }

  /** The same as the quota sees it, with both executions admitted. */
  function BothAdmitted(limit: int): seq<F.Step> {
    var r := F.Request("key", limit, "acme");
    [F.Charge(r, 1.0), F.Charge(r, 3601.0), F.Execute(0, true), F.Execute(0, true)]
  }

  lemma AcrossTheHourFront(limit: int)
    requires limit >= 1
    ensures var f, front := OneTenant(limit).front, BothAdmitted(limit);
            var r := F.Request("key", limit, "acme");
            && F.After(f, front[..2]).inFlight == [r, r] && F.After(f, front[..3]).inFlight == [r]
            && F.ResetsTenant(F.After(f, front[..1]), front[1], "acme")
  {
    var f, front := OneTenant(limit).front, BothAdmitted(limit);
    var r := F.Request("key", limit, "acme");
    assert front[..0] == [];
    F.AfterStep(f, front, 1);
    F.AfterStep(f, front, 2);
    F.AfterStep(f, front, 3);
    assert F.After(f, front[..1]).inFlight == [r];
  }

  lemma TwiceTheQuotaFront(limit: int)
    requires limit >= 1
    ensures F.LastReset(OneTenant(limit).front, BothAdmitted(limit), "acme", 1, 4)
    ensures F.ExecutedCost(OneTenant(limit).front, BothAdmitted(limit), "acme", true, 1, 4) == 2 * limit
  {
    hide F.After, F.ExecutedCost, OneTenant;
    AcrossTheHourFront(limit);
    F.ExecutedCostStep(OneTenant(limit).front, BothAdmitted(limit), "acme", true, 1, 2);
    F.ExecutedCostStep(OneTenant(limit).front, BothAdmitted(limit), "acme", true, 1, 3);
    F.ExecutedCostStep(OneTenant(limit).front, BothAdmitted(limit), "acme", true, 1, 4);
  }

  lemma TwiceTheQuotaVerdicts(limit: int, window: real)
    requires limit >= 1 && window > 0.0
    ensures var cfg := Config(FixedWindow, 2 * limit, window, None, None);
            var steps := AcrossTheHour(limit);
            var w2 := Next(cfg, Next(cfg, OneTenant(limit), steps[0]), steps[1]);
            var w3 := Next(cfg, w2, steps[2]);
            && FrontStep(cfg, w2, steps[2]) == F.Execute(0, true) == FrontStep(cfg, w3, steps[3])
  {
    var cfg := Config(FixedWindow, 2 * limit, window, None, None);
    var steps := AcrossTheHour(limit);
    var r := steps[0].r;
    var w1 := Next(cfg, OneTenant(limit), steps[0]);
    var w2 := Next(cfg, w1, steps[1]);
    assert w1.front.inFlight == [r] && w2.front.inFlight == [r, r];
    assert Granted(cfg, w2, 0, 3602.0);
    hide FW.WindowIndex, FW.WindowEnd, FW.Ttl, F.Passes, F.ChargeTenant;
    assert Next(cfg, w2, steps[2]).front.inFlight == [r];
  }

  /** From nothing in flight, twice the limit is admitted between one reset and the next. */
  lemma TwiceTheQuota(limit: int, window: real)
    requires limit >= 1 && window > 0.0
    ensures var cfg := Config(FixedWindow, 2 * limit, window, None, None);
            var front := FrontRun(cfg, OneTenant(limit), AcrossTheHour(limit));
            && |front| == 4 && F.LastReset(OneTenant(limit).front, front, "acme", 1, 4)
            && F.ExecutedCost(OneTenant(limit).front, front, "acme", true, 1, 4) == 2 * limit
  {
    var cfg := Config(FixedWindow, 2 * limit, window, None, None);
    var steps := AcrossTheHour(limit);
    hide F.LastReset, F.ExecutedCost, Next, Granted, OneTenant;
    TwiceTheQuotaFront(limit);
    TwiceTheQuotaVerdicts(limit, window);
    FourSteps(cfg, OneTenant(limit), steps[0], steps[1], steps[2], steps[3]);
    assert steps == [steps[0], steps[1], steps[2], steps[3]];
  }

  lemma FourSteps(cfg: Config, w: World, a: Step, b: Step, c: Step, d: Step)
    requires cfg.window > 0.0
    ensures var w1 := Next(cfg, w, a);
            var w2 := Next(cfg, w1, b);
            FrontRun(cfg, w, [a, b, c, d])
            == [FrontStep(cfg, w, a), FrontStep(cfg, w1, b), FrontStep(cfg, w2, c),
                FrontStep(cfg, Next(cfg, w2, c), d)]
  {
    hide Next, FrontStep;
    assert [a, b, c, d][..3] == [a, b, c] && [a, b, c][..2] == [a, b] && [a, b][..1] == [a] && [a][..0] == [];
    assert WorldAfter(cfg, w, [a]) == Next(cfg, w, a);
    assert WorldAfter(cfg, w, [a, b]) == Next(cfg, Next(cfg, w, a), b);
    assert FrontRun(cfg, w, [a]) == [FrontStep(cfg, w, a)];
    assert FrontRun(cfg, w, [a, b]) == [FrontStep(cfg, w, a), FrontStep(cfg, Next(cfg, w, a), b)];
  }

  /** Two tenants with colon-free ids never share a limiter key, nor does one tenant under two keys. */
  lemma TenantsHaveOwnKeys(a: string, k: string, b: string, l: string)
    requires a != "" && b != "" && TN.ColonFree(a) && TN.ColonFree(b)
    requires F.CompositeKey(a, k) == F.CompositeKey(b, l)
    ensures a == b && k == l
  {
    hide TN.ColonFree;
    TN.KeyIsInjective(a, k, b, l);
  }

  /**
   Two tenants can meet under one limiter key exactly when one id continues the other past a colon, or when
   one of them is no tenant at all: a request that names none may spell out any tenant's key.
   */
  lemma LimiterKeysMeetIff(a: string, b: string)
    ensures (exists k, l :: F.CompositeKey(a, k) == F.CompositeKey(b, l)) <==> a == "" || b == "" || TN.Nested(a, b)
  {
    if a == "" {
      assert F.CompositeKey(a, F.CompositeKey(b, "")) == F.CompositeKey(b, "");
    } else if b == "" {
      assert F.CompositeKey(a, "") == F.CompositeKey(b, F.CompositeKey(a, ""));
    } else {
      forall k: string
        ensures F.CompositeKey(a, k) == TN.TenantKey(a, k) && F.CompositeKey(b, k) == TN.TenantKey(b, k)
      {
      }
      hide F.CompositeKey, TN.TenantKey, TN.Nested;
      TN.MeetIff(a, b);
      if TN.Nested(a, b) {
        var k, l :| TN.TenantKey(a, k) == TN.TenantKey(b, l);
        assert F.CompositeKey(a, k) == F.CompositeKey(b, l);
      }
    }
  }

  /** The key has the form of a tenant's key, with an id that is not empty. */
  predicate SpeltLikeTenantKey(key: string) {
    "tenant:" <= key && |key| > 8 && ':' in key[8..]
  }

  /** A request that names no tenant meets some tenant's key exactly when its key is spelt like one. */
  lemma UnnamedKeyMeetsIff(key: string)
    ensures (exists b, l :: b != "" && F.CompositeKey("", key) == F.CompositeKey(b, l)) <==> SpeltLikeTenantKey(key)
  {
    hide SpeltLikeTenantKey, F.CompositeKey;
    if SpeltLikeTenantKey(key) {
      var b, l := Spelling(key);
      assert b != "" && F.CompositeKey("", key) == F.CompositeKey(b, l);
    }
    forall b, l | b != "" && F.CompositeKey("", key) == F.CompositeKey(b, l)
      ensures SpeltLikeTenantKey(key)
    {
      TenantKeysAreSpelt(key, b, l);
    }
  }

  lemma Spelling(key: string) returns (b: string, l: string)
    requires SpeltLikeTenantKey(key)
    ensures b != "" && F.CompositeKey("", key) == F.CompositeKey(b, l)
  {
    var i :| 8 <= i < |key| && key[i] == ':';
    b, l := key[7..i], key[i + 1..];
    assert key[..7] == "tenant:" && key[i..i + 1] == ":";
    assert key == key[..7] + key[7..i] + key[i..i + 1] + key[i + 1..];
  }

  lemma TenantKeysAreSpelt(key: string, b: string, l: string)
    requires b != "" && F.CompositeKey("", key) == F.CompositeKey(b, l)
    ensures SpeltLikeTenantKey(key)
  {
    var front := "tenant:" + b;
    assert key == front + (":" + l);
    assert key[..7] == front[..7] == "tenant:";
    assert key[|front|] == ':';
    assert key[8..][|front| - 8] == ':';
  }

  // ----- Priorities -----

  /** Truncation toward zero. */
  function Truncate(x: real): int {
    if x >= 0.0 then x.Floor else -((-x).Floor)
  }

  /** The cost charged at a priority from 1 (highest) to 10 (lowest); priority 11 divides by zero. */
  function EffectiveCost(cost: int, priority: int): Option<int> {
    if priority == 11 then None
    else Some(MaxInt(1, Truncate(cost as real / ((11 - priority) as real / 10.0))))
  }

  lemma DivisionOrder(c: real, p: real, q: real)
    requires c >= 0.0 && p >= q > 0.0
    ensures 0.0 <= c / p <= c / q
  {
    var x, y := c / p, c / q;
    assert x * p == c && y * q == c;
    assert y * (p - q) == y * p - c;
    assert (y - x) * p == y * p - c;
  }

  lemma NegativeQuotient(c: real, p: real)
    requires p != 0.0 && (c < 0.0 <==> p > 0.0)
    ensures c / p <= 0.0
  {
    var x := c / p;
    assert x * p == c;
  }

  /** A higher priority is never charged more; the highest is charged the plain cost, the lowest ten times that. */
  lemma HigherPriorityCostsLess(cost: int, p: int, q: int)
    requires p <= q <= 10
    ensures 1 <= EffectiveCost(cost, p).value <= EffectiveCost(cost, q).value
    ensures EffectiveCost(cost, 1) == Some(MaxInt(1, cost)) && EffectiveCost(cost, 10) == Some(MaxInt(1, 10 * cost))
  {
    assert (11 - 10) as real / 10.0 == 0.1 && cost as real / 0.1 == (10 * cost) as real;
    var fp, fq := (11 - p) as real / 10.0, (11 - q) as real / 10.0;
    assert (11 - 1) as real / 10.0 == 1.0 && cost as real / 1.0 == cost as real;
    if cost >= 0 {
      DivisionOrder(cost as real, fp, fq);
    } else {
      NegativeQuotient(cost as real, fp);
      NegativeQuotient(cost as real, fq);
    }
  }

  /** The whole part of a cost over so many tenths. */
  lemma WholeQuotient(cost: int, tenths: int)
    requires cost >= 0 && tenths > 0
    ensures var e := Truncate(cost as real / (tenths as real / 10.0));
            e >= 0 && e * tenths <= 10 * cost < (e + 1) * tenths
  {
    var x := cost as real / (tenths as real / 10.0);
    DivisionOrder(cost as real, tenths as real / 10.0, tenths as real / 10.0);
    TenthsProduct(cost as real, tenths as real);
    assert 10.0 * cost as real == (10 * cost) as real;
    QuotientPositive(cost as real, tenths as real / 10.0);
    assert Truncate(x) == x.Floor && x.Floor >= 0;
    FloorProduct(x, tenths, 10 * cost);
  }

  lemma QuotientPositive(c: real, k: real)
    requires c >= 0.0 && k > 0.0
    ensures c / k >= 0.0
  {
  }

  /** A whole number that is a multiple of `x` lies between the same multiples of its floor and of the next. */
  lemma FloorProduct(x: real, k: int, whole: int)
    requires k > 0 && x * k as real == whole as real
    ensures x.Floor * k <= whole < (x.Floor + 1) * k
  {
    BetweenProducts(x, x.Floor, x.Floor + 1, k, whole);
  }

  lemma BetweenProducts(x: real, low: int, high: int, k: int, whole: int)
    requires k > 0 && x * k as real == whole as real && low as real <= x < high as real
    ensures low * k <= whole < high * k
  {
    ProductOrder(low as real, x, k as real);
    ProductOrderStrict(x, high as real, k as real);
    WholeProduct(low, k);
    WholeProduct(high, k);
    assert (low * k) as real <= whole as real < (high * k) as real;
  }

  lemma WholeProduct(a: int, b: int)
    ensures (a * b) as real == a as real * b as real
  {
  }

  lemma TenthsProduct(c: real, k: real)
    requires k > 0.0
    ensures c / (k / 10.0) * k == 10.0 * c
  {
    var x := c / (k / 10.0);
    assert x * (k / 10.0) == c;
  }

  lemma ProductOrder(x: real, y: real, k: real)
    requires x <= y && k > 0.0
    ensures x * k <= y * k
  {
  }

  lemma ProductOrderStrict(x: real, y: real, k: real)
    requires x < y && k > 0.0
    ensures x * k < y * k
  {
  }

  /** The cost is charged by the whole part of its tenfold over the steps left to priority 11, and never below one. */
  lemma CostBracket(cost: int, priority: int)
    requires cost >= 0 && priority <= 10
    ensures EffectiveCost(cost, priority).Some?
    ensures var e := EffectiveCost(cost, priority).value;
            && e >= 1 && (e == 1 || e * (11 - priority) <= 10 * cost)
            && 10 * cost < (e + 1) * (11 - priority)
  {
    hide Truncate;
    var whole := Truncate(cost as real / ((11 - priority) as real / 10.0));
    WholeQuotient(cost, 11 - priority);
    assert EffectiveCost(cost, priority) == Some(MaxInt(1, whole));
  }

  /** The default call, cost 1 at priority 5, is charged one unit. */
  lemma DefaultCost()
    ensures EffectiveCost(1, 5) == Some(1)
  {
    CostBracket(1, 5);
  }

  lemma BeyondLowestIsCheapest(cost: int, priority: int)
    requires cost >= 0 && priority >= 12
    ensures EffectiveCost(cost, priority) == Some(1)
  {
    NegativeQuotient(cost as real, (11 - priority) as real / 10.0);
  }

  /** At priority `p` a cost of `2 * (11 - p)` is charged as twenty units. */
  lemma TwentyUnits(p: int)
    requires p <= 10
    ensures EffectiveCost(2 * (11 - p), p) == Some(20)
  {
    var k := (11 - p) as real;
    assert (2 * (11 - p)) as real == 20.0 * (k / 10.0);
    assert 20.0 * (k / 10.0) / (k / 10.0) == 20.0;
  }

  ghost predicate NeverDearer(p: int, q: int)
    requires p != 11 && q != 11
  {
    forall cost: int :: cost >= 0 ==> EffectiveCost(cost, p).value <= EffectiveCost(cost, q).value
  }

  /**
   Of two priorities the higher is never charged more, whatever the cost, exactly when both are on the
   same side of 11: from 12 on, the lowest priorities of all are charged least.
   */
  lemma PriorityOrderIff(p: int, q: int)
    requires p <= q && p != 11 && q != 11
    ensures NeverDearer(p, q) <==> q <= 10 || p >= 12
  {
    hide Truncate, MaxInt;
    if q <= 10 {
      forall cost: int | cost >= 0
        ensures EffectiveCost(cost, p).value <= EffectiveCost(cost, q).value
      {
        HigherPriorityCostsLess(cost, p, q);
      }
    } else if p >= 12 {
      forall cost: int | cost >= 0
        ensures EffectiveCost(cost, p).value <= EffectiveCost(cost, q).value
      {
        BeyondLowestIsCheapest(cost, p);
        BeyondLowestIsCheapest(cost, q);
      }
    } else {
      TwentyUnits(p);
      BeyondLowestIsCheapest(2 * (11 - p), q);
    }
  }

  lemma CheaperIsEasier(cfg: Config, l: Limiter, key: string, cost: int, more: int, now: real)
    requires cfg.window > 0.0 && cost <= more
    requires Limit(cfg, l, Call(key, more, now)).1.allowed
    ensures Limit(cfg, l, Call(key, cost, now)).1.allowed
  {
    hide FW.WindowIndex, FW.WindowEnd, Params, TB.Refilled, SW.RemoveRange;
  }

  /** Raising a request's priority never turns an admission into a refusal, under any algorithm. */
  lemma PriorityIsLenient(cfg: Config, l: Limiter, key: string, cost: int, p: int, q: int, now: real)
    requires cfg.window > 0.0 && p <= q <= 10
    requires Limit(cfg, l, Call(key, EffectiveCost(cost, q).value, now)).1.allowed
    ensures Limit(cfg, l, Call(key, EffectiveCost(cost, p).value, now)).1.allowed
  {
    HigherPriorityCostsLess(cost, p, q);
    hide EffectiveCost;
    CheaperIsEasier(cfg, l, key, EffectiveCost(cost, p).value, EffectiveCost(cost, q).value, now);
  }

  // ----- The object -----

  class DistributedRateLimiter {
    const cfg: Config
    const enforcer: Option<Q.QuotaEnforcer>
    const fixed: FW.FixedWindowRateLimiter
    const sliding: SW.SlidingWindowRateLimiter
    const bucket: TB.TokenBucketRateLimiter

    constructor (cfg: Config, enforcer: Option<Q.QuotaEnforcer>)
      requires cfg.window > 0.0
      ensures this.cfg == cfg && this.enforcer == enforcer && Valid()
      ensures View() == Idle && fresh(fixed) && fresh(sliding) && fresh(bucket)
    {
      this.cfg, this.enforcer := cfg, enforcer;
      fixed := new FW.FixedWindowRateLimiter(FW.Config(cfg.requests, cfg.window));
      sliding := new SW.SlidingWindowRateLimiter(SW.Config(cfg.requests, cfg.window));
      bucket := new TB.TokenBucketRateLimiter(cfg.requests, cfg.window, cfg.burst, cfg.refillRate);
    }

    ghost predicate Valid() {
      && cfg.window > 0.0
      && fixed.cfg == FW.Config(cfg.requests, cfg.window)
      && sliding.cfg == SW.Config(cfg.requests, cfg.window)
      && bucket.params == Params(cfg)
    }

    function View(): Limiter
      reads fixed, sliding, bucket
    {
      Limiter(fixed.store, sliding.sets, bucket.buckets)
    }

    method RunLimiter(c: Call) returns (v: Verdict)
      requires Valid()
      modifies fixed, sliding, bucket
      ensures (View(), v) == Limit(cfg, old(View()), c)
    {
      match cfg.algorithm
      case FixedWindow =>
        var d := fixed.CheckLimit(c.key, c.cost, c.now, c.now);
        v := Verdict(d.allowed, d.limit, d.remaining);
      case TokenBucket =>
        var d, _ := bucket.CheckLimit(c.key, c.cost, c.now, c.now);
        v := Verdict(d.allowed, d.limit, d.remaining);
      case _ =>
        var d := sliding.CheckLimit(c.key, c.cost, c.now);
        v := Verdict(d.allowed, d.limit, d.remaining);
    }

    /** The tenant's account, as the pure model sees it. */
    function TenantView(tenant: string): F.TenantState
      requires enforcer.Some? && tenant in enforcer.value.tenants
      reads enforcer.value, enforcer.value.tenants[tenant], enforcer.value.tenants[tenant].usage
    {
      var t := enforcer.value.tenants[tenant];
      F.TenantState(t.limits, t.usage.period, t.usage.View())
    }

    /** Whether a request needs a charge, and whom it is charged to. */
    predicate Charged(r: F.Request) {
      enforcer.Some? && r.tenant != ""
    }

    /** The first layer: a request that names a tenant is charged to it; the limiter is not involved. */
    method ChargeQuota(r: F.Request, now: real) returns (passed: bool)
      modifies if enforcer.Some? && r.tenant in enforcer.value.tenants
               then {enforcer.value.tenants[r.tenant].usage} else {}
      ensures !Charged(r) ==> passed
      ensures Charged(r) && r.tenant !in enforcer.value.tenants ==> !passed
      ensures Charged(r) && r.tenant in enforcer.value.tenants ==>
                var (tenants, outcome) := F.ChargeTenant(map[r.tenant := old(TenantView(r.tenant))], r, now);
                TenantView(r.tenant) == tenants[r.tenant] && (passed <==> outcome == Q.Accepted)
    {
      passed := true;
      if enforcer.Some? && r.tenant != "" {
        var outcome := enforcer.value.CheckAndIncrement(r.tenant, Q.ApiRequests, r.cost, now);
        passed := outcome == Q.Accepted;
      }
    }

    /**
     The quota first, then, at a later clock reading, the limiter, which meanwhile serves any number of
     other calls; a request that the quota refuses leaves the limiter untouched.
     */
    method CheckLimit(r: F.Request, charged: real, meanwhile: seq<Call>, now: real) returns (v: Verdict)
      requires Valid()
      modifies fixed, sliding, bucket
      modifies if enforcer.Some? && r.tenant in enforcer.value.tenants
               then {enforcer.value.tenants[r.tenant].usage} else {}
      ensures !Charged(r) ==> (View(), v) == Limit(cfg, Serve(cfg, old(View()), meanwhile), LimiterCall(r, now))
      ensures Charged(r) && r.tenant !in enforcer.value.tenants ==> View() == old(View()) && v == Verdict(false, 0, 0)
      ensures Charged(r) && r.tenant in enforcer.value.tenants ==>
                var (tenants, outcome) := F.ChargeTenant(map[r.tenant := old(TenantView(r.tenant))], r, charged);
                && TenantView(r.tenant) == tenants[r.tenant]
                && (View(), v) == if outcome == Q.Accepted
                                  then Limit(cfg, Serve(cfg, old(View()), meanwhile), LimiterCall(r, now))
                                  else (old(View()), Verdict(false, 0, 0))
    {
      hide Limit, F.ChargeTenant;
      var passed := ChargeQuota(r, charged);
      if !passed {
        return Verdict(false, 0, 0);
      }
      label Passed:
      var n := 0;
      while n < |meanwhile|
        invariant 0 <= n <= |meanwhile|
        invariant View() == Serve(cfg, old(View()), meanwhile[..n])
        invariant Charged(r) && r.tenant in enforcer.value.tenants ==>
                    TenantView(r.tenant) == old@Passed(TenantView(r.tenant))
        modifies fixed, sliding, bucket
      {
        var _ := RunLimiter(meanwhile[n]);
        assert meanwhile[..n + 1][..n] == meanwhile[..n];
        n := n + 1;
      }
      assert meanwhile[..n] == meanwhile;
      v := RunLimiter(LimiterCall(r, now));
    }
  }
}
