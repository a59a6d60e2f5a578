/**
 The quota in front of a limiter, whatever the limiter is: a request is charged to its tenant, is then in
 flight, and is in the end put to the limiter, which admits or refuses it.  Any number of other requests may
 be charged or executed in between.
 */
module QuotaFront {
  import opened Prelude
  import Q = Quota

  /** `tenant` is empty when the request names none. */
  datatype Request = Request(key: string, cost: int, tenant: string)

  datatype TenantState = TenantState(limits: Q.Limits, period: Q.Period, account: Q.Account)

  /** The registered tenants, if a registry is configured at all, and the requests between quota and limiter. */
  datatype Front = Front(registry: Option<map<string, TenantState>>, inFlight: seq<Request>)

  /** `granted` is the limiter's verdict. */
  datatype Step = Charge(r: Request, now: real) | Execute(i: nat, granted: bool)

  /** The key under which the limiter sees a request. */
  function CompositeKey(tenant: string, key: string): string {
    if tenant != "" then "tenant:" + tenant + ":" + key else key
  }

  predicate Metered(f: Front, r: Request) {
    f.registry.Some? && r.tenant != ""
  }

  /** The charge to the tenant's quota; a tenant that is not registered fails it. */
  function ChargeTenant(tenants: map<string, TenantState>, r: Request, now: real):
    (map<string, TenantState>, Q.Outcome)
  {
    if r.tenant !in tenants then (tenants, Q.TenantNotFound)
    else
      var t := tenants[r.tenant];
      var (account, outcome) := Q.Charge(t.limits, t.period, t.account, Q.Request(Q.ApiRequests, r.cost, now));
      (tenants[r.tenant := t.(account := account)], outcome)
  }

  /** Whether the request gets past the quota. */
  predicate Passes(f: Front, r: Request, now: real) {
    Metered(f, r) ==> ChargeTenant(f.registry.value, r, now).1 == Q.Accepted
  }

  /** A refused charge ends the request; an index past the end names no request and does nothing. */
  function Next(f: Front, step: Step): Front {
    match step
    case Charge(r, now) =>
      Front(if Metered(f, r) then Some(ChargeTenant(f.registry.value, r, now).0) else f.registry,
            if Passes(f, r, now) then f.inFlight + [r] else f.inFlight)
    case Execute(i, _) =>
      if i < |f.inFlight| then f.(inFlight := f.inFlight[..i] + f.inFlight[i + 1..]) else f
  }

  function After(f: Front, steps: seq<Step>): Front {
    if steps == [] then f else Next(After(f, steps[..|steps| - 1]), steps[|steps| - 1])
  }

  lemma AfterStep(f: Front, steps: seq<Step>, n: nat)
    requires 0 < n <= |steps|
    ensures After(f, steps[..n]) == Next(After(f, steps[..n - 1]), steps[n - 1])
  {
    assert steps[..n][..n - 1] == steps[..n - 1];
  }

  lemma AfterNothing(f: Front)
    ensures After(f, []) == f
  {
  }

  lemma AfterAppend(f: Front, steps: seq<Step>, step: Step)
    ensures After(f, steps + [step]) == Next(After(f, steps), step)
  {
    assert (steps + [step])[..|steps|] == steps;
  }

  // ----- Accounts -----

  predicate Registered(f: Front, tenant: string) {
    f.registry.Some? && tenant != "" && tenant in f.registry.value
  }

  function ApiUsage(f: Front, tenant: string): int
    requires Registered(f, tenant)
  {
    Q.UsageOf(f.registry.value[tenant].account, Q.ApiRequests)
  }

  function ApiLimit(f: Front, tenant: string): int
    requires Registered(f, tenant)
  {
    Q.LimitOf(f.registry.value[tenant].limits, Q.ApiRequests)
  }

  /** The step is a charge to the tenant that finds its period over. */
  predicate ResetsTenant(f: Front, step: Step, tenant: string) {
    && step.Charge? && step.r.tenant == tenant && Registered(f, tenant)
    && var t := f.registry.value[tenant];
       Q.Due(t.period, t.account, step.now)
  }

  /** The cost the step charges to the tenant. */
  function ChargedBy(f: Front, step: Step, tenant: string): int {
    if step.Charge? && step.r.tenant == tenant && Passes(f, step.r, step.now) then step.r.cost else 0
  }

  /** The tenant's cost that the step gets admitted (`granted`) or refused by the limiter. */
  function ExecutedBy(f: Front, step: Step, tenant: string, granted: bool): int {
    if step.Execute? && step.i < |f.inFlight| && f.inFlight[step.i].tenant == tenant && step.granted == granted
    then f.inFlight[step.i].cost else 0
  }

  /** The tenant's cost that steps `lo..hi` got admitted or refused by the limiter. */
  function ExecutedCost(f: Front, steps: seq<Step>, tenant: string, granted: bool, lo: nat, hi: nat): int
    requires lo <= hi <= |steps|
    decreases hi
  {
    if lo == hi then 0
    else ExecutedCost(f, steps, tenant, granted, lo, hi - 1)
         + ExecutedBy(After(f, steps[..hi - 1]), steps[hi - 1], tenant, granted)
  }

  /** The tenant's cost that has been charged and not yet put to the limiter. */
  function InFlightCost(rs: seq<Request>, tenant: string): int {
    if rs == [] then 0
    else InFlightCost(rs[..|rs| - 1], tenant) + if rs[|rs| - 1].tenant == tenant then rs[|rs| - 1].cost else 0
  }

  lemma {:induction false} InFlightAppend(a: seq<Request>, b: seq<Request>, tenant: string)
    ensures InFlightCost(a + b, tenant) == InFlightCost(a, tenant) + InFlightCost(b, tenant)
    decreases |b|
  {
    if b == [] {
      assert a + b == a;
    } else {
      assert (a + b)[..|a + b| - 1] == a + b[..|b| - 1];
      InFlightAppend(a, b[..|b| - 1], tenant);
    }
  }

  /** Taking one request out of flight takes its cost out. */
  lemma InFlightTake(rs: seq<Request>, i: nat, tenant: string)
    requires i < |rs|
    ensures InFlightCost(rs[..i] + rs[i + 1..], tenant)
            == InFlightCost(rs, tenant) - if rs[i].tenant == tenant then rs[i].cost else 0
  {
    assert rs == rs[..i] + ([rs[i]] + rs[i + 1..]);
    InFlightAppend(rs[..i], [rs[i]] + rs[i + 1..], tenant);
    InFlightAppend([rs[i]], rs[i + 1..], tenant);
    InFlightAppend(rs[..i], rs[i + 1..], tenant);
    assert InFlightCost([rs[i]][..0], tenant) == 0;
  }

  /** What one step does to the tenant's counter: a reset clears it, an accepted charge adds to it. */
  lemma UsageStep(f: Front, step: Step, tenant: string)
    requires Registered(f, tenant)
    ensures var f' := Next(f, step);
            && Registered(f', tenant) && ApiLimit(f', tenant) == ApiLimit(f, tenant)
            && ApiUsage(f', tenant)
               == (if ResetsTenant(f, step, tenant) then 0 else ApiUsage(f, tenant)) + ChargedBy(f, step, tenant)
  {
  }

  /** What one step does to the cost in flight: a charge puts its cost there, an execution takes it out. */
  lemma InFlightStep(f: Front, step: Step, tenant: string)
    ensures InFlightCost(Next(f, step).inFlight, tenant)
            == InFlightCost(f.inFlight, tenant) + ChargedBy(f, step, tenant)
               - ExecutedBy(f, step, tenant, true) - ExecutedBy(f, step, tenant, false)
  {
    hide ChargeTenant;
    match step
    case Charge(r, now) =>
      InFlightAppend(f.inFlight, [r], tenant);
      assert InFlightCost([r][..0], tenant) == 0;
    case Execute(i, _) =>
      if i < |f.inFlight| {
        InFlightTake(f.inFlight, i, tenant);
      }
  }

  lemma {:induction false} StaysRegistered(f: Front, steps: seq<Step>, tenant: string)
    requires Registered(f, tenant)
    ensures Registered(After(f, steps), tenant)
    ensures ApiLimit(After(f, steps), tenant) == ApiLimit(f, tenant)
    decreases |steps|
  {
    hide Next, Registered, ApiLimit;
    if steps != [] {
      var n := |steps| - 1;
      StaysRegistered(f, steps[..n], tenant);
      UsageStep(After(f, steps[..n]), steps[n], tenant);
    }
  }

  // ----- Conservation -----

  /** Step `lo` resets the tenant, or is the first and finds the counter at zero; none between it and `n` resets. */
  ghost predicate LastReset(f: Front, steps: seq<Step>, tenant: string, lo: nat, n: nat)
    requires n <= |steps|
  {
    && lo <= n
    && (|| (lo < n && ResetsTenant(After(f, steps[..lo]), steps[lo], tenant))
        || (lo == 0 && Registered(f, tenant) && ApiUsage(f, tenant) == 0))
    && forall k :: lo < k < n ==> !ResetsTenant(After(f, steps[..k]), steps[k], tenant)
  }

  lemma ExecutedCostStep(f: Front, steps: seq<Step>, tenant: string, granted: bool, lo: nat, n: nat)
    requires lo < n <= |steps|
    ensures ExecutedCost(f, steps, tenant, granted, lo, lo) == 0
    ensures ExecutedCost(f, steps, tenant, granted, lo, n)
            == ExecutedCost(f, steps, tenant, granted, lo, n - 1)
               + ExecutedBy(After(f, steps[..n - 1]), steps[n - 1], tenant, granted)
  {
  }

  lemma NothingYet(f: Front, steps: seq<Step>, tenant: string, lo: nat)
    requires LastReset(f, steps, tenant, lo, 0)
    ensures lo == 0 && After(f, steps[..0]) == f && Registered(f, tenant) && ApiUsage(f, tenant) == 0
    ensures forall granted :: ExecutedCost(f, steps, tenant, granted, 0, 0) == 0
  {
    assert steps[..0] == [];
  }

  /** The last of the steps is the reset itself, or the others have the same last reset. */
  lemma LastResetBefore(f: Front, steps: seq<Step>, tenant: string, lo: nat, n: nat)
    requires 0 < n <= |steps| && LastReset(f, steps, tenant, lo, n)
    ensures lo < n
    ensures if ResetsTenant(After(f, steps[..n - 1]), steps[n - 1], tenant) then lo == n - 1
            else LastReset(f, steps, tenant, lo, n - 1)
  {
    hide ResetsTenant, After, ApiUsage, Registered;
  }

  /**
   Every unit is accounted for.  What is on the tenant's API counter, with what was in flight when it was
   last reset, is what the limiter has since admitted, what it has refused after the quota had taken it,
   and what is in flight now.
   */
  lemma {:induction false} Conservation(f: Front, steps: seq<Step>, tenant: string, lo: nat, n: nat)
    requires Registered(f, tenant) && n <= |steps| && LastReset(f, steps, tenant, lo, n)
    ensures Registered(After(f, steps[..n]), tenant)
    ensures ApiUsage(After(f, steps[..n]), tenant) + InFlightCost(After(f, steps[..lo]).inFlight, tenant)
            == ExecutedCost(f, steps, tenant, true, lo, n) + ExecutedCost(f, steps, tenant, false, lo, n)
               + InFlightCost(After(f, steps[..n]).inFlight, tenant)
    decreases n
  {
    hide After, Next, ApiUsage, ApiLimit, Registered, InFlightCost, ExecutedCost, ExecutedBy, ChargedBy,
      ResetsTenant, LastReset;
    if n == 0 {
      NothingYet(f, steps, tenant, lo);
    } else {
      var before := After(f, steps[..n - 1]);
      AfterStep(f, steps, n);
      StaysRegistered(f, steps[..n - 1], tenant);
      UsageStep(before, steps[n - 1], tenant);
      InFlightStep(before, steps[n - 1], tenant);
      LastResetBefore(f, steps, tenant, lo, n);
      ExecutedCostStep(f, steps, tenant, true, lo, n);
      ExecutedCostStep(f, steps, tenant, false, lo, n);
      if !ResetsTenant(before, steps[n - 1], tenant) {
        Conservation(f, steps, tenant, lo, n - 1);
      }
    }
  }

  // ----- The quota's bound -----

  ghost predicate NonNegative(rs: seq<Request>) {
    forall i :: 0 <= i < |rs| ==> rs[i].cost >= 0
  }

  ghost predicate CostsNonNegative(f: Front, steps: seq<Step>) {
    && NonNegative(f.inFlight)
    && (forall i :: 0 <= i < |steps| && steps[i].Charge? ==> steps[i].r.cost >= 0)
  }

  lemma StepNonNegative(f: Front, step: Step)
    requires NonNegative(f.inFlight) && (step.Charge? ==> step.r.cost >= 0)
    ensures NonNegative(Next(f, step).inFlight)
  {
    hide Passes, ChargeTenant;
  }

  lemma {:induction false} InFlightNonNegative(f: Front, steps: seq<Step>, n: nat)
    requires n <= |steps| && CostsNonNegative(f, steps)
    ensures NonNegative(After(f, steps[..n]).inFlight)
    decreases n
  {
    hide Next, NonNegative;
    assert steps[..0] == [];
    if n > 0 {
      AfterStep(f, steps, n);
      InFlightNonNegative(f, steps, n - 1);
      StepNonNegative(After(f, steps[..n - 1]), steps[n - 1]);
    }
  }

  lemma {:induction false} InFlightAddsUp(rs: seq<Request>, tenant: string)
    requires NonNegative(rs)
    ensures InFlightCost(rs, tenant) >= 0
    decreases |rs|
  {
    if rs != [] {
      InFlightAddsUp(rs[..|rs| - 1], tenant);
    }
  }

  lemma {:induction false} CostsAddUp(f: Front, steps: seq<Step>, tenant: string, granted: bool, lo: nat, hi: nat)
    requires lo <= hi <= |steps| && CostsNonNegative(f, steps)
    ensures ExecutedCost(f, steps, tenant, granted, lo, hi) >= 0
    decreases hi
  {
    hide After;
    if lo < hi {
      CostsAddUp(f, steps, tenant, granted, lo, hi - 1);
      InFlightNonNegative(f, steps, hi - 1);
    }
  }

  lemma StepWithinLimit(f: Front, step: Step, tenant: string)
    requires Registered(f, tenant) && 0 <= ApiUsage(f, tenant) <= ApiLimit(f, tenant)
    requires step.Charge? ==> step.r.cost >= 0
    ensures Registered(Next(f, step), tenant) && ApiLimit(Next(f, step), tenant) == ApiLimit(f, tenant)
    ensures 0 <= ApiUsage(Next(f, step), tenant) <= ApiLimit(f, tenant)
  {
  }

  lemma {:induction false} UsageWithinLimit(f: Front, steps: seq<Step>, tenant: string, n: nat)
    requires Registered(f, tenant) && 0 <= ApiUsage(f, tenant) <= ApiLimit(f, tenant)
    requires n <= |steps| && CostsNonNegative(f, steps)
    ensures Registered(After(f, steps[..n]), tenant) && ApiLimit(After(f, steps[..n]), tenant) == ApiLimit(f, tenant)
    ensures 0 <= ApiUsage(After(f, steps[..n]), tenant) <= ApiLimit(f, tenant)
    decreases n
  {
    hide Next, Registered, ApiUsage, ApiLimit;
    assert steps[..0] == [];
    if n > 0 {
      AfterStep(f, steps, n);
      UsageWithinLimit(f, steps, tenant, n - 1);
      StepWithinLimit(After(f, steps[..n - 1]), steps[n - 1], tenant);
    }
  }

  /**
   What the limiter admits for a tenant since the last reset stays within the tenant's finite quota, save
   for what was charged before the reset and still in flight at it.
   */
  lemma AdmittedWithinQuota(f: Front, steps: seq<Step>, tenant: string, lo: nat, n: nat)
    requires Registered(f, tenant) && 0 <= ApiUsage(f, tenant) <= ApiLimit(f, tenant)
    requires n <= |steps| && CostsNonNegative(f, steps) && LastReset(f, steps, tenant, lo, n)
    ensures ExecutedCost(f, steps, tenant, true, lo, n)
            <= ApiLimit(f, tenant) + InFlightCost(After(f, steps[..lo]).inFlight, tenant)
  {
    assert lo <= n;
    hide After, ApiUsage, ApiLimit, Registered, InFlightCost, ExecutedCost, LastReset;
    Conservation(f, steps, tenant, lo, n);
    UsageWithinLimit(f, steps, tenant, n);
    CostsAddUp(f, steps, tenant, false, lo, n);
    InFlightNonNegative(f, steps, n);
    InFlightAddsUp(After(f, steps[..n]).inFlight, tenant);
  }

  // ----- When the quota bounds what is admitted -----

  /** From a reset of the tenant on, no run admits more than its limit until the next. */
  ghost predicate BoundsAdmissions(f: Front, tenant: string)
    requires Registered(f, tenant)
  {
    forall steps: seq<Step> :: CostsNonNegative(f, steps) && LastReset(f, steps, tenant, 0, |steps|) ==>
      ExecutedCost(f, steps, tenant, true, 0, |steps|) <= ApiLimit(f, tenant)
  }

  lemma {:induction false} SomeInFlight(rs: seq<Request>, tenant: string) returns (i: nat)
    requires InFlightCost(rs, tenant) > 0
    ensures i < |rs| && rs[i].tenant == tenant && rs[i].cost > 0
    decreases |rs|
  {
    var n := |rs| - 1;
    if rs[n].tenant == tenant && rs[n].cost > 0 {
      i := n;
    } else {
      i := SomeInFlight(rs[..n], tenant);
    }
  }

  /** A charge of the whole limit that resets if it can, then the execution of one older request and of this one. */
  function CarryOver(f: Front, tenant: string, i: nat): seq<Step>
    requires Registered(f, tenant) && i < |f.inFlight|
  {
    var t := f.registry.value[tenant];
    var now := t.account.lastReset + (if Q.Seconds(t.period).Some? then Q.Seconds(t.period).value else 0.0) + 1.0;
    [Charge(Request("", ApiLimit(f, tenant), tenant), now), Execute(i, true), Execute(|f.inFlight| - 1, true)]
  }

  ghost predicate CanCarryOver(f: Front, tenant: string, i: nat) {
    && Registered(f, tenant) && 0 <= ApiUsage(f, tenant) <= ApiLimit(f, tenant)
    && (ApiUsage(f, tenant) == 0 || Q.Seconds(f.registry.value[tenant].period).Some?)
    && i < |f.inFlight| && f.inFlight[i].tenant == tenant
  }

  lemma CarryOverCharge(f: Front, tenant: string, i: nat)
    requires CanCarryOver(f, tenant, i)
    ensures var step := CarryOver(f, tenant, i)[0];
            && (ResetsTenant(f, step, tenant) || ApiUsage(f, tenant) == 0)
            && Next(f, step).inFlight == f.inFlight + [step.r]
  {
  }

  /** Taking one request out of flight leaves the one that came last as the last. */
  lemma LastStays(rs: seq<Request>, i: nat, r: Request)
    requires i < |rs|
    ensures var left := (rs + [r])[..i] + (rs + [r])[i + 1..]; |left| == |rs| && left[|rs| - 1] == r
  {
  }

  lemma CarryOverRun(f: Front, tenant: string, i: nat)
    requires CanCarryOver(f, tenant, i)
    ensures var steps := CarryOver(f, tenant, i);
            var f1, f2 := After(f, steps[..1]), After(f, steps[..2]);
            && LastReset(f, steps, tenant, 0, 3)
            && f1.inFlight == f.inFlight + [steps[0].r]
            && |f2.inFlight| == |f.inFlight| && f2.inFlight[|f.inFlight| - 1] == steps[0].r
  {
    var steps := CarryOver(f, tenant, i);
    assert steps[..0] == [];
    CarryOverCharge(f, tenant, i);
    AfterStep(f, steps, 1);
    AfterStep(f, steps, 2);
    LastStays(f.inFlight, i, steps[0].r);
    hide ApiLimit, ApiUsage, Registered, Passes, Metered;
  }

  lemma CarryOverExceeds(f: Front, tenant: string, i: nat)
    requires CanCarryOver(f, tenant, i) && NonNegative(f.inFlight)
    ensures var steps := CarryOver(f, tenant, i);
            && CostsNonNegative(f, steps) && LastReset(f, steps, tenant, 0, 3)
            && ExecutedCost(f, steps, tenant, true, 0, 3) == f.inFlight[i].cost + ApiLimit(f, tenant)
  {
    var steps := CarryOver(f, tenant, i);
    CarryOverRun(f, tenant, i);
    assert steps[..0] == [];
    hide Next, LastReset, ApiLimit, ApiUsage;
    ExecutedCostStep(f, steps, tenant, true, 0, 1);
    ExecutedCostStep(f, steps, tenant, true, 0, 2);
    ExecutedCostStep(f, steps, tenant, true, 0, 3);
  }

  /** The quota bounds what is admitted until the next reset exactly when none of the tenant's cost is in flight. */
  lemma BoundsAdmissionsIff(f: Front, tenant: string)
    requires Registered(f, tenant) && 0 <= ApiUsage(f, tenant) <= ApiLimit(f, tenant) && NonNegative(f.inFlight)
    requires ApiUsage(f, tenant) == 0 || Q.Seconds(f.registry.value[tenant].period).Some?
    ensures BoundsAdmissions(f, tenant) <==> InFlightCost(f.inFlight, tenant) == 0
  {
    InFlightAddsUp(f.inFlight, tenant);
    if InFlightCost(f.inFlight, tenant) == 0 {
      forall steps: seq<Step> | CostsNonNegative(f, steps) && LastReset(f, steps, tenant, 0, |steps|)
        ensures ExecutedCost(f, steps, tenant, true, 0, |steps|) <= ApiLimit(f, tenant)
      {
        assert steps[..0] == [];
        AdmittedWithinQuota(f, steps, tenant, 0, |steps|);
      }
    } else {
      var i := SomeInFlight(f.inFlight, tenant);
      CarryOverExceeds(f, tenant, i);
    }
  }
}
