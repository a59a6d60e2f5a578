/**
 Tenant quotas: usage counters per resource that are cleared once a period has passed, and the
 enforcer that checks and charges them in one uninterrupted step.
 */
module Quota {
  import opened Prelude

  datatype Resource =
    | GraphRuns | LlmCalls | LlmTokens | ToolCalls
    | StorageBytes | CheckpointCount | ConcurrentSessions | ApiRequests

  datatype Period = Hourly | Daily | Monthly | Other(name: string)

  type Limits = map<Resource, int>

  /** A tenant's usage and the moment it was last cleared. */
  datatype Account = Account(usage: map<Resource, int>, lastReset: real)

  datatype Request = Request(resource: Resource, amount: int, now: real)

  datatype Outcome = Accepted | QuotaExceeded | TenantNotFound

  /** A period of any other name never ends. */
  function Seconds(period: Period): Option<real> {
    match period
    case Hourly => Some(3600.0)
    case Daily => Some(86400.0)
    case Monthly => Some(2592000.0)
    case Other(_) => None
  }

  /** A resource without an entry has limit zero; a negative limit is no limit. */
  function LimitOf(limits: Limits, r: Resource): int {
    if r in limits then limits[r] else 0
  }

  predicate Unlimited(limits: Limits, r: Resource) {
    LimitOf(limits, r) < 0
  }

  function UsageOf(a: Account, r: Resource): int {
    if r in a.usage then a.usage[r] else 0
  }

  predicate Due(period: Period, a: Account, now: real) {
    Seconds(period).Some? && now - a.lastReset > Seconds(period).value
  }

  function ResetIfDue(period: Period, a: Account, now: real): Account {
    if Due(period, a, now) then Account(map[], now) else a
  }

  predicate Fits(limits: Limits, a: Account, r: Resource, amount: int) {
    Unlimited(limits, r) || UsageOf(a, r) + amount <= LimitOf(limits, r)
  }

  function Charge(limits: Limits, period: Period, a: Account, q: Request): (Account, Outcome) {
    var b := ResetIfDue(period, a, q.now);
    if Fits(limits, b, q.resource, q.amount)
    then (b.(usage := b.usage[q.resource := UsageOf(b, q.resource) + q.amount]), Accepted)
    else (b, QuotaExceeded)
  }

  // ----- Runs -----

  /** A tenant's fixed limits and period, and the account it started with. */
  datatype Plan = Plan(limits: Limits, period: Period, start: real)

  function AccountAfter(plan: Plan, qs: seq<Request>): Account {
    if qs == [] then Account(map[], plan.start)
    else Charge(plan.limits, plan.period, AccountAfter(plan, qs[..|qs| - 1]), qs[|qs| - 1]).0
  }

  predicate Accepts(plan: Plan, qs: seq<Request>, i: nat)
    requires i < |qs|
  {
    Charge(plan.limits, plan.period, AccountAfter(plan, qs[..i]), qs[i]).1 == Accepted
  }

  /** Whether request `i` finds a period over and clears the account first. */
  predicate Resets(plan: Plan, qs: seq<Request>, i: nat)
    requires i < |qs|
  {
    Due(plan.period, AccountAfter(plan, qs[..i]), qs[i].now)
  }

  /** The amounts of `r` accepted by requests `lo..hi`. */
  function AcceptedSum(plan: Plan, qs: seq<Request>, r: Resource, lo: nat, hi: nat): int
    requires lo <= hi <= |qs|
    decreases hi
  {
    if lo == hi then 0
    else AcceptedSum(plan, qs, r, lo, hi - 1)
         + if qs[hi - 1].resource == r && Accepts(plan, qs, hi - 1) then qs[hi - 1].amount else 0
  }

  /** The amounts of `r` accepted at moments in `[from, to]`. */
  function AcceptedDuring(plan: Plan, qs: seq<Request>, r: Resource, from: real, to: real, n: nat): int
    requires n <= |qs|
  {
    if n == 0 then 0
    else AcceptedDuring(plan, qs, r, from, to, n - 1)
         + if from <= qs[n - 1].now <= to && qs[n - 1].resource == r && Accepts(plan, qs, n - 1)
           then qs[n - 1].amount else 0
  }

  ghost predicate Ordered(plan: Plan, qs: seq<Request>) {
    && (forall i :: 0 <= i < |qs| ==> plan.start <= qs[i].now)
    && (forall i, j :: 0 <= i < j < |qs| ==> qs[i].now <= qs[j].now)
  }

  ghost predicate NonNegative(qs: seq<Request>) {
    forall i :: 0 <= i < |qs| ==> qs[i].amount >= 0
  }

  /** No request strictly after `lo` and before `hi` resets. */
  ghost predicate ResetFree(plan: Plan, qs: seq<Request>, lo: nat, hi: nat)
    requires hi <= |qs|
  {
    forall k :: lo < k < hi ==> !Resets(plan, qs, k)
  }

  /** The index after which nothing was reset: the last request that reset, or the start. */
  ghost predicate LastReset(plan: Plan, qs: seq<Request>, lo: nat, n: nat)
    requires n <= |qs|
  {
    && lo <= n
    && (lo > 0 ==> lo < n)
    && (lo == 0 || Resets(plan, qs, lo))
    && ResetFree(plan, qs, lo, n)
  }

  /** One request clears the counter if a period is over, then adds the amount if it is accepted. */
  lemma UsageStep(plan: Plan, qs: seq<Request>, r: Resource, n: nat)
    requires n < |qs|
    ensures UsageOf(AccountAfter(plan, qs[..n + 1]), r)
            == (if Resets(plan, qs, n) then 0 else UsageOf(AccountAfter(plan, qs[..n]), r))
               + (if qs[n].resource == r && Accepts(plan, qs, n) then qs[n].amount else 0)
  {
    assert qs[..n + 1][..n] == qs[..n];
  }

  /** Usage is what was accepted since the last reset: nothing is lost, and refusals are not charged. */
  lemma {:induction false} UsageIsAccepted(plan: Plan, qs: seq<Request>, r: Resource, lo: nat, n: nat)
    requires n <= |qs| && LastReset(plan, qs, lo, n)
    ensures UsageOf(AccountAfter(plan, qs[..n]), r) == AcceptedSum(plan, qs, r, lo, n)
    decreases n
  {
    assert UsageOf(AccountAfter(plan, qs[..0]), r) == 0;
    hide Accepts, Resets, AccountAfter, UsageOf;
    if n > 0 {
      UsageStep(plan, qs, r, n - 1);
      if lo < n - 1 || lo == 0 {
        UsageIsAccepted(plan, qs, r, lo, n - 1);
        assert lo < n - 1 ==> !Resets(plan, qs, n - 1);
      }
      assert AcceptedSum(plan, qs, r, n - 1, n - 1) == 0;
    }
  }

  /** Every history has such an index, so the accounting above covers every run. */
  lemma {:induction false} FindLastReset(plan: Plan, qs: seq<Request>, n: nat) returns (lo: nat)
    requires n <= |qs|
    ensures LastReset(plan, qs, lo, n)
    decreases n
  {
    hide Resets;
    lo := 0;
    if n > 0 {
      lo := FindLastReset(plan, qs, n - 1);
      if Resets(plan, qs, n - 1) {
        lo := n - 1;
      }
    }
  }

  lemma {:induction false} UsageWithinLimit(plan: Plan, qs: seq<Request>, r: Resource, n: nat)
    requires n <= |qs| && NonNegative(qs)
    ensures 0 <= UsageOf(AccountAfter(plan, qs[..n]), r)
    ensures !Unlimited(plan.limits, r) ==> UsageOf(AccountAfter(plan, qs[..n]), r) <= LimitOf(plan.limits, r)
    decreases n
  {
    if n > 0 {
      assert qs[..n][..n - 1] == qs[..n - 1];
      UsageWithinLimit(plan, qs, r, n - 1);
    }
  }

  /** A stretch in which only its first request may reset accepts no more than the usage it ends with. */
  lemma {:induction false} StretchWithinUsage(plan: Plan, qs: seq<Request>, r: Resource, lo: nat, hi: nat)
    requires lo <= hi <= |qs| && NonNegative(qs) && ResetFree(plan, qs, lo, hi)
    ensures AcceptedSum(plan, qs, r, lo, hi) <= UsageOf(AccountAfter(plan, qs[..hi]), r)
    decreases hi
  {
    hide Accepts, Resets, AccountAfter, UsageOf;
    if lo == hi {
      UsageWithinLimit(plan, qs, r, hi);
    } else {
      UsageStep(plan, qs, r, hi - 1);
      UsageWithinLimit(plan, qs, r, hi - 1);
      StretchWithinUsage(plan, qs, r, lo, hi - 1);
      if lo == hi - 1 {
        assert AcceptedSum(plan, qs, r, lo, lo) == 0;
      } else {
        assert !Resets(plan, qs, hi - 1);
      }
    }
  }

  lemma StretchWithinLimit(plan: Plan, qs: seq<Request>, r: Resource, lo: nat, hi: nat)
    requires lo <= hi <= |qs| && NonNegative(qs) && ResetFree(plan, qs, lo, hi)
    requires !Unlimited(plan.limits, r)
    ensures AcceptedSum(plan, qs, r, lo, hi) <= LimitOf(plan.limits, r)
  {
    StretchWithinUsage(plan, qs, r, lo, hi);
    UsageWithinLimit(plan, qs, r, hi);
  }

  /** The last reset is never later than the last request, and a reset at `m` is not forgotten. */
  lemma {:induction false} ResetTimes(plan: Plan, qs: seq<Request>, n: nat)
    requires n <= |qs| && Ordered(plan, qs)
    ensures forall i :: n <= i < |qs| ==> AccountAfter(plan, qs[..n]).lastReset <= qs[i].now
    ensures forall m :: 0 <= m < n && Resets(plan, qs, m) ==> qs[m].now <= AccountAfter(plan, qs[..n]).lastReset
    decreases n
  {
    if n > 0 {
      assert qs[..n][..n - 1] == qs[..n - 1];
      ResetTimes(plan, qs, n - 1);
    }
  }

  /** Two resets are more than a period apart. */
  lemma ResetsApart(plan: Plan, qs: seq<Request>, i: nat, j: nat)
    requires Ordered(plan, qs) && i < j < |qs| && Resets(plan, qs, i) && Resets(plan, qs, j)
    ensures Seconds(plan.period).Some? && qs[j].now - qs[i].now > Seconds(plan.period).value
  {
    ResetTimes(plan, qs, j);
  }

  lemma {:induction false} SumSplits(plan: Plan, qs: seq<Request>, r: Resource, lo: nat, mid: nat, hi: nat)
    requires lo <= mid <= hi <= |qs|
    ensures AcceptedSum(plan, qs, r, lo, hi)
            == AcceptedSum(plan, qs, r, lo, mid) + AcceptedSum(plan, qs, r, mid, hi)
    decreases hi
  {
    hide Accepts;
    if mid < hi {
      SumSplits(plan, qs, r, lo, mid, hi - 1);
    }
  }

  /** The requests inside an interval are consecutive ones. */
  lemma {:induction false} IntervalIsStretch(plan: Plan, qs: seq<Request>, r: Resource, from: real, to: real, n: nat)
    returns (lo: nat, hi: nat)
    requires n <= |qs| && Ordered(plan, qs)
    ensures lo <= hi <= n
    ensures AcceptedDuring(plan, qs, r, from, to, n) == AcceptedSum(plan, qs, r, lo, hi)
    ensures forall k :: lo <= k < hi ==> from <= qs[k].now <= to
    ensures lo < hi && hi < n ==> qs[hi].now > to
    decreases n
  {
    hide Accepts;
    lo, hi := 0, 0;
    if n > 0 {
      lo, hi := IntervalIsStretch(plan, qs, r, from, to, n - 1);
      if from <= qs[n - 1].now <= to {
        if lo == hi {
          assert AcceptedSum(plan, qs, r, n - 1, n - 1) == 0;
          lo, hi := n - 1, n;
        } else {
          assert hi == n - 1;
          hi := n;
        }
      }
    }
  }

  /** Any interval no longer than a period accepts at most twice a finite limit. */
  lemma TwiceTheLimit(plan: Plan, qs: seq<Request>, r: Resource, from: real, to: real)
    requires Ordered(plan, qs) && NonNegative(qs) && !Unlimited(plan.limits, r)
    requires Seconds(plan.period).Some? ==> to - from <= Seconds(plan.period).value
    ensures AcceptedDuring(plan, qs, r, from, to, |qs|) <= 2 * LimitOf(plan.limits, r)
  {
    hide AcceptedSum, AcceptedDuring, Resets, LimitOf;
    var lo, hi := IntervalIsStretch(plan, qs, r, from, to, |qs|);
    if m :| lo < m < hi && Resets(plan, qs, m) {
      forall k | lo < k < hi && k != m
        ensures !Resets(plan, qs, k)
      {
        if Resets(plan, qs, k) {
          if k < m { ResetsApart(plan, qs, k, m); } else { ResetsApart(plan, qs, m, k); }
        }
      }
      SumSplits(plan, qs, r, lo, m, hi);
      StretchWithinLimit(plan, qs, r, lo, m);
      StretchWithinLimit(plan, qs, r, m, hi);
    } else {
      StretchWithinLimit(plan, qs, r, lo, hi);
      UsageWithinLimit(plan, qs, r, 0);
    }
  }

  /** Twice the limit is reached: ask for all of it when a period ends, and again a second later. */
  lemma TwiceTheLimitIsTight(plan: Plan, r: Resource)
    requires Seconds(plan.period).Some? && !Unlimited(plan.limits, r)
    ensures var edge := plan.start + Seconds(plan.period).value;
            var limit := LimitOf(plan.limits, r);
            var qs := [Request(r, limit, edge), Request(r, limit, edge + 1.0)];
            && Ordered(plan, qs) && NonNegative(qs)
            && AcceptedDuring(plan, qs, r, edge, edge + 1.0, 2) == 2 * limit
  {
    var edge := plan.start + Seconds(plan.period).value;
    var limit := LimitOf(plan.limits, r);
    var qs := [Request(r, limit, edge), Request(r, limit, edge + 1.0)];
    assert qs[..1] == [qs[0]] && [qs[0]][..0] == [];
    assert AccountAfter(plan, []) == Account(map[], plan.start);
    assert AccountAfter(plan, qs[..1]).lastReset == plan.start;
    assert Accepts(plan, qs, 0) && Accepts(plan, qs, 1);
    assert AcceptedDuring(plan, qs, r, edge, edge + 1.0, 1) == limit;
  }

  // ----- The decision, on the configured limits themselves -----

  /** What was accepted since the last reset at or before request `i`, which may be that reset itself. */
  lemma UsageBefore(plan: Plan, qs: seq<Request>, r: Resource, lo: nat, i: nat)
    requires i < |qs| && LastReset(plan, qs, lo, i + 1)
    ensures UsageOf(ResetIfDue(plan.period, AccountAfter(plan, qs[..i]), qs[i].now), r)
            == AcceptedSum(plan, qs, r, lo, i)
  {
    assert AcceptedSum(plan, qs, r, i, i) == 0;
    hide AcceptedSum, AccountAfter;
    if lo < i {
      UsageIsAccepted(plan, qs, r, lo, i);
      assert !Resets(plan, qs, i);
    } else if !Resets(plan, qs, i) {
      UsageIsAccepted(plan, qs, r, 0, 0);
    }
  }

  /**
   A request is accepted exactly when what was accepted since the last reset and its own amount are within
   the limit configured for the resource; without an entry nothing may be used, and below zero all of it.
   */
  lemma AcceptedIff(plan: Plan, qs: seq<Request>, lo: nat, i: nat)
    requires i < |qs| && LastReset(plan, qs, lo, i + 1)
    ensures var r := qs[i].resource;
            var total := AcceptedSum(plan, qs, r, lo, i) + qs[i].amount;
            Accepts(plan, qs, i) <==>
              if r !in plan.limits then total <= 0
              else plan.limits[r] < 0 || total <= plan.limits[r]
  {
    UsageBefore(plan, qs, qs[i].resource, lo, i);
    hide AcceptedSum, AccountAfter;
  }

  /** The bounds above in terms of the configured limit. */
  lemma WithinConfiguredLimit(plan: Plan, qs: seq<Request>, r: Resource, from: real, to: real)
    requires Ordered(plan, qs) && NonNegative(qs) && r in plan.limits && plan.limits[r] >= 0
    requires Seconds(plan.period).Some? ==> to - from <= Seconds(plan.period).value
    ensures 0 <= UsageOf(AccountAfter(plan, qs), r) <= plan.limits[r]
    ensures AcceptedDuring(plan, qs, r, from, to, |qs|) <= 2 * plan.limits[r]
  {
    assert qs[..|qs|] == qs;
    UsageWithinLimit(plan, qs, r, |qs|);
    TwiceTheLimit(plan, qs, r, from, to);
  }

  /** The moment from which the period of request `n` counts: that of the last reset before it, or the start. */
  lemma {:induction false} PeriodStart(plan: Plan, qs: seq<Request>, lo: nat, n: nat)
    requires n <= |qs| && LastReset(plan, qs, lo, n)
    ensures AccountAfter(plan, qs[..n]).lastReset
            == if lo < n && Resets(plan, qs, lo) then qs[lo].now else plan.start
    decreases n
  {
    assert qs[..0] == [];
    hide Fits, LimitOf, UsageOf, Seconds;
    if n > 0 {
      assert qs[..n][..n - 1] == qs[..n - 1];
      if lo < n - 1 || lo == 0 {
        PeriodStart(plan, qs, lo, n - 1);
        assert lo < n - 1 ==> !Resets(plan, qs, n - 1);
      }
    }
  }

  /** A request resets exactly when more than an hour, a day or thirty days have passed since then. */
  lemma ResetsIff(plan: Plan, qs: seq<Request>, lo: nat, n: nat)
    requires n < |qs| && LastReset(plan, qs, lo, n)
    ensures var since := if lo < n && Resets(plan, qs, lo) then qs[lo].now else plan.start;
            var passed := qs[n].now - since;
            Resets(plan, qs, n) <==>
              || (plan.period == Hourly && passed > 3600.0)
              || (plan.period == Daily && passed > 24.0 * 3600.0)
              || (plan.period == Monthly && passed > 30.0 * 24.0 * 3600.0)
  {
    PeriodStart(plan, qs, lo, n);
  }

  // ----- The objects -----

  class TenantUsage {
    var usage: map<Resource, int>
    var lastReset: real
    const period: Period

    constructor (period: Period, now: real)
      ensures this.period == period && View() == Account(map[], now)
    {
      this.period := period;
      usage, lastReset := map[], now;
    }

    function View(): Account
      reads this
    {
      Account(usage, lastReset)
    }

    /** Clears every counter, and restarts the period, when the period is over. */
    method ResetIfNeeded(now: real)
      modifies this
      ensures View() == ResetIfDue(period, old(View()), now)
    {
      var elapsed := now - lastReset;
      if (period == Daily && elapsed > 86400.0)
         || (period == Hourly && elapsed > 3600.0)
         || (period == Monthly && elapsed > 2592000.0) {
        usage := map[];
        lastReset := now;
      }
    }

    method Increment(r: Resource, amount: int) returns (total: int)
      modifies this`usage
      ensures total == UsageOf(old(View()), r) + amount
      ensures View() == Account(old(usage)[r := total], lastReset)
    {
      var current := if r in usage then usage[r] else 0;
      usage := usage[r := current + amount];
      total := usage[r];
    }

    predicate CheckQuota(limits: Limits, r: Resource, amount: int)
      reads this
    {
      Fits(limits, View(), r, amount)
    }
  }

  class Tenant {
    const id: string
    const usage: TenantUsage
    var limits: Limits

    constructor (id: string, limits: Limits, period: Period, now: real)
      ensures this.id == id && this.limits == limits && fresh(usage)
      ensures usage.period == period && usage.View() == Account(map[], now)
    {
      this.id, this.limits := id, limits;
      usage := new TenantUsage(period, now);
    }
  }

  class QuotaEnforcer {
    var tenants: map<string, Tenant>

    constructor ()
      ensures tenants == map[]
    {
      tenants := map[];
    }

    /** Charges the tenant's own account as `Charge` says; a tenant nobody registered is refused. */
    method CheckAndIncrement(tenantId: string, r: Resource, amount: int, now: real) returns (o: Outcome)
      modifies if tenantId in tenants then {tenants[tenantId].usage} else {}
      ensures tenantId !in tenants ==> o == TenantNotFound
      ensures tenantId in tenants ==>
                var t := tenants[tenantId];
                (t.usage.View(), o) == Charge(t.limits, t.usage.period, old(t.usage.View()), Request(r, amount, now))
    {
      if tenantId !in tenants {
        return TenantNotFound;
      }
      var tenant := tenants[tenantId];
      tenant.usage.ResetIfNeeded(now);
      if !tenant.usage.CheckQuota(tenant.limits, r, amount) {
        return QuotaExceeded;
      }
      var _ := tenant.usage.Increment(r, amount);
      o := Accepted;
    }
  }
}
