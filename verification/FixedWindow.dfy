/**
 The fixed window limiter: one counter per key and window, raised by every call whether or not
 the call is then admitted, with an expiry renewed on each call.  A caller reads its clock (`now`) before
 its pipeline runs (`at`), so that the expiry is counted from a later moment than the window is.
 */
module FixedWindow {
  import opened Prelude

  datatype Config = Config(requests: int, window: real)

  /** A counter is filed under the caller's key and the index of the window. */
  type CounterKey = (string, int)

  datatype Counter = Counter(value: int, deadline: real)

  type Store = map<CounterKey, Counter>

  datatype Call = Call(key: string, cost: int, now: real, at: real)

  datatype Verdict = Verdict(allowed: bool, limit: int, remaining: int, resetAt: real)

  function WindowIndex(cfg: Config, t: real): int
    requires cfg.window > 0.0
  {
    Windows(cfg, t).Floor
  }

  /** The time since the epoch, counted in windows. */
  function Windows(cfg: Config, t: real): real
    requires cfg.window > 0.0
  {
    t / cfg.window
  }

  /** The moment a number of windows after the epoch. */
  function Moment(cfg: Config, windows: real): real {
    windows * cfg.window
  }

  /** The moment window `w` ends. */
  function WindowEnd(cfg: Config, w: int): real {
    Moment(cfg, (w + 1) as real)
  }

  function Ttl(cfg: Config): real {
    (cfg.window.Floor + 1) as real
  }

  /** The counter's value as the store still holds it; a missing or expired key counts from zero. */
  function Live(st: Store, k: CounterKey, now: real): int {
    if k in st && now < st[k].deadline then st[k].value else 0
  }

  function Slot(cfg: Config, c: Call): CounterKey
    requires cfg.window > 0.0
  {
    (c.key, WindowIndex(cfg, c.now))
  }

  /** The atomic pipeline: raise the counter, renew its expiry, then compare. */
  function Check(cfg: Config, st: Store, c: Call): (Store, Verdict)
    requires cfg.window > 0.0
  {
    var slot := Slot(cfg, c);
    var current := Live(st, slot, c.at) + c.cost;
    var resetAt := WindowEnd(cfg, slot.1);
    (st[slot := Counter(current, c.at + Ttl(cfg))],
     if current > cfg.requests then Verdict(false, cfg.requests, 0, resetAt)
     else Verdict(true, cfg.requests, MaxInt(0, cfg.requests - current), resetAt))
  }

  // ----- Windows -----

  lemma MomentOrder(cfg: Config, a: real, b: real)
    requires cfg.window > 0.0
    ensures a < b <==> Moment(cfg, a) < Moment(cfg, b)
  {
    assert (b - a) * cfg.window == b * cfg.window - a * cfg.window;
  }

  lemma MomentOfWindows(cfg: Config, t: real)
    requires cfg.window > 0.0
    ensures Moment(cfg, Windows(cfg, t)) == t
  {
  }

  lemma WindowSpan(cfg: Config, t: real)
    requires cfg.window > 0.0
    ensures Moment(cfg, WindowIndex(cfg, t) as real) <= t < WindowEnd(cfg, WindowIndex(cfg, t))
  {
    hide Moment, Windows;
    var q := Windows(cfg, t);
    MomentOfWindows(cfg, t);
    MomentOrder(cfg, q, q.Floor as real);
    MomentOrder(cfg, q, (q.Floor + 1) as real);
  }

  lemma WindowUnique(cfg: Config, t: real, w: int)
    requires cfg.window > 0.0
    requires Moment(cfg, w as real) <= t < WindowEnd(cfg, w)
    ensures WindowIndex(cfg, t) == w
  {
    hide Moment, Windows;
    var q := Windows(cfg, t);
    MomentOfWindows(cfg, t);
    MomentOrder(cfg, q, w as real);
    MomentOrder(cfg, q, (w + 1) as real);
  }

  /** Window `w` is the time from `w` windows after the epoch up to the next. */
  lemma WindowIff(cfg: Config, t: real, w: int)
    requires cfg.window > 0.0
    ensures WindowIndex(cfg, t) == w <==> w as real * cfg.window <= t < (w + 1) as real * cfg.window
  {
    hide WindowIndex;
    WindowSpan(cfg, t);
    if Moment(cfg, w as real) <= t < WindowEnd(cfg, w) {
      WindowUnique(cfg, t, w);
    }
  }

  lemma ConsecutiveEnds(cfg: Config, w: int)
    ensures WindowEnd(cfg, w) == Moment(cfg, w as real) + cfg.window
    ensures WindowEnd(cfg, w + 1) == WindowEnd(cfg, w) + cfg.window
  {
    assert (w + 1) as real == w as real + 1.0 && (w + 2) as real == (w + 1) as real + 1.0;
  }

  lemma WindowEndStartsNext(cfg: Config, w: int, t: real)
    requires cfg.window > 0.0 && WindowIndex(cfg, t) == w
    ensures WindowIndex(cfg, WindowEnd(cfg, w)) == w + 1
    ensures WindowEnd(cfg, w) <= t + cfg.window
  {
    WindowSpan(cfg, t);
    ConsecutiveEnds(cfg, w);
    WindowUnique(cfg, WindowEnd(cfg, w), w + 1);
  }

  /** Two moments of one window are less than one window apart. */
  lemma SameWindowIsClose(cfg: Config, t: real, u: real)
    requires cfg.window > 0.0 && WindowIndex(cfg, t) == WindowIndex(cfg, u)
    ensures u < t + cfg.window
  {
    WindowSpan(cfg, t);
    WindowSpan(cfg, u);
    ConsecutiveEnds(cfg, WindowIndex(cfg, t));
  }

  lemma AtMostTwoWindows(cfg: Config, a: real, t: real)
    requires cfg.window > 0.0 && a <= t < a + cfg.window
    ensures WindowIndex(cfg, t) == WindowIndex(cfg, a) || WindowIndex(cfg, t) == WindowIndex(cfg, a) + 1
  {
    var w := WindowIndex(cfg, a);
    WindowSpan(cfg, a);
    ConsecutiveEnds(cfg, w);
    if t < WindowEnd(cfg, w) {
      WindowUnique(cfg, t, w);
    } else {
      WindowUnique(cfg, t, w + 1);
    }
  }

  // ----- Runs -----

  function StoreAfter(cfg: Config, calls: seq<Call>): Store
    requires cfg.window > 0.0
  {
    if calls == [] then map[]
    else Check(cfg, StoreAfter(cfg, calls[..|calls| - 1]), calls[|calls| - 1]).0
  }

  /** Whether the last call of the run is admitted. */
  predicate LastAdmitted(cfg: Config, calls: seq<Call>)
    requires cfg.window > 0.0 && calls != []
  {
    Check(cfg, StoreAfter(cfg, calls[..|calls| - 1]), calls[|calls| - 1]).1.allowed
  }

  /** All the cost asked for under a key in a window, refused or not: what an ideal counter would hold. */
  function Charged(cfg: Config, calls: seq<Call>, slot: CounterKey): int
    requires cfg.window > 0.0
  {
    if calls == [] then 0
    else
      var last := calls[|calls| - 1];
      Charged(cfg, calls[..|calls| - 1], slot) + if Slot(cfg, last) == slot then last.cost else 0
  }

  /** The cost admitted under a key in a window. */
  function AdmittedIn(cfg: Config, calls: seq<Call>, slot: CounterKey): int
    requires cfg.window > 0.0
  {
    if calls == [] then 0
    else
      var last := calls[|calls| - 1];
      AdmittedIn(cfg, calls[..|calls| - 1], slot)
      + if Slot(cfg, last) == slot && LastAdmitted(cfg, calls) then last.cost else 0
  }

  /** The cost admitted under a key at moments in `[from, to)`. */
  function AdmittedDuring(cfg: Config, calls: seq<Call>, key: string, from: real, to: real): int
    requires cfg.window > 0.0
  {
    if calls == [] then 0
    else
      var last := calls[|calls| - 1];
      AdmittedDuring(cfg, calls[..|calls| - 1], key, from, to)
      + if last.key == key && from <= last.now < to && LastAdmitted(cfg, calls) then last.cost else 0
  }

  /** The store's clock never goes back, and a caller's clock reading is at most `lag` old when its pipeline runs. */
  ghost predicate Timed(lag: real, calls: seq<Call>) {
    && (forall i, j :: 0 <= i < j < |calls| ==> calls[i].at <= calls[j].at)
    && (forall i :: 0 <= i < |calls| ==> calls[i].now <= calls[i].at <= calls[i].now + lag)
  }

  ghost predicate NotAfter(calls: seq<Call>, t: real) {
    forall i :: 0 <= i < |calls| ==> calls[i].at <= t
  }

  /** The lag is at most what the whole seconds of the window, and one more, exceed it by. */
  ghost predicate LagWithinExpiry(cfg: Config, lag: real) {
    lag <= (cfg.window.Floor + 1) as real - cfg.window
  }

  lemma LagAgainstTtl(cfg: Config, lag: real)
    ensures LagWithinExpiry(cfg, lag) <==> lag <= Ttl(cfg) - cfg.window
  {
  }

  ghost predicate CostsNonNegative(calls: seq<Call>) {
    forall i :: 0 <= i < |calls| ==> calls[i].cost >= 0
  }

  /**
   To every caller of its own window a counter is alive and holds every cost asked for in it, for whole
   and fractional windows alike.
   */
  lemma {:induction false} CounterSurvivesItsWindow(cfg: Config, lag: real, calls: seq<Call>, key: string,
                                                    now: real, at: real)
    requires cfg.window > 0.0 && LagWithinExpiry(cfg, lag)
    requires Timed(lag, calls) && NotAfter(calls, at) && now <= at <= now + lag
    ensures var slot := (key, WindowIndex(cfg, now));
            Live(StoreAfter(cfg, calls), slot, at) == Charged(cfg, calls, slot)
    decreases |calls|
  {
    LagAgainstTtl(cfg, lag);
    hide WindowIndex, WindowEnd, Ttl;
    if calls != [] {
      var n := |calls| - 1;
      var slot := (key, WindowIndex(cfg, now));
      if Slot(cfg, calls[n]) == slot {
        CounterSurvivesItsWindow(cfg, lag, calls[..n], key, calls[n].now, calls[n].at);
        SameWindowIsClose(cfg, calls[n].now, now);
        assert at < calls[n].at + Ttl(cfg);
      } else {
        CounterSurvivesItsWindow(cfg, lag, calls[..n], key, now, at);
      }
    }
  }

  /** A call is admitted exactly when everything asked for in its window, itself included, fits the limit. */
  lemma DecisionIsExact(cfg: Config, lag: real, calls: seq<Call>)
    requires cfg.window > 0.0 && LagWithinExpiry(cfg, lag) && Timed(lag, calls) && calls != []
    ensures LastAdmitted(cfg, calls) <==>
            Charged(cfg, calls, Slot(cfg, calls[|calls| - 1])) <= cfg.requests
  {
    hide WindowIndex, WindowEnd, Ttl;
    var n := |calls| - 1;
    CounterSurvivesItsWindow(cfg, lag, calls[..n], calls[n].key, calls[n].now, calls[n].at);
  }

  lemma {:induction false} AdmittedWithinCharged(cfg: Config, calls: seq<Call>, slot: CounterKey)
    requires cfg.window > 0.0 && CostsNonNegative(calls)
    ensures 0 <= AdmittedIn(cfg, calls, slot) <= Charged(cfg, calls, slot)
    decreases |calls|
  {
    hide WindowIndex, WindowEnd, Check;
    if calls != [] {
      AdmittedWithinCharged(cfg, calls[..|calls| - 1], slot);
    }
  }

  /** In each window the admitted cost is within the limit, although refused costs stay in the counter. */
  lemma {:induction false} WindowBound(cfg: Config, lag: real, calls: seq<Call>, slot: CounterKey)
    requires cfg.window > 0.0 && LagWithinExpiry(cfg, lag) && Timed(lag, calls) && CostsNonNegative(calls)
    ensures AdmittedIn(cfg, calls, slot) <= MaxInt(0, cfg.requests)
    decreases |calls|
  {
    hide WindowIndex, WindowEnd, Check;
    if calls != [] {
      var n := |calls| - 1;
      WindowBound(cfg, lag, calls[..n], slot);
      AdmittedWithinCharged(cfg, calls[..n], slot);
      DecisionIsExact(cfg, lag, calls);
    }
  }

  lemma {:induction false} IntervalMeetsTwoWindows(cfg: Config, calls: seq<Call>, key: string, from: real, to: real)
    requires cfg.window > 0.0 && CostsNonNegative(calls) && to <= from + cfg.window
    ensures var w := WindowIndex(cfg, from);
            AdmittedDuring(cfg, calls, key, from, to)
            <= AdmittedIn(cfg, calls, (key, w)) + AdmittedIn(cfg, calls, (key, w + 1))
    decreases |calls|
  {
    hide WindowIndex, WindowEnd, Check;
    if calls != [] {
      var n := |calls| - 1;
      IntervalMeetsTwoWindows(cfg, calls[..n], key, from, to);
      if from <= calls[n].now < to {
        AtMostTwoWindows(cfg, from, calls[n].now);
      }
    }
  }

  /** Any half-open interval as long as the window admits at most twice the limit. */
  lemma IntervalBound(cfg: Config, lag: real, calls: seq<Call>, key: string, from: real, to: real)
    requires cfg.window > 0.0 && LagWithinExpiry(cfg, lag) && Timed(lag, calls) && CostsNonNegative(calls)
    requires to <= from + cfg.window
    ensures AdmittedDuring(cfg, calls, key, from, to) <= 2 * MaxInt(0, cfg.requests)
  {
    hide WindowIndex, WindowEnd, Check;
    var w := WindowIndex(cfg, from);
    IntervalMeetsTwoWindows(cfg, calls, key, from, to);
    WindowBound(cfg, lag, calls, (key, w));
    WindowBound(cfg, lag, calls, (key, w + 1));
  }

  /** Two calls for the whole limit, both admitted. */
  lemma BothAdmitted(cfg: Config, a: Call, b: Call)
    requires cfg.window > 0.0 && a.key == b.key && a.cost == b.cost == cfg.requests >= 0
    requires Slot(cfg, a) != Slot(cfg, b) || b.at >= a.at + Ttl(cfg)
    ensures LastAdmitted(cfg, [a]) && LastAdmitted(cfg, [a, b])
  {
    hide WindowIndex, WindowEnd, Ttl;
    assert [a, b][..1] == [a] && [a][..0] == [];
    assert StoreAfter(cfg, [a]) == map[Slot(cfg, a) := Counter(cfg.requests, a.at + Ttl(cfg))];
  }

  /** Twice the limit is reached: ask for the whole limit on both sides of a window's edge. */
  lemma IntervalBoundIsTight(cfg: Config, key: string)
    requires cfg.window > 0.0 && cfg.requests >= 0
    ensures var a, b := cfg.window * 0.75, cfg.window * 1.25;
            var calls := [Call(key, cfg.requests, a, a), Call(key, cfg.requests, b, b)];
            && Timed(0.0, calls) && CostsNonNegative(calls)
            && AdmittedDuring(cfg, calls, key, a, cfg.window * 1.75) == 2 * cfg.requests
  {
    var s, t := cfg.window * 0.75, cfg.window * 1.25;
    var a, b := Call(key, cfg.requests, s, s), Call(key, cfg.requests, t, t);
    WindowUnique(cfg, s, 0);
    WindowUnique(cfg, t, 1);
    hide WindowIndex, WindowEnd, Check;
    BothAdmitted(cfg, a, b);
    assert [a, b][..1] == [a] && [a][..0] == [];
    assert AdmittedDuring(cfg, [a], key, s, cfg.window * 1.75) == cfg.requests;
  }

  /** In every run no window admits more than the limit. */
  ghost predicate WindowBounded(cfg: Config, lag: real)
    requires cfg.window > 0.0
  {
    forall calls: seq<Call>, slot: CounterKey :: Timed(lag, calls) && CostsNonNegative(calls) ==>
      AdmittedIn(cfg, calls, slot) <= MaxInt(0, cfg.requests)
  }

  /** One call as a window opens, and one whose clock reading is still in it when the counter has expired. */
  function LateCaller(cfg: Config, lag: real, key: string): seq<Call> {
    var late := if Ttl(cfg) - lag >= cfg.window / 2.0 then Ttl(cfg) - lag else cfg.window / 2.0;
    [Call(key, cfg.requests, 0.0, 0.0), Call(key, cfg.requests, late, Ttl(cfg))]
  }

  lemma LateCallerOverAdmits(cfg: Config, lag: real, key: string)
    requires cfg.window > 0.0 && cfg.requests >= 1 && lag >= 0.0 && !LagWithinExpiry(cfg, lag)
    ensures Timed(lag, LateCaller(cfg, lag, key)) && CostsNonNegative(LateCaller(cfg, lag, key))
    ensures AdmittedIn(cfg, LateCaller(cfg, lag, key), (key, 0)) == 2 * cfg.requests
  {
    var calls := LateCaller(cfg, lag, key);
    WindowUnique(cfg, 0.0, 0);
    WindowUnique(cfg, calls[1].now, 0);
    BothAdmitted(cfg, calls[0], calls[1]);
    hide WindowIndex, WindowEnd, Check, Ttl;
    assert calls[..1] == [calls[0]] && [calls[0]][..0] == [] && calls == [calls[0], calls[1]];
    assert AdmittedIn(cfg, [calls[0]], (key, 0)) == cfg.requests;
  }

  /** The window bound holds on all runs exactly when clock readings lag by no more than the margin of the expiry. */
  lemma WindowBoundedIff(cfg: Config, lag: real)
    requires cfg.window > 0.0 && cfg.requests >= 1 && lag >= 0.0
    ensures WindowBounded(cfg, lag) <==> LagWithinExpiry(cfg, lag)
  {
    hide AdmittedIn, Ttl;
    if LagWithinExpiry(cfg, lag) {
      forall calls: seq<Call>, slot: CounterKey | Timed(lag, calls) && CostsNonNegative(calls)
        ensures AdmittedIn(cfg, calls, slot) <= MaxInt(0, cfg.requests)
      {
        WindowBound(cfg, lag, calls, slot);
      }
    } else {
      LateCallerOverAdmits(cfg, lag, "");
    }
  }

  lemma {:induction false} NothingChargedAhead(cfg: Config, calls: seq<Call>, key: string, w: int)
    requires cfg.window > 0.0
    requires forall i :: 0 <= i < |calls| ==> calls[i].now < WindowEnd(cfg, w)
    ensures Charged(cfg, calls, (key, w + 1)) == 0
    decreases |calls|
  {
    if calls != [] {
      var n := |calls| - 1;
      NothingChargedAhead(cfg, calls[..n], key, w);
      WindowSpan(cfg, calls[n].now);
    }
  }

  /**
   The reported reset opens a window nobody was charged in: a call that reads its clock then is admitted
   for any cost within the limit.
   */
  lemma ResetGivesFreshWindow(cfg: Config, lag: real, calls: seq<Call>, key: string, cost: int, at: real)
    requires cfg.window > 0.0 && LagWithinExpiry(cfg, lag) && Timed(lag, calls) && calls != []
    requires forall i :: 0 <= i < |calls| ==> calls[i].now <= calls[|calls| - 1].now
    requires NotAfter(calls, at) && cost <= cfg.requests
    ensures var last := calls[|calls| - 1];
            var resetAt := Check(cfg, StoreAfter(cfg, calls[..|calls| - 1]), last).1.resetAt;
            && last.now < resetAt <= last.now + cfg.window
            && (resetAt <= at <= resetAt + lag ==>
                  Check(cfg, StoreAfter(cfg, calls), Call(key, cost, resetAt, at)).1.allowed)
  {
    hide WindowIndex, WindowEnd, Ttl;
    var last := calls[|calls| - 1];
    var w := WindowIndex(cfg, last.now);
    WindowSpan(cfg, last.now);
    WindowEndStartsNext(cfg, w, last.now);
    NothingChargedAhead(cfg, calls, key, w);
    if WindowEnd(cfg, w) <= at <= WindowEnd(cfg, w) + lag {
      CounterSurvivesItsWindow(cfg, lag, calls, key, WindowEnd(cfg, w), at);
    }
  }

  /** No earlier moment is fresh: until the reported reset a call counts on the same counter. */
  lemma ResetIsEarliest(cfg: Config, st: Store, c: Call, later: real)
    requires cfg.window > 0.0 && c.now <= later < Check(cfg, st, c).1.resetAt
    ensures Slot(cfg, Call(c.key, c.cost, later, later)) == Slot(cfg, c)
  {
    WindowSpan(cfg, c.now);
    WindowUnique(cfg, later, WindowIndex(cfg, c.now));
  }

  /** The limit reported is the configured one, and with a refusal nothing remains. */
  lemma VerdictNumbers(cfg: Config, st: Store, c: Call)
    requires cfg.window > 0.0
    ensures var v := Check(cfg, st, c).1;
            v.limit == cfg.requests && v.remaining >= 0 && (!v.allowed ==> v.remaining == 0)
  {
  }

  /** After an admission `remaining` is exact: at the same moment any cost up to it is admitted, and none above. */
  lemma RemainingIsExact(cfg: Config, st: Store, c: Call, more: int)
    requires cfg.window > 0.0 && Check(cfg, st, c).1.allowed
    ensures var (after, v) := Check(cfg, st, c);
            Check(cfg, after, Call(c.key, more, c.now, c.at)).1.allowed <==> more <= v.remaining
  {
    hide WindowIndex, WindowEnd;
    assert Ttl(cfg) > 0.0;
  }

  // ----- The limiter object -----

  class FixedWindowRateLimiter {
    const cfg: Config
    var store: Store

    constructor (cfg: Config)
      ensures this.cfg == cfg && store == map[]
    {
      this.cfg := cfg;
      store := map[];
    }

    /** The pipeline runs on the counter of the current window and leaves every other counter alone. */
    method CheckLimit(key: string, cost: int, now: real, at: real) returns (v: Verdict)
      requires cfg.window > 0.0
      modifies this
      ensures (store, v) == Check(cfg, old(store), Call(key, cost, now, at))
    {
      hide WindowIndex, WindowEnd;
      var window := WindowIndex(cfg, now);
      var slot := (key, window);
      var current := cost;
      if slot in store && at < store[slot].deadline {
        current := current + store[slot].value;
      }
      store := store[slot := Counter(current, at + Ttl(cfg))];
      var resetAt := WindowEnd(cfg, window);
      if current > cfg.requests {
        return Verdict(false, cfg.requests, 0, resetAt);
      }
      var remaining := MaxInt(0, cfg.requests - current);
      v := Verdict(true, cfg.requests, remaining, resetAt);
    }

    method CurrentUsage(key: string, now: real, at: real) returns (used: int)
      requires cfg.window > 0.0
      ensures used == Live(store, (key, WindowIndex(cfg, now)), at)
    {
      hide WindowIndex;
      var slot := (key, WindowIndex(cfg, now));
      used := if slot in store && at < store[slot].deadline then store[slot].value else 0;
    }
  }
}
