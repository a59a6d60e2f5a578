/**
 The token bucket limiter: an atomic script refills a bucket stored under one key, takes the
 cost if it can, and renews the key's expiry.  The script is `Script`; a run is the history of
 calls made on one key.
 */
module TokenBucket {
  import opened Prelude

  /** `burst` and `refillRate` are the values the constructor settles on, `ttl` the key expiry. */
  datatype Params = Params(burst: int, refillRate: real, ttl: int)

  datatype Bucket = Bucket(tokens: real, lastRefill: real, deadline: real)

  /** `now` is the caller's clock reading, `at` the store's when the script runs. */
  datatype Call = Call(cost: int, now: real, at: real)

  datatype Verdict = Verdict(allowed: bool, remaining: int, limit: int)

  /** An unset or zero `burst` falls back to `requests`, an unset or zero rate to requests per second. */
  function Configure(requests: int, window: real, burst: Option<int>, refillRate: Option<real>): Params
    requires window > 0.0
  {
    Params(
      if burst.Some? && burst.value != 0 then burst.value else requests,
      if refillRate.Some? && refillRate.value != 0.0 then refillRate.value else requests as real / window,
      window.Floor + 1)
  }

  /** What the store still holds under the key: with expiry, nothing once the deadline has come. */
  function Fetch(b: Option<Bucket>, at: real, expiry: bool): Option<Bucket> {
    if b.Some? && expiry && at >= b.value.deadline then None else b
  }

  /** The tokens that flow in between two moments. */
  function Gain(p: Params, since: real, until: real): real {
    p.refillRate * (until - since)
  }

  lemma GainIs(p: Params, since: real, until: real)
    ensures Gain(p, since, until) == p.refillRate * (until - since)
  {
  }

  lemma GainSplits(p: Params, a: real, b: real, c: real)
    ensures Gain(p, a, c) == Gain(p, a, b) + Gain(p, b, c)
    ensures Gain(p, a, a) == 0.0
  {
    assert (b - a) + (c - b) == c - a;
  }

  lemma GainGrows(p: Params, a: real, b: real, c: real)
    requires p.refillRate >= 0.0 && b <= c
    ensures Gain(p, a, b) <= Gain(p, a, c)
  {
  }

  /** The tokens in the bucket after the refill at `now`. */
  function Refilled(p: Params, b: Option<Bucket>, now: real): real {
    var tokens := if b.Some? then b.value.tokens else p.burst as real;
    var lastRefill := if b.Some? then b.value.lastRefill else now;
    MinReal(p.burst as real, tokens + Gain(p, lastRefill, now))
  }

  /** One execution of the script, on what `Fetch` returned. */
  function Script(p: Params, b: Option<Bucket>, c: Call): (Bucket, Verdict) {
    var available := Refilled(p, b, c.now);
    var allowed := available >= c.cost as real;
    var tokens := if allowed then available - c.cost as real else available;
    (Bucket(tokens, c.now, c.at + p.ttl as real), Verdict(allowed, tokens.Floor, p.burst))
  }

  /** The reported reset time, computed from whole tokens; with a rate of zero the division raises. */
  function ResetAt(p: Params, c: Call, v: Verdict): Option<real> {
    if p.refillRate == 0.0 then None
    else if v.allowed then Some(c.now + (v.limit - v.remaining) as real / p.refillRate)
    else Some(c.now + (c.cost - (v.limit - v.remaining)) as real / p.refillRate)
  }

  // ----- Runs on one key -----

  /** The bucket after a history of calls, oldest first. */
  function After(p: Params, calls: seq<Call>, expiry: bool): Option<Bucket> {
    if calls == [] then None
    else
      var last := calls[|calls| - 1];
      Some(Script(p, Fetch(After(p, calls[..|calls| - 1], expiry), last.at, expiry), last).0)
  }

  /** The tokens a decision at `now` finds after the history `calls`, as long as no key expires. */
  function Available(p: Params, calls: seq<Call>, now: real): real {
    Refilled(p, After(p, calls, false), now)
  }

  /** Whether call `i` of the run is admitted. */
  predicate Admits(p: Params, calls: seq<Call>, i: nat, expiry: bool)
    requires i < |calls|
  {
    Script(p, Fetch(After(p, calls[..i], expiry), calls[i].at, expiry), calls[i]).1.allowed
  }

  /** The cost admitted by calls `lo..hi` of the run. */
  function Admitted(p: Params, calls: seq<Call>, lo: nat, hi: nat, expiry: bool): int
    requires lo <= hi <= |calls|
    decreases hi
  {
    if lo == hi then 0
    else Admitted(p, calls, lo, hi - 1, expiry) + if Admits(p, calls, hi - 1, expiry) then calls[hi - 1].cost else 0
  }

  /** The limit that the stretch from call `i` on puts on a decision at `now`. */
  function StretchBound(p: Params, calls: seq<Call>, i: nat, now: real): real
    requires i < |calls|
  {
    p.burst as real + Gain(p, calls[i].now, now) - Admitted(p, calls, i, |calls|, false) as real
  }

  lemma {:induction false} AdmittedPrefix(p: Params, calls: seq<Call>, n: nat, lo: nat, hi: nat)
    requires lo <= hi <= n <= |calls|
    ensures Admitted(p, calls[..n], lo, hi, false) == Admitted(p, calls, lo, hi, false)
    decreases hi
  {
    if lo < hi {
      AdmittedPrefix(p, calls, n, lo, hi - 1);
      assert calls[..n][..hi - 1] == calls[..hi - 1];
    }
  }

  /** A stretch bound moves with the clock and with the last call. */
  lemma StretchStep(p: Params, calls: seq<Call>, i: nat, now: real)
    requires i < |calls| - 1
    ensures var n := |calls| - 1;
            StretchBound(p, calls, i, now)
            == StretchBound(p, calls[..n], i, calls[n].now) + Gain(p, calls[n].now, now)
               - Admitted(p, calls, n, n + 1, false) as real
  {
    hide Gain;
    var n := |calls| - 1;
    AdmittedPrefix(p, calls, n, i, n);
    GainSplits(p, calls[i].now, calls[n].now, now);
  }

  /** The tokens left behind by the last call. */
  lemma AvailableStep(p: Params, calls: seq<Call>, now: real)
    requires |calls| > 0
    ensures var n := |calls| - 1;
            Available(p, calls, now)
            == MinReal(p.burst as real,
                       Available(p, calls[..n], calls[n].now) - Admitted(p, calls, n, n + 1, false) as real
                       + Gain(p, calls[n].now, now))
  {
    hide Gain;
    var n := |calls| - 1;
    GainSplits(p, calls[n].now, calls[n].now, calls[n].now);
    assert Admitted(p, calls, n, n + 1, false) == if Admits(p, calls, n, false) then calls[n].cost else 0;
  }

  /**
   The bucket level is exactly the smallest of the burst and of all stretch bounds: below each
   of them, and equal to one.
   */
  lemma {:induction false} Exactness(p: Params, calls: seq<Call>, now: real)
    ensures var level := Available(p, calls, now);
            && level <= p.burst as real
            && (forall i :: 0 <= i < |calls| ==> level <= StretchBound(p, calls, i, now))
            && (level == p.burst as real || exists i :: 0 <= i < |calls| && level == StretchBound(p, calls, i, now))
    decreases |calls|
  {
    hide Gain;
    GainSplits(p, now, now, now);
    if |calls| > 0 {
      var n := |calls| - 1;
      var before := Available(p, calls[..n], calls[n].now);
      var level := Available(p, calls, now);
      Exactness(p, calls[..n], calls[n].now);
      AvailableStep(p, calls, now);
      forall i | 0 <= i < |calls|
        ensures level <= StretchBound(p, calls, i, now)
      {
        if i < n {
          StretchStep(p, calls, i, now);
        }
      }
      if level != p.burst as real {
        if before == p.burst as real {
          assert level == StretchBound(p, calls, n, now);
        } else {
          var i :| 0 <= i < n && before == StretchBound(p, calls[..n], i, calls[n].now);
          StretchStep(p, calls, i, now);
          assert level == StretchBound(p, calls, i, now);
        }
      }
    }
  }

  /** A call is refused exactly when admitting it would exceed the burst or break some stretch's bound. */
  lemma RefusedExactly(p: Params, calls: seq<Call>, n: nat)
    requires n < |calls|
    ensures !Admits(p, calls, n, false) <==>
            || calls[n].cost > p.burst
            || exists i :: 0 <= i < n &&
                 (Admitted(p, calls, i, n, false) + calls[n].cost) as real
                 > p.burst as real + Gain(p, calls[i].now, calls[n].now)
  {
    hide Gain;
    Exactness(p, calls[..n], calls[n].now);
    forall i | 0 <= i < n
      ensures StretchBound(p, calls[..n], i, calls[n].now)
              == p.burst as real + Gain(p, calls[i].now, calls[n].now) - Admitted(p, calls, i, n, false) as real
    {
      AdmittedPrefix(p, calls, n, i, n);
    }
  }

  /**
   Over any stretch that ends with an admission the admitted cost stays within the burst plus the refill of
   the stretch, in whatever order the callers' clock readings come.
   */
  lemma RateBound(p: Params, calls: seq<Call>, i: nat, j: nat)
    requires i <= j < |calls| && Admits(p, calls, j, false)
    ensures Admitted(p, calls, i, j + 1, false) as real <= p.burst as real + Gain(p, calls[i].now, calls[j].now)
  {
    hide Gain, Admits;
    GainSplits(p, calls[i].now, calls[i].now, calls[i].now);
    RefusedExactly(p, calls, j);
    assert Admitted(p, calls, i, j + 1, false) == Admitted(p, calls, i, j, false) + calls[j].cost;
    assert i == j ==> Admitted(p, calls, i, j, false) == 0;
  }

  /** `remaining` is exact: asked again at the same moment, the bucket gives any whole cost up to it and no more. */
  lemma RemainingIsExact(p: Params, b: Option<Bucket>, c: Call, more: int)
    requires p.ttl > 0 && c.cost >= 0
    ensures var (after, v) := Script(p, b, c);
            Script(p, Fetch(Some(after), c.at, true), Call(more, c.now, c.at)).1.allowed <==> more <= v.remaining
  {
    hide Gain;
    GainSplits(p, c.now, c.now, c.now);
  }

  lemma RefillTime(p: Params, now: real, tokens: real)
    requires p.refillRate > 0.0
    ensures Gain(p, now, now + tokens / p.refillRate) == tokens
  {
    assert now + tokens / p.refillRate - now == tokens / p.refillRate;
  }

  /** At the reset time reported with an admission the bucket is full, if no call came between. */
  lemma ResetIsFull(p: Params, b: Option<Bucket>, c: Call, at: real, expiry: bool)
    requires p.refillRate > 0.0 && c.cost >= 0
    requires Script(p, b, c).1.allowed
    ensures var (after, v) := Script(p, b, c);
            var resetAt := ResetAt(p, c, v).value;
            resetAt >= c.now && Refilled(p, Fetch(Some(after), at, expiry), resetAt) == p.burst as real
  {
    var (after, v) := Script(p, b, c);
    var missing := (v.limit - v.remaining) as real;
    RefillTime(p, c.now, missing);
    GainSplits(p, c.now, c.now, c.now);
    GainSplits(p, ResetAt(p, c, v).value, ResetAt(p, c, v).value, ResetAt(p, c, v).value);
    assert missing >= 0.0;
    QuotientSign(missing, p.refillRate);
    hide Gain;
  }

  lemma QuotientSign(x: real, rate: real)
    requires x >= 0.0 && rate > 0.0
    ensures x / rate >= 0.0
  {
  }

  /**
   The reset time in units of the refill: after an admission what the whole tokens left are short of the
   burst, after a refusal what they are short of the cost; there is none without a refill.
   */
  lemma ResetAtIs(p: Params, c: Call, v: Verdict)
    ensures ResetAt(p, c, v).None? <==> p.refillRate == 0.0
    ensures p.refillRate != 0.0 ==>
              (ResetAt(p, c, v).value - c.now) * p.refillRate
              == if v.allowed then (v.limit - v.remaining) as real else (c.cost - (v.limit - v.remaining)) as real
  {
    if p.refillRate != 0.0 {
      var missing := if v.allowed then v.limit - v.remaining else c.cost - (v.limit - v.remaining);
      var wait := missing as real / p.refillRate;
      assert ResetAt(p, c, v) == Some(c.now + wait);
      assert c.now + wait - c.now == wait && wait * p.refillRate == missing as real;
    }
  }

  // ----- Key expiry -----

  /** The store's clock never goes back, and a caller's clock reading is at most `lag` old when its script runs. */
  ghost predicate Timed(lag: real, calls: seq<Call>) {
    && (forall i, j :: 0 <= i < j < |calls| ==> calls[i].at <= calls[j].at)
    && (forall i :: 0 <= i < |calls| ==> calls[i].now <= calls[i].at <= calls[i].now + lag)
  }

  /** What a bucket at its emptiest lacks of the burst flows in within the key's lifetime, less the lag. */
  ghost predicate RefillsInTime(p: Params, lag: real) {
    MaxInt(0, p.burst) as real <= Gain(p, lag, p.ttl as real)
  }

  /** Seen from any moment no earlier than the clock readings, tokens are not below zero, nor below a negative burst. */
  lemma {:induction false} TokensFloor(p: Params, calls: seq<Call>, x: real)
    requires p.refillRate >= 0.0 && |calls| > 0
    requires forall i :: 0 <= i < |calls| ==> calls[i].now <= x
    ensures var b := After(p, calls, false).value;
            && b.tokens + Gain(p, b.lastRefill, x) >= MinReal(0.0, p.burst as real)
            && b.lastRefill == calls[|calls| - 1].now
            && b.deadline == calls[|calls| - 1].at + p.ttl as real
    decreases |calls|
  {
    hide Gain;
    var n := |calls| - 1;
    GainSplits(p, calls[n].now, calls[n].now, x);
    GainGrows(p, calls[n].now, calls[n].now, x);
    if n > 0 {
      TokensFloor(p, calls[..n], x);
      GainSplits(p, calls[n - 1].now, calls[n].now, x);
    }
  }

  /** When the burst refills within the key's lifetime, a decision cannot tell an expired key from a kept one. */
  lemma ExpiredKeyIsFull(p: Params, lag: real, calls: seq<Call>, now: real, at: real)
    requires p.refillRate >= 0.0 && Timed(lag, calls) && RefillsInTime(p, lag)
    requires calls != [] ==> calls[|calls| - 1].at <= at
    requires now <= at <= now + lag
    ensures Refilled(p, Fetch(After(p, calls, false), at, true), now) == Available(p, calls, now)
  {
    GainSplits(p, now, now, now);
    if |calls| > 0 {
      var b := After(p, calls, false).value;
      var x := calls[|calls| - 1].at;
      forall i | 0 <= i < |calls|
        ensures calls[i].now <= x
      {
        assert calls[i].now <= calls[i].at <= x;
      }
      TokensFloor(p, calls, x);
      if at >= b.deadline {
        GainSplits(p, b.lastRefill, x, now);
        Overdue(p, lag, x, now);
      }
    }
  }

  /** Past the deadline even a lagging clock reading is the lifetime less the lag after the last script. */
  lemma Overdue(p: Params, lag: real, x: real, now: real)
    requires p.refillRate >= 0.0 && now >= x + p.ttl as real - lag
    ensures Gain(p, x, now) >= Gain(p, lag, p.ttl as real)
  {
    var ttl := p.ttl as real;
    assert now - x >= ttl - lag;
    assert p.refillRate * (now - x) >= p.refillRate * (ttl - lag);
  }

  lemma {:induction false} SameBucket(p: Params, lag: real, calls: seq<Call>)
    requires p.refillRate >= 0.0 && Timed(lag, calls) && RefillsInTime(p, lag)
    ensures After(p, calls, true) == After(p, calls, false)
    decreases |calls|
  {
    hide Gain, RefillsInTime;
    if |calls| > 0 {
      var n := |calls| - 1;
      SameBucket(p, lag, calls[..n]);
      ExpiredKeyIsFull(p, lag, calls[..n], calls[n].now, calls[n].at);
    }
  }

  ghost predicate ExpiryInvisible(p: Params, lag: real) {
    forall calls: seq<Call>, i: nat :: Timed(lag, calls) && i < |calls| ==>
      (Admits(p, calls, i, true) <==> Admits(p, calls, i, false))
  }

  /** Spend the whole burst, then ask for it again as the key expires, with a clock reading as late as may be. */
  function ExpiryWitness(p: Params, lag: real): seq<Call> {
    [Call(MaxInt(0, p.burst), 0.0, 0.0), Call(p.burst, p.ttl as real - lag, p.ttl as real)]
  }

  lemma ExpiryVisible(p: Params, lag: real)
    requires p.refillRate >= 0.0 && p.ttl > 0 && lag >= 0.0 && !RefillsInTime(p, lag)
    ensures Timed(lag, ExpiryWitness(p, lag))
    ensures Admits(p, ExpiryWitness(p, lag), 0, true) <==> p.burst >= 0
    ensures Admits(p, ExpiryWitness(p, lag), 1, true) && !Admits(p, ExpiryWitness(p, lag), 1, false)
  {
    var calls := ExpiryWitness(p, lag);
    var t := p.ttl as real;
    var emptied := Bucket(MinReal(0.0, p.burst as real), 0.0, t);
    LateGain(p, lag);
    GainSplits(p, 0.0, 0.0, 0.0);
    GainSplits(p, t - lag, t - lag, t - lag);
    hide Gain;
    assert calls[..1] == [calls[0]];
    assert [calls[0]][..0] == [];
    assert Script(p, None, calls[0]).0 == emptied;
    assert After(p, calls[..1], false) == Some(emptied) && After(p, calls[..1], true) == Some(emptied);
  }

  lemma LateGain(p: Params, lag: real)
    ensures Gain(p, 0.0, p.ttl as real - lag) == Gain(p, lag, p.ttl as real)
  {
  }

  /** Expiry changes no decision on any run exactly when the burst refills within the key's lifetime less the lag. */
  lemma ExpiryInvisibleIff(p: Params, lag: real)
    requires p.refillRate >= 0.0 && p.ttl > 0 && lag >= 0.0
    ensures ExpiryInvisible(p, lag) <==> RefillsInTime(p, lag)
  {
    hide Gain, RefillsInTime;
    if RefillsInTime(p, lag) {
      forall calls: seq<Call>, i: nat | Timed(lag, calls) && i < |calls|
        ensures Admits(p, calls, i, true) <==> Admits(p, calls, i, false)
      {
        SameBucket(p, lag, calls[..i]);
        ExpiredKeyIsFull(p, lag, calls[..i], calls[i].now, calls[i].at);
      }
    } else {
      ExpiryVisible(p, lag);
      assert 1 < |ExpiryWitness(p, lag)|;
    }
  }

  /** The default rate refills the default burst in a time at least as long as the window, and in no shorter one. */
  lemma WindowRefills(requests: real, window: real, time: real)
    requires window > 0.0 && requests >= 0.0
    ensures requests / window >= 0.0
    ensures requests <= requests / window * time <==> requests == 0.0 || window <= time
  {
    var rate := requests / window;
    assert rate * window == requests;
    assert rate * time - requests == rate * (time - window);
    if requests == 0.0 {
      assert rate == 0.0;
    } else {
      assert rate > 0.0;
      if window <= time {
        assert rate * (time - window) >= 0.0;
      } else {
        assert rate * (window - time) > 0.0;
      }
    }
  }

  lemma DefaultsRefill(requests: int, window: real, lag: real)
    requires window > 0.0 && requests >= 0
    ensures var p := Configure(requests, window, None, None);
            && p.refillRate >= 0.0 && p.ttl > 0
            && (RefillsInTime(p, lag) <==> requests == 0 || lag <= (window.Floor + 1) as real - window)
  {
    var p := Configure(requests, window, None, None);
    var lifetime := (window.Floor + 1) as real;
    WindowRefills(requests as real, window, lifetime - lag);
    DefaultGain(requests, window, lag);
    hide Gain;
  }

  lemma DefaultGain(requests: int, window: real, lag: real)
    requires window > 0.0
    ensures var p := Configure(requests, window, None, None);
            Gain(p, lag, p.ttl as real) == requests as real / window * ((window.Floor + 1) as real - lag)
  {
  }

  /**
   With burst and rate left unset, expiry is invisible exactly up to the lag that the other limiters bear: by
   how much the whole seconds of the window, and one more, exceed it.
   */
  lemma DefaultsHideExpiryIff(requests: int, window: real, lag: real)
    requires window > 0.0 && requests >= 0 && lag >= 0.0
    ensures ExpiryInvisible(Configure(requests, window, None, None), lag)
            <==> requests == 0 || lag <= (window.Floor + 1) as real - window
  {
    DefaultsRefill(requests, window, lag);
    hide Gain, Configure, ExpiryInvisible, RefillsInTime;
    ExpiryInvisibleIff(Configure(requests, window, None, None), lag);
  }

  lemma {:induction false} SameAdmissions(p: Params, lag: real, calls: seq<Call>, lo: nat, hi: nat)
    requires ExpiryInvisible(p, lag) && Timed(lag, calls) && lo <= hi <= |calls|
    ensures Admitted(p, calls, lo, hi, true) == Admitted(p, calls, lo, hi, false)
    decreases hi
  {
    hide Admits;
    if lo < hi {
      SameAdmissions(p, lag, calls, lo, hi - 1);
    }
  }

  /** The rate bound for the store as it is, which does drop keys: over any stretch that ends with an admission. */
  ghost predicate RateBounded(p: Params, lag: real) {
    forall calls: seq<Call>, i: nat, j: nat ::
      Timed(lag, calls) && i <= j < |calls| && Admits(p, calls, j, true) ==>
        Admitted(p, calls, i, j + 1, true) as real <= p.burst as real + Gain(p, calls[i].now, calls[j].now)
  }

  /** The burst is admitted twice, and what flows in between is less than a burst. */
  lemma ExpiryWitnessExceeds(p: Params, lag: real)
    requires p.burst >= 0 && p.refillRate >= 0.0 && p.ttl > 0 && lag >= 0.0 && !RefillsInTime(p, lag)
    ensures !RateBounded(p, lag)
  {
    var calls := ExpiryWitness(p, lag);
    ExpiryVisible(p, lag);
    LateGain(p, lag);
    hide Admits, Gain;
    assert Admitted(p, calls, 0, 1, true) == Admitted(p, calls, 0, 0, true) + p.burst;
    assert Admitted(p, calls, 0, 1 + 1, true) == 2 * p.burst;
  }

  /** With expiring keys the rate bound holds on every run exactly when the burst refills in time. */
  lemma RateBoundedIff(p: Params, lag: real)
    requires p.burst >= 0 && p.refillRate >= 0.0 && p.ttl > 0 && lag >= 0.0
    ensures RateBounded(p, lag) <==> RefillsInTime(p, lag)
  {
    hide Gain, Admits, RefillsInTime;
    ExpiryInvisibleIff(p, lag);
    if RefillsInTime(p, lag) {
      forall calls: seq<Call>, i: nat, j: nat | Timed(lag, calls) && i <= j < |calls| && Admits(p, calls, j, true)
        ensures Admitted(p, calls, i, j + 1, true) as real <= p.burst as real + Gain(p, calls[i].now, calls[j].now)
      {
        SameAdmissions(p, lag, calls, i, j + 1);
        RateBound(p, calls, i, j);
      }
    } else {
      ExpiryWitnessExceeds(p, lag);
    }
  }

  /** So over any stretch, however it ends, up to any moment no earlier than its clock readings. */
  lemma {:induction false} StretchRateBound(p: Params, lag: real, calls: seq<Call>, i: nat, j: nat, until: real)
    requires p.burst >= 0 && p.refillRate >= 0.0 && p.ttl > 0 && lag >= 0.0 && RefillsInTime(p, lag)
    requires Timed(lag, calls) && i <= j < |calls|
    requires forall k :: i <= k <= j ==> calls[k].now <= until
    ensures Admitted(p, calls, i, j + 1, true) as real <= p.burst as real + Gain(p, calls[i].now, until)
    decreases j
  {
    hide Gain, Admits, RefillsInTime;
    GainSplits(p, calls[i].now, calls[i].now, until);
    GainGrows(p, calls[i].now, calls[i].now, until);
    if Admits(p, calls, j, true) {
      RateBoundedIff(p, lag);
      GainGrows(p, calls[i].now, calls[j].now, until);
    } else if i < j {
      StretchRateBound(p, lag, calls, i, j - 1, until);
    } else {
      assert Admitted(p, calls, i, i, true) == 0;
    }
  }

  /** The burst and rate that a configuration means: one that is unset or zero gives way to the limit. */
  ghost predicate Means(requests: int, window: real, burst: Option<int>, refillRate: Option<real>, b: int, r: real) {
    && (burst.None? || burst == Some(0) ==> b == requests)
    && (burst.Some? && burst != Some(0) ==> Some(b) == burst)
    && (refillRate.None? || refillRate == Some(0.0) ==> r * window == requests as real)
    && (refillRate.Some? && refillRate != Some(0.0) ==> Some(r) == refillRate)
  }

  lemma ConfigureMeans(requests: int, window: real, burst: Option<int>, refillRate: Option<real>, b: int, r: real)
    requires window > 0.0 && Means(requests, window, burst, refillRate, b, r)
    ensures Configure(requests, window, burst, refillRate) == Params(b, r, window.Floor + 1)
  {
    assert requests as real / window * window == requests as real;
    assert r * window == requests as real ==> r == requests as real / window;
  }

  /** In every run, any stretch that ends with an admission admits at most `burst` and `rate` units a second. */
  ghost predicate BoundedBy(p: Params, burst: int, rate: real, lag: real) {
    forall calls: seq<Call>, i: nat, j: nat ::
      Timed(lag, calls) && i <= j < |calls| && Admits(p, calls, j, true) ==>
        Admitted(p, calls, i, j + 1, true) as real <= burst as real + rate * (calls[j].now - calls[i].now)
  }

  lemma BoundedByOwn(p: Params, lag: real)
    ensures BoundedBy(p, p.burst, p.refillRate, lag) <==> RateBounded(p, lag)
  {
    hide Timed, Admits, Admitted;
  }

  lemma RefillsInSeconds(p: Params, lag: real)
    requires p.burst >= 0
    ensures RefillsInTime(p, lag) <==> p.burst as real <= p.refillRate * (p.ttl as real - lag)
  {
  }

  /**
   Whatever is configured, the limiter keeps to the burst and rate that it means exactly when the rate brings
   the burst back within the window's whole seconds and one more, less the lag.
   */
  lemma ConfiguredBoundIff(requests: int, window: real, burst: Option<int>, refillRate: Option<real>,
                           b: int, r: real, lag: real)
    requires window > 0.0 && lag >= 0.0 && Means(requests, window, burst, refillRate, b, r) && b >= 0 && r >= 0.0
    ensures BoundedBy(Configure(requests, window, burst, refillRate), b, r, lag)
            <==> b as real <= r * ((window.Floor + 1) as real - lag)
  {
    var p := Params(b, r, window.Floor + 1);
    hide BoundedBy, RateBounded, RefillsInTime, Configure, Means;
    ConfigureMeans(requests, window, burst, refillRate, b, r);
    BoundedByOwn(p, lag);
    RateBoundedIff(p, lag);
    RefillsInSeconds(p, lag);
  }

  /** With everything but the limit left unset the bound holds for every window, whole or fractional. */
  lemma DefaultsAreBounded(requests: int, window: real)
    requires window > 0.0 && requests >= 0
    ensures BoundedBy(Configure(requests, window, None, None), requests, requests as real / window, 0.0)
  {
    hide BoundedBy, Configure;
    QuotientTimes(requests as real, window);
    DefaultsSuffice(requests as real, window);
    ConfiguredBoundIff(requests, window, None, None, requests, requests as real / window, 0.0);
  }

  lemma DefaultsSuffice(requests: real, window: real)
    requires window > 0.0 && requests >= 0.0
    ensures requests / window >= 0.0 && requests <= requests / window * ((window.Floor + 1) as real - 0.0)
  {
    WindowRefills(requests, window, (window.Floor + 1) as real - 0.0);
  }

  lemma QuotientTimes(x: real, y: real)
    requires y > 0.0
    ensures x / y * y == x
  {
  }

  /** A key without a bucket gives the configured burst at once, and reports it as the limit. */
  lemma FreshBucket(requests: int, window: real, burst: Option<int>, refillRate: Option<real>, b: int, r: real, c: Call)
    requires window > 0.0 && Means(requests, window, burst, refillRate, b, r)
    ensures var v := Script(Configure(requests, window, burst, refillRate), None, c).1;
            && v.limit == b && (v.allowed <==> c.cost <= b) && v.remaining == if c.cost <= b then b - c.cost else b
  {
    ConfigureMeans(requests, window, burst, refillRate, b, r);
    hide Configure, Means, Gain;
    GainSplits(Params(b, r, window.Floor + 1), c.now, c.now, c.now);
  }

  /** With call `n`, more than the burst and what the rate gave since call `i` would be admitted since then. */
  ghost predicate Overdraws(p: Params, calls: seq<Call>, i: int, n: nat)
    requires n < |calls|
  {
    && 0 <= i < n
    && (Admitted(p, calls, i, n, true) + calls[n].cost) as real
       > p.burst as real + p.refillRate * (calls[n].now - calls[i].now)
  }

  ghost predicate OverdrawsSome(p: Params, calls: seq<Call>, n: nat)
    requires n < |calls|
  {
    exists i :: Overdraws(p, calls, i, n)
  }

  /**
   With expiring keys and a burst that refills in time, a call is refused exactly if it exceeds the burst or
   with it too much would be admitted since some earlier call.
   */
  lemma RefusedIff(p: Params, lag: real, calls: seq<Call>, n: nat)
    requires p.refillRate >= 0.0 && p.ttl > 0 && lag >= 0.0 && RefillsInTime(p, lag) && Timed(lag, calls) && n < |calls|
    ensures !Admits(p, calls, n, true) <==> calls[n].cost > p.burst || OverdrawsSome(p, calls, n)
  {
    hide Admits, RefillsInTime, Gain, Admitted, Timed;
    ExpiryInvisibleIff(p, lag);
    forall i | 0 <= i < n
      ensures Overdraws(p, calls, i, n) <==>
              (Admitted(p, calls, i, n, false) + calls[n].cost) as real
              > p.burst as real + Gain(p, calls[i].now, calls[n].now)
    {
      SameAdmissions(p, lag, calls, i, n);
      GainIs(p, calls[i].now, calls[n].now);
    }
    RefusedExactly(p, calls, n);
  }

  ghost predicate CostsNonNegative(calls: seq<Call>) {
    forall i :: 0 <= i < |calls| ==> calls[i].cost >= 0
  }

  /** The cost admitted to callers whose clocks read a moment in `[from, to]`, with expiring keys. */
  function AdmittedDuring(p: Params, calls: seq<Call>, from: real, to: real): int {
    if calls == [] then 0
    else
      var n := |calls| - 1;
      AdmittedDuring(p, calls[..n], from, to)
      + if from <= calls[n].now <= to && Admits(p, calls, n, true) then calls[n].cost else 0
  }

  lemma AdmitsPrefix(p: Params, calls: seq<Call>, n: nat, i: nat)
    requires i < n <= |calls|
    ensures Admits(p, calls[..n], i, true) <==> Admits(p, calls, i, true)
  {
    assert calls[..n][..i] == calls[..i];
  }

  lemma {:induction false} AdmittedPrefixExpiring(p: Params, calls: seq<Call>, n: nat, lo: nat, hi: nat)
    requires lo <= hi <= n <= |calls|
    ensures Admitted(p, calls[..n], lo, hi, true) == Admitted(p, calls, lo, hi, true)
    decreases hi
  {
    if lo < hi {
      AdmittedPrefixExpiring(p, calls, n, lo, hi - 1);
      assert calls[..n][..hi - 1] == calls[..hi - 1];
    }
  }

  lemma {:induction false} AdmittedGrows(p: Params, calls: seq<Call>, lo: nat, mid: nat, hi: nat)
    requires lo <= mid <= hi <= |calls| && CostsNonNegative(calls)
    ensures Admitted(p, calls, lo, mid, true) <= Admitted(p, calls, lo, hi, true)
    decreases hi
  {
    hide Admits;
    if mid < hi {
      AdmittedGrows(p, calls, lo, mid, hi - 1);
    }
  }

  /** What is admitted in an interval is admitted between two admissions in it. */
  lemma {:induction false} IntervalInStretch(p: Params, calls: seq<Call>, from: real, to: real)
    returns (lo: nat, hi: nat)
    requires CostsNonNegative(calls)
    ensures lo <= hi <= |calls| && AdmittedDuring(p, calls, from, to) <= Admitted(p, calls, lo, hi, true)
    ensures lo < hi ==> from <= calls[lo].now && calls[hi - 1].now <= to && Admits(p, calls, hi - 1, true)
    decreases |calls|
  {
    hide Admits;
    lo, hi := 0, 0;
    if calls != [] {
      var n := |calls| - 1;
      lo, hi := IntervalInStretch(p, calls[..n], from, to);
      AdmittedPrefixExpiring(p, calls, n, lo, hi);
      if lo < hi {
        AdmitsPrefix(p, calls, n, hi - 1);
      }
      if from <= calls[n].now <= to && Admits(p, calls, n, true) {
        AdmittedGrows(p, calls, lo, hi, n);
        if lo == hi {
          assert Admitted(p, calls, lo, lo, true) == Admitted(p, calls, n, n, true) == 0;
          lo := n;
        }
        hi := n + 1;
      }
    }
  }

  /** Over any interval of time the admitted cost is within the burst plus the refill of the interval. */
  lemma IntervalBound(p: Params, lag: real, calls: seq<Call>, from: real, to: real)
    requires p.burst >= 0 && p.refillRate >= 0.0 && p.ttl > 0 && lag >= 0.0 && RefillsInTime(p, lag)
    requires Timed(lag, calls) && CostsNonNegative(calls) && from <= to
    ensures AdmittedDuring(p, calls, from, to) as real <= p.burst as real + Gain(p, from, to)
  {
    hide Admits, AdmittedDuring, RefillsInTime;
    RateBoundedIff(p, lag);
    var lo, hi := IntervalInStretch(p, calls, from, to);
    if lo < hi {
      var first, last := calls[lo].now, calls[hi - 1].now;
      assert Admitted(p, calls, lo, hi - 1 + 1, true) as real <= p.burst as real + Gain(p, first, last);
      ShorterGains(p, first, last, from, to);
    } else {
      assert Admitted(p, calls, lo, hi, true) == 0;
      ShorterGains(p, from, from, from, to);
    }
  }

  lemma ShorterGains(p: Params, a: real, b: real, from: real, to: real)
    requires p.refillRate >= 0.0 && from <= a && b <= to
    ensures Gain(p, a, b) <= Gain(p, from, to)
  {
    assert p.refillRate * (b - a) <= p.refillRate * (to - from);
  }

  // ----- The limiter object -----

  class TokenBucketRateLimiter {
    const params: Params
    var buckets: map<string, Bucket>

    constructor (requests: int, window: real, burst: Option<int>, refillRate: Option<real>)
      requires window > 0.0
      ensures params == Configure(requests, window, burst, refillRate) && buckets == map[]
    {
      params := Configure(requests, window, burst, refillRate);
      buckets := map[];
    }

    function Stored(key: string): Option<Bucket>
      reads this
    {
      if key in buckets then Some(buckets[key]) else None
    }

    /** The script runs on the key's bucket as the store still holds it; no other key changes. */
    method CheckLimit(key: string, cost: int, now: real, at: real) returns (v: Verdict, resetAt: Option<real>)
      modifies this
      ensures var (bucket, verdict) := Script(params, Fetch(old(Stored(key)), at, true), Call(cost, now, at));
              v == verdict && buckets == old(buckets)[key := bucket]
      ensures resetAt == ResetAt(params, Call(cost, now, at), v)
    {
      hide Gain, ResetAt;
      var tokens, lastRefill := params.burst as real, now;
      if key in buckets && at < buckets[key].deadline {
        tokens, lastRefill := buckets[key].tokens, buckets[key].lastRefill;
      }
      tokens := MinReal(params.burst as real, tokens + Gain(params, lastRefill, now));
      var allowed := false;
      if tokens >= cost as real {
        tokens := tokens - cost as real;
        allowed := true;
      }
      buckets := buckets[key := Bucket(tokens, now, at + params.ttl as real)];
      v := Verdict(allowed, tokens.Floor, params.burst);
      resetAt := ResetAt(params, Call(cost, now, at), v);
    }

    /** Deleting the key brings back a full bucket for the next decision. */
    method Reset(key: string, at: real) returns (existed: bool)
      modifies this
      ensures existed <==> Fetch(old(Stored(key)), at, true).Some?
      ensures Stored(key) == None && buckets == old(buckets) - {key}
      ensures forall later :: Refilled(params, Fetch(Stored(key), later, true), later) == params.burst as real
    {
      existed := key in buckets && at < buckets[key].deadline;
      buckets := buckets - {key};
    }
  }
}
