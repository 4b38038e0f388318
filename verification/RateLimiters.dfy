/** The listener rate limiter: how many calls it really lets through in one second. */
module RateLimiters {
  import opened Basics

  /** A rate that is not positive counts as 1. */
  function Effective(rate: int): int {
    if rate <= 0 then 1 else rate
  }

  /** Whole nanoseconds between admitted calls. */
  function Interval(rate: int): Duration {
    SECOND / Effective(rate)
  }

  class RateLimiter {
    const interval: Duration
    var lastCalled: Instant

    ghost predicate Valid()
      reads this
    {
      0 <= interval <= SECOND
    }

    constructor (rate: int, now: Instant)
      ensures Valid() && interval == Interval(rate) && lastCalled == now - interval
    {
      interval := Interval(rate);
      lastCalled := now - Interval(rate);
      new;
      IntervalInRange(rate);
    }

    method Allow(now: Instant) returns (allowed: bool)
      requires Valid()
      modifies this
      ensures Valid() && allowed == Allows(interval, old(lastCalled), now)
      ensures allowed <==> now - old(lastCalled) >= interval
      ensures lastCalled == if allowed then now else old(lastCalled)
    {
      if Since(now, lastCalled) >= interval {
        lastCalled := now;
        return true;
      }
      return false;
    }
  }

  predicate Allows(interval: Duration, last: Instant, now: Instant) {
    Since(now, last) >= interval
  }

  function LastCalled(interval: Duration, last: Instant, times: seq<Instant>): Instant {
    if times == [] then last
    else
      var before, now := LastCalled(interval, last, times[..|times| - 1]), times[|times| - 1];
      if Allows(interval, before, now) then now else before
  }

  /** The instants, among those at which a call arrives, at which it is let through. */
  function Admitted(interval: Duration, last: Instant, times: seq<Instant>): seq<Instant> {
    if times == [] then []
    else
      var init, now := times[..|times| - 1], times[|times| - 1];
      Admitted(interval, last, init) + if Allows(interval, LastCalled(interval, last, init), now) then [now] else []
  }

  predicate Spread(xs: seq<Instant>, interval: Duration) {
    forall i | 0 < i < |xs| :: xs[i] - xs[i - 1] >= interval
  }

  lemma {:induction false} LastCalledIsLastAdmitted(interval: Duration, last: Instant, times: seq<Instant>)
    ensures var xs := Admitted(interval, last, times);
            LastCalled(interval, last, times) == if xs == [] then last else xs[|xs| - 1]
  {
    if times != [] {
      LastCalledIsLastAdmitted(interval, last, times[..|times| - 1]);
    }
  }

  lemma AllowedIsLater(interval: Duration, last: Instant, now: Instant)
    requires 0 <= interval <= SECOND && Allows(interval, last, now)
    ensures now - last >= interval
  {
  }

  lemma {:induction false} AdmittedAreSpread(interval: Duration, last: Instant, times: seq<Instant>)
    requires 0 <= interval <= SECOND
    ensures Spread(Admitted(interval, last, times), interval)
  {
    if times != [] {
      var init, now := times[..|times| - 1], times[|times| - 1];
      AdmittedAreSpread(interval, last, init);
      LastCalledIsLastAdmitted(interval, last, init);
      if Allows(interval, LastCalled(interval, last, init), now) {
        AllowedIsLater(interval, LastCalled(interval, last, init), now);
      }
    }
  }

  /** n + 1 admitted calls span at least n intervals. */
  lemma {:induction false} SpanOf(xs: seq<Instant>, interval: Duration, i: nat, n: nat)
    requires interval >= 0 && Spread(xs, interval) && i + n < |xs|
    ensures xs[i + n] - xs[i] >= n * interval
  {
    if n > 0 {
      SpanOf(xs, interval, i, n - 1);
      assert n * interval == (n - 1) * interval + interval;
    }
  }

  lemma {:induction false} IntervalInRange(rate: int)
    ensures 0 <= Interval(rate) <= SECOND
    ensures rate <= 0 ==> Interval(rate) == SECOND
  {
  }

  /** Exactly those arrivals get through that come at least one interval after every arrival let through before;
      so the first one always does, and one that is turned away comes too soon after one that got through. */
  lemma {:induction false} AdmittedIff(rate: int, start: Instant, times: seq<Instant>, k: nat)
    requires k < |times| && start <= times[0] && Ascending(times)
    ensures var q := Interval(rate);
            var before := Admitted(q, start - q, times[..k]);
            Admitted(q, start - q, times[..k + 1]) ==
            before + if AllEarlier(before, times[k], q) then [times[k]] else []
    ensures k == 0 ==> Admitted(Interval(rate), start - Interval(rate), times[..k + 1]) == [times[0]]
  {
    IntervalInRange(rate);
    AscendingFromFirst(times, k);
    assert times[..k + 1] == times[..k] + [times[k]];
    AdmittedStep(Interval(rate), start - Interval(rate), times[..k], times[k]);
  }

  /** `now` comes at least one interval after all of xs. */
  predicate AllEarlier(xs: seq<Instant>, now: Instant, interval: Duration) {
    forall i | 0 <= i < |xs| :: now - xs[i] >= interval
  }

  lemma {:induction false} AllEarlierIff(xs: seq<Instant>, now: Instant, interval: Duration)
    requires interval >= 0 && Spread(xs, interval)
    ensures AllEarlier(xs, now, interval) <==> (xs == [] || now - xs[|xs| - 1] >= interval)
  {
    if xs != [] && now - xs[|xs| - 1] >= interval {
      forall i | 0 <= i < |xs| ensures now - xs[i] >= interval {
        if i < |xs| - 1 {
          LaterByOne(xs, interval, i, |xs| - 1);
        }
      }
    }
  }

  lemma {:induction false} AdmittedStep(interval: Duration, last: Instant, init: seq<Instant>, now: Instant)
    requires 0 <= interval <= SECOND && now - last >= interval
    ensures var before := Admitted(interval, last, init);
            Admitted(interval, last, init + [now]) ==
            before + if AllEarlier(before, now, interval) then [now] else []
  {
    assert (init + [now])[..|init|] == init;
    LastCalledIsLastAdmitted(interval, last, init);
    AdmittedAreSpread(interval, last, init);
    AllEarlierIff(Admitted(interval, last, init), now, interval);
  }

  lemma {:induction false} AscendingFromFirst(times: seq<Instant>, k: nat)
    requires Ascending(times) && k < |times|
    ensures times[0] <= times[k]
  {
    if k > 0 {
      AscendingFromFirst(times, k - 1);
    }
  }

  /** How many instants fall into the half-open second that begins at w. */
  function InSecond(xs: seq<Instant>, w: Instant): nat {
    if xs == [] then 0
    else InSecond(xs[..|xs| - 1], w) + if w <= xs[|xs| - 1] < w + SECOND then 1 else 0
  }

  lemma {:induction false} LaterByOne(xs: seq<Instant>, interval: Duration, i: nat, j: nat)
    requires interval >= 0 && Spread(xs, interval) && i < j < |xs|
    ensures xs[j] - xs[i] >= interval
  {
    if i + 1 < j {
      LaterByOne(xs, interval, i, j - 1);
    }
  }

  /** The last of the instants in the second is late enough for the others to fit in before it. */
  lemma {:induction false} LastInSecond(xs: seq<Instant>, interval: Duration, w: Instant) returns (i: nat)
    requires interval >= 0 && Spread(xs, interval)
    ensures InSecond(xs, w) > 0 ==>
              i < |xs| && Tick(w, interval, InSecond(xs, w)) <= xs[i] < w + SECOND
  {
    i := 0;
    if xs != [] {
      var init := xs[..|xs| - 1];
      i := LastInSecond(init, interval, w);
      if w <= xs[|xs| - 1] < w + SECOND {
        if InSecond(init, w) > 0 {
          LaterByOne(xs, interval, i, |xs| - 1);
        } else {
          assert Tick(w, interval, 1) == Tick(w, interval, 0) + interval == w;
        }
        i := |xs| - 1;
      }
    }
  }

  /** The number of intervals that begin within one second: ceil(10^9 / interval). */
  function Cap(rate: int): nat
    requires 1 <= rate <= SECOND
  {
    IntervalIsPositive(rate);
    (SECOND + Interval(rate) - 1) / Interval(rate)
  }

  lemma {:induction false} IntervalIsPositive(rate: int)
    requires 1 <= rate <= SECOND
    ensures 1 <= Interval(rate) <= SECOND
    ensures rate * Interval(rate) + SECOND % rate == SECOND
  {
    assert SECOND == rate * (SECOND / rate) + SECOND % rate;
  }

  lemma {:induction false} CeilBound(s: nat, q: nat, k: nat)
    requires q > 0
    ensures s <= k * q ==> (s + q - 1) / q <= k
    ensures (k > 0 ==> (k - 1) * q < s) ==> k <= (s + q - 1) / q
  {
    var d := (s + q - 1) / q;
    assert d * q <= s + q - 1 < (d + 1) * q;
    assert (k + 1) * q == k * q + q && k * q == (k - 1) * q + q;
    if s <= k * q && d > k {
      Monotone(k + 1, d, q);
    }
    if k > 0 && (k - 1) * q < s && d < k {
      Monotone(d + 1, k, q);
    }
  }

  lemma Monotone(a: int, b: int, q: nat)
    requires a <= b
    ensures a * q <= b * q
  {
  }

  /** In any half-open second at most Cap(rate) calls get through, whatever the arrivals. */
  lemma {:induction false} WindowBound(rate: int, last: Instant, times: seq<Instant>, w: Instant)
    requires 1 <= rate <= SECOND
    ensures InSecond(Admitted(Interval(rate), last, times), w) <= Cap(rate)
  {
    IntervalIsPositive(rate);
    var xs, q := Admitted(Interval(rate), last, times), Interval(rate);
    AdmittedAreSpread(q, last, times);
    var i := LastInSecond(xs, q, w);
    TickAt(w, q, InSecond(xs, w));
    assert (InSecond(xs, w) - 1) * q == InSecond(xs, w) * q - q;
    CeilBound(SECOND, q, InSecond(xs, w));
  }

  lemma {:induction false} CapIsAtLeastRate(rate: int)
    requires 1 <= rate <= SECOND
    ensures rate <= Cap(rate)
    ensures SECOND % rate == 0 <==> Cap(rate) == rate
  {
    IntervalIsPositive(rate);
    var q := Interval(rate);
    assert (rate - 1) * q == rate * q - q;
    CeilBound(SECOND, q, rate);
    CeilIsReached(SECOND, q);
  }

  lemma CeilIsReached(s: nat, q: nat)
    requires q > 0
    ensures s <= (s + q - 1) / q * q
  {
  }

  lemma {:induction false} CapOfModerateRate(rate: int)
    requires 1 <= rate <= SECOND && rate * (rate - 1) <= SECOND
    ensures Cap(rate) <= rate + 1
  {
    IntervalIsPositive(rate);
    var q := Interval(rate);
    assert (rate + 1) * q == rate * q + q;
    assert (q + 1) * rate == rate * q + rate && (rate - 1) * rate == rate * (rate - 1);
    if q < rate - 1 {
      Monotone(q + 1, rate - 1, rate);
    }
    CeilBound(SECOND, q, rate + 1);
  }

  /** The cap is the rate itself when the rate divides 10^9, and at most one more for moderate rates. */
  lemma {:induction false} CapValues(rate: int)
    requires 1 <= rate <= SECOND
    ensures rate <= Cap(rate)
    ensures SECOND % rate == 0 <==> Cap(rate) == rate
    ensures rate * (rate - 1) <= SECOND ==> Cap(rate) <= rate + 1
  {
    CapIsAtLeastRate(rate);
    if rate * (rate - 1) <= SECOND {
      CapOfModerateRate(rate);
    }
  }

  // ---------------------------------------------------------------- "at most rate per second"

  predicate Ascending(times: seq<Instant>) {
    forall i | 0 < i < |times| :: times[i - 1] <= times[i]
  }

  /** What the documentation promises of one run and one second. */
  predicate WithinRate(rate: int, start: Instant, times: seq<Instant>, w: Instant) {
    InSecond(Admitted(Interval(rate), start - Interval(rate), times), w) <= if rate <= 0 then 1 else rate
  }

  ghost predicate KeepsPromise(rate: int) {
    forall start: Instant, times: seq<Instant>, w: Instant {:induction false} | Ascending(times) ::
      WithinRate(rate, start, times, w)
  }

  /** The k-th tick, counted from 1: one interval after the one before. */
  function Tick(start: Instant, interval: Duration, k: nat): Instant {
    if k == 0 then start - interval else Tick(start, interval, k - 1) + interval
  }

  function Ticks(start: Instant, interval: Duration, k: nat): (xs: seq<Instant>)
    ensures |xs| == k && (k > 0 ==> xs[k - 1] == Tick(start, interval, k))
  {
    if k == 0 then [] else Ticks(start, interval, k - 1) + [Tick(start, interval, k)]
  }

  lemma {:induction false} TickAt(start: Instant, interval: Duration, k: nat)
    ensures Tick(start, interval, k) == start + k * interval - interval
  {
    if k > 0 {
      TickAt(start, interval, k - 1);
      assert k * interval == (k - 1) * interval + interval;
    }
  }

  lemma {:induction false} TicksPass(start: Instant, interval: Duration, k: nat)
    requires 0 <= interval <= SECOND
    ensures Ascending(Ticks(start, interval, k))
    ensures Admitted(interval, start - interval, Ticks(start, interval, k)) == Ticks(start, interval, k)
    ensures LastCalled(interval, start - interval, Ticks(start, interval, k)) == Tick(start, interval, k)
    ensures Tick(start, interval, k) >= start - interval && (k > 0 ==> Tick(start, interval, k) >= start)
  {
    if k > 0 {
      TicksPass(start, interval, k - 1);
      assert Ticks(start, interval, k)[..k - 1] == Ticks(start, interval, k - 1);
    }
  }

  lemma {:induction false} TicksCount(start: Instant, interval: Duration, k: nat)
    requires 0 <= interval <= SECOND && Tick(start, interval, k) < start + SECOND
    ensures InSecond(Ticks(start, interval, k), start) == k
  {
    if k > 0 {
      TicksPass(start, interval, k);
      TicksCount(start, interval, k - 1);
      assert Ticks(start, interval, k)[..k - 1] == Ticks(start, interval, k - 1);
    }
  }

  /** The bound is reached for every rate, by calls that arrive just when they may. */
  lemma {:induction false} CapIsReached(rate: int, start: Instant) returns (times: seq<Instant>)
    requires 1 <= rate <= SECOND
    ensures Ascending(times)
    ensures InSecond(Admitted(Interval(rate), start - Interval(rate), times), start) == Cap(rate)
  {
    IntervalIsPositive(rate);
    CeilIsTight(SECOND, Interval(rate));
    TicksFill(start, Interval(rate), Cap(rate));
    times := Ticks(start, Interval(rate), Cap(rate));
  }

  /** As many ticks as begin within a second all get through in it. */
  lemma {:induction false} TicksFill(start: Instant, interval: Duration, k: nat)
    requires 0 <= interval <= SECOND && k * interval - interval < SECOND
    ensures Ascending(Ticks(start, interval, k))
    ensures InSecond(Admitted(interval, start - interval, Ticks(start, interval, k)), start) == k
  {
    TickAt(start, interval, k);
    TicksPass(start, interval, k);
    TicksCount(start, interval, k);
  }

  lemma CeilIsTight(s: nat, q: nat)
    requires q > 0
    ensures (s + q - 1) / q * q - q < s
  {
  }

  lemma {:induction false} DivisorKeepsPromise(rate: int)
    requires SECOND % Effective(rate) == 0
    ensures KeepsPromise(rate)
  {
    var r := Effective(rate);
    DivisorFits(r);
    CapValues(r);
    forall start: Instant, times: seq<Instant>, w: Instant | Ascending(times)
      ensures WithinRate(rate, start, times, w)
    {
      WindowBound(r, start - Interval(r), times, w);
    }
  }

  lemma DivisorFits(r: int)
    requires r >= 1 && SECOND % r == 0
    ensures r <= SECOND
  {
  }

  lemma {:induction false} RemainderLeavesRoom(r: int)
    requires r >= 1 && SECOND % r != 0
    ensures 0 <= Interval(r) <= SECOND && r * Interval(r) < SECOND
  {
    if r <= SECOND {
      IntervalIsPositive(r);
    } else {
      assert Interval(r) == 0;
    }
  }

  /** Calls that arrive just when they may: one too many of them begin within the first second. */
  lemma {:induction false} RemainderBreaksPromise(rate: int)
    requires SECOND % Effective(rate) != 0
    ensures !KeepsPromise(rate)
  {
    var r, q := Effective(rate), Interval(rate);
    RemainderLeavesRoom(r);
    TickAt(0, q, r + 1);
    assert (r + 1) * q == r * q + q;
    TicksPass(0, q, r + 1);
    TicksCount(0, q, r + 1);
    assert !WithinRate(rate, 0, Ticks(0, q, r + 1), 0);
  }

  /** "At most `rate` times per second" holds exactly for the rates that divide 10^9. */
  lemma {:induction false} PromiseKeptIff(rate: int)
    ensures KeepsPromise(rate) <==> rate <= 0 || SECOND % rate == 0
  {
    if SECOND % Effective(rate) == 0 {
      DivisorKeepsPromise(rate);
    } else {
      RemainderBreaksPromise(rate);
    }
  }
}
