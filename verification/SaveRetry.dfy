/** The synchronous save: retries with exponential backoff in 64-bit arithmetic, under a deadline.
    Times are counted from the start of the save, so the deadline is `timeout`. */
module SaveRetry {
  import opened Basics

  function Pow2(k: nat): nat {
    if k == 0 then 1 else 2 * Pow2(k - 1)
  }

  lemma {:induction false} PowGrows(j: nat, k: nat)
    requires j <= k
    ensures 1 <= Pow2(j) <= Pow2(k)
  {
    if j < k {
      PowGrows(j, k - 1);
    } else if j > 0 {
      PowGrows(j - 1, k - 1);
    }
  }

  lemma {:induction false} SixteenFold(k: nat)
    ensures Pow2(k + 4) == 16 * Pow2(k)
  {
    assert Pow2(k + 2) == 2 * Pow2(k + 1) == 4 * Pow2(k);
    assert Pow2(k + 4) == 2 * Pow2(k + 3) == 4 * Pow2(k + 2);
  }

  lemma {:induction false} Wide(k: nat)
    ensures Pow2(k + 16) == 65536 * Pow2(k)
  {
    SixteenFold(k);
    SixteenFold(k + 4);
    SixteenFold(k + 8);
    SixteenFold(k + 12);
  }

  lemma {:induction false} PowLimits()
    ensures Pow2(62) <= MAX_INT64 < Pow2(63)
  {
    Wide(0);
    Wide(16);
    Wide(32);
    assert Pow2(48) == 0x1_0000_0000_0000;
    Wide(48);
    assert Pow2(64) == 2 * Pow2(63) == 4 * Pow2(62);
  }

  /** `1 << k` on a 64-bit int. */
  function Shift(k: nat): Int64 {
    if k < 63 then PowLimits(); PowGrows(k, 62); Pow2(k) else if k == 63 then MIN_INT64 else 0
  }

  /** Shifting gives the power of two modulo 2^64. */
  lemma {:induction false} ShiftMeaning(k: nat) returns (j: int)
    ensures Pow2(k) == Shift(k) + j * 0x1_0000_0000_0000_0000
  {
    if k < 63 {
      j := 0;
    } else if k == 63 {
      j := 1;
      assert Pow2(64) == 2 * Pow2(63);
      PowSplits(0);
    } else {
      j := Pow2(k - 64);
      PowSplits(k - 64);
    }
  }

  lemma {:induction false} PowSplits(k: nat)
    ensures Pow2(k + 64) == Pow2(k) * 0x1_0000_0000_0000_0000
  {
    Wide(k);
    Wide(k + 16);
    Wide(k + 32);
    Wide(k + 48);
  }

  /** The delay before repository call number i, counted from 0, as the machine computes it. */
  function Delay(retryDelay: Duration, i: nat): Duration
    requires i > 0
  {
    Wrap64(retryDelay * Shift(i - 1))
  }

  /** d doubled k times, and the sum of the first k such delays. */
  function Doubled(d: int, k: nat): int {
    if k == 0 then d else 2 * Doubled(d, k - 1)
  }

  function Waited(d: int, k: nat): int {
    if k == 0 then 0 else Waited(d, k - 1) + Doubled(d, k - 1)
  }

  /** In closed form, d * 2^k and d * (2^k - 1). */
  lemma {:induction false} ClosedForms(d: int, k: nat)
    ensures Doubled(d, k) == d * Pow2(k) && Waited(d, k) == Doubled(d, k) - d == d * (Pow2(k) - 1)
  {
    if k > 0 {
      ClosedForms(d, k - 1);
      assert d * Pow2(k) == 2 * (d * Pow2(k - 1));
    }
    assert d * (Pow2(k) - 1) == d * Pow2(k) - d;
  }

  lemma {:induction false} DoubledIsLarge(d: int, k: nat)
    requires d >= 0
    ensures Doubled(d, k) >= 0 && (d > 0 ==> Doubled(d, k) >= Pow2(k)) && (d == 0 ==> Doubled(d, k) == 0)
  {
    if k > 0 {
      DoubledIsLarge(d, k - 1);
    }
  }

  function Max(a: int, b: int): int {
    if a < b then b else a
  }

  /** Room for the deadline and one more delay in 64 bits. */
  predicate Roomy(retryDelay: Duration, timeout: Duration) {
    retryDelay >= 0 && Max(timeout, 0) + retryDelay <= MAX_INT64
  }

  lemma WrapFits(n: int)
    requires MIN_INT64 <= n <= MAX_INT64
    ensures Wrap64(n) == n
  {
  }

  /** If the delays before this one fitted under the deadline, this one is computed without overflow. */
  lemma {:induction false} DelayIsExact(retryDelay: Duration, timeout: Duration, i: nat)
    requires i > 0 && Roomy(retryDelay, timeout) && Waited(retryDelay, i - 1) <= Max(timeout, 0)
    ensures 0 <= Delay(retryDelay, i) == Doubled(retryDelay, i - 1) <= Max(timeout, 0) + retryDelay
    ensures Waited(retryDelay, i) == Waited(retryDelay, i - 1) + Delay(retryDelay, i)
  {
    ClosedForms(retryDelay, i - 1);
    DoubledIsLarge(retryDelay, i - 1);
    if retryDelay > 0 {
      FewCallsFit(retryDelay, timeout, i - 1);
      assert Shift(i - 1) == Pow2(i - 1);
    }
    assert retryDelay * Shift(i - 1) == Doubled(retryDelay, i - 1);
    WrapFits(Doubled(retryDelay, i - 1));
  }

  /** With a positive delay fewer than 64 calls can be made, whatever RetryAttempts is, so that the shift
      count never reaches the sign bit. */
  lemma {:induction false} FewCallsFit(retryDelay: Duration, timeout: Duration, k: nat)
    requires retryDelay > 0 && Roomy(retryDelay, timeout) && Waited(retryDelay, k) <= Max(timeout, 0)
    ensures k < 63
  {
    ClosedForms(retryDelay, k);
    DoubledIsLarge(retryDelay, k);
    PowLimits();
    if k >= 63 {
      PowGrows(63, k);
    }
  }

  function Attempts(retryAttempts: Int64): Int64 {
    Wrap64(retryAttempts + 1)
  }

  /** Call k waits for all the delays before it, and they fit under the deadline. */
  predicate Spaced(callAt: seq<int>, retryDelay: Duration, timeout: Duration) {
    forall k | 0 <= k < |callAt| :: Waited(retryDelay, k) <= callAt[k] && Waited(retryDelay, k) <= Max(timeout, 0)
  }

  /** No delay has overflowed: each is the exact power-of-two multiple, at most timeout + retryDelay. */
  predicate Exact(delays: seq<Duration>, retryDelay: Duration, timeout: Duration) {
    forall k | 0 <= k < |delays| :: delays[k] == Doubled(retryDelay, k) <= Max(timeout, 0) + retryDelay
  }

  /** The first |calls| repository calls all failed. */
  predicate AllFailed(saves: nat -> bool, calls: nat) {
    forall k: nat | k < calls :: !saves(k)
  }

  /** If nothing can overflow, calls and delays are as they should be. */
  predicate OnSchedule(callAt: seq<int>, delays: seq<Duration>, retryDelay: Duration, timeout: Duration) {
    Roomy(retryDelay, timeout) ==> Spaced(callAt, retryDelay, timeout) && Exact(delays, retryDelay, timeout)
  }

  /** The i delays before call i have passed by `now`, and their timers fired before the deadline. */
  predicate Ready(i: nat, now: int, retryDelay: Duration, timeout: Duration) {
    Roomy(retryDelay, timeout) ==> Waited(retryDelay, i) <= now && Waited(retryDelay, i) <= Max(timeout, 0)
  }

  lemma {:induction false} WaitingKeepsSchedule(callAt: seq<int>, delays: seq<Duration>,
      retryDelay: Duration, timeout: Duration, i: nat, now: int)
    requires i > 0 && |delays| == i - 1
    requires OnSchedule(callAt, delays, retryDelay, timeout) && Ready(i - 1, now, retryDelay, timeout)
    ensures OnSchedule(callAt, delays + [Delay(retryDelay, i)], retryDelay, timeout)
    ensures now + Max(Delay(retryDelay, i), 0) <= timeout ==>
              Ready(i, now + Max(Delay(retryDelay, i), 0), retryDelay, timeout)
  {
    if Roomy(retryDelay, timeout) {
      DelayIsExact(retryDelay, timeout, i);
    }
  }

  lemma CallingKeepsSchedule(callAt: seq<int>, delays: seq<Duration>,
      retryDelay: Duration, timeout: Duration, now: int)
    requires OnSchedule(callAt, delays, retryDelay, timeout) && Ready(|callAt|, now, retryDelay, timeout)
    ensures OnSchedule(callAt + [now], delays, retryDelay, timeout)
  {
  }

  /** The timer wins against the deadline: it fires in time, and if the deadline has come by the time the caller
      wakes, `late` after that, the choice does not fall on the deadline. */
  predicate Wins(fire: int, timeout: Duration, late: nat, gives: bool) {
    fire <= timeout && !(fire + late >= timeout && gives)
  }

  /** The select between the timer and the deadline. */
  method Await(now: int, delay: Duration, timeout: Duration, late: nat, gives: bool) returns (fired: bool, at: int)
    ensures var fire := now + Max(delay, 0);
            && (fired <==> Wins(fire, timeout, late, gives))
            && at == (if fire > timeout then Max(now, timeout) else fire) + late
            && (!fired ==> at >= timeout)
  {
    var fire := now + Max(delay, 0);
    if fire > timeout {
      return false, Max(now, timeout) + late;
    }
    return !(fire + late >= timeout && gives), fire + late;
  }

  /** When the timer before call k fires. */
  function Fire(callAt: seq<int>, took: nat -> nat, retryDelay: Duration, k: nat): int
    requires 0 < k <= |callAt|
  {
    callAt[k - 1] + took(k - 1) + Max(Delay(retryDelay, k), 0)
  }

  /** Call k was made as soon as its caller woke from a timer that won. */
  predicate OnTime(callAt: seq<int>, took: nat -> nat, late: nat -> nat, gives: nat -> bool,
                   retryDelay: Duration, timeout: Duration, k: nat)
    requires 0 < k < |callAt|
  {
    var fire := Fire(callAt, took, retryDelay, k);
    callAt[k] == fire + late(k) && Wins(fire, timeout, late(k), gives(k))
  }

  /** The first call was made at once, and the others on time. */
  predicate Prompt(callAt: seq<int>, took: nat -> nat, late: nat -> nat, gives: nat -> bool,
                   retryDelay: Duration, timeout: Duration)
  {
    && (callAt != [] ==> callAt[0] == 0)
    && forall k | 0 < k < |callAt| :: OnTime(callAt, took, late, gives, retryDelay, timeout, k)
  }

  /** After the calls so far, each of which failed, the next one is due or its timer has won. */
  predicate Due(callAt: seq<int>, took: nat -> nat, late: nat -> nat, gives: nat -> bool,
                retryDelay: Duration, timeout: Duration, now: int)
  {
    if callAt == [] then now == 0
    else
      var fire := Fire(callAt, took, retryDelay, |callAt|);
      now == fire + late(|callAt|) && Wins(fire, timeout, late(|callAt|), gives(|callAt|))
  }

  lemma CallingIsPrompt(callAt: seq<int>, took: nat -> nat, late: nat -> nat, gives: nat -> bool,
                        retryDelay: Duration, timeout: Duration, now: int)
    requires Prompt(callAt, took, late, gives, retryDelay, timeout)
    requires Due(callAt, took, late, gives, retryDelay, timeout, now)
    ensures Prompt(callAt + [now], took, late, gives, retryDelay, timeout)
  {
    var longer := callAt + [now];
    forall k | 0 < k < |longer|
      ensures OnTime(longer, took, late, gives, retryDelay, timeout, k)
    {
      assert k < |callAt| ==> OnTime(callAt, took, late, gives, retryDelay, timeout, k);
      assert Fire(longer, took, retryDelay, k) == Fire(callAt, took, retryDelay, k);
    }
  }

  /** When the last call came back; the start if there was none. */
  function Returned(callAt: seq<int>, took: nat -> nat): int {
    if callAt == [] then 0 else callAt[|callAt| - 1] + took(|callAt| - 1)
  }

  /** The number of calls that the settings ask for: one and the retries, but none at all if their number is
      negative, or so large that adding one wraps around. */
  function Asked(retryAttempts: Int64): nat {
    if 0 <= retryAttempts < MAX_INT64 then retryAttempts + 1 else 0
  }

  /** The wait before call i, after the calls so far. */
  method Pause(callAt: seq<int>, delays: seq<Duration>, took: nat -> nat, late: nat -> nat, gives: nat -> bool,
               retryDelay: Duration, timeout: Duration, now: int)
    returns (fired: bool, at: int, delay: Duration)
    requires callAt != [] && |delays| == |callAt| - 1 && now == Returned(callAt, took)
    requires OnSchedule(callAt, delays, retryDelay, timeout) && Ready(|callAt| - 1, now, retryDelay, timeout)
    ensures OnSchedule(callAt, delays + [delay], retryDelay, timeout)
    ensures fired ==> Due(callAt, took, late, gives, retryDelay, timeout, at) && at >= now
    ensures fired ==> Ready(|callAt|, at, retryDelay, timeout)
    ensures !fired ==> at >= timeout && TimerLoses(callAt, took, late, gives, retryDelay, timeout)
  {
    var i := |callAt|;
    delay := Delay(retryDelay, i);
    WaitingKeepsSchedule(callAt, delays, retryDelay, timeout, i, now);
    fired, at := Await(now, delay, timeout, late(i), gives(i));
  }

  /** The timer before the next call does not win. */
  predicate TimerLoses(callAt: seq<int>, took: nat -> nat, late: nat -> nat, gives: nat -> bool,
                       retryDelay: Duration, timeout: Duration)
  {
    callAt != [] && !Wins(Fire(callAt, took, retryDelay, |callAt|), timeout, late(|callAt|), gives(|callAt|))
  }

  /** One save. Repository call k, if it is made, succeeds iff `saves(k)` and takes `took(k)`; `late` and
      `gives` say how the waits before the calls go. */
  method SaveSync(retryDelay: Duration, timeout: Duration, retryAttempts: Int64, hasHandler: bool,
                  saves: nat -> bool, took: nat -> nat, late: nat -> nat, gives: nat -> bool)
    returns (ok: bool, callAt: seq<int>, delays: seq<Duration>, notified: bool, endAt: int)
    // the result is nil exactly when the last call succeeded; the calls before the last failed
    ensures ok ==> |callAt| > 0 && saves(|callAt| - 1) && AllFailed(saves, |callAt| - 1)
    ensures !ok ==> AllFailed(saves, |callAt|)
    // one call and at most RetryAttempts more; the error handler hears of it exactly when all were made in vain
    ensures 0 <= retryAttempts < MAX_INT64 ==> 1 <= |callAt| <= retryAttempts + 1
    ensures retryAttempts < 0 || retryAttempts == MAX_INT64 ==> callAt == []
    ensures notified <==> hasHandler && !ok && |callAt| == Asked(retryAttempts)
    // calls are made as soon as they can be
    ensures Prompt(callAt, took, late, gives, retryDelay, timeout)
    // giving up early means that the timer lost to the deadline, which has come
    ensures !ok && |callAt| < Asked(retryAttempts) ==>
              endAt >= timeout && TimerLoses(callAt, took, late, gives, retryDelay, timeout)
    ensures ok || |callAt| == Asked(retryAttempts) ==>
              endAt == Returned(callAt, took)
    // calls are spaced by exact doubling delays that fit under the deadline, and nothing overflows
    ensures OnSchedule(callAt, delays, retryDelay, timeout)
  {
    var attempts := Attempts(retryAttempts);
    var now := 0;
    var i: nat := 0;
    callAt, delays := [], [];
    while i < attempts
      invariant i <= Asked(retryAttempts) == Max(attempts, 0)
      invariant |callAt| == i && |delays| == Max(i - 1, 0)
      invariant 0 <= now == Returned(callAt, took)
      invariant Prompt(callAt, took, late, gives, retryDelay, timeout)
      invariant AllFailed(saves, i)
      invariant Ready(Max(i - 1, 0), now, retryDelay, timeout)
      invariant OnSchedule(callAt, delays, retryDelay, timeout)
    {
      if i > 0 {
        var fired, delay;
        fired, now, delay := Pause(callAt, delays, took, late, gives, retryDelay, timeout, now);
        delays := delays + [delay];
        if !fired {
          return false, callAt, delays, false, now;
        }
      }
      CallingKeepsSchedule(callAt, delays, retryDelay, timeout, now);
      CallingIsPrompt(callAt, took, late, gives, retryDelay, timeout, now);
      callAt := callAt + [now];
      now := now + took(i);
      if saves(i) {
        return true, callAt, delays, false, now;
      }
      i := i + 1;
    }
    return false, callAt, delays, hasHandler, now;
  }
}
