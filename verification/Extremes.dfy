/** Runs that go as far as the bounds allow: how many probes, and how many actions, n callers can start. */
module Extremes {
  import opened Basics
  import opened Snapshots
  import opened Breakers
  import opened Concurrency
  import opened FailureLeak
  import opened Sequential
  import opened NonOverlapping

  const PROBING: set<PC> := {RunningHalfOpen}

  /** No run of n callers around a fresh breaker ever has two probes under way. */
  ghost predicate SingleProbe(c: Config, n: nat, t0: Instant) {
    forall ls: seq<Label> {:induction false} | Run(c, Start(FRESH_BREAKER, n, t0), ls).Some? ::
      Count(Run(c, Start(FRESH_BREAKER, n, t0), ls).value.pcs, PROBING) <= 1
  }

  /** The first k callers fetch at instant t. */
  function Fetches(k: nat, t: Instant): seq<Label> {
    if k == 0 then [] else Fetches(k - 1, t) + [Label(t, Fetch(k - 1))]
  }

  /** The first k callers run what they fetched, the others are idle. */
  predicate FirstRun(pcs: seq<PC>, k: nat, pc: PC) {
    k <= |pcs| && forall i | 0 <= i < |pcs| :: pcs[i] == if i < k then pc else Idle
  }

  /** r is s after its first k callers have fetched. */
  predicate HaveFetched(s: Sys, k: nat, r: Sys) {
    && r.b == s.b && r.now == s.now && |r.pcs| == |s.pcs| && FirstRun(r.pcs, k, Holds(s.b.state))
    && Starts(r.trace) == Starts(s.trace) + k && FirstOpening(r.trace) == FirstOpening(s.trace)
  }

  lemma {:induction false} FetchOne(c: Config, s: Sys, m: Sys, k: nat) returns (r: Sys)
    requires s.b.state != Open && k < |s.pcs| && HaveFetched(s, k, m)
    ensures Enabled(m, Label(s.now, Fetch(k))) && r == Step(c, m, Label(s.now, Fetch(k)))
    ensures HaveFetched(s, k + 1, r)
  {
    var o := TraceStep(c, m, Label(s.now, Fetch(k)));
    r := Step(c, m, Label(s.now, Fetch(k)));
    assert r.pcs == m.pcs[k := Holds(s.b.state)];
  }

  lemma {:induction false} AllFetch(c: Config, s: Sys, k: nat) returns (r: Sys)
    requires s.b.state != Open && k <= |s.pcs| && FirstRun(s.pcs, 0, Holds(s.b.state))
    ensures Run(c, s, Fetches(k, s.now)) == Some(r) && HaveFetched(s, k, r)
  {
    if k == 0 {
      r := s;
    } else {
      var m := AllFetch(c, s, k - 1);
      r := FetchOne(c, s, m, k - 1);
      RunMore(c, s, Fetches(k - 1, s.now), Label(s.now, Fetch(k - 1)));
    }
  }

  lemma {:induction false} CountAll(pcs: seq<PC>, which: set<PC>)
    requires forall i | 0 <= i < |pcs| :: pcs[i] in which
    ensures Count(pcs, which) == |pcs|
  {
    if pcs != [] {
      CountAll(pcs[1..], which);
    }
  }

  /** k failing calls of caller 0 at instant t0. */
  function Hammer(c: Config, k: nat, t0: Instant): seq<Label> {
    AllSteps(c, FRESH_BREAKER, 0, Failures(k, t0))
  }

  lemma {:induction false} AfterHammer(c: Config, n: nat, k: nat, t0: Instant) returns (s: Sys)
    requires Positive(c) && n > 0 && k <= c.failureThreshold
    ensures Run(c, Start(FRESH_BREAKER, n, t0), Hammer(c, k, t0)) == Some(s)
    ensures s.pcs == Start(FRESH_BREAKER, n, t0).pcs && s.now <= t0
    ensures s.b == Final(c, FRESH_BREAKER, Failures(k, t0))
    ensures k < c.failureThreshold ==> s.b.state == Closed && s.b.failureCount == k
    ensures k == c.failureThreshold ==> s.b.state == Open && s.b.lastFailure == t0
  {
    var ops := Failures(k, t0);
    PhaseAfterFailures(c, 0, k, t0);
    RefinesPhases(c, FRESH_BREAKER, ops, t0);
    SequentialRunsAreRuns(c, FRESH_BREAKER, n, t0, 0, ops);
    s := Run(c, Start(FRESH_BREAKER, n, t0), Hammer(c, k, t0)).value;
  }

  /** However many callers there are, all of them can be probing at once. */
  lemma {:induction false} AllCanProbeAtOnce(c: Config, n: nat, t0: Instant) returns (ls: seq<Label>)
    requires Positive(c) && n > 0
    ensures Run(c, Start(FRESH_BREAKER, n, t0), ls).Some?
    ensures Count(Run(c, Start(FRESH_BREAKER, n, t0), ls).value.pcs, PROBING) == n
  {
    var s0 := Start(FRESH_BREAKER, n, t0);
    var tripped := AfterHammer(c, n, c.failureThreshold, t0);
    var late := t0 + c.resetTimeout;
    RunMore(c, s0, Hammer(c, c.failureThreshold, t0), Label(late, Poll));
    var s := Step(c, tripped, Label(late, Poll));
    ExpiredMeansElapsed(c, tripped.b, late);
    var r := AllFetch(c, s, n);
    RunAppend(c, s0, Hammer(c, c.failureThreshold, t0) + [Label(late, Poll)], Fetches(n, late));
    ls := Hammer(c, c.failureThreshold, t0) + [Label(late, Poll)] + Fetches(n, late);
    CountAll(Run(c, s0, ls).value.pcs, PROBING);
  }

  /** The "single request" of Half-Open holds exactly when there is at most one caller. */
  lemma {:induction false} SingleProbeIff(c: Config, n: nat, t0: Instant)
    requires Positive(c)
    ensures SingleProbe(c, n, t0) <==> n <= 1
  {
    if n <= 1 {
      forall ls: seq<Label> | Run(c, Start(FRESH_BREAKER, n, t0), ls).Some?
        ensures Count(Run(c, Start(FRESH_BREAKER, n, t0), ls).value.pcs, PROBING) <= 1
      {
        RunShape(c, Start(FRESH_BREAKER, n, t0), ls);
        CountBound(Run(c, Start(FRESH_BREAKER, n, t0), ls).value.pcs, PROBING);
      }
    } else {
      var ls := AllCanProbeAtOnce(c, n, t0);
    }
  }

  // ---------------------------------------------------------------- the leak bound is reached

  lemma StepsFail(c: Config, b: Breaker, i: nat, t: Instant)
    ensures var ls := Steps(c, b, i, Call(t, t, t, Failed));
            AllFailing(ls) && forall k | 0 <= k < |ls| :: !ls[k].act.Poll?
  {
  }

  lemma AppendFails(xs: seq<Label>, ys: seq<Label>)
    requires AllFailing(xs) && AllFailing(ys)
    ensures AllFailing(xs + ys)
  {
  }

  lemma {:induction false} HammerFails(c: Config, k: nat, t0: Instant)
    ensures AllFailing(Hammer(c, k, t0))
  {
    if k > 0 {
      HammerFails(c, k - 1, t0);
      var last := HammerGrows(c, k, t0);
      AppendFails(Hammer(c, k - 1, t0), last);
    }
  }

  /** One more call, which neither succeeds nor asks for the state nor resets. */
  lemma {:induction false} HammerGrows(c: Config, k: nat, t0: Instant) returns (last: seq<Label>)
    requires k > 0
    ensures Hammer(c, k, t0) == Hammer(c, k - 1, t0) + last
    ensures AllFailing(last) && forall i | 0 <= i < |last| :: !last[i].act.Poll?
  {
    var init, op := Failures(k - 1, t0), Call(t0, t0, t0, Failed);
    assert (init + [op])[..|init|] == init && (init + [op])[|init|] == op;
    last := Steps(c, Final(c, FRESH_BREAKER, init), 0, op);
    StepsFail(c, Final(c, FRESH_BREAKER, init), 0, t0);
  }

  lemma {:induction false} FetchesFail(k: nat, t: Instant)
    ensures AllFailing(Fetches(k, t))
  {
    if k > 0 {
      FetchesFail(k - 1, t);
    }
  }

  /** threshold - 1 + n actions can really be started before the breaker opens: one caller fails until one
      failure short of the threshold, then all n callers fetch Closed. */
  lemma {:induction false} LeakBoundIsReached(c: Config, n: nat, t0: Instant) returns (ls: seq<Label>)
    requires Positive(c) && n > 0
    ensures AllFailing(ls) && Run(c, Start(FRESH_BREAKER, n, t0), ls).Some?
    ensures var trace := Run(c, Start(FRESH_BREAKER, n, t0), ls).value.trace;
            FirstOpening(trace) == None && Starts(trace) == c.failureThreshold - 1 + n
  {
    var s0, short := Start(FRESH_BREAKER, n, t0), c.failureThreshold - 1;
    var s := AfterHammer(c, n, short, t0);
    var r := AllFetch(c, s, n);
    RunAppend(c, s0, Hammer(c, short, t0), Fetches(n, s.now));
    ls := Hammer(c, short, t0) + Fetches(n, s.now);
    HammerFails(c, short, t0);
    FetchesFail(n, s.now);
    RunLeaks(c, n, t0, ls);
    ClosedHasLeaked(c, n, Run(c, s0, ls).value);
  }

  lemma {:induction false} ClosedHasLeaked(c: Config, n: nat, s: Sys)
    requires Positive(c) && Leaking(c, n, s) && s.b.state == Closed
    requires s.b.failureCount == c.failureThreshold - 1 && FirstRun(s.pcs, n, RunningClosed)
    ensures FirstOpening(s.trace) == None && Starts(s.trace) == c.failureThreshold - 1 + n
  {
    CountAll(s.pcs, RUNNING);
  }

  // ---------------------------------------------------------------- and reached again in every period

  /** The first k callers fail at instant t. */
  function Failing(k: nat, t: Instant): seq<Label> {
    if k == 0 then [] else Failing(k - 1, t) + [Label(t, Complete(k - 1, Failed))]
  }

  lemma {:induction false} FailingFails(k: nat, t: Instant)
    ensures AllFailing(Failing(k, t))
  {
    if k > 0 {
      FailingFails(k - 1, t);
    }
  }

  /** The first k callers have come back, the others still run. */
  predicate LastRun(pcs: seq<PC>, k: nat, pc: PC) {
    k <= |pcs| && forall i | 0 <= i < |pcs| :: pcs[i] == if i < k then Idle else pc
  }

  /** One failure opens the breaker, or keeps it open. */
  predicate Full(c: Config, b: Breaker) {
    b.failureCount >= c.failureThreshold - 1
  }

  lemma {:induction false} FailOne(c: Config, m: Sys, k: nat, pc: PC) returns (r: Sys)
    requires Running(pc) && Full(c, m.b) && k < |m.pcs| && LastRun(m.pcs, k, pc)
    ensures Enabled(m, Label(m.now, Complete(k, Failed))) && r == Step(c, m, Label(m.now, Complete(k, Failed)))
    ensures r.b.state == Open && r.b.lastFailure == r.now == m.now && Full(c, r.b)
    ensures |r.pcs| == |m.pcs| && LastRun(r.pcs, k + 1, pc)
    ensures Starts(r.trace) == Starts(m.trace)
    ensures FirstOpening(r.trace) == if FirstOpening(m.trace) == None then Some(m.now) else FirstOpening(m.trace)
  {
    var l := Label(m.now, Complete(k, Failed));
    var o := TraceStep(c, m, l);
    r := Step(c, m, l);
    assert r.pcs == m.pcs[k := Idle];
  }

  lemma {:induction false} AllFail(c: Config, s: Sys, k: nat, pc: PC) returns (r: Sys)
    requires Running(pc) && Full(c, s.b) && k <= |s.pcs| && LastRun(s.pcs, 0, pc)
    ensures Run(c, s, Failing(k, s.now)) == Some(r)
    ensures r.now == s.now && Full(c, r.b) && (k > 0 ==> r.b.state == Open && r.b.lastFailure == s.now)
    ensures |r.pcs| == |s.pcs| && LastRun(r.pcs, k, pc)
    ensures Starts(r.trace) == Starts(s.trace)
    ensures FirstOpening(r.trace) ==
            if k > 0 && FirstOpening(s.trace) == None then Some(s.now) else FirstOpening(s.trace)
  {
    if k == 0 {
      r := s;
    } else {
      var m := AllFail(c, s, k - 1, pc);
      r := FailOne(c, m, k - 1, pc);
      RunMore(c, s, Failing(k - 1, s.now), Label(s.now, Complete(k - 1, Failed)));
    }
  }

  /** All callers fetch, and then all of them fail. */
  lemma {:induction false} Burst(c: Config, n: nat, s: Sys) returns (ls: seq<Label>, r: Sys)
    requires Full(c, s.b) && s.b.state != Open && |s.pcs| == n > 0 && Quiescent(s)
    ensures AllFailing(ls) && Run(c, s, ls) == Some(r)
    ensures r.now == s.now && AllBack(c, n, r)
    ensures Starts(r.trace) == Starts(s.trace) + n
    ensures FirstOpening(r.trace) == if FirstOpening(s.trace) == None then Some(s.now) else FirstOpening(s.trace)
  {
    var m := AllFetch(c, s, n);
    r := AllFail(c, m, n, Holds(s.b.state));
    ls := Fetches(n, s.now) + Failing(n, s.now);
    RunAppend(c, s, Fetches(n, s.now), Failing(n, s.now));
    FetchesFail(n, s.now);
    FailingFails(n, s.now);
    AppendFails(Fetches(n, s.now), Failing(n, s.now));
  }

  /** The breaker has just opened, or opened again, and all callers are back. */
  predicate AllBack(c: Config, n: nat, s: Sys) {
    Full(c, s.b) && s.b.state == Open && s.b.lastFailure == s.now && |s.pcs| == n && Quiescent(s)
  }

  lemma {:induction false} FirstBurst(c: Config, n: nat, t0: Instant) returns (ls: seq<Label>, r: Sys)
    requires Positive(c) && n > 0
    ensures AllFailing(ls) && Run(c, Start(FRESH_BREAKER, n, t0), ls) == Some(r)
    ensures r.now <= t0 && AllBack(c, n, r)
    ensures FirstOpening(r.trace) == Some(r.now) && Starts(r.trace) == c.failureThreshold - 1 + n
  {
    var s0, short := Start(FRESH_BREAKER, n, t0), c.failureThreshold - 1;
    var s := AfterHammer(c, n, short, t0);
    HammerFails(c, short, t0);
    RunLeaks(c, n, t0, Hammer(c, short, t0));
    StillFilling(c, n, s);
    var burst;
    burst, r := Burst(c, n, s);
    ls := Hammer(c, short, t0) + burst;
    RunAppend(c, s0, Hammer(c, short, t0), burst);
    AppendFails(Hammer(c, short, t0), burst);
  }

  lemma {:induction false} StillFilling(c: Config, n: nat, s: Sys)
    requires Positive(c) && Leaking(c, n, s) && s.b.state == Closed && Quiescent(s)
    ensures FirstOpening(s.trace) == None && Starts(s.trace) == s.b.failureCount
  {
    CountBound(s.pcs, RUNNING);
  }

  /** A query at the end of the period makes the breaker HalfOpen, and everybody probes and fails. */
  lemma {:induction false} NextBurst(c: Config, n: nat, s: Sys) returns (ls: seq<Label>, r: Sys)
    requires Positive(c) && n > 0 && AllBack(c, n, s)
    ensures AllFailing(ls) && Run(c, s, ls) == Some(r)
    ensures r.now == s.now + c.resetTimeout && AllBack(c, n, r)
    ensures Starts(r.trace) == Starts(s.trace) + n
    ensures FirstOpening(s.trace).Some? ==> FirstOpening(r.trace) == FirstOpening(s.trace)
  {
    var poll := Label(s.now + c.resetTimeout, Poll);
    ExpiredMeansElapsed(c, s.b, poll.at);
    var o := TraceStep(c, s, poll);
    var m := Step(c, s, poll);
    RunOne(c, s, poll);
    var burst;
    burst, r := Burst(c, n, m);
    ls := [poll] + burst;
    RunAppend(c, s, [poll], burst);
    AppendFails([poll], burst);
  }

  /** By `elapsed` after its first opening, at T0, the run has started as many actions as the cap allows. */
  predicate AtTheCap(c: Config, n: nat, t0: Instant, ls: seq<Label>, r: Sys, first: Instant, elapsed: nat)
    requires Positive(c)
  {
    && AllFailing(ls) && Run(c, Start(FRESH_BREAKER, n, t0), ls) == Some(r)
    && FirstOpening(r.trace) == Some(first) && r.now <= first + elapsed
    && Starts(r.trace) == LeakCap(c, n, elapsed)
  }

  lemma {:induction false} OneMoreBurst(c: Config, n: nat, t0: Instant,
      ls: seq<Label>, s: Sys, first: Instant, elapsed: nat)
    returns (more: seq<Label>, r: Sys)
    requires Positive(c) && n > 0 && AllBack(c, n, s)
    requires AtTheCap(c, n, t0, ls, s, first, elapsed)
    ensures AllBack(c, n, r)
    ensures AtTheCap(c, n, t0, more, r, first, elapsed + c.resetTimeout)
  {
    var again;
    again, r := NextBurst(c, n, s);
    more := ls + again;
    RunAppend(c, Start(FRESH_BREAKER, n, t0), ls, again);
    AppendFails(ls, again);
    assert LeakCap(c, n, elapsed + c.resetTimeout) == LeakCap(c, n, elapsed) + n;
  }

  /** The cap of LeakBound is reached in every period: by any time after the first opening a run of failing
      actions can have started exactly as many as the cap allows. */
  lemma {:induction false} LeakCapIsReached(c: Config, n: nat, t0: Instant, elapsed: nat)
    returns (ls: seq<Label>, r: Sys, first: Instant)
    requires Positive(c) && n > 0
    ensures AtTheCap(c, n, t0, ls, r, first, elapsed) && AllBack(c, n, r)
    decreases elapsed
  {
    if elapsed < c.resetTimeout {
      ls, r := FirstBurst(c, n, t0);
      first := r.now;
    } else {
      var before, s;
      before, s, first := LeakCapIsReached(c, n, t0, elapsed - c.resetTimeout);
      ls, r := OneMoreBurst(c, n, t0, before, s, first, elapsed - c.resetTimeout);
    }
  }
}
