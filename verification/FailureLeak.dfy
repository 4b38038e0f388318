/** How many failing actions can get through a breaker, under any interleaving of its callers. */
module FailureLeak {
  import opened Basics
  import opened Snapshots
  import opened Breakers
  import opened Concurrency
  import opened Invariants

  const RUNNING: set<PC> := {RunningClosed, RunningHalfOpen}

  /** Every action that comes back has failed, and nobody resets the breaker; `State()` is allowed. */
  predicate AllFailing(ls: seq<Label>) {
    forall k | 0 <= k < |ls| :: !ls[k].act.Reset? && (ls[k].act.Complete? ==> ls[k].act.outcome == Failed)
  }

  /** Actions started so far. */
  function Starts(trace: seq<Obs>): nat {
    if trace == [] then 0
    else Starts(trace[..|trace| - 1]) + if trace[|trace| - 1].what.Admitted? then 1 else 0
  }

  /** Actions started since the breaker last entered Open. */
  function StartsSinceOpening(trace: seq<Obs>): nat {
    if trace == [] || trace[|trace| - 1].entered == Some(Open) then 0
    else StartsSinceOpening(trace[..|trace| - 1]) + if trace[|trace| - 1].what.Admitted? then 1 else 0
  }

  /** When the breaker first entered Open. */
  function FirstOpening(trace: seq<Obs>): Option<Instant> {
    if trace == [] then None
    else
      var earlier := FirstOpening(trace[..|trace| - 1]);
      if earlier.Some? then earlier
      else if trace[|trace| - 1].entered == Some(Open) then Some(trace[|trace| - 1].at)
      else None
  }

  /** FirstOpening is the time of the first entry into Open, if there is one. */
  lemma {:induction false} FirstOpeningMeaning(trace: seq<Obs>)
    ensures FirstOpening(trace) == None <==> forall k | 0 <= k < |trace| :: trace[k].entered != Some(Open)
    ensures FirstOpening(trace).Some? ==>
              exists k | 0 <= k < |trace| ::
                && trace[k].entered == Some(Open) && trace[k].at == FirstOpening(trace).value
                && forall j | 0 <= j < k :: trace[j].entered != Some(Open)
  {
    if trace != [] {
      var init := trace[..|trace| - 1];
      FirstOpeningMeaning(init);
      assert forall j | 0 <= j < |init| :: init[j] == trace[j];
      if k :| 0 <= k < |init| && init[k].entered == Some(Open) && Some(init[k].at) == FirstOpening(init)
              && forall j | 0 <= j < k :: init[j].entered != Some(Open) {
        assert trace[k].entered == Some(Open);
      }
    }
  }

  // Before the first opening every start has been counted or is still running.
  predicate Filling(c: Config, s: Sys) {
    && s.b.state == Closed
    && 0 <= s.b.failureCount < c.failureThreshold
    && s.b.failureCount + Count(s.pcs, RUNNING) == Starts(s.trace)
    && forall k | 0 <= k < |s.pcs| :: s.pcs[k] == Idle || s.pcs[k] == RunningClosed
  }

  // After it, every completion re-opens the breaker, so starts come in bursts of at most one per caller,
  // each burst at least resetTimeout after the opening before it.
  predicate Bursting(c: Config, s: Sys, first: Instant)
    requires Positive(c)
  {
    var last := s.b.lastFailure;
    && s.b.state != Closed
    && c.failureThreshold <= s.b.failureCount
    && first <= last <= s.now
    && (s.b.state == HalfOpen || StartsSinceOpening(s.trace) > 0 ==> s.now - last >= c.resetTimeout)
    && StartsSinceOpening(s.trace) <= Count(s.pcs, RUNNING)
    && Starts(s.trace) <=
       c.failureThreshold - 1 + |s.pcs| + Allowance(last - first, c.resetTimeout, |s.pcs|) + StartsSinceOpening(s.trace)
  }

  /** n for every whole period r that fits into d. */
  function Allowance(d: nat, r: nat, n: nat): nat
    requires r > 0
  {
    if d < r then 0 else n + Allowance(d - r, r, n)
  }

  lemma {:induction false} AllowanceGrows(d: nat, e: nat, r: nat, n: nat)
    requires r > 0 && d <= e
    ensures Allowance(d, r, n) <= Allowance(e, r, n)
    ensures d + r <= e ==> Allowance(d, r, n) + n <= Allowance(e, r, n)
  {
    if d >= r {
      AllowanceGrows(d - r, e - r, r, n);
    } else if d + r <= e {
      assert Allowance(e, r, n) == n + Allowance(e - r, r, n);
    }
  }

  lemma {:induction false} AllowanceOfPeriods(q: nat, rest: nat, r: nat, n: nat)
    requires rest < r
    ensures q * r >= 0 && Allowance(q * r + rest, r, n) == n * q
  {
    if q > 0 {
      AllowanceOfPeriods(q - 1, rest, r, n);
      assert q * r == (q - 1) * r + r;
      assert n * q == n * (q - 1) + n;
    }
  }

  lemma {:induction false} AllowanceIsProduct(d: nat, r: nat, n: nat)
    requires r > 0
    ensures Allowance(d, r, n) == n * (d / r)
  {
    var q, rest := d / r, d % r;
    assert d == q * r + rest;
    AllowanceOfPeriods(q, rest, r, n);
  }

  lemma {:induction false} TraceStep(c: Config, m: Sys, l: Label) returns (o: Obs)
    requires Enabled(m, l)
    ensures var s := Step(c, m, l);
            && s.trace == m.trace + [o] && o == s.trace[|m.trace|]
            && Starts(s.trace) == Starts(m.trace) + (if o.what.Admitted? then 1 else 0)
            && StartsSinceOpening(s.trace) ==
               (if o.entered == Some(Open) then 0
                else StartsSinceOpening(m.trace) + if o.what.Admitted? then 1 else 0)
            && FirstOpening(s.trace) ==
               (if FirstOpening(m.trace) == None && o.entered == Some(Open) then Some(l.at)
                else FirstOpening(m.trace))
  {
    o := StepTrace(c, m, l);
    assert (m.trace + [o])[..|m.trace|] == m.trace;
  }

  lemma {:induction false} CountStep(c: Config, m: Sys, l: Label)
    requires Enabled(m, l)
    ensures Count(Step(c, m, l).pcs, RUNNING) ==
            Count(m.pcs, RUNNING)
            + (if Step(c, m, l).trace[|m.trace|].what.Admitted? then 1 else 0)
            - (if l.act.Complete? then 1 else 0)
    ensures Count(Step(c, m, l).pcs, RUNNING) <= |m.pcs|
  {
    CountBound(Step(c, m, l).pcs, RUNNING);
    if !l.act.Poll? && !l.act.Reset? {
      CountUpdate(m.pcs, RUNNING, l.act.i, Step(c, m, l).pcs[l.act.i]);
    }
  }

  /** While Closed a failing completion is counted, and the one that reaches the threshold opens. */
  lemma {:induction false} CompletionFills(c: Config, m: Sys, l: Label)
    requires Positive(c) && Enabled(m, l) && l.act.Complete? && l.act.outcome == Failed
    requires Filling(c, m)
    ensures var s := Step(c, m, l);
            && s.b.failureCount == m.b.failureCount + 1 && !s.trace[|m.trace|].what.Admitted?
            && (if s.b.failureCount < c.failureThreshold then s.b.state == Closed && s.trace[|m.trace|].entered == None
                else s.b.state == Open && s.b.lastFailure == l.at && s.trace[|m.trace|].entered == Some(Open))
            && s.pcs == m.pcs[l.act.i := Idle] && s.now == l.at
  {
    assert m.pcs[l.act.i] == RunningClosed;
  }

  lemma {:induction false} CompletionKeepsFilling(c: Config, m: Sys, l: Label)
    requires Positive(c) && Enabled(m, l) && l.act.Complete? && l.act.outcome == Failed
    requires Filling(c, m) && FirstOpening(m.trace) == None
    ensures var s := Step(c, m, l);
            match FirstOpening(s.trace)
            case None => Filling(c, s)
            case Some(first) => Bursting(c, s, first)
  {
    var o := TraceStep(c, m, l);
    CountStep(c, m, l);
    CountBound(m.pcs, RUNNING);
    CompletionFills(c, m, l);
  }

  lemma {:induction false} OthersKeepFilling(c: Config, m: Sys, l: Label)
    requires Positive(c) && Enabled(m, l) && (l.act.Fetch? || l.act.Poll?)
    requires Filling(c, m) && FirstOpening(m.trace) == None
    ensures Filling(c, Step(c, m, l)) && FirstOpening(Step(c, m, l).trace) == None
  {
    var o := TraceStep(c, m, l);
    CountStep(c, m, l);
  }

  lemma {:induction false} StepFilling(c: Config, m: Sys, l: Label)
    requires Positive(c) && Enabled(m, l) && AllFailing([l])
    requires Filling(c, m) && FirstOpening(m.trace) == None
    ensures var s := Step(c, m, l);
            match FirstOpening(s.trace)
            case None => Filling(c, s)
            case Some(first) => Bursting(c, s, first)
  {
    assert [l][0] == l;
    if l.act.Complete? {
      CompletionKeepsFilling(c, m, l);
    } else {
      OthersKeepFilling(c, m, l);
    }
  }

  lemma CompletionReopens(c: Config, m: Sys, l: Label)
    requires Enabled(m, l) && l.act.Complete? && l.act.outcome == Failed
    requires m.b.failureCount >= c.failureThreshold
    ensures var s := Step(c, m, l);
            && s.b.state == Open && s.b.lastFailure == l.at && s.b.failureCount >= c.failureThreshold
            && s.trace[|m.trace|].entered == Some(Open) && !s.trace[|m.trace|].what.Admitted?
  {
  }

  lemma {:induction false} OthersWait(c: Config, m: Sys, l: Label)
    requires Positive(c) && Enabled(m, l) && !l.act.Complete? && !l.act.Reset?
    requires m.b.state != Closed
    ensures var s := Step(c, m, l);
            && s.b.state != Closed && s.b.lastFailure == m.b.lastFailure && s.b.failureCount == m.b.failureCount
            && s.trace[|m.trace|].entered != Some(Open)
            && (s.b.state == HalfOpen || s.trace[|m.trace|].what.Admitted? ==>
                  m.b.state == HalfOpen || l.at - m.b.lastFailure >= c.resetTimeout)
  {
    ExpiredMeansElapsed(c, m.b, l.at);
  }

  lemma {:induction false} CompletionKeepsBursting(c: Config, m: Sys, l: Label, first: Instant)
    requires Positive(c) && Enabled(m, l) && l.act.Complete? && l.act.outcome == Failed
    requires Bursting(c, m, first)
    ensures Bursting(c, Step(c, m, l), first)
  {
    var s := Step(c, m, l);
    var o := TraceStep(c, m, l);
    CompletionReopens(c, m, l);
    CountBound(m.pcs, RUNNING);
    AllowanceGrows(m.b.lastFailure - first, l.at - first, c.resetTimeout, |m.pcs|);
    assert StartsSinceOpening(s.trace) == 0 && Starts(s.trace) == Starts(m.trace);
    assert s.now == l.at && |s.pcs| == |m.pcs|;
  }

  lemma {:induction false} OthersKeepBursting(c: Config, m: Sys, l: Label, first: Instant)
    requires Positive(c) && Enabled(m, l) && !l.act.Complete? && !l.act.Reset?
    requires Bursting(c, m, first)
    ensures Bursting(c, Step(c, m, l), first)
  {
    var s := Step(c, m, l);
    var o := TraceStep(c, m, l);
    OthersWait(c, m, l);
    CountStep(c, m, l);
    assert s.now == l.at && |s.pcs| == |m.pcs|;
  }

  lemma {:induction false} StepBursting(c: Config, m: Sys, l: Label, first: Instant)
    requires Positive(c) && Enabled(m, l) && AllFailing([l])
    requires Bursting(c, m, first)
    ensures Bursting(c, Step(c, m, l), first)
  {
    assert [l][0] == l;
    if l.act.Complete? {
      CompletionKeepsBursting(c, m, l, first);
    } else {
      OthersKeepBursting(c, m, l, first);
    }
  }

  /** Filling before the first opening, bursting after it. */
  predicate Leaking(c: Config, n: nat, s: Sys)
    requires Positive(c)
  {
    && |s.pcs| == n
    && match FirstOpening(s.trace)
       case None => Filling(c, s)
       case Some(first) => Bursting(c, s, first)
  }

  lemma {:induction false} StepLeaking(c: Config, n: nat, m: Sys, l: Label)
    requires Positive(c) && Enabled(m, l) && AllFailing([l]) && Leaking(c, n, m)
    ensures Leaking(c, n, Step(c, m, l))
  {
    var o := TraceStep(c, m, l);
    StepEmits(c, m, l);
    if FirstOpening(m.trace) == None {
      StepFilling(c, m, l);
    } else {
      StepBursting(c, m, l, FirstOpening(m.trace).value);
    }
  }

  lemma {:induction false} RunLeaks(c: Config, n: nat, t0: Instant, ls: seq<Label>)
    requires Positive(c) && AllFailing(ls)
    requires Run(c, Start(FRESH_BREAKER, n, t0), ls).Some?
    ensures Leaking(c, n, Run(c, Start(FRESH_BREAKER, n, t0), ls).value)
  {
    if ls == [] {
      CountBound(Start(FRESH_BREAKER, n, t0).pcs, RUNNING);
    } else {
      var init, m, l := RunSplit(c, Start(FRESH_BREAKER, n, t0), ls);
      RunLeaks(c, n, t0, init);
      assert l == ls[|ls| - 1];
      StepLeaking(c, n, m, l);
    }
  }

  /** threshold - 1 + n, and n more for every whole resetTimeout that has elapsed. */
  function LeakCap(c: Config, n: nat, elapsed: nat): int
    requires Positive(c)
  {
    c.failureThreshold - 1 + n + Allowance(elapsed, c.resetTimeout, n)
  }

  /** In closed form, threshold - 1 + n * (1 + floor(elapsed / resetTimeout)). */
  lemma {:induction false} LeakCapClosedForm(c: Config, n: nat, elapsed: nat)
    requires Positive(c)
    ensures LeakCap(c, n, elapsed) == c.failureThreshold - 1 + n * (1 + elapsed / c.resetTimeout)
  {
    AllowanceIsProduct(elapsed, c.resetTimeout, n);
    Distribute(n, elapsed / c.resetTimeout);
  }

  lemma Distribute(n: nat, q: nat)
    ensures n * (1 + q) == n + n * q
  {
  }

  lemma {:induction false} BurstingBound(c: Config, s: Sys, first: Instant, t: Instant)
    requires Positive(c) && Bursting(c, s, first) && s.now <= t
    ensures first <= t && Starts(s.trace) <= LeakCap(c, |s.pcs|, t - first)
  {
    CountBound(s.pcs, RUNNING);
    AllowanceGrows(s.b.lastFailure - first, t - first, c.resetTimeout, |s.pcs|);
  }

  /** At most threshold - 1 + n starts before the first opening, and at most LeakCap by any time t after it. */
  predicate WithinLeakCap(c: Config, n: nat, trace: seq<Obs>, t: Instant)
    requires Positive(c)
  {
    match FirstOpening(trace)
    case None => Starts(trace) <= c.failureThreshold - 1 + n
    case Some(first) => first <= t && Starts(trace) <= LeakCap(c, n, t - first)
  }

  lemma {:induction false} LeakingIsCapped(c: Config, n: nat, s: Sys, t: Instant)
    requires Positive(c) && Leaking(c, n, s) && s.now <= t
    ensures WithinLeakCap(c, n, s.trace, t)
  {
    match FirstOpening(s.trace)
    case None => CountBound(s.pcs, RUNNING);
    case Some(first) => BurstingBound(c, s, first, t);
  }

  /** With every action failing and no reset, a fresh breaker with n callers starts at most
      threshold - 1 + n actions before it first opens, at T0, and by any time t after that at most
      threshold - 1 + n * (1 + floor((t - T0) / resetTimeout)). */
  lemma {:induction false} LeakBound(c: Config, n: nat, t0: Instant, ls: seq<Label>, t: Instant)
    requires Positive(c) && AllFailing(ls)
    requires Run(c, Start(FRESH_BREAKER, n, t0), ls).Some?
    requires Run(c, Start(FRESH_BREAKER, n, t0), ls).value.now <= t
    ensures WithinLeakCap(c, n, Run(c, Start(FRESH_BREAKER, n, t0), ls).value.trace, t)
  {
    RunLeaks(c, n, t0, ls);
    LeakingIsCapped(c, n, Run(c, Start(FRESH_BREAKER, n, t0), ls).value, t);
  }
}
