/** The breaker as a function of what it has shown: under any interleaving the trace alone tells the state, the
    failure count, the last failure and what every caller is doing, and hence what each step shows. */
module Histories {
  import opened Basics
  import opened Snapshots
  import opened Breakers
  import opened Concurrency
  import opened Invariants

  // ---------------------------------------------------------------- reading a trace

  /** The state last entered. */
  function StateAfter(trace: seq<Obs>): State {
    if trace == [] then Closed
    else if trace[|trace| - 1].entered.Some? then trace[|trace| - 1].entered.value
    else StateAfter(trace[..|trace| - 1])
  }

  /** The instant of the last entry into Open since the last reset; the zero time if there is none. */
  function LastOpening(trace: seq<Obs>): Instant {
    if trace == [] || trace[|trace| - 1].what.ResetDone? then ZERO_TIME
    else if trace[|trace| - 1].entered == Some(Open) then trace[|trace| - 1].at
    else LastOpening(trace[..|trace| - 1])
  }

  /** What caller i is doing, by the last thing seen of it. */
  function CallerAfter(trace: seq<Obs>, i: nat): PC {
    if trace == [] then Idle
    else
      match trace[|trace| - 1].what
      case Admitted(k, half) =>
        if k == i then (if half then RunningHalfOpen else RunningClosed) else CallerAfter(trace[..|trace| - 1], i)
      case Held(k) => if k == i then HoldingOpen else CallerAfter(trace[..|trace| - 1], i)
      case Rejected(k) => if k == i then Idle else CallerAfter(trace[..|trace| - 1], i)
      case Finished(k, _, _) => if k == i then Idle else CallerAfter(trace[..|trace| - 1], i)
      case Answered(_) => CallerAfter(trace[..|trace| - 1], i)
      case ResetDone => CallerAfter(trace[..|trace| - 1], i)
  }

  /** Step k entered Open, and neither a reset nor another entry into Open came after it. */
  predicate IsLastOpening(trace: seq<Obs>, k: nat) {
    && k < |trace| && trace[k].entered == Some(Open)
    && forall j | k < j < |trace| :: !trace[j].what.ResetDone? && trace[j].entered != Some(Open)
  }

  // ---------------------------------------------------------------- the last failure

  lemma {:induction false} StepDates(c: Config, m: Sys, l: Label, o: Obs)
    requires Enabled(m, l) && Step(c, m, l).trace == m.trace + [o]
    ensures Step(c, m, l).b.lastFailure ==
            if o.what.ResetDone? then ZERO_TIME else if o.entered == Some(Open) then o.at else m.b.lastFailure
    ensures o.what.ResetDone? ==> o.entered == Some(Closed)
  {
    assert o == Step(c, m, l).trace[|m.trace|];
  }

  lemma {:induction false} IsLastOpeningStep(trace: seq<Obs>, o: Obs, k: nat)
    requires o.what.ResetDone? ==> o.entered != Some(Open)
    ensures IsLastOpening(trace + [o], k) <==>
            if o.entered == Some(Open) then k == |trace| else !o.what.ResetDone? && IsLastOpening(trace, k)
  {
    var longer := trace + [o];
    assert longer[|trace|] == o;
    assert forall j | 0 <= j < |trace| :: longer[j] == trace[j];
  }

  /** Under any interleaving the breaker's last failure is the instant of the last entry into Open since the last
      reset, and the zero time if there is none. */
  lemma {:induction false} LastFailureIsHistory(c: Config, n: nat, t0: Instant, ls: seq<Label>)
    requires Run(c, Start(FRESH_BREAKER, n, t0), ls).Some?
    ensures var s := Run(c, Start(FRESH_BREAKER, n, t0), ls).value;
            && (forall k: nat | IsLastOpening(s.trace, k) :: s.b.lastFailure == s.trace[k].at)
            && (s.b.lastFailure == ZERO_TIME || exists k: nat :: IsLastOpening(s.trace, k))
  {
    if ls != [] {
      var init, m, l := RunSplit(c, Start(FRESH_BREAKER, n, t0), ls);
      LastFailureIsHistory(c, n, t0, init);
      var o := StepTrace(c, m, l);
      StepDates(c, m, l, o);
      forall k: nat
        ensures IsLastOpening(m.trace + [o], k) <==>
                if o.entered == Some(Open) then k == |m.trace| else !o.what.ResetDone? && IsLastOpening(m.trace, k)
      {
        IsLastOpeningStep(m.trace, o, k);
      }
      assert o.entered == Some(Open) ==> IsLastOpening(m.trace + [o], |m.trace|);
      if k: nat :| IsLastOpening(m.trace, k) {
        assert o.entered != Some(Open) && !o.what.ResetDone? ==> IsLastOpening(m.trace + [o], k);
      }
    }
  }

  // ---------------------------------------------------------------- every step explained

  /** What a step by label l must show after the history h: the whole behaviour of the breaker, in terms of what
      has been seen of it. */
  predicate Explained(c: Config, h: seq<Obs>, l: Label, o: Obs) {
    var timedOut := l.at - LastOpening(h) >= c.resetTimeout;
    && o.at == l.at
    && match l.act
       case Fetch(i) =>
         && o.entered == None
         && o.what == (match StateAfter(h)
                       case Closed => Admitted(i, false)
                       case Open => Held(i)
                       case HalfOpen => Admitted(i, true))
       case CheckOpen(i) =>
         if timedOut then o == Obs(l.at, Admitted(i, true), Some(HalfOpen)) else o == Obs(l.at, Rejected(i), None)
       case Complete(i, outcome) =>
         var half := CallerAfter(h, i) == RunningHalfOpen;
         && o.what == Finished(i, half, outcome)
         && o.entered ==
            (match outcome
             case Panicked => None
             case Succeeded => if half then Some(Closed) else None
             case Failed => if half || |LiveFailures(h)| + 1 >= c.failureThreshold then Some(Open) else None)
       case Poll =>
         if StateAfter(h) == Open && timedOut then o == Obs(l.at, Answered(HalfOpen), Some(HalfOpen))
         else o == Obs(l.at, Answered(StateAfter(h)), None)
       case Reset => o == Obs(l.at, ResetDone, Some(Closed))
  }

  /** The system is where its trace says. */
  predicate Told(s: Sys) {
    && s.b.state == StateAfter(s.trace)
    && s.b.lastFailure == LastOpening(s.trace)
    && s.b.failureCount == |LiveFailures(s.trace)|
    && forall i | 0 <= i < |s.pcs| :: s.pcs[i] == CallerAfter(s.trace, i)
  }

  lemma {:induction false} ToldIsExplained(c: Config, m: Sys, l: Label, o: Obs)
    requires Positive(c) && Enabled(m, l) && Told(m) && Step(c, m, l).trace == m.trace + [o]
    ensures Explained(c, m.trace, l, o)
  {
    assert o == Step(c, m, l).trace[|m.trace|];
    ExpiredMeansElapsed(c, m.b, l.at);
  }

  lemma {:induction false} StepStates(c: Config, m: Sys, l: Label, o: Obs)
    requires Enabled(m, l) && Step(c, m, l).trace == m.trace + [o]
    ensures Step(c, m, l).b.state == if o.entered.Some? then o.entered.value else m.b.state
    ensures |Step(c, m, l).pcs| == |m.pcs|
    ensures forall i: nat | i < |m.pcs| ::
              Step(c, m, l).pcs[i] ==
              match o.what
              case Admitted(k, half) => if k == i then (if half then RunningHalfOpen else RunningClosed) else m.pcs[i]
              case Held(k) => if k == i then HoldingOpen else m.pcs[i]
              case Rejected(k) => if k == i then Idle else m.pcs[i]
              case Finished(k, _, _) => if k == i then Idle else m.pcs[i]
              case Answered(_) => m.pcs[i]
              case ResetDone => m.pcs[i]
  {
    assert o == Step(c, m, l).trace[|m.trace|];
  }

  lemma {:induction false} StaysTold(c: Config, m: Sys, l: Label)
    requires Positive(c) && Enabled(m, l) && Told(m)
    ensures Told(Step(c, m, l))
  {
    var o := StepCounts(c, m, l);
    LiveFailuresStep(m.trace, o);
    StepDates(c, m, l, o);
    StepStates(c, m, l, o);
    assert (m.trace + [o])[..|m.trace|] == m.trace;
  }

  /** Under any interleaving the trace tells where the system is. */
  lemma {:induction false} TraceTellsAll(c: Config, n: nat, t0: Instant, ls: seq<Label>)
    requires Positive(c) && Run(c, Start(FRESH_BREAKER, n, t0), ls).Some?
    ensures Told(Run(c, Start(FRESH_BREAKER, n, t0), ls).value)
  {
    if ls != [] {
      var init, m, l := RunSplit(c, Start(FRESH_BREAKER, n, t0), ls);
      TraceTellsAll(c, n, t0, init);
      StaysTold(c, m, l);
    }
  }

  /** And what every step of every run shows follows from the trace before it. */
  lemma {:induction false} EveryStepIsExplained(c: Config, n: nat, t0: Instant, ls: seq<Label>, k: nat)
    requires Positive(c) && Run(c, Start(FRESH_BREAKER, n, t0), ls).Some? && k < |ls|
    ensures var trace := Run(c, Start(FRESH_BREAKER, n, t0), ls).value.trace;
            |trace| == |ls| && Explained(c, trace[..k], ls[k], trace[k])
  {
    var trace := Run(c, Start(FRESH_BREAKER, n, t0), ls).value.trace;
    var m := Before(c, Start(FRESH_BREAKER, n, t0), ls, trace, k);
    TraceTellsAll(c, n, t0, ls[..k]);
    ToldIsExplained(c, m, ls[k], trace[k]);
  }

  /** The system before step k, whose trace is what had been seen by then. */
  lemma {:induction false} Before(c: Config, s: Sys, ls: seq<Label>, trace: seq<Obs>, k: nat) returns (m: Sys)
    requires Run(c, s, ls).Some? && s.trace == [] && trace == Run(c, s, ls).value.trace && k < |ls|
    ensures |trace| == |ls| && m.trace == trace[..k]
    ensures Run(c, s, ls[..k]) == Some(m) && Enabled(m, ls[k]) && Step(c, m, ls[k]).trace == m.trace + [trace[k]]
  {
    var l, o;
    m, l, o := StepAt(c, s, ls, k);
    RunPrefix(c, s, ls, k);
  }

  // ---------------------------------------------------------------- after a reset

  lemma {:induction false} NothingSinceReset(trace: seq<Obs>, p: nat)
    requires p < |trace| && trace[p].what.ResetDone?
    requires forall j | p < j < |trace| :: trace[j].entered != Some(Open)
    ensures LastOpening(trace) == ZERO_TIME
  {
    if p + 1 < |trace| && !trace[|trace| - 1].what.ResetDone? {
      NothingSinceReset(trace[..|trace| - 1], p);
    }
  }

  /** A reset forgets when the breaker opened: a caller that fetched Open before it, or after it by then, and
      checks the clock before the breaker opens again is let in as a probe, at any instant at least a timeout
      after the zero time, as those of a real clock are. */
  lemma {:induction false} ResetLetsHoldersIn(c: Config, n: nat, t0: Instant, ls: seq<Label>, p: nat, q: nat)
    requires Positive(c) && Run(c, Start(FRESH_BREAKER, n, t0), ls).Some?
    requires p < q < |ls| == |Run(c, Start(FRESH_BREAKER, n, t0), ls).value.trace|
    requires var trace := Run(c, Start(FRESH_BREAKER, n, t0), ls).value.trace;
             trace[p].what.ResetDone? && forall j | p < j < q :: trace[j].entered != Some(Open)
    requires ls[q].act.CheckOpen? && ls[q].at >= c.resetTimeout
    ensures var o := Run(c, Start(FRESH_BREAKER, n, t0), ls).value.trace[q];
            o.what == Admitted(ls[q].act.i, true) && o.entered == Some(HalfOpen)
  {
    var trace := Run(c, Start(FRESH_BREAKER, n, t0), ls).value.trace;
    EveryStepIsExplained(c, n, t0, ls, q);
    NothingSinceReset(trace[..q], p);
  }
}
