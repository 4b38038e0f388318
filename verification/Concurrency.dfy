/** N callers sharing one breaker. A step is one critical section, or an action that panics;
    between steps anything else may happen, so a caller can come back to a breaker that has moved on. */
module Concurrency {
  import opened Basics
  import opened Snapshots
  import opened Breakers

  datatype PC = Idle | HoldingOpen | RunningClosed | RunningHalfOpen

  datatype Act =
    | Fetch(i: nat)
    | CheckOpen(i: nat)
    | Complete(i: nat, outcome: Outcome)
    | Poll
    | Reset

  datatype Label = Label(at: Instant, act: Act)

  /** What a step shows: `half` tells a probe from a call that fetched Closed. */
  datatype What =
    | Admitted(caller: nat, half: bool)
    | Held(caller: nat)
    | Rejected(caller: nat)
    | Finished(caller: nat, half: bool, outcome: Outcome)
    | Answered(state: State)
    | ResetDone

  /** `entered` is the state the step moved the breaker into, if it made a transition. */
  datatype Obs = Obs(at: Instant, what: What, entered: Option<State>)

  datatype Sys = Sys(b: Breaker, pcs: seq<PC>, now: Instant, trace: seq<Obs>)

  /** n idle callers around a breaker at instant t. */
  function Start(b: Breaker, n: nat, t: Instant): Sys {
    Sys(b, seq(n, _ => Idle), t, [])
  }

  predicate Running(pc: PC) {
    pc == RunningClosed || pc == RunningHalfOpen
  }

  predicate Enabled(s: Sys, l: Label) {
    && s.now <= l.at
    && match l.act
       case Fetch(i) => i < |s.pcs| && s.pcs[i] == Idle
       case CheckOpen(i) => i < |s.pcs| && s.pcs[i] == HoldingOpen
       case Complete(i, _) => i < |s.pcs| && Running(s.pcs[i])
       case Poll => true
       case Reset => true
  }

  function Record(s: Sys, at: Instant, b: Breaker, pcs: seq<PC>, what: What): Sys {
    var entered := if |b.published| > |s.b.published| then Some(b.state) else None;
    Sys(b, pcs, at, s.trace + [Obs(at, what, entered)])
  }

  function Step(c: Config, s: Sys, l: Label): Sys
    requires Enabled(s, l)
  {
    match l.act
    case Fetch(i) =>
      (match s.b.state
       case Closed => Record(s, l.at, s.b, s.pcs[i := RunningClosed], Admitted(i, false))
       case Open => Record(s, l.at, s.b, s.pcs[i := HoldingOpen], Held(i))
       case HalfOpen => Record(s, l.at, s.b, s.pcs[i := RunningHalfOpen], Admitted(i, true)))
    case CheckOpen(i) =>
      var (b, admitted) := OpenCheck(c, s.b, l.at);
      if admitted then Record(s, l.at, b, s.pcs[i := RunningHalfOpen], Admitted(i, true))
      else Record(s, l.at, b, s.pcs[i := Idle], Rejected(i))
    case Complete(i, o) =>
      var half := s.pcs[i] == RunningHalfOpen;
      var b :=
        if o == Panicked then s.b
        else if half then HalfOpenDone(c, s.b, o == Failed, l.at)
        else ClosedDone(c, s.b, o == Failed, l.at);
      Record(s, l.at, b, s.pcs[i := Idle], Finished(i, half, o))
    case Poll =>
      var b := Polled(c, s.b, l.at);
      Record(s, l.at, b, s.pcs, Answered(b.state))
    case Reset => Record(s, l.at, WasReset(c, s.b, l.at), s.pcs, ResetDone)
  }

  lemma {:induction false} StepTrace(c: Config, s: Sys, l: Label) returns (o: Obs)
    requires Enabled(s, l)
    ensures Step(c, s, l).trace == s.trace + [o] && o.at == l.at == Step(c, s, l).now
  {
    o := Step(c, s, l).trace[|s.trace|];
  }

  /** The system after a sequence of steps; None if some step was not possible. */
  function Run(c: Config, s: Sys, ls: seq<Label>): Option<Sys> {
    if ls == [] then Some(s)
    else match Run(c, s, ls[..|ls| - 1])
      case None => None
      case Some(m) => if Enabled(m, ls[|ls| - 1]) then Some(Step(c, m, ls[|ls| - 1])) else None
  }

  /** Everything but the last step, and the last step. */
  lemma {:induction false} RunSplit(c: Config, s: Sys, ls: seq<Label>) returns (init: seq<Label>, m: Sys, l: Label)
    requires ls != [] && Run(c, s, ls).Some?
    ensures ls == init + [l] && Run(c, s, init) == Some(m)
    ensures Enabled(m, l) && Run(c, s, ls) == Some(Step(c, m, l))
  {
    init, l := ls[..|ls| - 1], ls[|ls| - 1];
    m := Run(c, s, init).value;
  }

  lemma {:induction false} RunShape(c: Config, s: Sys, ls: seq<Label>)
    requires Run(c, s, ls).Some?
    ensures |Run(c, s, ls).value.trace| == |s.trace| + |ls|
    ensures |Run(c, s, ls).value.pcs| == |s.pcs|
  {
    if ls != [] {
      var init, m, l := RunSplit(c, s, ls);
      RunShape(c, s, init);
    }
  }

  /** A prefix of a run is a run, and its trace is the matching prefix of the trace. */
  lemma {:induction false} RunPrefix(c: Config, s: Sys, ls: seq<Label>, k: nat)
    requires k <= |ls| && Run(c, s, ls).Some?
    ensures Run(c, s, ls[..k]).Some?
    ensures |Run(c, s, ls).value.trace| == |s.trace| + |ls|
    ensures Run(c, s, ls[..k]).value.trace == Run(c, s, ls).value.trace[..|s.trace| + k]
    ensures Run(c, s, ls[..k]).value.now <= Run(c, s, ls).value.now
    ensures |Run(c, s, ls).value.pcs| == |s.pcs|
  {
    RunShape(c, s, ls);
    if k == |ls| {
      assert ls[..k] == ls;
    } else {
      var init, m, l := RunSplit(c, s, ls);
      assert ls[..k] == init[..k];
      RunPrefix(c, s, init, k);
      var o := StepTrace(c, m, l);
    }
  }

  /** Step k of a run: the system before it, its label, and what it showed. */
  lemma {:induction false} StepAt(c: Config, s: Sys, ls: seq<Label>, k: nat) returns (m: Sys, l: Label, o: Obs)
    requires Run(c, s, ls).Some? && s.trace == [] && k < |ls|
    ensures |Run(c, s, ls).value.trace| == |ls| && o == Run(c, s, ls).value.trace[k] && l == ls[k]
    ensures Run(c, s, ls[..k]) == Some(m) && Enabled(m, l) && Run(c, s, ls[..k + 1]) == Some(Step(c, m, l))
    ensures Step(c, m, l).trace == m.trace + [o] && |m.trace| == k && |m.pcs| == |s.pcs|
    ensures Step(c, m, l).now == o.at
  {
    RunPrefix(c, s, ls, k);
    RunPrefix(c, s, ls, k + 1);
    assert ls[..k + 1][..k] == ls[..k];
    var init;
    init, m, l := RunSplit(c, s, ls[..k + 1]);
    RunPrefix(c, s, init, k);
    o := StepTrace(c, m, l);
    assert (m.trace + [o])[k] == Run(c, s, ls).value.trace[..k + 1][k];
  }

  /** Runs compose. */
  lemma {:induction false} RunAppend(c: Config, s: Sys, xs: seq<Label>, ys: seq<Label>)
    requires Run(c, s, xs).Some?
    ensures Run(c, s, xs + ys) == Run(c, Run(c, s, xs).value, ys)
  {
    if ys == [] {
      assert xs + ys == xs;
    } else {
      var init := ys[..|ys| - 1];
      assert (xs + ys)[..|xs + ys| - 1] == xs + init;
      RunAppend(c, s, xs, init);
    }
  }

  // ---------------------------------------------------------------- counting callers

  function Count(pcs: seq<PC>, which: set<PC>): nat {
    if pcs == [] then 0 else Count(pcs[1..], which) + if pcs[0] in which then 1 else 0
  }

  lemma {:induction false} CountUpdate(pcs: seq<PC>, which: set<PC>, i: nat, pc: PC)
    requires i < |pcs|
    ensures Count(pcs[i := pc], which) ==
            Count(pcs, which) - (if pcs[i] in which then 1 else 0) + (if pc in which then 1 else 0)
  {
    if i == 0 {
      assert pcs[i := pc][1..] == pcs[1..];
    } else {
      assert pcs[i := pc][1..] == pcs[1..][i - 1 := pc];
      CountUpdate(pcs[1..], which, i - 1, pc);
    }
  }

  lemma {:induction false} CountBound(pcs: seq<PC>, which: set<PC>)
    ensures Count(pcs, which) <= |pcs|
    ensures (forall pc | pc in pcs :: pc !in which) ==> Count(pcs, which) == 0
  {
    if pcs != [] {
      CountBound(pcs[1..], which);
    }
  }
}
