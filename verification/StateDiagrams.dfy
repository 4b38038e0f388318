/** The state diagram under interleaving: the edges that stale callers add, and when there are none. */
module StateDiagrams {
  import opened Basics
  import opened Snapshots
  import opened Breakers
  import opened Concurrency
  import opened Sequential
  import opened NonOverlapping
  import opened FailureLeak
  import opened Extremes

  /** The transitions made so far. */
  function Edges(b: Breaker): seq<(State, State)> {
    seq(|b.published|, k requires 0 <= k < |b.published| => (b.published[k].from, b.published[k].to))
  }

  predicate OnDiagram(b: Breaker) {
    forall k | 0 <= k < |b.published| :: Diagram(b.published[k].from, b.published[k].to)
  }

  /** An admitted check finds the breaker no longer Open, a failure finds it Open already, or a probe's success
      or a reset finds it not HalfOpen. */
  predicate Stray(m: Sys, l: Label)
    requires Enabled(m, l)
  {
    match l.act
    case CheckOpen(_) => m.b.state != Open
    case Complete(i, Failed) => m.b.state == Open
    case Complete(i, _) => m.b.state != HalfOpen
    case Reset => m.b.state != HalfOpen
    case Fetch(_) => false
    case Poll => false
  }

  /** A step that makes a transition leaves the diagram exactly if it is a stray one. */
  lemma StepLeavesDiagramIff(c: Config, m: Sys, l: Label)
    requires Enabled(m, l)
    ensures var after := Step(c, m, l).b.published;
            && m.b.published <= after
            && (after != m.b.published ==>
                  var e := after[|after| - 1];
                  |after| == |m.b.published| + 1 && (Diagram(e.from, e.to) <==> !Stray(m, l)))
  {
  }

  // ---------------------------------------------------------------- who keeps to the diagram

  /** No reset, and queries only if `polls`. */
  predicate Undisturbed(ls: seq<Label>, polls: bool) {
    forall k | 0 <= k < |ls| :: !ls[k].act.Reset? && (ls[k].act.Poll? ==> polls)
  }

  ghost predicate KeepsDiagram(c: Config, n: nat, t0: Instant, polls: bool) {
    forall ls: seq<Label> {:induction false} |
      Undisturbed(ls, polls) && Run(c, Start(FRESH_BREAKER, n, t0), ls).Some? ::
      OnDiagram(Run(c, Start(FRESH_BREAKER, n, t0), ls).value.b)
  }

  /** At most one caller, who holds the current state; without callers nothing ever happens. */
  predicate InStep(s: Sys) {
    && OnDiagram(s.b) && |s.pcs| <= 1
    && (|s.pcs| == 0 ==> s.b.state == Closed)
    && forall i | 0 <= i < |s.pcs| :: s.pcs[i] == Idle || s.pcs[i] == Holds(s.b.state)
  }

  lemma StaysInStep(c: Config, m: Sys, l: Label)
    requires InStep(m) && Enabled(m, l) && !l.act.Reset? && (l.act.Poll? ==> |m.pcs| == 0)
    ensures InStep(Step(c, m, l))
  {
  }

  lemma {:induction false} RunsInStep(c: Config, n: nat, t0: Instant, polls: bool, ls: seq<Label>)
    requires n == 0 || (n == 1 && !polls)
    requires Undisturbed(ls, polls) && Run(c, Start(FRESH_BREAKER, n, t0), ls).Some?
    ensures InStep(Run(c, Start(FRESH_BREAKER, n, t0), ls).value)
  {
    if ls != [] {
      var init, m, l := RunSplit(c, Start(FRESH_BREAKER, n, t0), ls);
      assert l == ls[|ls| - 1] && forall k | 0 <= k < |init| :: init[k] == ls[k];
      RunsInStep(c, n, t0, polls, init);
      RunShape(c, Start(FRESH_BREAKER, n, t0), init);
      StaysInStep(c, m, l);
    }
  }

  // ---------------------------------------------------------------- a run through all nine edges

  /** An undisturbed run from s to r. */
  predicate Leads(c: Config, s: Sys, ls: seq<Label>, r: Sys) {
    Run(c, s, ls) == Some(r) && Undisturbed(ls, false)
  }

  lemma {:induction false} GoOn(c: Config, s: Sys, ls: seq<Label>, m: Sys, l: Label)
    requires Leads(c, s, ls, m) && Enabled(m, l) && !l.act.Reset? && !l.act.Poll?
    ensures Leads(c, s, ls + [l], Step(c, m, l))
  {
    RunMore(c, s, ls, l);
  }

  lemma {:induction false} Entering(c: Config, b: Breaker, to: State, now: Instant)
    ensures Edges(TransitionTo(c, b, to, now)) == Edges(b) + [(b.state, to)]
  {
  }

  lemma {:induction false} ThenFetch(c: Config, s: Sys, ls: seq<Label>, m: Sys, i: nat)
    returns (more: seq<Label>, r: Sys)
    requires Leads(c, s, ls, m) && i < |m.pcs| && m.pcs[i] == Idle
    ensures Leads(c, s, more, r)
    ensures r.b == m.b && r.now == m.now && r.pcs == m.pcs[i := Holds(m.b.state)]
  {
    r := FetchStep(c, m, i, m.now);
    GoOn(c, s, ls, m, Label(m.now, Fetch(i)));
    more := ls + [Label(m.now, Fetch(i))];
  }

  lemma {:induction false} LateCheck(c: Config, b: Breaker, at: Instant)
    requires Positive(c) && b.lastFailure + c.resetTimeout <= at
    ensures OpenCheck(c, b, at) == (TransitionTo(c, b, HalfOpen, at), true)
    ensures var r := OpenCheck(c, b, at).0;
            r.state == HalfOpen && r.lastFailure == b.lastFailure && Edges(r) == Edges(b) + [(b.state, HalfOpen)]
  {
    ExpiredMeansElapsed(c, b, at);
    Entering(c, b, HalfOpen, at);
  }

  lemma {:induction false} ThenProbe(c: Config, s: Sys, ls: seq<Label>, m: Sys, i: nat, at: Instant)
    returns (more: seq<Label>, r: Sys)
    requires Positive(c) && Leads(c, s, ls, m) && i < |m.pcs| && m.pcs[i] == HoldingOpen
    requires m.now <= at && m.b.lastFailure + c.resetTimeout <= at
    ensures Leads(c, s, more, r)
    ensures r.b.state == HalfOpen && r.b.lastFailure == m.b.lastFailure
    ensures r.now == at && r.pcs == m.pcs[i := RunningHalfOpen]
    ensures Edges(r.b) == Edges(m.b) + [(m.b.state, HalfOpen)]
  {
    LateCheck(c, m.b, at);
    r := ChecksClock(c, m, i, at);
    GoOn(c, s, ls, m, Label(at, CheckOpen(i)));
    more := ls + [Label(at, CheckOpen(i))];
  }

  lemma {:induction false} ThenDone(c: Config, s: Sys, ls: seq<Label>, m: Sys, i: nat, failed: bool)
    returns (more: seq<Label>, r: Sys)
    requires Leads(c, s, ls, m) && i < |m.pcs| && Running(m.pcs[i])
    requires m.pcs[i] == RunningClosed ==> failed && Full(c, m.b)
    ensures Leads(c, s, more, r)
    ensures r.b.state == if failed then Open else Closed
    ensures r.b.lastFailure == (if failed then m.now else m.b.lastFailure) && (failed && Full(c, m.b) ==> Full(c, r.b))
    ensures r.now == m.now && r.pcs == m.pcs[i := Idle]
    ensures Edges(r.b) == Edges(m.b) + [(m.b.state, r.b.state)]
  {
    var outcome := if failed then Failed else Succeeded;
    r := ComesBack(c, m, i, m.now, outcome);
    GoOn(c, s, ls, m, Label(m.now, Complete(i, outcome)));
    Entering(c, m.b, r.b.state, m.now);
    Entering(c, m.b.(failureCount := m.b.failureCount + 1), Open, m.now);
    more := ls + [Label(m.now, Complete(i, outcome))];
  }

  /** Callers 0 and 1 are doing this. */
  predicate Two(s: Sys, st: State, pc0: PC, pc1: PC) {
    |s.pcs| >= 2 && s.b.state == st && s.pcs[0] == pc0 && s.pcs[1] == pc1
  }

  lemma {:induction false} OpenTwice(c: Config, s: Sys, ls: seq<Label>, m: Sys) returns (more: seq<Label>, r: Sys)
    requires Positive(c) && Leads(c, s, ls, m) && Two(m, Closed, Idle, Idle) && Full(c, m.b)
    ensures Leads(c, s, more, r) && Two(r, Open, Idle, Idle) && r.b.lastFailure == r.now
    ensures Edges(r.b) == Edges(m.b) + [(Closed, Open), (Open, Open)]
  {
    more, r := ThenFetch(c, s, ls, m, 0);
    more, r := ThenFetch(c, s, more, r, 1);
    more, r := ThenDone(c, s, more, r, 0, true);
    more, r := ThenDone(c, s, more, r, 1, true);
  }

  lemma {:induction false} ProbeTwice(c: Config, s: Sys, ls: seq<Label>, m: Sys) returns (more: seq<Label>, r: Sys)
    requires Positive(c) && Leads(c, s, ls, m) && Two(m, Open, Idle, Idle) && m.b.lastFailure == m.now
    ensures Leads(c, s, more, r) && Two(r, Open, Idle, RunningHalfOpen) && r.b.lastFailure == r.now
    ensures Edges(r.b) == Edges(m.b) + [(Open, HalfOpen), (HalfOpen, HalfOpen), (HalfOpen, Open)]
  {
    var late := m.now + c.resetTimeout;
    more, r := ThenFetch(c, s, ls, m, 0);
    more, r := ThenFetch(c, s, more, r, 1);
    more, r := ThenProbe(c, s, more, r, 0, late);
    more, r := ThenProbe(c, s, more, r, 1, late);
    more, r := ThenDone(c, s, more, r, 0, true);
  }

  lemma {:induction false} ProbeLate(c: Config, s: Sys, ls: seq<Label>, m: Sys) returns (more: seq<Label>, r: Sys)
    requires Positive(c) && Leads(c, s, ls, m) && Two(m, Open, Idle, RunningHalfOpen) && m.b.lastFailure == m.now
    ensures Leads(c, s, more, r) && Two(r, HalfOpen, RunningHalfOpen, Idle)
    ensures Edges(r.b) == Edges(m.b) + [(Open, Closed), (Closed, HalfOpen)]
  {
    more, r := ThenFetch(c, s, ls, m, 0);
    more, r := ThenDone(c, s, more, r, 1, false);
    more, r := ThenProbe(c, s, more, r, 0, r.now + c.resetTimeout);
  }

  lemma {:induction false} CloseTwice(c: Config, s: Sys, ls: seq<Label>, m: Sys) returns (more: seq<Label>, r: Sys)
    requires Leads(c, s, ls, m) && Two(m, HalfOpen, RunningHalfOpen, Idle)
    ensures Leads(c, s, more, r)
    ensures Edges(r.b) == Edges(m.b) + [(HalfOpen, Closed), (Closed, Closed)]
  {
    more, r := ThenFetch(c, s, ls, m, 1);
    more, r := ThenDone(c, s, more, r, 0, false);
    more, r := ThenDone(c, s, more, r, 1, false);
  }

  /** Each of the nine edges once. */
  const TOUR: seq<(State, State)> := [
    (Closed, Open), (Open, Open), (Open, HalfOpen), (HalfOpen, HalfOpen), (HalfOpen, Open),
    (Open, Closed), (Closed, HalfOpen), (HalfOpen, Closed), (Closed, Closed)]

  lemma {:induction false} HammerIsUndisturbed(c: Config, k: nat, t0: Instant)
    ensures Undisturbed(Hammer(c, k, t0), false)
  {
    if k > 0 {
      HammerIsUndisturbed(c, k - 1, t0);
      var last := HammerGrows(c, k, t0);
      JoinUndisturbed(Hammer(c, k - 1, t0), last);
    }
  }

  lemma JoinUndisturbed(xs: seq<Label>, ys: seq<Label>)
    requires Undisturbed(xs, false) && Undisturbed(ys, false)
    ensures Undisturbed(xs + ys, false)
  {
  }

  lemma {:induction false} FailuresAreQuiet(c: Config, k: nat, t0: Instant)
    requires k < c.failureThreshold
    ensures var b := Final(c, FRESH_BREAKER, Failures(k, t0));
            b.state == Closed && b.failureCount == k && b.published == []
  {
    if k > 0 {
      var init, op := Failures(k - 1, t0), Call(t0, t0, t0, Failed);
      FailuresAreQuiet(c, k - 1, t0);
      assert (init + [op])[..|init|] == init;
      OneMoreFailure(c, Final(c, FRESH_BREAKER, init), op);
    }
  }

  lemma OneMoreFailure(c: Config, b: Breaker, op: Op)
    requires op.Call? && op.outcome == Failed && b.state == Closed && b.failureCount + 1 < c.failureThreshold
    ensures Perform(c, b, op).0 == b.(failureCount := b.failureCount + 1)
  {
  }

  /** The breaker is one failure away from opening, and has made no transition yet. */
  lemma {:induction false} OnTheVerge(c: Config, n: nat, t0: Instant) returns (ls: seq<Label>, r: Sys)
    requires Positive(c) && n >= 2
    ensures Leads(c, Start(FRESH_BREAKER, n, t0), ls, r) && Two(r, Closed, Idle, Idle)
    ensures Full(c, r.b) && Edges(r.b) == []
  {
    var short := c.failureThreshold - 1;
    ls := Hammer(c, short, t0);
    r := AfterHammer(c, n, short, t0);
    HammerIsUndisturbed(c, short, t0);
    FailuresAreQuiet(c, short, t0);
  }

  /** Two callers are enough to make all nine transitions, without a query or a reset. */
  lemma {:induction false} EveryEdge(c: Config, n: nat, t0: Instant) returns (ls: seq<Label>, r: Sys)
    requires Positive(c) && n >= 2
    ensures Leads(c, Start(FRESH_BREAKER, n, t0), ls, r) && Edges(r.b) == TOUR
  {
    ls, r := OnTheVerge(c, n, t0);
    ls, r := OpenTwice(c, Start(FRESH_BREAKER, n, t0), ls, r);
    ls, r := ProbeTwice(c, Start(FRESH_BREAKER, n, t0), ls, r);
    ls, r := ProbeLate(c, Start(FRESH_BREAKER, n, t0), ls, r);
    ls, r := CloseTwice(c, Start(FRESH_BREAKER, n, t0), ls, r);
  }

  lemma {:induction false} TourIsComplete(from: State, to: State)
    ensures (from, to) in TOUR
  {
    var k := match (from, to)
      case (Closed, Open) => 0
      case (Open, Open) => 1
      case (Open, HalfOpen) => 2
      case (HalfOpen, HalfOpen) => 3
      case (HalfOpen, Open) => 4
      case (Open, Closed) => 5
      case (Closed, HalfOpen) => 6
      case (HalfOpen, Closed) => 7
      case (Closed, Closed) => 8;
    assert TOUR[k] == (from, to);
  }

  /** One caller and one query: the query lets the breaker go HalfOpen, and the caller's check does so again. */
  lemma {:induction false} QueryStrays(c: Config, n: nat, t0: Instant) returns (ls: seq<Label>)
    requires Positive(c) && n > 0
    ensures Undisturbed(ls, true) && Run(c, Start(FRESH_BREAKER, n, t0), ls).Some?
    ensures !OnDiagram(Run(c, Start(FRESH_BREAKER, n, t0), ls).value.b)
  {
    var s0, hammer := Start(FRESH_BREAKER, n, t0), Hammer(c, c.failureThreshold, t0);
    var s := AfterHammer(c, n, c.failureThreshold, t0);
    HammerIsUndisturbed(c, c.failureThreshold, t0);
    var held, m := ThenFetch(c, s0, hammer, s, 0);
    var late := Label(t0 + c.resetTimeout, Poll);
    ExpiredMeansElapsed(c, m.b, late.at);
    RunMore(c, s0, held, late);
    var p := Step(c, m, late);
    ExpiredMeansElapsed(c, p.b, late.at);
    var check := Label(late.at, CheckOpen(0));
    RunMore(c, s0, held + [late], check);
    ls := held + [late] + [check];
    StepLeavesDiagramIff(c, p, check);
  }

  /** In all undisturbed runs every transition is an edge of the diagram if and only if there is no caller, or
      just one and nobody queries the state. */
  lemma {:induction false} DiagramIff(c: Config, n: nat, t0: Instant, polls: bool)
    requires Positive(c)
    ensures KeepsDiagram(c, n, t0, polls) <==> n == 0 || (n == 1 && !polls)
  {
    if n == 0 || (n == 1 && !polls) {
      forall ls: seq<Label> | Undisturbed(ls, polls) && Run(c, Start(FRESH_BREAKER, n, t0), ls).Some?
        ensures OnDiagram(Run(c, Start(FRESH_BREAKER, n, t0), ls).value.b)
      {
        RunsInStep(c, n, t0, polls, ls);
      }
    } else if n == 1 {
      var ls := QueryStrays(c, n, t0);
    } else {
      var ls, r := EveryEdge(c, n, t0);
      assert Edges(r.b)[1] == (Open, Open);
      assert Undisturbed(ls, polls);
    }
  }
}
