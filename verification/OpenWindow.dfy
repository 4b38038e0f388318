/** How long an opened breaker keeps callers out, over whole concurrent runs. */
module OpenWindow {
  import opened Basics
  import opened Snapshots
  import opened Breakers
  import opened Concurrency

  /** A reset, or the success of a half-open probe. */
  predicate Escape(o: Obs) {
    o.what.ResetDone? || (o.what.Finished? && o.what.half && o.what.outcome == Succeeded)
  }

  /** Step p of the trace moved the breaker into Open, and no escape followed. */
  predicate Tripped(s: Sys, p: nat) {
    && p < |s.trace| && s.trace[p].entered == Some(Open)
    && forall k | p < k < |s.trace| :: !Escape(s.trace[k])
  }

  predicate Shut(c: Config, s: Sys, p: nat)
    requires p < |s.trace|
  {
    && s.b.state == Open
    && s.b.lastFailure >= s.trace[p].at
    && forall k | p < k < |s.trace| :: !s.trace[k].what.Admitted?
  }

  lemma {:induction false} StepKeepsShut(c: Config, m: Sys, l: Label, p: nat)
    requires Positive(c) && Enabled(m, l) && Tripped(m, p) && Shut(c, m, p) && m.trace[p].at <= m.now
    requires Tripped(Step(c, m, l), p) && l.at < m.trace[p].at + c.resetTimeout
    ensures Shut(c, Step(c, m, l), p)
  {
    ExpiredMeansElapsed(c, m.b, l.at);
    var o := StepTrace(c, m, l);
    assert !Escape(o) by { assert Step(c, m, l).trace[|m.trace|] == o; }
    assert forall k | 0 <= k < |m.trace| :: Step(c, m, l).trace[k] == m.trace[k];
    assert o.what == Step(c, m, l).trace[|m.trace|].what;
    match l.act {
      case Fetch(i) =>
      case CheckOpen(i) =>
      case Complete(i, outcome) => assert !(outcome == Succeeded && m.pcs[i] == RunningHalfOpen);
      case Poll =>
      case Reset =>
    }
  }

  lemma StepTrips(c: Config, m: Sys, l: Label)
    requires Enabled(m, l) && Step(c, m, l).trace[|m.trace|].entered == Some(Open)
    ensures Shut(c, Step(c, m, l), |m.trace|)
  {
  }

  lemma {:induction false} TimesAscend(c: Config, s: Sys, ls: seq<Label>, trace: seq<Obs>, i: nat, j: nat)
    requires Run(c, s, ls).Some? && s.trace == []
    requires trace == Run(c, s, ls).value.trace && i <= j < |trace|
    ensures trace[i].at <= trace[j].at <= Run(c, s, ls).value.now
  {
    var init, m, l := RunSplit(c, s, ls);
    var o := StepTrace(c, m, l);
    if j < |m.trace| {
      TimesAscend(c, s, init, m.trace, i, j);
    } else if i < j {
      TimesAscend(c, s, init, m.trace, i, j - 1);
    }
  }

  /** Without an escape the breaker is still Open, has only been re-opened later, and has let nobody in,
      until resetTimeout has passed; stale completions and `State()` included. */
  lemma {:induction false} StaysShut(c: Config, b: Breaker, n: nat, t0: Instant, ls: seq<Label>, p: nat)
    requires Positive(c) && Run(c, Start(b, n, t0), ls).Some?
    requires Tripped(Run(c, Start(b, n, t0), ls).value, p)
    requires var s := Run(c, Start(b, n, t0), ls).value; s.now < s.trace[p].at + c.resetTimeout
    ensures Shut(c, Run(c, Start(b, n, t0), ls).value, p)
  {
    if ls != [] {
      var init, m, l := RunSplit(c, Start(b, n, t0), ls);
      var o := StepTrace(c, m, l);
      assert forall k | 0 <= k < |m.trace| :: Step(c, m, l).trace[k] == m.trace[k];
      if p < |m.trace| {
        StaysShut(c, b, n, t0, init, p);
        TimesAscend(c, Start(b, n, t0), init, m.trace, p, p);
        StepKeepsShut(c, m, l, p);
      } else {
        StepTrips(c, m, l);
      }
    }
  }

  /** The first escape after p, no later than q. */
  lemma {:induction false} FirstEscape(trace: seq<Obs>, p: nat, q: nat) returns (k: nat)
    requires p < q < |trace| && exists j :: p < j <= q && Escape(trace[j])
    ensures p < k <= q && Escape(trace[k]) && forall j | p < j < k :: !Escape(trace[j])
    decreases q
  {
    if j :| p < j < q && Escape(trace[j]) {
      k := FirstEscape(trace, p, q - 1);
    } else {
      k := q;
    }
  }

  /** The system after the first k steps, its trace and its clock. */
  lemma {:induction false} Prefix(c: Config, s: Sys, ls: seq<Label>, trace: seq<Obs>, k: nat) returns (r: Sys)
    requires Run(c, s, ls).Some? && s.trace == [] && trace == Run(c, s, ls).value.trace
    requires 0 < k <= |ls| == |trace|
    ensures Run(c, s, ls[..k]) == Some(r) && r.trace == trace[..k] && r.now == trace[k - 1].at
  {
    RunPrefix(c, s, ls, k);
    var m, l, o := StepAt(c, s, ls, k - 1);
    r := Run(c, s, ls[..k]).value;
    assert r.trace[k - 1] == trace[k - 1];
  }

  /** StaysShut, read off the trace of a longer run. */
  lemma {:induction false} NobodyAdmitted(c: Config, b: Breaker, n: nat, t0: Instant,
      ls: seq<Label>, trace: seq<Obs>, p: nat, k: nat)
    requires Positive(c) && Run(c, Start(b, n, t0), ls).Some?
    requires trace == Run(c, Start(b, n, t0), ls).value.trace && |trace| == |ls|
    requires p < k <= |ls| && trace[p].entered == Some(Open)
    requires trace[k - 1].at < trace[p].at + c.resetTimeout
    requires forall j | p < j < k :: !Escape(trace[j])
    ensures forall j | p < j < k :: !trace[j].what.Admitted?
  {
    var s := Prefix(c, Start(b, n, t0), ls, trace, k);
    assert forall j | 0 <= j < k :: s.trace[j] == trace[j];
    StaysShut(c, b, n, t0, ls[..k], p);
  }

  lemma {:induction false} ProbeWasRunning(c: Config, m: Sys, l: Label, o: Obs, i: nat)
    requires Enabled(m, l) && Step(c, m, l).trace == m.trace + [o] && !o.what.Admitted?
    requires i < |m.pcs| == |Step(c, m, l).pcs| && Step(c, m, l).pcs[i] == RunningHalfOpen
    ensures m.pcs[i] == RunningHalfOpen
  {
    assert o == Step(c, m, l).trace[|m.trace|];
  }

  /** A probe that runs after k steps, with nobody let in since step p, ran right after step p. */
  lemma {:induction false} ProbeInFlight(c: Config, s: Sys, ls: seq<Label>, trace: seq<Obs>,
      p: nat, k: nat, i: nat, r: Sys)
    returns (atOpening: Sys)
    requires Run(c, s, ls).Some? && s.trace == [] && trace == Run(c, s, ls).value.trace
    requires p < k <= |ls| == |trace|
    requires forall j | p < j < k :: !trace[j].what.Admitted?
    requires Run(c, s, ls[..k]) == Some(r) && i < |r.pcs| == |s.pcs| && r.pcs[i] == RunningHalfOpen
    ensures Run(c, s, ls[..p + 1]) == Some(atOpening)
    ensures i < |atOpening.pcs| == |s.pcs| && atOpening.pcs[i] == RunningHalfOpen
    decreases k
  {
    if p + 1 == k {
      atOpening := r;
    } else {
      var m, l, o := StepAt(c, s, ls, k - 1);
      assert r == Step(c, m, l);
      ProbeWasRunning(c, m, l, o, i);
      atOpening := ProbeInFlight(c, s, ls, trace, p, k - 1, i, m);
    }
  }

  /** What finished at step k as a probe was running as one before it. */
  lemma {:induction false} FinishedRan(c: Config, s: Sys, ls: seq<Label>, k: nat) returns (m: Sys)
    requires Run(c, s, ls).Some? && s.trace == [] && k < |ls| == |Run(c, s, ls).value.trace|
    requires Run(c, s, ls).value.trace[k].what.Finished? && Run(c, s, ls).value.trace[k].what.half
    ensures Run(c, s, ls[..k]) == Some(m) && |m.pcs| == |s.pcs|
    ensures var i := Run(c, s, ls).value.trace[k].what.caller; i < |m.pcs| && m.pcs[i] == RunningHalfOpen
  {
    var l, o;
    m, l, o := StepAt(c, s, ls, k);
    assert o.what == Step(c, m, l).trace[|m.trace|].what;
  }

  /** If anybody is let in less than resetTimeout after step p opened the breaker, then a reset or the
      success of a half-open probe came in between, and nobody was let in between the opening and that. */
  lemma {:induction false} OpenWindow(c: Config, b: Breaker, n: nat, t0: Instant, ls: seq<Label>,
      trace: seq<Obs>, p: nat, q: nat)
    returns (k: nat)
    requires Positive(c) && Run(c, Start(b, n, t0), ls).Some?
    requires trace == Run(c, Start(b, n, t0), ls).value.trace && |trace| == |ls|
    requires p < q < |trace| && trace[p].entered == Some(Open)
    requires trace[q].what.Admitted? && trace[q].at < trace[p].at + c.resetTimeout
    ensures p < k < q && Escape(trace[k])
    ensures forall j | p < j < k :: !trace[j].what.Admitted?
  {
    if forall j | p < j <= q :: !Escape(trace[j]) {
      NobodyAdmitted(c, b, n, t0, ls, trace, p, q + 1);
      assert false;
    }
    k := FirstEscape(trace, p, q);
    TimesAscend(c, Start(b, n, t0), ls, trace, k - 1, q);
    NobodyAdmitted(c, b, n, t0, ls, trace, p, k);
  }

  /** And a probe that succeeds with nobody let in since step p was already running right after step p. */
  lemma {:induction false} EscapingProbeWasInFlight(c: Config, s: Sys, ls: seq<Label>, trace: seq<Obs>, p: nat, k: nat)
    returns (atOpening: Sys)
    requires Run(c, s, ls).Some? && s.trace == [] && trace == Run(c, s, ls).value.trace
    requires p < k < |ls| == |trace| && Escape(trace[k]) && trace[k].what.Finished?
    requires forall j | p < j < k :: !trace[j].what.Admitted?
    ensures Run(c, s, ls[..p + 1]) == Some(atOpening)
    ensures trace[k].what.caller < |atOpening.pcs| && atOpening.pcs[trace[k].what.caller] == RunningHalfOpen
  {
    var m := FinishedRan(c, s, ls, k);
    atOpening := ProbeInFlight(c, s, ls, trace, p, k, trace[k].what.caller, m);
  }
}
