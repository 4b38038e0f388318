/** Sequential runs are exactly the runs of the concurrent machine in which calls do not overlap. */
module NonOverlapping {
  import opened Basics
  import opened Snapshots
  import opened Breakers
  import opened Concurrency
  import opened Sequential

  predicate Quiescent(s: Sys) {
    forall k | 0 <= k < |s.pcs| :: s.pcs[k] == Idle
  }

  /** The critical sections of one operation by caller i. */
  function Steps(c: Config, b: Breaker, i: nat, op: Op): seq<Label> {
    match op
    case Call(fetchAt, checkAt, doneAt, outcome) =>
      var fetch, done := [Label(fetchAt, Fetch(i))], [Label(doneAt, Complete(i, outcome))];
      if b.state != Open then fetch + done
      else
        var check := [Label(checkAt, CheckOpen(i))];
        if OpenCheck(c, b, checkAt).1 then fetch + check + done else fetch + check
    case Query(at) => [Label(at, Poll)]
    case Clear(at) => [Label(at, Reset)]
  }

  function AllSteps(c: Config, b: Breaker, i: nat, ops: seq<Op>): seq<Label> {
    if ops == [] then []
    else AllSteps(c, b, i, ops[..|ops| - 1]) + Steps(c, Final(c, b, ops[..|ops| - 1]), i, ops[|ops| - 1])
  }

  /** What the operations' results look like in the trace. */
  function Results(trace: seq<Obs>): seq<Seen> {
    if trace == [] then []
    else
      Results(trace[..|trace| - 1]) +
      match trace[|trace| - 1].what
      case Rejected(_) => [TurnedAway]
      case Finished(_, _, outcome) => [Ran(outcome)]
      case Answered(state) => [Answer(state)]
      case ResetDone => [Cleared]
      case Admitted(_, _) => []
      case Held(_) => []
  }

  lemma {:induction false} ResultsStep(c: Config, m: Sys, l: Label) returns (o: Obs)
    requires Enabled(m, l)
    ensures Step(c, m, l).trace == m.trace + [o] && o == Step(c, m, l).trace[|m.trace|]
    ensures Results(Step(c, m, l).trace) == Results(m.trace) + Results([o])
  {
    o := StepTrace(c, m, l);
    assert (m.trace + [o])[..|m.trace|] == m.trace;
    assert [o][..0] == [];
  }

  lemma {:induction false} RunOne(c: Config, s: Sys, l: Label)
    requires Enabled(s, l)
    ensures Run(c, s, [l]) == Some(Step(c, s, l))
  {
    assert [l][..0] == [];
  }

  lemma {:induction false} RunMore(c: Config, s: Sys, ls: seq<Label>, l: Label)
    requires Run(c, s, ls).Some? && Enabled(Run(c, s, ls).value, l)
    ensures Run(c, s, ls + [l]) == Some(Step(c, Run(c, s, ls).value, l))
  {
    assert (ls + [l])[..|ls|] == ls;
  }

  /** Running `op` as caller i from s gives r, and shows what performing it shows. */
  predicate Performs(c: Config, s: Sys, op: Op, r: Sys) {
    && r.b == Perform(c, s.b, op).0 && r.pcs == s.pcs && r.now <= End(op)
    && Results(r.trace) == Results(s.trace) + [Perform(c, s.b, op).1]
  }

  lemma {:induction false} RunTwo(c: Config, s: Sys, l1: Label, l2: Label)
    requires Enabled(s, l1) && Enabled(Step(c, s, l1), l2)
    ensures Run(c, s, [l1, l2]) == Some(Step(c, Step(c, s, l1), l2))
  {
    RunOne(c, s, l1);
    RunMore(c, s, [l1], l2);
    assert [l1] + [l2] == [l1, l2];
  }

  lemma UpdateTwice(pcs: seq<PC>, i: nat, a: PC, b: PC)
    requires i < |pcs|
    ensures pcs[i := a][i := b] == pcs[i := b]
    ensures b == pcs[i] ==> pcs[i := b] == pcs
  {
  }

  lemma {:induction false} OneResult(o: Obs)
    ensures Results([o]) ==
            match o.what
            case Rejected(_) => [TurnedAway]
            case Finished(_, _, outcome) => [Ran(outcome)]
            case Answered(state) => [Answer(state)]
            case ResetDone => [Cleared]
            case Admitted(_, _) => []
            case Held(_) => []
  {
    assert [o][..0] == [];
  }

  lemma {:induction false} ComesBack(c: Config, m: Sys, i: nat, doneAt: Instant, outcome: Outcome) returns (r: Sys)
    requires i < |m.pcs| && Running(m.pcs[i]) && m.now <= doneAt
    ensures Enabled(m, Label(doneAt, Complete(i, outcome))) && r == Step(c, m, Label(doneAt, Complete(i, outcome)))
    ensures r.b == (if outcome == Panicked then m.b
                    else if m.pcs[i] == RunningHalfOpen then HalfOpenDone(c, m.b, outcome == Failed, doneAt)
                    else ClosedDone(c, m.b, outcome == Failed, doneAt))
    ensures r.now == doneAt && r.pcs == m.pcs[i := Idle]
    ensures Results(r.trace) == Results(m.trace) + [Ran(outcome)]
  {
    var done := Label(doneAt, Complete(i, outcome));
    r := Step(c, m, done);
    var o := ResultsStep(c, m, done);
    OneResult(o);
  }

  lemma {:induction false} CallWhenNotOpen(c: Config, s: Sys, i: nat, op: Op)
    requires i < |s.pcs| && s.pcs[i] == Idle && StartsAfter(op, s.now)
    requires op.Call? && s.b.state != Open
    ensures Run(c, s, Steps(c, s.b, i, op)).Some? && Performs(c, s, op, Run(c, s, Steps(c, s.b, i, op)).value)
  {
    var fetch, done := Label(op.fetchAt, Fetch(i)), Label(op.doneAt, Complete(i, op.outcome));
    var m := FetchStep(c, s, i, op.fetchAt);
    var r := ComesBack(c, m, i, op.doneAt, op.outcome);
    RunTwo(c, s, fetch, done);
    UpdateTwice(s.pcs, i, m.pcs[i], Idle);
    assert Steps(c, s.b, i, op) == [fetch, done];
  }

  /** What a caller is doing after it fetched a state. */
  function Holds(st: State): PC {
    match st
    case Closed => RunningClosed
    case Open => HoldingOpen
    case HalfOpen => RunningHalfOpen
  }

  lemma {:induction false} FetchStep(c: Config, s: Sys, i: nat, at: Instant) returns (m: Sys)
    requires i < |s.pcs| && s.pcs[i] == Idle && s.now <= at
    ensures Enabled(s, Label(at, Fetch(i))) && m == Step(c, s, Label(at, Fetch(i)))
    ensures m.b == s.b && m.now == at && m.pcs == s.pcs[i := Holds(s.b.state)] && Results(m.trace) == Results(s.trace)
  {
    m := Step(c, s, Label(at, Fetch(i)));
    var o := ResultsStep(c, s, Label(at, Fetch(i)));
    OneResult(o);
  }

  lemma {:induction false} ChecksClock(c: Config, m: Sys, i: nat, at: Instant) returns (r: Sys)
    requires i < |m.pcs| && m.pcs[i] == HoldingOpen && m.now <= at
    ensures Enabled(m, Label(at, CheckOpen(i))) && r == Step(c, m, Label(at, CheckOpen(i)))
    ensures var (checked, admitted) := OpenCheck(c, m.b, at);
            && r.b == checked && r.now == at
            && r.pcs == m.pcs[i := if admitted then RunningHalfOpen else Idle]
            && Results(r.trace) == Results(m.trace) + if admitted then [] else [TurnedAway]
  {
    r := Step(c, m, Label(at, CheckOpen(i)));
    var o := ResultsStep(c, m, Label(at, CheckOpen(i)));
    OneResult(o);
  }

  lemma {:induction false} FetchAndCheck(c: Config, s: Sys, i: nat, fetchAt: Instant, checkAt: Instant)
    returns (r: Sys)
    requires i < |s.pcs| && s.pcs[i] == Idle && s.now <= fetchAt <= checkAt && s.b.state == Open
    ensures Run(c, s, [Label(fetchAt, Fetch(i)), Label(checkAt, CheckOpen(i))]) == Some(r)
    ensures var (checked, admitted) := OpenCheck(c, s.b, checkAt);
            && r.b == checked && r.now == checkAt
            && r.pcs == s.pcs[i := if admitted then RunningHalfOpen else Idle]
            && Results(r.trace) == Results(s.trace) + if admitted then [] else [TurnedAway]
  {
    var m := FetchStep(c, s, i, fetchAt);
    r := ChecksClock(c, m, i, checkAt);
    RunTwo(c, s, Label(fetchAt, Fetch(i)), Label(checkAt, CheckOpen(i)));
    UpdateTwice(s.pcs, i, HoldingOpen, if OpenCheck(c, s.b, checkAt).1 then RunningHalfOpen else Idle);
  }

  lemma {:induction false} CallTurnedAway(c: Config, s: Sys, i: nat, op: Op)
    requires i < |s.pcs| && s.pcs[i] == Idle && StartsAfter(op, s.now)
    requires op.Call? && s.b.state == Open && !OpenCheck(c, s.b, op.checkAt).1
    ensures Run(c, s, Steps(c, s.b, i, op)).Some? && Performs(c, s, op, Run(c, s, Steps(c, s.b, i, op)).value)
  {
    var fetch, check := Label(op.fetchAt, Fetch(i)), Label(op.checkAt, CheckOpen(i));
    var r := FetchAndCheck(c, s, i, op.fetchAt, op.checkAt);
    assert Steps(c, s.b, i, op) == [fetch, check];
    assert r.pcs == s.pcs;
  }

  lemma {:induction false} ThreeSteps(c: Config, s: Sys, i: nat, op: Op) returns (r: Sys)
    requires i < |s.pcs| && s.pcs[i] == Idle && StartsAfter(op, s.now)
    requires op.Call? && s.b.state == Open && OpenCheck(c, s.b, op.checkAt).1
    ensures Run(c, s, [Label(op.fetchAt, Fetch(i)), Label(op.checkAt, CheckOpen(i))]
                      + [Label(op.doneAt, Complete(i, op.outcome))]) == Some(r)
    ensures r.b == Perform(c, s.b, op).0 && r.pcs == s.pcs && r.now == op.doneAt
    ensures Results(r.trace) == Results(s.trace) + [Ran(op.outcome)]
  {
    var m := FetchAndCheck(c, s, i, op.fetchAt, op.checkAt);
    r := ComesBack(c, m, i, op.doneAt, op.outcome);
    UpdateTwice(s.pcs, i, RunningHalfOpen, Idle);
    RunMore(c, s, [Label(op.fetchAt, Fetch(i)), Label(op.checkAt, CheckOpen(i))],
            Label(op.doneAt, Complete(i, op.outcome)));
  }

  lemma {:induction false} CallAdmitted(c: Config, s: Sys, i: nat, op: Op)
    requires i < |s.pcs| && s.pcs[i] == Idle && StartsAfter(op, s.now)
    requires op.Call? && s.b.state == Open && OpenCheck(c, s.b, op.checkAt).1
    ensures Run(c, s, Steps(c, s.b, i, op)).Some? && Performs(c, s, op, Run(c, s, Steps(c, s.b, i, op)).value)
  {
    var r := ThreeSteps(c, s, i, op);
    assert Steps(c, s.b, i, op) == [Label(op.fetchAt, Fetch(i)), Label(op.checkAt, CheckOpen(i))]
                                   + [Label(op.doneAt, Complete(i, op.outcome))];
  }

  lemma {:induction false} OneOperation(c: Config, s: Sys, i: nat, op: Op)
    requires i < |s.pcs| && s.pcs[i] == Idle && StartsAfter(op, s.now)
    ensures Run(c, s, Steps(c, s.b, i, op)).Some? && Performs(c, s, op, Run(c, s, Steps(c, s.b, i, op)).value)
  {
    if op.Call? {
      if s.b.state == Open {
        if OpenCheck(c, s.b, op.checkAt).1 {
          CallAdmitted(c, s, i, op);
        } else {
          CallTurnedAway(c, s, i, op);
        }
      } else {
        CallWhenNotOpen(c, s, i, op);
      }
    } else {
      var l := Label(op.at, if op.Query? then Poll else Reset);
      RunOne(c, s, l);
      var o := ResultsStep(c, s, l);
      OneResult(o);
    }
  }

  /** Every sequential run is a run of the concurrent machine, with the same results. */
  lemma {:induction false} SequentialRunsAreRuns(c: Config, b: Breaker, n: nat, t0: Instant, i: nat, ops: seq<Op>)
    requires i < n && Follows(ops, t0)
    ensures var r := Run(c, Start(b, n, t0), AllSteps(c, b, i, ops));
            && r.Some? && r.value.b == Final(c, b, ops) && r.value.pcs == Start(b, n, t0).pcs
            && r.value.now <= EndOf(ops, t0) && Results(r.value.trace) == Observe(c, b, ops)
  {
    if ops != [] {
      var init, op := ops[..|ops| - 1], ops[|ops| - 1];
      SequentialRunsAreRuns(c, b, n, t0, i, init);
      var s := Run(c, Start(b, n, t0), AllSteps(c, b, i, init)).value;
      OneOperation(c, s, i, op);
      RunAppend(c, Start(b, n, t0), AllSteps(c, b, i, init), Steps(c, s.b, i, op));
    }
  }

  /** No call, `State()` or `Reset()` begins while a call is under way. */
  predicate Serial(c: Config, s: Sys, ls: seq<Label>)
    requires Run(c, s, ls).Some?
  {
    ls != [] ==>
      && Serial(c, s, ls[..|ls| - 1])
      && (!ls[|ls| - 1].act.CheckOpen? && !ls[|ls| - 1].act.Complete? ==> Quiescent(Run(c, s, ls[..|ls| - 1]).value))
  }

  /** The call under way, if any, and the instants of its steps so far. */
  datatype Pending = Nobody | Fetched(i: nat, at: Instant) | Checked(i: nat, at: Instant, checkAt: Instant)

  /** The machine is between the steps of the call `p`, after the operations `ops`. */
  predicate Between(c: Config, b: Breaker, t0: Instant, ops: seq<Op>, p: Pending, s: Sys) {
    var done := Final(c, b, ops);
    && Follows(ops, t0)
    && Results(s.trace) == Observe(c, b, ops)
    && EndOf(ops, t0) <= s.now
    && match p
       case Nobody => s.b == done && Quiescent(s)
       case Fetched(i, at) =>
         && s.b == done && EndOf(ops, t0) <= at <= s.now
         && i < |s.pcs| && s.pcs[i] == Holds(done.state)
         && forall k | 0 <= k < |s.pcs| && k != i :: s.pcs[k] == Idle
       case Checked(i, at, checkAt) =>
         && done.state == Open && OpenCheck(c, done, checkAt) == (s.b, true)
         && EndOf(ops, t0) <= at <= checkAt <= s.now
         && i < |s.pcs| && s.pcs[i] == RunningHalfOpen
         && forall k | 0 <= k < |s.pcs| && k != i :: s.pcs[k] == Idle
  }

  lemma {:induction false} Extend(c: Config, b: Breaker, t0: Instant, ops: seq<Op>, op: Op)
    requires Follows(ops, t0) && StartsAfter(op, EndOf(ops, t0))
    ensures Follows(ops + [op], t0) && EndOf(ops + [op], t0) == End(op)
    ensures Final(c, b, ops + [op]) == Perform(c, Final(c, b, ops), op).0
    ensures Observe(c, b, ops + [op]) == Observe(c, b, ops) + [Perform(c, Final(c, b, ops), op).1]
  {
    assert (ops + [op])[..|ops|] == ops && (ops + [op])[|ops|] == op;
  }

  lemma {:induction false} DecodeCompletion(c: Config, b: Breaker, t0: Instant, ops: seq<Op>, p: Pending, m: Sys, l: Label)
    returns (op: Op)
    requires Between(c, b, t0, ops, p, m) && Enabled(m, l) && l.act.Complete?
    ensures Between(c, b, t0, ops + [op], Nobody, Step(c, m, l))
  {
    assert !p.Nobody? && p.i == l.act.i;
    op := Call(p.at, if p.Checked? then p.checkAt else l.at, l.at, l.act.outcome);
    Extend(c, b, t0, ops, op);
    var r := ComesBack(c, m, l.act.i, l.at, l.act.outcome);
    CompletionPerforms(c, Final(c, b, ops), m, p, op);
    assert Quiescent(r);
  }

  /** Completing the call under way does to the breaker what the whole call does. */
  lemma CompletionPerforms(c: Config, done: Breaker, m: Sys, p: Pending, op: Op)
    requires op.Call? && !p.Nobody? && p.i < |m.pcs| && Running(m.pcs[p.i])
    requires p.Fetched? ==> m.b == done && m.pcs[p.i] == Holds(done.state)
    requires p.Checked? ==>
               m.pcs[p.i] == RunningHalfOpen && done.state == Open && OpenCheck(c, done, op.checkAt) == (m.b, true)
    ensures Perform(c, done, op) ==
            (if op.outcome == Panicked then m.b
             else if m.pcs[p.i] == RunningHalfOpen then HalfOpenDone(c, m.b, op.outcome == Failed, op.doneAt)
             else ClosedDone(c, m.b, op.outcome == Failed, op.doneAt),
             Ran(op.outcome))
  {
  }

  lemma {:induction false} DecodeCheck(c: Config, b: Breaker, t0: Instant, ops: seq<Op>, p: Pending, m: Sys, l: Label)
    returns (ops': seq<Op>, p': Pending)
    requires Between(c, b, t0, ops, p, m) && Enabled(m, l) && l.act.CheckOpen?
    ensures Between(c, b, t0, ops', p', Step(c, m, l))
  {
    assert p.Fetched? && p.i == l.act.i;
    var r := ChecksClock(c, m, l.act.i, l.at);
    if OpenCheck(c, m.b, l.at).1 {
      ops', p' := ops, Checked(p.i, p.at, l.at);
    } else {
      var op := Call(p.at, l.at, l.at, Succeeded);
      Extend(c, b, t0, ops, op);
      ops', p' := ops + [op], Nobody;
    }
  }

  lemma {:induction false} DecodeInstant(c: Config, b: Breaker, t0: Instant, ops: seq<Op>, m: Sys, l: Label)
    returns (op: Op)
    requires Between(c, b, t0, ops, Nobody, m) && Enabled(m, l) && (l.act.Poll? || l.act.Reset?)
    ensures Between(c, b, t0, ops + [op], Nobody, Step(c, m, l))
  {
    op := if l.act.Poll? then Query(l.at) else Clear(l.at);
    Extend(c, b, t0, ops, op);
    var o := ResultsStep(c, m, l);
    OneResult(o);
  }

  lemma {:induction false} DecodeFetch(c: Config, b: Breaker, t0: Instant, ops: seq<Op>, m: Sys, l: Label)
    requires Between(c, b, t0, ops, Nobody, m) && Enabled(m, l) && l.act.Fetch?
    ensures Between(c, b, t0, ops, Fetched(l.act.i, l.at), Step(c, m, l))
  {
    var o := ResultsStep(c, m, l);
    OneResult(o);
  }

  lemma {:induction false} DecodeStep(c: Config, b: Breaker, t0: Instant, ops: seq<Op>, p: Pending, m: Sys, l: Label)
    returns (ops': seq<Op>, p': Pending)
    requires Between(c, b, t0, ops, p, m) && Enabled(m, l)
    requires !l.act.CheckOpen? && !l.act.Complete? ==> Quiescent(m)
    ensures Between(c, b, t0, ops', p', Step(c, m, l))
  {
    if l.act.CheckOpen? {
      ops', p' := DecodeCheck(c, b, t0, ops, p, m, l);
    } else if l.act.Complete? {
      var op := DecodeCompletion(c, b, t0, ops, p, m, l);
      ops', p' := ops + [op], Nobody;
    } else {
      QuiescentMeansNobody(c, b, t0, ops, p, m);
      if l.act.Fetch? {
        DecodeFetch(c, b, t0, ops, m, l);
        ops', p' := ops, Fetched(l.act.i, l.at);
      } else {
        var op := DecodeInstant(c, b, t0, ops, m, l);
        ops', p' := ops + [op], Nobody;
      }
    }
  }

  lemma QuiescentMeansNobody(c: Config, b: Breaker, t0: Instant, ops: seq<Op>, p: Pending, s: Sys)
    requires Between(c, b, t0, ops, p, s) && Quiescent(s)
    ensures p == Nobody
  {
  }

  lemma {:induction false} Decode(c: Config, b: Breaker, n: nat, t0: Instant, ls: seq<Label>)
    returns (ops: seq<Op>, p: Pending)
    requires Run(c, Start(b, n, t0), ls).Some? && Serial(c, Start(b, n, t0), ls)
    ensures Between(c, b, t0, ops, p, Run(c, Start(b, n, t0), ls).value)
  {
    if ls == [] {
      ops, p := [], Nobody;
    } else {
      var init, m, l := RunSplit(c, Start(b, n, t0), ls);
      assert init == ls[..|ls| - 1] && l == ls[|ls| - 1];
      ops, p := Decode(c, b, n, t0, init);
      ops, p := DecodeStep(c, b, t0, ops, p, m, l);
    }
  }

  /** The operations lead where the run leads, with the same results. */
  predicate SameAs(c: Config, b: Breaker, t0: Instant, ops: seq<Op>, s: Sys) {
    && Follows(ops, t0) && EndOf(ops, t0) <= s.now
    && s.b == Final(c, b, ops) && Results(s.trace) == Observe(c, b, ops)
  }

  /** Conversely, a run whose calls do not overlap, and are all over, is a sequential run with the same results. */
  lemma {:induction false} SerialRunsAreSequential(c: Config, b: Breaker, n: nat, t0: Instant, ls: seq<Label>)
    returns (ops: seq<Op>)
    requires Run(c, Start(b, n, t0), ls).Some? && Serial(c, Start(b, n, t0), ls)
    requires Quiescent(Run(c, Start(b, n, t0), ls).value)
    ensures SameAs(c, b, t0, ops, Run(c, Start(b, n, t0), ls).value)
  {
    var p;
    ops, p := Decode(c, b, n, t0, ls);
    QuiescentMeansNobody(c, b, t0, ops, p, Run(c, Start(b, n, t0), ls).value);
  }
}
