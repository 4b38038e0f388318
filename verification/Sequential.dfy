/** The breaker used by one caller at a time, and the three-phase breaker it refines. */
module Sequential {
  import opened Basics
  import opened Snapshots
  import opened Breakers

  /** A call fetches the state, checks the clock if it got Open, and comes back, at three instants;
      a call that is turned away ends at `checkAt`, and its `doneAt` may be the same. */
  datatype Op =
    | Call(fetchAt: Instant, checkAt: Instant, doneAt: Instant, outcome: Outcome)
    | Query(at: Instant)
    | Clear(at: Instant)

  datatype Seen = TurnedAway | Ran(outcome: Outcome) | Answer(state: State) | Cleared

  function Begin(op: Op): Instant {
    if op.Call? then op.fetchAt else op.at
  }

  function End(op: Op): Instant {
    if op.Call? then op.doneAt else op.at
  }

  function EndOf(ops: seq<Op>, t: Instant): Instant {
    if ops == [] then t else End(ops[|ops| - 1])
  }

  predicate StartsAfter(op: Op, t: Instant) {
    t <= Begin(op) && (op.Call? ==> op.fetchAt <= op.checkAt <= op.doneAt)
  }

  /** The operations follow one another from instant t on. */
  predicate Follows(ops: seq<Op>, t: Instant) {
    ops != [] ==>
      && Follows(ops[..|ops| - 1], t)
      && StartsAfter(ops[|ops| - 1], EndOf(ops[..|ops| - 1], t))
  }

  function Probe(c: Config, b: Breaker, op: Op): (Breaker, Seen)
    requires op.Call?
  {
    (if op.outcome == Panicked then b else HalfOpenDone(c, b, op.outcome == Failed, op.doneAt), Ran(op.outcome))
  }

  function Perform(c: Config, b: Breaker, op: Op): (Breaker, Seen) {
    match op
    case Call(_, checkAt, doneAt, outcome) =>
      (match b.state
       case Closed =>
         (if outcome == Panicked then b else ClosedDone(c, b, outcome == Failed, doneAt), Ran(outcome))
       case Open =>
         var (checked, admitted) := OpenCheck(c, b, checkAt);
         if admitted then Probe(c, checked, op) else (checked, TurnedAway)
       case HalfOpen => Probe(c, b, op))
    case Query(at) => var p := Polled(c, b, at); (p, Answer(p.state))
    case Clear(at) => (WasReset(c, b, at), Cleared)
  }

  function Final(c: Config, b: Breaker, ops: seq<Op>): Breaker {
    if ops == [] then b else Perform(c, Final(c, b, ops[..|ops| - 1]), ops[|ops| - 1]).0
  }

  /** What the caller sees of each operation. */
  function Observe(c: Config, b: Breaker, ops: seq<Op>): seq<Seen> {
    if ops == [] then []
    else Observe(c, b, ops[..|ops| - 1]) + [Perform(c, Final(c, b, ops[..|ops| - 1]), ops[|ops| - 1]).1]
  }

  // ---------------------------------------------------------------- the three-phase breaker

  /** Counting failures; shut since an instant; or ready to probe. Time alone leads from Shut to Probing. */
  datatype Phase = Counting(failures: int) | Shut(since: Instant) | Probing

  function Lapse(c: Config, p: Phase, now: Instant): Phase {
    if p.Shut? && now - p.since >= c.resetTimeout then Probing else p
  }

  function PhaseStep(c: Config, p: Phase, op: Op): (Phase, Seen) {
    match op
    case Call(_, checkAt, doneAt, outcome) =>
      (match Lapse(c, p, checkAt)
       case Counting(k) =>
         (match outcome
          case Panicked => p
          case Succeeded => Counting(0)
          case Failed => if k + 1 >= c.failureThreshold then Shut(doneAt) else Counting(k + 1),
          Ran(outcome))
       case Shut(_) => (p, TurnedAway)
       case Probing =>
         (match outcome
          case Panicked => Probing
          case Succeeded => Counting(0)
          case Failed => Shut(doneAt),
          Ran(outcome)))
    case Query(at) =>
      (p, Answer(match Lapse(c, p, at) case Counting(_) => Closed case Shut(_) => Open case Probing => HalfOpen))
    case Clear(_) => (Counting(0), Cleared)
  }

  function PhaseAfter(c: Config, p: Phase, ops: seq<Op>): Phase {
    if ops == [] then p else PhaseStep(c, PhaseAfter(c, p, ops[..|ops| - 1]), ops[|ops| - 1]).0
  }

  function PhaseObserve(c: Config, p: Phase, ops: seq<Op>): seq<Seen> {
    if ops == [] then []
    else PhaseObserve(c, p, ops[..|ops| - 1]) + [PhaseStep(c, PhaseAfter(c, p, ops[..|ops| - 1]), ops[|ops| - 1]).1]
  }

  /** The phase a breaker is in at an instant. */
  function View(c: Config, b: Breaker, now: Instant): Phase {
    match b.state
    case Closed => Counting(b.failureCount)
    case Open => Lapse(c, Shut(b.lastFailure), now)
    case HalfOpen => Probing
  }

  lemma {:induction false} StepRefines(c: Config, b: Breaker, p: Phase, op: Op, t: Instant)
    requires Positive(c) && StartsAfter(op, t)
    requires View(c, b, t) == Lapse(c, p, t)
    ensures Perform(c, b, op).1 == PhaseStep(c, p, op).1
    ensures View(c, Perform(c, b, op).0, End(op)) == Lapse(c, PhaseStep(c, p, op).0, End(op))
  {
    ExpiredMeansElapsed(c, b, if op.Call? then op.checkAt else op.at);
  }

  /** Used sequentially, the breaker is indistinguishable from the three-phase breaker, in which `State()`
      changes nothing and Open and HalfOpen, the counter and lastFailure are merged where nobody can tell. */
  lemma {:induction false} RefinesPhases(c: Config, b: Breaker, ops: seq<Op>, t: Instant)
    requires Positive(c) && Follows(ops, t)
    ensures Observe(c, b, ops) == PhaseObserve(c, View(c, b, t), ops)
    ensures View(c, Final(c, b, ops), EndOf(ops, t)) == Lapse(c, PhaseAfter(c, View(c, b, t), ops), EndOf(ops, t))
  {
    if ops != [] {
      var init, op := ops[..|ops| - 1], ops[|ops| - 1];
      RefinesPhases(c, b, init, t);
      StepRefines(c, Final(c, b, init), PhaseAfter(c, View(c, b, t), init), op, EndOf(init, t));
    }
  }

  // ---------------------------------------------------------------- runs of failing calls

  predicate OnlyCalls(ops: seq<Op>) {
    forall k | 0 <= k < |ops| :: ops[k].Call?
  }

  /** k failing calls at one instant. */
  function Failures(k: nat, t: Instant): (ops: seq<Op>)
    ensures OnlyCalls(ops)
  {
    if k == 0 then [] else Failures(k - 1, t) + [Call(t, t, t, Failed)]
  }

  lemma {:induction false} PhaseAppend(c: Config, p: Phase, ops: seq<Op>, op: Op, t: Instant)
    requires OnlyCalls(ops) && op.Call? && Follows(ops, t) && StartsAfter(op, EndOf(ops, t))
    ensures OnlyCalls(ops + [op]) && Follows(ops + [op], t) && EndOf(ops + [op], t) == op.doneAt
    ensures PhaseAfter(c, p, ops + [op]) == PhaseStep(c, PhaseAfter(c, p, ops), op).0
    ensures PhaseObserve(c, p, ops + [op]) == PhaseObserve(c, p, ops) + [PhaseStep(c, PhaseAfter(c, p, ops), op).1]
  {
    assert (ops + [op])[..|ops|] == ops && (ops + [op])[|ops|] == op;
  }

  lemma {:induction false} PhaseAfterFailures(c: Config, j: nat, k: nat, t: Instant)
    requires Positive(c) && j < c.failureThreshold
    ensures Follows(Failures(k, t), t) && EndOf(Failures(k, t), t) == t
    ensures j + k < c.failureThreshold ==> PhaseAfter(c, Counting(j), Failures(k, t)) == Counting(j + k)
    ensures j + k == c.failureThreshold ==> PhaseAfter(c, Counting(j), Failures(k, t)) == Shut(t)
  {
    if k > 0 {
      PhaseAfterFailures(c, j, k - 1, t);
      PhaseAppend(c, Counting(j), Failures(k - 1, t), Call(t, t, t, Failed), t);
    }
  }

  lemma {:induction false} LastDiffers<T>(xs: seq<T>, ys: seq<T>, x: T, y: T)
    requires x != y
    ensures xs + [x] != ys + [y]
  {
    if |xs| == |ys| {
      assert (xs + [x])[|xs|] != (ys + [y])[|xs|];
    }
  }

  /** Breakers with different counts can be told apart. */
  lemma {:induction false} CountsShow(c: Config, j: nat, k: nat, t: Instant) returns (ops: seq<Op>)
    requires Positive(c) && j < k < c.failureThreshold
    ensures Follows(ops, t) && PhaseObserve(c, Counting(j), ops) != PhaseObserve(c, Counting(k), ops)
  {
    var first, op := Failures(c.failureThreshold - k, t), Call(t, t, t, Failed);
    PhaseAfterFailures(c, j, c.failureThreshold - k, t);
    PhaseAfterFailures(c, k, c.failureThreshold - k, t);
    PhaseAppend(c, Counting(j), first, op, t);
    PhaseAppend(c, Counting(k), first, op, t);
    LastDiffers(PhaseObserve(c, Counting(j), first), PhaseObserve(c, Counting(k), first),
                PhaseStep(c, PhaseAfter(c, Counting(j), first), op).1,
                PhaseStep(c, PhaseAfter(c, Counting(k), first), op).1);
    ops := first + [op];
  }

  // ---------------------------------------------------------------- State() is transparent

  /** The elements whose flag is set. */
  function Filter<T>(xs: seq<T>, keep: seq<bool>): seq<T>
    requires |xs| == |keep|
  {
    if xs == [] then []
    else Filter(xs[..|xs| - 1], keep[..|keep| - 1]) + if keep[|keep| - 1] then [xs[|xs| - 1]] else []
  }

  lemma {:induction false} FilterFollows(ops: seq<Op>, keep: seq<bool>, t: Instant)
    requires |ops| == |keep| && Follows(ops, t)
    ensures Follows(Filter(ops, keep), t) && t <= EndOf(Filter(ops, keep), t) <= EndOf(ops, t)
  {
    if ops != [] {
      var init, op := ops[..|ops| - 1], ops[|ops| - 1];
      FilterFollows(init, keep[..|keep| - 1], t);
      var kept := Filter(init, keep[..|keep| - 1]);
      if keep[|keep| - 1] {
        assert (kept + [op])[..|kept|] == kept && Filter(ops, keep) == kept + [op];
      } else {
        assert Filter(ops, keep) == kept;
      }
    }
  }

  lemma {:induction false} PhasesIgnoreQueries(c: Config, p: Phase, ops: seq<Op>, keep: seq<bool>)
    requires |ops| == |keep| && forall k | 0 <= k < |ops| :: keep[k] || ops[k].Query?
    ensures PhaseAfter(c, p, Filter(ops, keep)) == PhaseAfter(c, p, ops)
    ensures |PhaseObserve(c, p, ops)| == |ops|
    ensures PhaseObserve(c, p, Filter(ops, keep)) == Filter(PhaseObserve(c, p, ops), keep)
  {
    if ops != [] {
      var init, op := ops[..|ops| - 1], ops[|ops| - 1];
      var keepInit := keep[..|keep| - 1];
      PhasesIgnoreQueries(c, p, init, keepInit);
      var kept := Filter(init, keepInit);
      if keep[|keep| - 1] {
        assert (kept + [op])[..|kept|] == kept && Filter(ops, keep) == kept + [op];
      } else {
        assert op.Query? && Filter(ops, keep) == kept;
      }
      assert PhaseObserve(c, p, ops)[..|ops| - 1] == PhaseObserve(c, p, init);
    }
  }

  /** Deleting any set of `State()` calls changes no call's result and no other `State()` answer,
      although `State()` itself performs transitions. */
  lemma {:induction false} StateIsTransparent(c: Config, b: Breaker, ops: seq<Op>, keep: seq<bool>, t: Instant)
    requires Positive(c) && Follows(ops, t)
    requires |ops| == |keep| && forall k | 0 <= k < |ops| :: keep[k] || ops[k].Query?
    ensures |Observe(c, b, ops)| == |ops|
    ensures Observe(c, b, Filter(ops, keep)) == Filter(Observe(c, b, ops), keep)
  {
    FilterFollows(ops, keep, t);
    RefinesPhases(c, b, ops, t);
    RefinesPhases(c, b, Filter(ops, keep), t);
    PhasesIgnoreQueries(c, View(c, b, t), ops, keep);
  }

  // ---------------------------------------------------------------- the two restore strategies

  /** When nobody can tell the two strategies apart. */
  predicate StrategiesAgree(c: Config, s: Snapshot, maxAge: Duration, now: Instant) {
    var recent := Since(now, s.createdAt) <= maxAge;
    if s.config == c then recent || s.state == Code(Closed)
    else !(recent && s.state == Code(Open) && now - s.lastFailure >= s.config.resetTimeout)
  }

  ghost predicate Indistinguishable(c: Config, a: Breaker, b: Breaker, now: Instant) {
    forall ops: seq<Op> {:induction false} | Follows(ops, now) :: Observe(c, a, ops) == Observe(c, b, ops)
  }

  lemma {:induction false} SameViewSameRuns(c: Config, a: Breaker, b: Breaker, now: Instant)
    requires Positive(c) && View(c, a, now) == View(c, b, now)
    ensures Indistinguishable(c, a, b, now)
  {
    forall ops: seq<Op> | Follows(ops, now) ensures Observe(c, a, ops) == Observe(c, b, ops) {
      RefinesPhases(c, a, ops, now);
      RefinesPhases(c, b, ops, now);
    }
  }

  /** For any validated snapshot, breakers restored by the two strategies behave alike on every later
      sequential run if and only if the condition holds; in particular whenever the configuration matches
      and the snapshot is recent, though one may be Open with a count and the other HalfOpen with none. */
  lemma {:induction false} RestoreStrategiesAgreeIff(c: Config, s: Snapshot, maxAge: Duration, now: Instant)
    requires Positive(c) && Accepts(DefaultValidator(), s, now)
    ensures Indistinguishable(c,
              NewBreaker(RestoreAll, c, Some(s), now), NewBreaker(Conservative(maxAge), c, Some(s), now), now)
            <==> StrategiesAgree(c, s, maxAge, now)
  {
    DefaultValidatorMeaning(s, now);
    var a, b := NewBreaker(RestoreAll, c, Some(s), now), NewBreaker(Conservative(maxAge), c, Some(s), now);
    if StrategiesAgree(c, s, maxAge, now) {
      SameViewSameRuns(c, a, b, now);
    } else {
      var ask := [Query(now)];
      assert ask[..0] == [];
      assert Observe(c, a, ask) == [Perform(c, a, Query(now)).1];
      assert Observe(c, b, ask) == [Perform(c, b, Query(now)).1];
      assert Follows([], now) && StartsAfter(ask[0], EndOf([], now)) && Follows(ask, now);
    }
  }

  // ---------------------------------------------------------------- the state diagram

  predicate Diagram(from: State, to: State) {
    (from, to) in {(Closed, Open), (Open, HalfOpen), (HalfOpen, Open), (HalfOpen, Closed)}
  }

  /** In a sequential run every transition is an edge of the diagram, or the entry into Closed of a reset. */
  lemma {:induction false} SequentialEdges(c: Config, b: Breaker, ops: seq<Op>)
    requires b.published == []
    ensures forall k | 0 <= k < |Final(c, b, ops).published| ::
              var e := Final(c, b, ops).published[k];
              Diagram(e.from, e.to) || (e.to == Closed && Clear(e.at) in ops)
  {
    if ops != [] {
      var init, op := ops[..|ops| - 1], ops[|ops| - 1];
      SequentialEdges(c, b, init);
      assert ops == init + [op];
      PerformEdges(c, Final(c, b, init), op);
    }
  }

  lemma PerformEdges(c: Config, b: Breaker, op: Op)
    ensures var after := Perform(c, b, op).0.published;
            && b.published <= after
            && forall k | |b.published| <= k < |after| ::
                 Diagram(after[k].from, after[k].to) || (after[k].to == Closed && op == Clear(after[k].at))
  {
  }
}
