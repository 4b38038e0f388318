/** The lighter breaker that guards an event listener, compared with the full one. */
module ListenerBreakers {
  import opened Basics
  import opened Snapshots
  import opened Breakers
  import opened Sequential

  datatype Light = Light(failures: int, lastFailure: Instant, isOpen: bool)

  const FRESH_LIGHT := Light(0, ZERO_TIME, false)

  /** The check on entry; true means the listener now runs. */
  function Enter(resetTimeout: Duration, b: Light, now: Instant): (Light, bool) {
    var checked :=
      if b.isOpen && Since(now, b.lastFailure) >= resetTimeout then b.(isOpen := false, failures := 0) else b;
    (checked, !checked.isOpen)
  }

  /** The bookkeeping when the listener comes back, to whatever the breaker is by then. */
  function Leave(maxFailures: int, b: Light, failed: bool, now: Instant): Light {
    if failed then Light(b.failures + 1, now, b.isOpen || b.failures + 1 >= maxFailures) else b.(failures := 0)
  }

  /** One call with no other in between. A listener that panics is never booked. */
  function Guard(maxFailures: int, resetTimeout: Duration, b: Light, op: Op): (Light, Seen)
    requires op.Call?
  {
    var (entered, admitted) := Enter(resetTimeout, b, op.checkAt);
    if !admitted then (entered, TurnedAway)
    else
      (if op.outcome == Panicked then entered else Leave(maxFailures, entered, op.outcome == Failed, op.doneAt),
       Ran(op.outcome))
  }

  function LightAfter(maxFailures: int, resetTimeout: Duration, ops: seq<Op>): Light
    requires OnlyCalls(ops)
  {
    if ops == [] then FRESH_LIGHT
    else Guard(maxFailures, resetTimeout, LightAfter(maxFailures, resetTimeout, ops[..|ops| - 1]), ops[|ops| - 1]).0
  }

  function LightObserve(maxFailures: int, resetTimeout: Duration, ops: seq<Op>): seq<Seen>
    requires OnlyCalls(ops)
  {
    if ops == [] then []
    else
      LightObserve(maxFailures, resetTimeout, ops[..|ops| - 1]) +
      [Guard(maxFailures, resetTimeout, LightAfter(maxFailures, resetTimeout, ops[..|ops| - 1]), ops[|ops| - 1]).1]
  }

  class ListenerBreaker {
    var failures: int
    var lastFailure: Instant
    var isOpen: bool
    const maxFailures: int
    const resetTimeout: Duration

    function Value(): Light
      reads this
    {
      Light(failures, lastFailure, isOpen)
    }

    constructor (maxFailures: int, resetTimeout: Duration)
      ensures Value() == FRESH_LIGHT && this.maxFailures == maxFailures && this.resetTimeout == resetTimeout
    {
      this.maxFailures, this.resetTimeout := maxFailures, resetTimeout;
      failures, lastFailure, isOpen := 0, ZERO_TIME, false;
    }

    method CheckIn(now: Instant) returns (admitted: bool)
      modifies this
      ensures (Value(), admitted) == Enter(resetTimeout, old(Value()), now)
    {
      if isOpen && Since(now, lastFailure) >= resetTimeout {
        isOpen := false;
        failures := 0;
      }
      return !isOpen;
    }

    method CheckOut(failed: bool, now: Instant)
      modifies this
      ensures Value() == Leave(maxFailures, old(Value()), failed, now)
    {
      if failed {
        failures := failures + 1;
        lastFailure := now;
        if failures >= maxFailures {
          isOpen := true;
        }
      } else {
        failures := 0;
      }
    }

    /** One whole call, with no other in between. */
    method OnEvent(op: Op) returns (seen: Seen)
      requires op.Call?
      modifies this
      ensures (Value(), seen) == Guard(maxFailures, resetTimeout, old(Value()), op)
    {
      var admitted := CheckIn(op.checkAt);
      if !admitted {
        return TurnedAway;
      }
      if op.outcome != Panicked {
        CheckOut(op.outcome == Failed, op.doneAt);
      }
      return Ran(op.outcome);
    }
  }

  // ---------------------------------------------------------------- when the two coincide

  /** At threshold 1 a full breaker that counts nothing and one that probes are both a closed light one. */
  predicate Matching(c: Config, p: Phase, b: Light, t: Instant) {
    && b.failures >= 0
    && if b.isOpen && t - b.lastFailure < c.resetTimeout then Lapse(c, p, t) == Shut(b.lastFailure)
       else Lapse(c, p, t) == Counting(0) || Lapse(c, p, t) == Probing
  }

  lemma StepMatches(c: Config, maxFailures: int, p: Phase, b: Light, op: Op, t: Instant)
    requires Positive(c) && c.failureThreshold == 1 && maxFailures <= 1
    requires op.Call? && StartsAfter(op, t) && Matching(c, p, b, t)
    ensures PhaseStep(c, p, op).1 == Guard(maxFailures, c.resetTimeout, b, op).1
    ensures Matching(c, PhaseStep(c, p, op).0, Guard(maxFailures, c.resetTimeout, b, op).0, End(op))
  {
  }

  lemma {:induction false} RunMatches(c: Config, maxFailures: int, ops: seq<Op>, t: Instant)
    requires Positive(c) && c.failureThreshold == 1 && maxFailures <= 1
    requires OnlyCalls(ops) && Follows(ops, t)
    ensures PhaseObserve(c, Counting(0), ops) == LightObserve(maxFailures, c.resetTimeout, ops)
    ensures Matching(c, PhaseAfter(c, Counting(0), ops), LightAfter(maxFailures, c.resetTimeout, ops), EndOf(ops, t))
  {
    if ops != [] {
      var init, op := ops[..|ops| - 1], ops[|ops| - 1];
      RunMatches(c, maxFailures, init, t);
      StepMatches(c, maxFailures, PhaseAfter(c, Counting(0), init), LightAfter(maxFailures, c.resetTimeout, init),
                  op, EndOf(init, t));
    }
  }

  ghost predicate Coincide(c: Config, maxFailures: int, t: Instant) {
    forall ops: seq<Op> {:induction false} | OnlyCalls(ops) && Follows(ops, t) ::
      Observe(c, FRESH_BREAKER, ops) == LightObserve(maxFailures, c.resetTimeout, ops)
  }

  lemma {:induction false} LightAppend(maxFailures: int, resetTimeout: Duration, ops: seq<Op>, op: Op)
    requires OnlyCalls(ops) && op.Call?
    ensures OnlyCalls(ops + [op])
    ensures var b := LightAfter(maxFailures, resetTimeout, ops);
            && LightAfter(maxFailures, resetTimeout, ops + [op]) == Guard(maxFailures, resetTimeout, b, op).0
            && LightObserve(maxFailures, resetTimeout, ops + [op]) ==
               LightObserve(maxFailures, resetTimeout, ops) + [Guard(maxFailures, resetTimeout, b, op).1]
  {
    assert (ops + [op])[..|ops|] == ops && (ops + [op])[|ops|] == op;
  }

  lemma {:induction false} LightAfterFailures(maxFailures: int, resetTimeout: Duration, k: nat, t: Instant)
    ensures var b := LightAfter(maxFailures, resetTimeout, Failures(k, t));
            && (k == 0 || k < maxFailures ==> b.failures == k && !b.isOpen)
            && (k <= maxFailures ==> b.failures == k)
            && (k > 0 && (k == maxFailures || (k == 1 && maxFailures <= 1)) ==> b.lastFailure == t && b.isOpen)
  {
    if k > 0 {
      LightAfterFailures(maxFailures, resetTimeout, k - 1, t);
      LightAppend(maxFailures, resetTimeout, Failures(k - 1, t), Call(t, t, t, Failed));
    }
  }

  lemma {:induction false} NextCallDiffers(c: Config, maxFailures: int, ops: seq<Op>, op: Op, t: Instant)
    requires OnlyCalls(ops) && op.Call? && Follows(ops, t) && StartsAfter(op, EndOf(ops, t))
    requires PhaseStep(c, PhaseAfter(c, Counting(0), ops), op).1 !=
             Guard(maxFailures, c.resetTimeout, LightAfter(maxFailures, c.resetTimeout, ops), op).1
    ensures OnlyCalls(ops + [op]) && Follows(ops + [op], t)
    ensures PhaseObserve(c, Counting(0), ops + [op]) != LightObserve(maxFailures, c.resetTimeout, ops + [op])
  {
    PhaseAppend(c, Counting(0), ops, op, t);
    LightAppend(maxFailures, c.resetTimeout, ops, op);
    LastDiffers(PhaseObserve(c, Counting(0), ops), LightObserve(maxFailures, c.resetTimeout, ops),
                PhaseStep(c, PhaseAfter(c, Counting(0), ops), op).1,
                Guard(maxFailures, c.resetTimeout, LightAfter(maxFailures, c.resetTimeout, ops), op).1);
  }

  /** With unequal limits, the one that opens first turns away a call the other runs. */
  lemma {:induction false} LimitsDiffer(c: Config, maxFailures: int, t: Instant) returns (ops: seq<Op>)
    requires Positive(c) && c.failureThreshold != (if maxFailures <= 1 then 1 else maxFailures)
    ensures OnlyCalls(ops) && Follows(ops, t)
    ensures PhaseObserve(c, Counting(0), ops) != LightObserve(maxFailures, c.resetTimeout, ops)
  {
    var limit := if maxFailures <= 1 then 1 else maxFailures;
    var first: nat := if limit < c.failureThreshold then limit else c.failureThreshold;
    PhaseAfterFailures(c, 0, first, t);
    LightAfterFailures(maxFailures, c.resetTimeout, first, t);
    NextCallDiffers(c, maxFailures, Failures(first, t), Call(t, t, t, Failed), t);
    ops := Failures(first, t) + [Call(t, t, t, Failed)];
  }

  /** With equal limits above 1, a failing probe re-opens the full breaker and not the light one. */
  lemma {:induction false} ProbesDiffer(c: Config, t: Instant) returns (ops: seq<Op>)
    requires Positive(c) && c.failureThreshold > 1
    ensures OnlyCalls(ops) && Follows(ops, t)
    ensures PhaseObserve(c, Counting(0), ops) != LightObserve(c.failureThreshold, c.resetTimeout, ops)
  {
    var n := c.failureThreshold;
    PhaseAfterFailures(c, 0, n, t);
    LightAfterFailures(n, c.resetTimeout, n, t);
    var late := t + c.resetTimeout;
    var probe := Call(late, late, late, Failed);
    PhaseAppend(c, Counting(0), Failures(n, t), probe, t);
    LightAppend(n, c.resetTimeout, Failures(n, t), probe);
    NextCallDiffers(c, n, Failures(n, t) + [probe], probe, t);
    ops := Failures(n, t) + [probe] + [probe];
  }

  /** The light breaker admits, on every sequential run, exactly the calls the full breaker with the same
      timeout admits, if and only if the full one's threshold is 1 and the light one's limit at most 1. */
  lemma {:induction false} CoincideIff(c: Config, maxFailures: int, t: Instant)
    requires Positive(c)
    ensures Coincide(c, maxFailures, t) <==> c.failureThreshold == 1 && maxFailures <= 1
  {
    if c.failureThreshold == 1 && maxFailures <= 1 {
      forall ops: seq<Op> | OnlyCalls(ops) && Follows(ops, t)
        ensures Observe(c, FRESH_BREAKER, ops) == LightObserve(maxFailures, c.resetTimeout, ops)
      {
        RefinesPhases(c, FRESH_BREAKER, ops, t);
        RunMatches(c, maxFailures, ops, t);
      }
    } else {
      var ops;
      if c.failureThreshold == maxFailures {
        ops := ProbesDiffer(c, t);
      } else {
        ops := LimitsDiffer(c, maxFailures, t);
      }
      RefinesPhases(c, FRESH_BREAKER, ops, t);
    }
  }

  function CallFlags(ops: seq<Op>): seq<bool> {
    seq(|ops|, k requires 0 <= k < |ops| => ops[k].Call?)
  }

  lemma {:induction false} FilterGivesCalls(ops: seq<Op>, keep: seq<bool>)
    requires |keep| == |ops| && forall k | 0 <= k < |ops| :: keep[k] ==> ops[k].Call?
    ensures OnlyCalls(Filter(ops, keep))
  {
    if ops != [] {
      FilterGivesCalls(ops[..|ops| - 1], keep[..|keep| - 1]);
    }
  }

  /** The agreement at threshold 1 survives any `State()` calls made on the full breaker in between. */
  lemma {:induction false} CoincideDespiteQueries(c: Config, maxFailures: int, ops: seq<Op>, t: Instant)
    requires Positive(c) && c.failureThreshold == 1 && maxFailures <= 1
    requires Follows(ops, t) && forall k | 0 <= k < |ops| :: !ops[k].Clear?
    ensures |Observe(c, FRESH_BREAKER, ops)| == |ops| && OnlyCalls(Filter(ops, CallFlags(ops)))
    ensures Filter(Observe(c, FRESH_BREAKER, ops), CallFlags(ops)) ==
            LightObserve(maxFailures, c.resetTimeout, Filter(ops, CallFlags(ops)))
  {
    var keep := CallFlags(ops);
    FilterGivesCalls(ops, keep);
    StateIsTransparent(c, FRESH_BREAKER, ops, keep, t);
    FilterFollows(ops, keep, t);
    CoincideIff(c, maxFailures, t);
    assert Coincide(c, maxFailures, t);
  }

  // ---------------------------------------------------------------- the light breaker as a history

  /** Enough failures in a row to be open. */
  predicate Reached(maxFailures: int, failures: nat) {
    failures > 0 && failures >= maxFailures
  }

  /** The failures in a row that calls have shown, since the last success or re-closing. A call that runs
      although enough have failed re-closes the circuit; one that is turned away or panics changes nothing. */
  function Streak(maxFailures: int, seen: seq<Seen>): nat {
    if seen == [] then 0
    else
      var before, last := Streak(maxFailures, seen[..|seen| - 1]), seen[|seen| - 1];
      var since := if Reached(maxFailures, before) && last.Ran? then 0 else before;
      if last == Ran(Failed) then since + 1 else if last == Ran(Succeeded) then 0 else since
  }

  /** When the last call that failed came back; the zero time if there is none. */
  function LastFailed(ops: seq<Op>, seen: seq<Seen>): Instant
    requires |ops| == |seen|
  {
    if seen == [] then ZERO_TIME
    else if seen[|seen| - 1] == Ran(Failed) then End(ops[|ops| - 1])
    else LastFailed(ops[..|ops| - 1], seen[..|seen| - 1])
  }

  /** After every sequential run the failure count is the streak, the circuit is open exactly if that is long
      enough, and the last failure is that of the last call that failed. */
  lemma {:induction false} LightIsHistory(maxFailures: int, resetTimeout: Duration, ops: seq<Op>)
    requires OnlyCalls(ops)
    ensures var b, seen := LightAfter(maxFailures, resetTimeout, ops), LightObserve(maxFailures, resetTimeout, ops);
            && |seen| == |ops|
            && b.failures == Streak(maxFailures, seen)
            && (b.isOpen <==> Reached(maxFailures, b.failures))
            && b.lastFailure == LastFailed(ops, seen)
  {
    if ops != [] {
      var init := ops[..|ops| - 1];
      LightIsHistory(maxFailures, resetTimeout, init);
      assert LightObserve(maxFailures, resetTimeout, ops)[..|init|] == LightObserve(maxFailures, resetTimeout, init);
    }
  }

  /** A call is turned away exactly if enough have failed in a row and the timeout has not passed since the last
      failure; otherwise it runs. */
  lemma {:induction false} TurnedAwayIff(maxFailures: int, resetTimeout: Duration, ops: seq<Op>, op: Op)
    requires OnlyCalls(ops) && op.Call? && resetTimeout > 0
    ensures var seen := LightObserve(maxFailures, resetTimeout, ops);
            && |seen| == |ops| && OnlyCalls(ops + [op])
            && LightObserve(maxFailures, resetTimeout, ops + [op]) == seen +
               [if Reached(maxFailures, Streak(maxFailures, seen)) && op.checkAt - LastFailed(ops, seen) < resetTimeout
                then TurnedAway else Ran(op.outcome)]
  {
    LightIsHistory(maxFailures, resetTimeout, ops);
    LightAppend(maxFailures, resetTimeout, ops, op);
  }

  // ---------------------------------------------------------------- when the light breaker opens

  /** After every sequential run it is open exactly if it has failures and at least the limit of them. */
  lemma {:induction false} OpensAtTheLimit(maxFailures: int, resetTimeout: Duration, ops: seq<Op>)
    requires OnlyCalls(ops)
    ensures var b := LightAfter(maxFailures, resetTimeout, ops);
            b.failures >= 0 && (b.isOpen <==> b.failures > 0 && b.failures >= maxFailures)
  {
    if ops != [] {
      OpensAtTheLimit(maxFailures, resetTimeout, ops[..|ops| - 1]);
    }
  }

  /** "If the listener fails consecutively more than maxFailures times, the circuit opens": after every
      sequential run with failures to count, the circuit is open exactly if there are more than the limit. */
  ghost predicate OpensAfterMore(maxFailures: int, resetTimeout: Duration, t: Instant) {
    forall ops: seq<Op> {:induction false} | OnlyCalls(ops) && Follows(ops, t) ::
      var b := LightAfter(maxFailures, resetTimeout, ops);
      b.failures > 0 ==> (b.isOpen <==> b.failures > maxFailures)
  }

  /** With a positive limit, just as many failures as the limit allows open the circuit already. */
  lemma {:induction false} OpensTooEarly(maxFailures: int, resetTimeout: Duration, t: Instant) returns (ops: seq<Op>)
    requires maxFailures > 0
    ensures OnlyCalls(ops) && Follows(ops, t) && ops == Failures(maxFailures, t)
    ensures var b := LightAfter(maxFailures, resetTimeout, ops); b.isOpen && b.failures == maxFailures
  {
    ops := Failures(maxFailures, t);
    FailuresFollow(maxFailures, t);
    LightAfterFailures(maxFailures, resetTimeout, maxFailures, t);
  }

  lemma {:induction false} FailuresFollow(k: nat, t: Instant)
    ensures Follows(Failures(k, t), t) && EndOf(Failures(k, t), t) == t
  {
    if k > 0 {
      FailuresFollow(k - 1, t);
      var init, op := Failures(k - 1, t), Call(t, t, t, Failed);
      assert (init + [op])[..|init|] == init && (init + [op])[|init|] == op;
    }
  }

  /** The sentence is true exactly for limits that are not positive; and for a circuit without failures, which
      is closed, it is true as well exactly at limit 0. */
  lemma {:induction false} OpensAfterMoreIff(maxFailures: int, resetTimeout: Duration, t: Instant)
    ensures OpensAfterMore(maxFailures, resetTimeout, t) <==> maxFailures <= 0
    ensures (forall ops: seq<Op> {:induction false} | OnlyCalls(ops) && Follows(ops, t) ::
               var b := LightAfter(maxFailures, resetTimeout, ops); b.isOpen <==> b.failures > maxFailures)
            <==> maxFailures == 0
  {
    if maxFailures > 0 {
      var ops := OpensTooEarly(maxFailures, resetTimeout, t);
    } else {
      forall ops: seq<Op> | OnlyCalls(ops) && Follows(ops, t)
        ensures var b := LightAfter(maxFailures, resetTimeout, ops);
                && b.failures >= 0
                && (b.isOpen <==> b.failures > 0)
      {
        OpensAtTheLimit(maxFailures, resetTimeout, ops);
      }
      assert OnlyCalls([]) && Follows([], t) && LightAfter(maxFailures, resetTimeout, []) == FRESH_LIGHT;
    }
  }

  // ---------------------------------------------------------------- overlapping calls

  /** A call enters, or one that is running comes back. */
  datatype Act = Entering | Leaving(outcome: Outcome)

  datatype Label = Label(at: Instant, act: Act)

  /** `letIn` lists the instants at which calls were admitted. */
  datatype Shared = Shared(b: Light, running: nat, now: Instant, letIn: seq<Instant>)

  predicate Enabled(s: Shared, l: Label) {
    s.now <= l.at && (l.act.Leaving? ==> s.running > 0)
  }

  function Step(maxFailures: int, resetTimeout: Duration, s: Shared, l: Label): Shared
    requires Enabled(s, l)
  {
    match l.act
    case Entering =>
      var (b, admitted) := Enter(resetTimeout, s.b, l.at);
      if admitted then Shared(b, s.running + 1, l.at, s.letIn + [l.at]) else Shared(b, s.running, l.at, s.letIn)
    case Leaving(outcome) =>
      var b := if outcome == Panicked then s.b else Leave(maxFailures, s.b, outcome == Failed, l.at);
      Shared(b, s.running - 1, l.at, s.letIn)
  }

  function Run(maxFailures: int, resetTimeout: Duration, s: Shared, ls: seq<Label>): Option<Shared> {
    if ls == [] then Some(s)
    else match Run(maxFailures, resetTimeout, s, ls[..|ls| - 1])
      case None => None
      case Some(m) =>
        if Enabled(m, ls[|ls| - 1]) then Some(Step(maxFailures, resetTimeout, m, ls[|ls| - 1])) else None
  }

  /** A call that nobody overlaps is a call of the sequential breaker: turned away, or let in and then back. */
  lemma CallIsTwoSections(maxFailures: int, resetTimeout: Duration, s: Shared, op: Op)
    requires op.Call? && s.now <= op.checkAt <= op.doneAt
    ensures var (b, seen) := Guard(maxFailures, resetTimeout, s.b, op);
            var enter, leave := Label(op.checkAt, Entering), Label(op.doneAt, Leaving(op.outcome));
            var m := Step(maxFailures, resetTimeout, s, enter);
            if seen == TurnedAway then m == Shared(b, s.running, op.checkAt, s.letIn)
            else
              && m.running == s.running + 1 && Enabled(m, leave)
              && Step(maxFailures, resetTimeout, m, leave) ==
                 Shared(b, s.running, op.doneAt, s.letIn + [op.checkAt])
  {
  }

  /** Unlike the full breaker, an open light one has no way out but time: from whatever state, with whatever
      calls running, nobody is let in until the timeout has passed since the last failure. */
  lemma {:induction false} NoWayOutButTime(maxFailures: int, resetTimeout: Duration, s: Shared, ls: seq<Label>)
    requires resetTimeout > 0 && s.b.isOpen && s.b.lastFailure <= s.now
    requires var r := Run(maxFailures, resetTimeout, s, ls); r.Some? && r.value.now < s.b.lastFailure + resetTimeout
    ensures var r := Run(maxFailures, resetTimeout, s, ls).value;
            r.b.isOpen && s.b.lastFailure <= r.b.lastFailure <= r.now && r.letIn == s.letIn
  {
    if ls != [] {
      NoWayOutButTime(maxFailures, resetTimeout, s, ls[..|ls| - 1]);
    }
  }
}
