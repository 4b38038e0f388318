/** What every reachable state of the concurrent breaker satisfies. */
module Invariants {
  import opened Basics
  import opened Snapshots
  import opened Breakers
  import opened Concurrency

  // ---------------------------------------------------------------- the failure counter

  /** The counter stays below the threshold while Closed, and even stale completions cannot push it,
      together with those still to come, beyond threshold - 1 + n. */
  predicate Bounded(c: Config, n: nat, s: Sys) {
    && 0 <= s.b.failureCount
    && (s.b.state == Closed ==> s.b.failureCount < c.failureThreshold)
    && |s.pcs| == n
    && s.b.failureCount + Count(s.pcs, {RunningClosed}) <= c.failureThreshold - 1 + n
  }

  lemma {:induction false} StepBounded(c: Config, n: nat, m: Sys, l: Label)
    requires Positive(c) && Bounded(c, n, m) && Enabled(m, l)
    ensures Bounded(c, n, Step(c, m, l))
  {
    CountBound(Step(c, m, l).pcs, {RunningClosed});
    if !l.act.Poll? && !l.act.Reset? {
      CountUpdate(m.pcs, {RunningClosed}, l.act.i, Step(c, m, l).pcs[l.act.i]);
    }
  }

  /** Under any interleaving of n callers around a fresh breaker the counter is bounded. */
  lemma {:induction false} CounterBound(c: Config, n: nat, t0: Instant, ls: seq<Label>)
    requires Positive(c)
    requires Run(c, Start(FRESH_BREAKER, n, t0), ls).Some?
    ensures Bounded(c, n, Run(c, Start(FRESH_BREAKER, n, t0), ls).value)
  {
    if ls == [] {
      CountBound(Start(FRESH_BREAKER, n, t0).pcs, {RunningClosed});
    } else {
      var init, m, l := RunSplit(c, Start(FRESH_BREAKER, n, t0), ls);
      CounterBound(c, n, t0, init);
      StepBounded(c, n, m, l);
    }
  }

  /** The counter, and its increment by a call still to come back, fit a 64-bit int. */
  predicate Fits(s: Sys) {
    && Wrap64(s.b.failureCount) == s.b.failureCount
    && (RunningClosed in s.pcs ==> Wrap64(s.b.failureCount + 1) == s.b.failureCount + 1)
  }

  lemma {:induction false} BoundedFits(c: Config, n: nat, s: Sys)
    requires Bounded(c, n, s) && c.failureThreshold - 1 + n <= MAX_INT64
    ensures Fits(s)
  {
    if RunningClosed in s.pcs {
      CountPositive(s.pcs);
    }
  }

  /** Hence the increment of Go's 64-bit counter never wraps. */
  lemma {:induction false} CounterNeverWraps(c: Config, n: nat, t0: Instant, ls: seq<Label>)
    requires Positive(c) && c.failureThreshold - 1 + n <= MAX_INT64
    requires Run(c, Start(FRESH_BREAKER, n, t0), ls).Some?
    ensures Fits(Run(c, Start(FRESH_BREAKER, n, t0), ls).value)
  {
    CounterBound(c, n, t0, ls);
    BoundedFits(c, n, Run(c, Start(FRESH_BREAKER, n, t0), ls).value);
  }

  lemma {:induction false} CountPositive(pcs: seq<PC>)
    requires RunningClosed in pcs
    ensures Count(pcs, {RunningClosed}) > 0
  {
    if pcs[0] != RunningClosed {
      CountPositive(pcs[1..]);
    }
  }

  // ---------------------------------------------------------------- the counter as a history

  predicate IsCountedFailure(o: Obs) {
    o.what.Finished? && !o.what.half && o.what.outcome == Failed
  }

  /** A success of a call that fetched Closed, or an entry into Closed, forgets what came before. */
  predicate Forgets(o: Obs) {
    (o.what.Finished? && !o.what.half && o.what.outcome == Succeeded) || o.entered == Some(Closed)
  }

  predicate StillCounts(trace: seq<Obs>, k: nat) {
    k < |trace| && IsCountedFailure(trace[k]) && forall j | k <= j < |trace| :: !Forgets(trace[j])
  }

  function LiveFailures(trace: seq<Obs>): set<nat> {
    set k: nat | k < |trace| && StillCounts(trace, k)
  }

  lemma {:induction false} LiveFailuresStep(trace: seq<Obs>, o: Obs)
    requires IsCountedFailure(o) ==> !Forgets(o)
    ensures LiveFailures(trace + [o]) ==
            if Forgets(o) then {}
            else if IsCountedFailure(o) then LiveFailures(trace) + {|trace|}
            else LiveFailures(trace)
    ensures |LiveFailures(trace + [o])| ==
            if Forgets(o) then 0
            else if IsCountedFailure(o) then |LiveFailures(trace)| + 1
            else |LiveFailures(trace)|
  {
    var longer := trace + [o];
    assert longer[|trace|] == o;
    forall k: nat | k < |trace|
      ensures StillCounts(longer, k) <==> StillCounts(trace, k) && !Forgets(o)
    {
      assert forall j | 0 <= j < |trace| :: longer[j] == trace[j];
    }
    assert StillCounts(longer, |trace|) <==> IsCountedFailure(o) && !Forgets(o);
  }

  lemma {:induction false} StepCounts(c: Config, m: Sys, l: Label) returns (o: Obs)
    requires Positive(c) && Enabled(m, l)
    ensures Step(c, m, l).trace == m.trace + [o] && (IsCountedFailure(o) ==> !Forgets(o))
    ensures Step(c, m, l).b.failureCount ==
            if Forgets(o) then 0 else if IsCountedFailure(o) then m.b.failureCount + 1 else m.b.failureCount
  {
    o := StepTrace(c, m, l);
    assert o == Step(c, m, l).trace[|m.trace|];
  }

  /** Under any interleaving the counter is the number of failures, among calls that fetched Closed,
      since the last success of such a call and the last entry into Closed; also while Open or HalfOpen. */
  lemma {:induction false} CounterIsHistory(c: Config, n: nat, t0: Instant, ls: seq<Label>)
    requires Positive(c)
    requires Run(c, Start(FRESH_BREAKER, n, t0), ls).Some?
    ensures var s := Run(c, Start(FRESH_BREAKER, n, t0), ls).value;
            s.b.failureCount == |LiveFailures(s.trace)|
  {
    if ls != [] {
      var init, m, l := RunSplit(c, Start(FRESH_BREAKER, n, t0), ls);
      CounterIsHistory(c, n, t0, init);
      var o := StepCounts(c, m, l);
      LiveFailuresStep(m.trace, o);
    }
  }

  // ---------------------------------------------------------------- events and snapshots

  /** Event and snapshot of one transition tell the same story. */
  predicate Matches(e: StateChange, s: Snapshot) {
    && s.state == Code(e.to) && s.createdAt == e.at && s.config.failureThreshold == e.failureThreshold
    && s.failureCount == e.failureCount && s.lastFailure == e.lastFailure
  }

  /** The step made no transition: nothing is saved or published, and neither state nor lastFailure moves. */
  predicate Quiet(before: Breaker, after: Breaker) {
    && after.published == before.published && after.saved == before.saved
    && after.state == before.state && after.lastFailure == before.lastFailure
  }

  /** The step made one transition, and emitted the event e and the snapshot s for it. */
  predicate Emits(before: Breaker, after: Breaker, e: StateChange, s: Snapshot) {
    && after.published == before.published + [e] && after.saved == before.saved + [s]
    && e.from == before.state && e.to == after.state
    && s.failureCount == after.failureCount && s.lastFailure == after.lastFailure
    && Matches(e, s)
  }

  lemma StepEmits(c: Config, s: Sys, l: Label)
    requires Enabled(s, l)
    ensures var t := Step(c, s, l);
            var o := t.trace[|s.trace|];
            && t.now == l.at == o.at && |t.pcs| == |s.pcs|
            && (o.entered == None ==> Quiet(s.b, t.b))
            && (o.entered != None ==>
                  && o.entered == Some(t.b.state)
                  && t.b.published != [] && t.b.saved != [] && t.b.saved[|t.b.saved| - 1].config == c
                  && t.b.published[|t.b.published| - 1].at == l.at
                  && Emits(s.b, t.b, t.b.published[|t.b.published| - 1], t.b.saved[|t.b.saved| - 1]))
  {
  }

  /** The events form one path of states from `first` to `last`. */
  predicate Path(first: State, events: seq<StateChange>, last: State) {
    && (events == [] ==> last == first)
    && (events != [] ==> events[0].from == first && events[|events| - 1].to == last)
    && forall k | 0 < k < |events| :: events[k].from == events[k - 1].to
  }

  predicate Paired(b: Breaker) {
    && |b.saved| == |b.published|
    && forall k | 0 <= k < |b.saved| :: Matches(b.published[k], b.saved[k])
  }

  predicate InOrder(events: seq<StateChange>, t0: Instant, now: Instant) {
    && (forall k | 0 < k < |events| :: events[k - 1].at <= events[k].at)
    && (forall k | 0 <= k < |events| :: t0 <= events[k].at <= now)
  }

  /** Published transitions form a connected path ending in the current state, the i-th snapshot
      belongs to the i-th event, and event times never decrease. */
  lemma {:induction false} TransitionsFormAPath(c: Config, b: Breaker, n: nat, t0: Instant, ls: seq<Label>)
    requires b.saved == [] && b.published == []
    requires Run(c, Start(b, n, t0), ls).Some?
    ensures var s := Run(c, Start(b, n, t0), ls).value;
            && Path(b.state, s.b.published, s.b.state)
            && Paired(s.b)
            && t0 <= s.now && InOrder(s.b.published, t0, s.now)
  {
    if ls != [] {
      var init, m, l := RunSplit(c, Start(b, n, t0), ls);
      TransitionsFormAPath(c, b, n, t0, init);
      StepEmits(c, m, l);
    }
  }

  /** What `New` can return, as far as the next snapshots are concerned. */
  predicate Sound(b: Breaker) {
    b.failureCount >= 0
  }

  /** With the default validator, or the strict one, whatever the repository holds. */
  lemma {:induction false} NewIsSound(s: Setup, found: Option<Snapshot>, now: Instant)
    requires s.persistence.validator.Some?
    requires s.persistence.validator.value == DefaultValidator()
             || exists maxAge :: s.persistence.validator.value == StrictValidator(maxAge)
    ensures Sound(Created(s, found, now))
    ensures Created(s, found, now).saved == [] && Created(s, found, now).published == []
  {
    if found.Some? {
      DefaultValidatorMeaning(found.value, now);
      if maxAge :| s.persistence.validator.value == StrictValidator(maxAge) {
        StrictValidatorMeaning(found.value, maxAge, now);
      }
    }
  }

  /** Every snapshot of s taken by `later` passes the default validator then. */
  predicate AllAccepted(s: Sys, later: Instant) {
    && |s.b.saved| == |s.b.published|
    && forall k | 0 <= k < |s.b.saved| && s.b.published[k].at <= later ::
         Accepts(DefaultValidator(), s.b.saved[k], later)
  }

  lemma {:induction false} StepAccepted(c: Config, m: Sys, l: Label, later: Instant)
    requires Positive(c) && Enabled(m, l) && m.now > ZERO_TIME && Sound(m.b) && AllAccepted(m, later)
    ensures Sound(Step(c, m, l).b) && AllAccepted(Step(c, m, l), later)
  {
    var s := Step(c, m, l);
    StepEmits(c, m, l);
    if |s.b.saved| > |m.b.saved| {
      var last := s.b.saved[|m.b.saved|];
      assert last.version == CURRENT_VERSION && last.config == c;
      DefaultValidatorMeaning(last, later);
    }
  }

  /** Every snapshot taken, from whatever `New` returned, passes the default validator then and at any
      later instant: `Save` never rejects one, and neither does a later `Load`. */
  lemma {:induction false} SnapshotsAreValid(c: Config, b: Breaker, n: nat, t0: Instant, ls: seq<Label>, later: Instant)
    requires Positive(c) && t0 > ZERO_TIME
    requires Sound(b) && b.saved == [] && b.published == []
    requires Run(c, Start(b, n, t0), ls).Some?
    ensures var s := Run(c, Start(b, n, t0), ls).value;
            Sound(s.b) && s.now >= t0 && AllAccepted(s, later)
  {
    if ls != [] {
      var init, m, l := RunSplit(c, Start(b, n, t0), ls);
      SnapshotsAreValid(c, b, n, t0, init, later);
      StepAccepted(c, m, l, later);
      var o := StepTrace(c, m, l);
    }
  }
}
