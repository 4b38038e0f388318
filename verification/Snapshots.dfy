/** The snapshot memento and its validators. */
module Snapshots {
  import opened Basics

  datatype State = Closed | Open | HalfOpen

  /** The integer a state is stored as. */
  function Code(s: State): int {
    match s
    case Closed => 0
    case Open => 1
    case HalfOpen => 2
  }

  datatype Config = Config(failureThreshold: int, resetTimeout: Duration)

  /** What the options guarantee of a configuration. */
  predicate Positive(c: Config) {
    c.failureThreshold > 0 && c.resetTimeout > 0
  }

  const CURRENT_VERSION := 1

  /** `state` is an integer, because a decoded file may hold any. */
  datatype Snapshot = Snapshot(
    version: int,
    state: int,
    failureCount: int,
    lastFailure: Instant,
    config: Config,
    metadata: map<string, string>,
    createdAt: Instant)

  predicate IsExpired(s: Snapshot, now: Instant) {
    s.state == Code(Open) && Since(now, s.lastFailure) >= s.config.resetTimeout
  }

  predicate ShouldTransitionToHalfOpen(s: Snapshot, now: Instant) {
    s.state == Code(Open) && IsExpired(s, now)
  }

  datatype Fault =
    | UnsupportedVersion
    | InvalidState
    | NonPositiveThreshold
    | NonPositiveTimeout
    | NegativeFailureCount
    | LastFailureMissing
    | CountWhileClosed
    | CreatedAtMissing
    | CreatedInFuture
    | TooOld

  datatype Validator =
    | Version(min: int, max: int)
    | ValidState
    | ValidConfig
    | DataConsistency
    | Age(maxAge: Duration)
    | Composite(parts: seq<Validator>)

  function Validate(v: Validator, s: Snapshot, now: Instant): Option<Fault>
    decreases v
  {
    match v
    case Version(min, max) =>
      if s.version < min || s.version > max then Some(UnsupportedVersion) else None
    case ValidState =>
      if s.state in {Code(Closed), Code(Open), Code(HalfOpen)} then None else Some(InvalidState)
    case ValidConfig =>
      if s.config.failureThreshold <= 0 then Some(NonPositiveThreshold)
      else if s.config.resetTimeout <= 0 then Some(NonPositiveTimeout)
      else None
    case DataConsistency => CheckData(s, now)
    case Age(maxAge) => if Since(now, s.createdAt) > maxAge then Some(TooOld) else None
    case Composite(parts) => FirstFault(parts, s, now)
  }

  function CheckData(s: Snapshot, now: Instant): Option<Fault> {
    if s.failureCount < 0 then Some(NegativeFailureCount)
    else if s.state == Code(Open) && s.lastFailure == ZERO_TIME then Some(LastFailureMissing)
    else if s.state == Code(Closed) && s.failureCount != 0 then Some(CountWhileClosed)
    else if s.createdAt == ZERO_TIME then Some(CreatedAtMissing)
    else if s.createdAt > now + MINUTE then Some(CreatedInFuture)
    else None
  }

  function FirstFault(vs: seq<Validator>, s: Snapshot, now: Instant): Option<Fault>
    decreases vs
  {
    if vs == [] then None
    else
      var f := Validate(vs[0], s, now);
      if f.Some? then f else FirstFault(vs[1..], s, now)
  }

  function DefaultValidator(): Validator {
    Composite([Version(1, CURRENT_VERSION), ValidState, ValidConfig, DataConsistency])
  }

  predicate Accepts(v: Validator, s: Snapshot, now: Instant) {
    Validate(v, s, now) == None
  }

  /** A composite accepts exactly what all its parts accept, and otherwise reports the fault of
      a part that no earlier part pre-empts. */
  lemma {:induction false} CompositeReportsFirstFault(vs: seq<Validator>, s: Snapshot, now: Instant)
    ensures Accepts(Composite(vs), s, now) <==> forall i | 0 <= i < |vs| :: Accepts(vs[i], s, now)
    ensures !Accepts(Composite(vs), s, now) ==>
              exists i | 0 <= i < |vs| ::
                && Validate(Composite(vs), s, now) == Validate(vs[i], s, now)
                && forall j | 0 <= j < i :: Accepts(vs[j], s, now)
  {
    if vs == [] {
      assert FirstFault(vs, s, now) == None;
    } else {
      var rest := vs[1..];
      CompositeReportsFirstFault(rest, s, now);
      assert vs == [vs[0]] + rest;
      assert Validate(Composite(vs), s, now) ==
             (if Accepts(vs[0], s, now) then Validate(Composite(rest), s, now) else Validate(vs[0], s, now));
      if Accepts(Composite(vs), s, now) {
        forall i | 0 <= i < |vs| ensures Accepts(vs[i], s, now) {
          assert i > 0 ==> Accepts(rest[i - 1], s, now);
        }
      } else if Accepts(vs[0], s, now) {
        var i :| 0 <= i < |rest| && Validate(Composite(rest), s, now) == Validate(rest[i], s, now)
                 && forall j | 0 <= j < i :: Accepts(rest[j], s, now);
        assert Validate(Composite(vs), s, now) == Validate(vs[i + 1], s, now);
        assert !Accepts(vs[i + 1], s, now);
      } else {
        assert Validate(Composite(vs), s, now) == Validate(vs[0], s, now);
        assert !Accepts(vs[0], s, now);
      }
    }
  }

  /** The standard rules, spelled out. */
  predicate WellFormed(s: Snapshot, now: Instant) {
    && s.version == CURRENT_VERSION
    && (exists st: State :: s.state == Code(st))
    && Positive(s.config)
    && s.failureCount >= 0
    && (s.state == Code(Open) ==> s.lastFailure != ZERO_TIME)
    && (s.state == Code(Closed) ==> s.failureCount == 0)
    && s.createdAt != ZERO_TIME
    && s.createdAt <= now + MINUTE
  }

  lemma {:induction false} DefaultValidatorMeaning(s: Snapshot, now: Instant)
    ensures Accepts(DefaultValidator(), s, now) <==> WellFormed(s, now)
  {
    var vs := DefaultValidator().parts;
    CompositeReportsFirstFault(vs, s, now);
    assert Accepts(vs[0], s, now) <==> s.version == CURRENT_VERSION;
    assert Accepts(vs[1], s, now) <==> exists st: State :: s.state == Code(st) by {
      assert s.state == 0 ==> s.state == Code(Closed);
      assert s.state == 1 ==> s.state == Code(Open);
      assert s.state == 2 ==> s.state == Code(HalfOpen);
    }
    assert Accepts(vs[2], s, now) <==> Positive(s.config);
    assert Accepts(vs[3], s, now) <==> CheckData(s, now) == None;
  }

  function StrictValidator(maxAge: Duration): Validator {
    Composite(DefaultValidator().parts + [Age(maxAge)])
  }

  /** The strict rules add an age limit and nothing else. */
  lemma {:induction false} StrictValidatorMeaning(s: Snapshot, maxAge: Duration, now: Instant)
    ensures Accepts(StrictValidator(maxAge), s, now) <==>
            Accepts(DefaultValidator(), s, now) && Since(now, s.createdAt) <= maxAge
  {
    var vs, ws := DefaultValidator().parts, StrictValidator(maxAge).parts;
    CompositeReportsFirstFault(vs, s, now);
    CompositeReportsFirstFault(ws, s, now);
    assert forall i | 0 <= i < |vs| :: ws[i] == vs[i];
    assert ws[|vs|] == Age(maxAge);
    assert Accepts(Age(maxAge), s, now) <==> Since(now, s.createdAt) <= maxAge;
    if Accepts(StrictValidator(maxAge), s, now) {
      assert forall i | 0 <= i < |vs| :: Accepts(ws[i], s, now);
    } else {
      var i :| 0 <= i < |ws| && !Accepts(ws[i], s, now);
    }
  }

  /** Validators with a parameter accept what lies within it. */
  lemma ParametersAreBounds(min: int, max: int, maxAge: Duration, s: Snapshot, now: Instant)
    ensures Accepts(Version(min, max), s, now) <==> min <= s.version <= max
    ensures Accepts(Age(maxAge), s, now) <==> now - s.createdAt <= maxAge || maxAge == MAX_INT64
  {
  }

  /** What each fault says of a snapshot under the standard rules. */
  predicate Breaks(s: Snapshot, now: Instant, f: Fault) {
    match f
    case UnsupportedVersion => s.version != CURRENT_VERSION
    case InvalidState => !(0 <= s.state <= 2)
    case NonPositiveThreshold => s.config.failureThreshold <= 0
    case NonPositiveTimeout => s.config.resetTimeout <= 0
    case NegativeFailureCount => s.failureCount < 0
    case LastFailureMissing => s.state == 1 && s.lastFailure == ZERO_TIME
    case CountWhileClosed => s.state == 0 && s.failureCount != 0
    case CreatedAtMissing => s.createdAt == ZERO_TIME
    case CreatedInFuture => s.createdAt - now > 60_000_000_000
    case TooOld => false
  }

  /** Which of two faults is reported if both apply: the one of lower rank. */
  function Rank(f: Fault): nat {
    match f
    case UnsupportedVersion => 0
    case InvalidState => 1
    case NonPositiveThreshold => 2
    case NonPositiveTimeout => 3
    case NegativeFailureCount => 4
    case LastFailureMissing => 5
    case CountWhileClosed => 6
    case CreatedAtMissing => 7
    case CreatedInFuture => 8
    case TooOld => 9
  }

  /** The fault reported is one that the snapshot has, and the first of those. */
  lemma {:induction false} DefaultFaultIff(s: Snapshot, now: Instant, f: Fault)
    ensures Validate(DefaultValidator(), s, now) == Some(f) <==>
            Breaks(s, now, f) && forall g: Fault | Rank(g) < Rank(f) :: !Breaks(s, now, g)
  {
    SpelledOut(s, now);
  }

  lemma {:induction false} SpelledOut(s: Snapshot, now: Instant)
    ensures var found := Validate(DefaultValidator(), s, now);
            && (found == None ==> forall g: Fault :: !Breaks(s, now, g))
            && (found.Some? ==> Breaks(s, now, found.value)
                                && forall g: Fault | Rank(g) < Rank(found.value) :: !Breaks(s, now, g))
  {
    var v1, v2, v3, v4 := Version(1, CURRENT_VERSION), ValidState, ValidConfig, DataConsistency;
    assert [v1, v2, v3, v4][1..] == [v2, v3, v4] && [v2, v3, v4][1..] == [v3, v4] && [v3, v4][1..] == [v4];
    assert [v4][1..] == [];
    assert Validate(DefaultValidator(), s, now) == FirstFault([v1, v2, v3, v4], s, now);
  }
}
