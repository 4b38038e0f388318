/** The breaker as a value, and its critical sections as functions on that value.
    Each section reads the clock once, at the instant `now`. */
module Breakers {
  import opened Basics
  import opened Snapshots

  datatype StateChange = StateChange(
    from: State,
    to: State,
    at: Instant,
    failureCount: int,
    failureThreshold: int,
    lastFailure: Instant)

  /** `saved` lists the snapshots handed to the persistence manager, `published` the events handed
      to the event bus, both in the order of the calls. */
  datatype Breaker = Breaker(
    state: State,
    failureCount: int,
    lastFailure: Instant,
    saved: seq<Snapshot>,
    published: seq<StateChange>)

  const FRESH_BREAKER := Breaker(Closed, 0, ZERO_TIME, [], [])

  predicate Expired(c: Config, b: Breaker, now: Instant) {
    Since(now, b.lastFailure) >= c.resetTimeout
  }

  function OnEntry(b: Breaker, now: Instant): Breaker {
    match b.state
    case Closed => b.(failureCount := 0)
    case Open => b.(lastFailure := now)
    case HalfOpen => b
  }

  function FromBreaker(c: Config, b: Breaker, now: Instant): Snapshot {
    Snapshot(CURRENT_VERSION, Code(b.state), b.failureCount, b.lastFailure, c, map[], now)
  }

  function TransitionTo(c: Config, b: Breaker, to: State, now: Instant): Breaker {
    var entered := OnEntry(b.(state := to), now);
    entered.(
      saved := b.saved + [FromBreaker(c, entered, now)],
      published := b.published +
        [StateChange(b.state, to, now, entered.failureCount, c.failureThreshold, entered.lastFailure)])
  }

  /** How an action ends; a panic unwinds past the critical section that would have recorded it. */
  datatype Outcome = Succeeded | Failed | Panicked

  /** A call that fetched Closed comes back. */
  function ClosedDone(c: Config, b: Breaker, failed: bool, now: Instant): Breaker {
    if !failed then b.(failureCount := 0)
    else
      var counted := b.(failureCount := b.failureCount + 1);
      if counted.failureCount >= c.failureThreshold then TransitionTo(c, counted, Open, now) else counted
  }

  /** A call that fetched Open looks at the clock; true means its action now runs as a probe. */
  function OpenCheck(c: Config, b: Breaker, now: Instant): (Breaker, bool) {
    if Expired(c, b, now) then (TransitionTo(c, b, HalfOpen, now), true) else (b, false)
  }

  /** A call that runs as a half-open probe comes back. */
  function HalfOpenDone(c: Config, b: Breaker, failed: bool, now: Instant): Breaker {
    TransitionTo(c, b, if failed then Open else Closed, now)
  }

  /** `State()`; its answer is the state of the result. */
  function Polled(c: Config, b: Breaker, now: Instant): Breaker {
    if b.state == Open && Expired(c, b, now) then TransitionTo(c, b, HalfOpen, now) else b
  }

  function WasReset(c: Config, b: Breaker, now: Instant): Breaker {
    TransitionTo(c, b.(failureCount := 0, lastFailure := ZERO_TIME), Closed, now)
  }

  /** Saturation never matters to the timeout test. */
  lemma ExpiredMeansElapsed(c: Config, b: Breaker, now: Instant)
    requires Positive(c)
    ensures Expired(c, b, now) <==> now - b.lastFailure >= c.resetTimeout
  {
  }

  // ---------------------------------------------------------------- construction and restoring

  datatype Strategy = RestoreAll | Conservative(maxAge: Duration)

  /** The persistence settings, without their callbacks. */
  datatype Persistence = Persistence(
    enabled: bool,
    isAsync: bool,
    attempts: int,
    delay: Duration,
    validator: Option<Validator>,
    restoreOnInit: bool,
    timeout: Duration)

  datatype Setup = Setup(config: Config, strategy: Strategy, persistence: Persistence)

  const DEFAULT_PERSISTENCE :=
    Persistence(true, true, 3, 100_000_000, Some(DefaultValidator()), true, 5 * SECOND)

  const DEFAULT_SETUP := Setup(Config(5, 5 * SECOND), RestoreAll, DEFAULT_PERSISTENCE)

  /** An option; None stands for a nil argument, and `Collaborator` for the repository, event bus, listener,
      middleware and logger options, of which only the presence matters here. */
  datatype Setting =
    | FailureThreshold(threshold: int)
    | ResetTimeout(timeout: Duration)
    | PersistenceSettings(persistence: Persistence)
    | AsyncPersistence(isAsync: bool)
    | PersistenceRetry(attempts: int, delay: Duration)
    | SnapshotValidator(validator: Option<Validator>)
    | RestoreStrategy(strategy: Option<Strategy>)
    | StateRestoration(restoreOnInit: bool)
    | Collaborator(given: bool)

  datatype OptionError =
    | BadThreshold(n: int)
    | BadTimeout(d: Duration)
    | BadAttempts(n: int)
    | BadDelay(d: Duration)
    | Nil

  function Apply(o: Setting, s: Setup): Result<Setup, OptionError> {
    match o
    case FailureThreshold(n) =>
      if n <= 0 then Err(BadThreshold(n)) else Ok(s.(config := s.config.(failureThreshold := n)))
    case ResetTimeout(d) =>
      if d <= 0 then Err(BadTimeout(d)) else Ok(s.(config := s.config.(resetTimeout := d)))
    case PersistenceSettings(p) => Ok(s.(persistence := p))
    case AsyncPersistence(isAsync) => Ok(s.(persistence := s.persistence.(isAsync := isAsync)))
    case PersistenceRetry(attempts, delay) =>
      if attempts < 0 then Err(BadAttempts(attempts))
      else if delay < 0 then Err(BadDelay(delay))
      else Ok(s.(persistence := s.persistence.(attempts := attempts, delay := delay)))
    case SnapshotValidator(validator) =>
      if validator == None then Err(Nil) else Ok(s.(persistence := s.persistence.(validator := validator)))
    case RestoreStrategy(strategy) => if strategy == None then Err(Nil) else Ok(s.(strategy := strategy.value))
    case StateRestoration(restoreOnInit) =>
      Ok(s.(persistence := s.persistence.(restoreOnInit := restoreOnInit)))
    case Collaborator(given) => if given then Ok(s) else Err(Nil)
  }

  /** What `New` makes of its options: the first bad one, else the last value given to each setting. */
  function Configure(os: seq<Setting>): Result<Setup, OptionError> {
    if os == [] then Ok(DEFAULT_SETUP)
    else match Configure(os[..|os| - 1])
      case Ok(s) => Apply(os[|os| - 1], s)
      case Err(e) => Err(e)
  }

  /** What is wrong with an option, if anything. */
  function OptionFault(o: Setting): Option<OptionError> {
    match o
    case FailureThreshold(n) => if n <= 0 then Some(BadThreshold(n)) else None
    case ResetTimeout(d) => if d <= 0 then Some(BadTimeout(d)) else None
    case PersistenceRetry(attempts, delay) =>
      if attempts < 0 then Some(BadAttempts(attempts)) else if delay < 0 then Some(BadDelay(delay)) else None
    case SnapshotValidator(None) => Some(Nil)
    case RestoreStrategy(None) => Some(Nil)
    case Collaborator(false) => Some(Nil)
    case _ => None
  }

  /** Option i is the first that is wrong. */
  predicate FirstWrong(os: seq<Setting>, i: nat) {
    i < |os| && OptionFault(os[i]).Some? && forall j | 0 <= j < i :: OptionFault(os[j]) == None
  }

  /** `New` fails exactly when some option is wrong, reporting the first such; and a configuration it accepts is
      always positive. */
  lemma {:induction false} ConfigureIsPositive(os: seq<Setting>)
    ensures Configure(os).Ok? <==> forall i | 0 <= i < |os| :: OptionFault(os[i]) == None
    ensures Configure(os).Ok? ==> Positive(Configure(os).value.config)
    ensures Configure(os).Err? ==>
              exists i: nat :: FirstWrong(os, i) && OptionFault(os[i]) == Some(Configure(os).error)
  {
    if os != [] {
      var init, last := os[..|os| - 1], os[|os| - 1];
      ConfigureIsPositive(init);
      assert forall j | 0 <= j < |init| :: init[j] == os[j];
      match Configure(init)
      case Ok(s) =>
        ApplyFails(last, s);
        assert OptionFault(last).Some? ==> FirstWrong(os, |init|);
      case Err(e) =>
        var i: nat :| FirstWrong(init, i) && OptionFault(init[i]) == Some(e);
        assert FirstWrong(os, i);
    }
  }

  lemma ApplyFails(o: Setting, s: Setup)
    ensures match OptionFault(o)
            case Some(e) => Apply(o, s) == Err(e)
            case None => Apply(o, s).Ok? && (Positive(s.config) ==> Positive(Apply(o, s).value.config))
  {
  }

  // What an option gives, if anything, for each setting.

  function ThresholdIn(o: Setting): Option<int> {
    if o.FailureThreshold? then Some(o.threshold) else None
  }

  function TimeoutIn(o: Setting): Option<Duration> {
    if o.ResetTimeout? then Some(o.timeout) else None
  }

  function StrategyIn(o: Setting): Option<Strategy> {
    if o.RestoreStrategy? then o.strategy else None
  }

  /** Some(None) gives the setting that nothing is validated. */
  function ValidatorIn(o: Setting): Option<Option<Validator>> {
    if o.SnapshotValidator? then Some(o.validator)
    else if o.PersistenceSettings? then Some(o.persistence.validator)
    else None
  }

  function RetriesIn(o: Setting): Option<(int, Duration)> {
    if o.PersistenceRetry? then Some((o.attempts, o.delay))
    else if o.PersistenceSettings? then Some((o.persistence.attempts, o.persistence.delay))
    else None
  }

  function RestoringIn(o: Setting): Option<bool> {
    if o.StateRestoration? then Some(o.restoreOnInit)
    else if o.PersistenceSettings? then Some(o.persistence.restoreOnInit)
    else None
  }

  function AsyncIn(o: Setting): Option<bool> {
    if o.AsyncPersistence? then Some(o.isAsync)
    else if o.PersistenceSettings? then Some(o.persistence.isAsync)
    else None
  }

  /** Whether persistence is on, and how long it may take. */
  function LimitsIn(o: Setting): Option<(bool, Duration)> {
    if o.PersistenceSettings? then Some((o.persistence.enabled, o.persistence.timeout)) else None
  }

  /** The last value that a list of options gives, or the default if there is none. */
  function LastGiven<T>(os: seq<Setting>, given: Setting -> Option<T>, default: T): T {
    if os == [] then default
    else match given(os[|os| - 1])
      case Some(x) => x
      case None => LastGiven(os[..|os| - 1], given, default)
  }

  lemma {:induction false} LastGivenMeaning<T>(os: seq<Setting>, given: Setting -> Option<T>, default: T)
    ensures (forall i | 0 <= i < |os| :: given(os[i]) == None) ==> LastGiven(os, given, default) == default
    ensures forall i | 0 <= i < |os| && given(os[i]).Some? && (forall j | i < j < |os| :: given(os[j]) == None) ::
              LastGiven(os, given, default) == given(os[i]).value
  {
    if os != [] {
      var init := os[..|os| - 1];
      LastGivenMeaning(init, given, default);
      assert forall j | 0 <= j < |init| :: init[j] == os[j];
    }
  }

  /** The value an option gives, or else the one before it. */
  function Or<T>(given: Option<T>, before: T): T {
    if given.Some? then given.value else before
  }

  lemma OptionTakesEffect(o: Setting, s: Setup)
    requires OptionFault(o) == None
    ensures Apply(o, s).Ok?
    ensures var after, p := Apply(o, s).value, Apply(o, s).value.persistence;
            && after.config.failureThreshold == Or(ThresholdIn(o), s.config.failureThreshold)
            && after.config.resetTimeout == Or(TimeoutIn(o), s.config.resetTimeout)
            && after.strategy == Or(StrategyIn(o), s.strategy)
            && p.validator == Or(ValidatorIn(o), s.persistence.validator)
            && (p.attempts, p.delay) == Or(RetriesIn(o), (s.persistence.attempts, s.persistence.delay))
            && p.restoreOnInit == Or(RestoringIn(o), s.persistence.restoreOnInit)
            && p.isAsync == Or(AsyncIn(o), s.persistence.isAsync)
            && (p.enabled, p.timeout) == Or(LimitsIn(o), (s.persistence.enabled, s.persistence.timeout))
  {
  }

  /** The setup has for each setting the last value given, and without one the default. */
  predicate Reflects(s: Setup, os: seq<Setting>) {
    var p := s.persistence;
    && s.config.failureThreshold == LastGiven(os, ThresholdIn, 5)
    && s.config.resetTimeout == LastGiven(os, TimeoutIn, 5_000_000_000)
    && s.strategy == LastGiven(os, StrategyIn, RestoreAll)
    && p.validator == LastGiven(os, ValidatorIn, Some(DefaultValidator()))
    && (p.attempts, p.delay) == LastGiven(os, RetriesIn, (3, 100_000_000))
    && p.restoreOnInit == LastGiven(os, RestoringIn, true)
    && p.isAsync == LastGiven(os, AsyncIn, true)
    && (p.enabled, p.timeout) == LastGiven(os, LimitsIn, (true, 5_000_000_000))
  }

  /** Accepted options take effect. */
  lemma {:induction false} OptionsTakeEffect(os: seq<Setting>)
    requires forall i | 0 <= i < |os| :: OptionFault(os[i]) == None
    ensures Configure(os).Ok? && Reflects(Configure(os).value, os)
  {
    if os != [] {
      var init, last := os[..|os| - 1], os[|os| - 1];
      assert forall j | 0 <= j < |init| :: init[j] == os[j];
      OptionsTakeEffect(init);
      OptionTakesEffect(last, Configure(init).value);
      GivenStep(os, ThresholdIn, 5);
      GivenStep(os, TimeoutIn, 5_000_000_000);
      GivenStep(os, StrategyIn, RestoreAll);
      GivenStep(os, ValidatorIn, Some(DefaultValidator()));
      GivenStep(os, RetriesIn, (3, 100_000_000));
      GivenStep(os, RestoringIn, true);
      GivenStep(os, AsyncIn, true);
      GivenStep(os, LimitsIn, (true, 5_000_000_000));
    }
  }

  lemma GivenStep<T>(os: seq<Setting>, given: Setting -> Option<T>, default: T)
    requires os != []
    ensures LastGiven(os, given, default) ==
            Or(given(os[|os| - 1]), LastGiven(os[..|os| - 1], given, default))
  {
  }

  /** Restoring reports success, and changes the breaker even on some failures. */
  function RestoreAllOf(c: Config, b: Breaker, s: Snapshot): (Breaker, bool) {
    if s.config != c then (b, false)
    else
      var counted := b.(failureCount := s.failureCount, lastFailure := s.lastFailure);
      if s.state == Code(Closed) then (counted.(state := Closed), true)
      else if s.state == Code(Open) then (counted.(state := Open), true)
      else if s.state == Code(HalfOpen) then (counted.(state := HalfOpen), true)
      else (counted, false)
  }

  function Restore(st: Strategy, c: Config, b: Breaker, s: Snapshot, now: Instant): (Breaker, bool) {
    match st
    case RestoreAll => RestoreAllOf(c, b, s)
    case Conservative(maxAge) =>
      if Since(now, s.createdAt) > maxAge then (b, false)
      else if ShouldTransitionToHalfOpen(s, now) then
        (b.(state := HalfOpen, failureCount := 0, lastFailure := s.lastFailure), true)
      else RestoreAllOf(c, b, s)
  }

  /** What loading gives, when the repository finds `found`; a load that fails counts as finding nothing. */
  function LoadSnapshot(p: Persistence, found: Option<Snapshot>, now: Instant): Option<Snapshot> {
    if !p.enabled || found == None then None
    else if p.validator.Some? && !Accepts(p.validator.value, found.value, now) then None
    else found
  }

  /** Restore if there is something to restore and that succeeds; otherwise the initial state's entry action. */
  function NewBreaker(st: Strategy, c: Config, loaded: Option<Snapshot>, now: Instant): Breaker {
    match loaded
    case None => OnEntry(FRESH_BREAKER, now)
    case Some(s) =>
      var (b, restored) := Restore(st, c, FRESH_BREAKER, s, now);
      if restored then b else OnEntry(b, now)
  }

  /** The breaker `New` returns for accepted options, given what the repository finds. */
  function Created(s: Setup, found: Option<Snapshot>, now: Instant): Breaker {
    NewBreaker(s.strategy, s.config,
               if s.persistence.restoreOnInit then LoadSnapshot(s.persistence, found, now) else None, now)
  }

  // ---------------------------------------------------------------- what is restored, field by field

  /** An Open snapshot whose timeout has passed. */
  predicate TimedOut(s: Snapshot, now: Instant) {
    s.state == 1 && now - s.lastFailure >= s.config.resetTimeout
  }

  /** Restoring everything needs a matching configuration and a known state, and then copies state, count and
      last failure. With an unknown state it fails, but count and last failure have been copied by then. */
  lemma RestoreAllMeaning(c: Config, b: Breaker, s: Snapshot, now: Instant)
    ensures var (r, ok) := Restore(RestoreAll, c, b, s, now);
            && (ok <==> s.config == c && 0 <= s.state <= 2)
            && r.state == (if !ok then b.state
                           else if s.state == 0 then Closed else if s.state == 1 then Open else HalfOpen)
            && (r.failureCount, r.lastFailure) ==
               (if s.config == c then (s.failureCount, s.lastFailure) else (b.failureCount, b.lastFailure))
            && r.saved == b.saved && r.published == b.published
  {
  }

  /** The conservative strategy refuses what is too old; makes a timed-out Open snapshot HalfOpen without
      failures, whatever the configuration; and leaves every other snapshot to the other strategy. */
  lemma ConservativeMeaning(c: Config, b: Breaker, s: Snapshot, maxAge: Duration, now: Instant)
    requires Accepts(DefaultValidator(), s, now)
    ensures var (r, ok) := Restore(Conservative(maxAge), c, b, s, now);
            if Since(now, s.createdAt) > maxAge then !ok && r == b
            else if TimedOut(s, now) then
              ok && r.state == HalfOpen && r.failureCount == 0 && r.lastFailure == s.lastFailure
              && r.saved == b.saved && r.published == b.published
            else (r, ok) == Restore(RestoreAll, c, b, s, now)
  {
    DefaultValidatorMeaning(s, now);
  }

  /** `New` restores nothing if persistence or restoring is off, nothing is found or the validator rejects it:
      the breaker is then Closed, without failures or a last failure. */
  lemma NothingToRestore(s: Setup, found: Option<Snapshot>, now: Instant)
    requires !s.persistence.restoreOnInit || !s.persistence.enabled || found == None
             || (s.persistence.validator.Some? && !Accepts(s.persistence.validator.value, found.value, now))
    ensures Created(s, found, now) == Breaker(Closed, 0, ZERO_TIME, [], [])
  {
  }

  /** What `New` makes of a snapshot that it loads: the strategy's result if restoring succeeds, and else a
      Closed breaker without failures. */
  lemma {:induction false} CreatedMeaning(s: Setup, found: Snapshot, now: Instant)
    requires s.persistence.restoreOnInit && s.persistence.enabled
    requires s.persistence.validator.Some? ==> Accepts(s.persistence.validator.value, found, now)
    requires Accepts(DefaultValidator(), found, now)
    ensures var b := Created(s, Some(found), now);
            var stale := s.strategy.Conservative? && Since(now, found.createdAt) > s.strategy.maxAge;
            && b.saved == [] && b.published == []
            && (if s.strategy.Conservative? && !stale && TimedOut(found, now) then
                  (b.state, b.failureCount, b.lastFailure) == (HalfOpen, 0, found.lastFailure)
                else if !stale && found.config == s.config then
                  (Code(b.state), b.failureCount, b.lastFailure) == (found.state, found.failureCount, found.lastFailure)
                else (b.state, b.failureCount, b.lastFailure) == (Closed, 0, ZERO_TIME))
  {
    DefaultValidatorMeaning(found, now);
    RestoreAllMeaning(s.config, FRESH_BREAKER, found, now);
    if s.strategy.Conservative? {
      ConservativeMeaning(s.config, FRESH_BREAKER, found, s.strategy.maxAge, now);
    }
  }
}
