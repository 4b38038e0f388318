/** The breaker object: fields updated in place, one method per critical section. */
module CircuitBreakers {
  import opened Basics
  import opened Snapshots
  import opened Breakers
  import Sequential

  class CircuitBreaker {
    var currentState: State
    var failureCount: int
    var lastFailure: Instant
    const failureThreshold: int
    const resetTimeout: Duration

    /** Calls to the persistence manager and to the event bus. */
    var saved: seq<Snapshot>
    var published: seq<StateChange>

    function Settings(): Config {
      Config(failureThreshold, resetTimeout)
    }

    function Value(): Breaker
      reads this
    {
      Breaker(currentState, failureCount, lastFailure, saved, published)
    }

    constructor Bare(c: Config)
      ensures Settings() == c && Value() == FRESH_BREAKER
    {
      failureThreshold, resetTimeout := c.failureThreshold, c.resetTimeout;
      currentState, failureCount, lastFailure := Closed, 0, ZERO_TIME;
      saved, published := [], [];
    }

    /** Options in order up to the first error; then load and restore if that is wanted and possible; and the
        default initialisation if nothing was restored. `found` is what the repository holds. */
    static method New(options: seq<Setting>, found: Option<Snapshot>, now: Instant)
      returns (r: Result<CircuitBreaker, OptionError>)
      // the error of the first wrong option, if there is one
      ensures r.Ok? <==> forall i | 0 <= i < |options| :: OptionFault(options[i]) == None
      ensures r.Err? ==> exists i: nat :: FirstWrong(options, i) && OptionFault(options[i]) == Some(r.error)
      // otherwise the settings last given
      ensures r.Ok? ==>
                && fresh(r.value)
                && r.value.failureThreshold == LastGiven(options, ThresholdIn, 5)
                && r.value.resetTimeout == LastGiven(options, TimeoutIn, 5_000_000_000)
      // and the state that the snapshot found gives under them
      ensures r.Ok? ==> Configure(options).Ok? && r.value.Value() == Created(Configure(options).value, found, now)
      ensures r.Ok? && (!LastGiven(options, RestoringIn, true) || found == None) ==>
                && r.value.currentState == Closed && r.value.failureCount == 0 && r.value.lastFailure == ZERO_TIME
                && r.value.saved == [] && r.value.published == []
    {
      ConfigureIsPositive(options);
      if forall i | 0 <= i < |options| :: OptionFault(options[i]) == None {
        OptionsTakeEffect(options);
      }
      var cfg := DEFAULT_SETUP;
      for i := 0 to |options|
        invariant Configure(options[..i]) == Ok(cfg)
      {
        assert options[..i + 1][..i] == options[..i];
        var applied := Apply(options[i], cfg);
        if applied.Err? {
          FirstErrorStays(options, i + 1);
          return Err(applied.error);
        }
        cfg := applied.value;
      }
      assert options[..|options|] == options;
      var cb := new CircuitBreaker.Bare(cfg.config);
      if cfg.persistence.restoreOnInit {
        var loaded := Load(cfg.persistence, found, now);
        if loaded.Some? {
          var restored := cb.Restore(cfg.strategy, loaded.value, now);
          if restored {
            return Ok(cb);
          }
        }
      }
      cb.EnterState(now);
      return Ok(cb);
    }

    static method Load(p: Persistence, found: Option<Snapshot>, now: Instant) returns (loaded: Option<Snapshot>)
      ensures loaded == LoadSnapshot(p, found, now)
    {
      if !p.enabled || found == None {
        return None;
      }
      if p.validator.Some? {
        var fault := Validate(p.validator.value, found.value, now);
        if fault.Some? {
          return None;
        }
      }
      return found;
    }

    static lemma {:induction false} FirstErrorStays(options: seq<Setting>, i: nat)
      requires i <= |options| && Configure(options[..i]).Err?
      ensures Configure(options) == Configure(options[..i])
      decreases |options|
    {
      if i == |options| {
        assert options[..i] == options;
      } else {
        var init := options[..|options| - 1];
        assert init[..i] == options[..i];
        FirstErrorStays(init, i);
      }
    }

    method Restore(strategy: Strategy, s: Snapshot, now: Instant) returns (restored: bool)
      modifies this
      ensures (Value(), restored) == Breakers.Restore(strategy, Settings(), old(Value()), s, now)
    {
      if strategy.Conservative? {
        if Since(now, s.createdAt) > strategy.maxAge {
          return false;
        }
        if ShouldTransitionToHalfOpen(s, now) {
          currentState, failureCount, lastFailure := HalfOpen, 0, s.lastFailure;
          return true;
        }
      }
      if s.config.failureThreshold != failureThreshold || s.config.resetTimeout != resetTimeout {
        return false;
      }
      failureCount := s.failureCount;
      lastFailure := s.lastFailure;
      if s.state == Code(Closed) {
        currentState := Closed;
      } else if s.state == Code(Open) {
        currentState := Open;
      } else if s.state == Code(HalfOpen) {
        currentState := HalfOpen;
      } else {
        return false;
      }
      return true;
    }

    method EnterState(now: Instant)
      modifies this
      ensures Value() == OnEntry(old(Value()), now)
    {
      match currentState
      case Closed => failureCount := 0;
      case Open => lastFailure := now;
      case HalfOpen =>
    }

    method TransitionTo(newState: State, now: Instant)
      modifies this
      ensures Value() == Breakers.TransitionTo(Settings(), old(Value()), newState, now)
    {
      var oldState := currentState;
      currentState := newState;
      EnterState(now);
      saved := saved + [FromBreaker(Settings(), Value(), now)];
      published := published +
        [StateChange(oldState, newState, now, failureCount, failureThreshold, lastFailure)];
    }

    method CompleteClosed(failed: bool, now: Instant)
      modifies this
      ensures Value() == ClosedDone(Settings(), old(Value()), failed, now)
    {
      if failed {
        failureCount := failureCount + 1;
        if failureCount >= failureThreshold {
          TransitionTo(Open, now);
        }
      } else {
        failureCount := 0;
      }
    }

    method CheckOpen(now: Instant) returns (admitted: bool)
      modifies this
      ensures (Value(), admitted) == OpenCheck(Settings(), old(Value()), now)
    {
      admitted := Since(now, lastFailure) >= resetTimeout;
      if admitted {
        TransitionTo(HalfOpen, now);
      }
    }

    method CompleteHalfOpen(failed: bool, now: Instant)
      modifies this
      ensures Value() == HalfOpenDone(Settings(), old(Value()), failed, now)
    {
      if failed {
        TransitionTo(Open, now);
      } else {
        TransitionTo(Closed, now);
      }
    }

    /** One whole call, with no other caller in between; the action's outcome is given. */
    method Execute(fetchAt: Instant, checkAt: Instant, doneAt: Instant, outcome: Outcome)
      returns (seen: Sequential.Seen)
      modifies this
      ensures (Value(), seen) ==
              Sequential.Perform(Settings(), old(Value()), Sequential.Call(fetchAt, checkAt, doneAt, outcome))
    {
      var fetched := currentState;
      if fetched == Open {
        var admitted := CheckOpen(checkAt);
        if !admitted {
          return Sequential.TurnedAway;
        }
        fetched := currentState;
      }
      if outcome != Panicked {
        if fetched == Closed {
          CompleteClosed(outcome == Failed, doneAt);
        } else {
          CompleteHalfOpen(outcome == Failed, doneAt);
        }
      }
      return Sequential.Ran(outcome);
    }

    method State(now: Instant) returns (answer: State)
      modifies this
      ensures Value() == Polled(Settings(), old(Value()), now) && answer == Value().state
    {
      if currentState == Open && Since(now, lastFailure) >= resetTimeout {
        TransitionTo(HalfOpen, now);
      }
      answer := currentState;
    }

    method Reset(now: Instant)
      modifies this
      ensures Value() == WasReset(Settings(), old(Value()), now)
    {
      failureCount := 0;
      lastFailure := ZERO_TIME;
      TransitionTo(Closed, now);
    }
  }
}
