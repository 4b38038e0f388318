/** The concurrent breaker with synchronous, successful saves to an empty in-memory repository. */
module SynchronousStore {
  import opened Basics
  import opened Snapshots
  import opened Breakers
  import opened Concurrency
  import opened Invariants
  import opened Repositories
  import Sequential

  /** What a repository holds once the snapshots have been saved to it one by one. */
  function StoreAfter(saved: seq<Snapshot>): Option<Snapshot> {
    if saved == [] then None else Some(saved[|saved| - 1])
  }

  predicate Agrees(stored: Option<Snapshot>, b: Breaker) {
    match stored
    case None => b.state == Closed && b.lastFailure == ZERO_TIME
    case Some(s) => s.state == Code(b.state) && s.lastFailure == b.lastFailure
  }

  lemma {:induction false} StoreAgrees(c: Config, n: nat, t0: Instant, ls: seq<Label>)
    requires Run(c, Start(FRESH_BREAKER, n, t0), ls).Some?
    ensures var b := Run(c, Start(FRESH_BREAKER, n, t0), ls).value.b; Agrees(StoreAfter(b.saved), b)
  {
    if ls != [] {
      var init, m, l := RunSplit(c, Start(FRESH_BREAKER, n, t0), ls);
      StoreAgrees(c, n, t0, init);
      StepEmits(c, m, l);
    }
  }

  lemma {:induction false} PrefixRuns(c: Config, s: Sys, ls: seq<Label>, i: nat)
    requires i < |ls| && Run(c, s, ls).Some?
    ensures Run(c, s, ls[..i]).Some? && Enabled(Run(c, s, ls[..i]).value, ls[i])
    ensures Run(c, s, ls[..i + 1]) == Some(Step(c, Run(c, s, ls[..i]).value, ls[i]))
  {
    RunPrefix(c, s, ls, i);
    RunPrefix(c, s, ls, i + 1);
    assert ls[..i + 1][..i] == ls[..i];
  }

  /** What is new in the breaker's output is accepted by the validator on the way to the repository. */
  lemma {:induction false} NewSnapshotIsAccepted(c: Config, n: nat, t0: Instant, ls: seq<Label>, m: Sys, l: Label)
    requires Positive(c) && t0 > ZERO_TIME
    requires Run(c, Start(FRESH_BREAKER, n, t0), ls) == Some(m) && Enabled(m, l)
    ensures var saved := Step(c, m, l).b.saved;
            saved == m.b.saved
            || (|saved| == |m.b.saved| + 1 && saved[..|m.b.saved|] == m.b.saved
                && Accepts(DefaultValidator(), saved[|m.b.saved|], l.at))
  {
    SnapshotsAreValid(c, FRESH_BREAKER, n, t0, ls, l.at);
    StepAccepted(c, m, l, l.at);
    StepEmits(c, m, l);
  }

  /** The concurrent run with a real repository at its side: every snapshot is validated and saved before the
      critical section ends. After every critical section, hence at the end of every run, the repository is
      empty and the breaker Closed, or it holds exactly the breaker's state and last failure. */
  method RunWithRepository(c: Config, n: nat, t0: Instant, ls: seq<Label>) returns (s: Sys, repo: InMemoryRepository)
    requires Positive(c) && t0 > ZERO_TIME
    requires Run(c, Start(FRESH_BREAKER, n, t0), ls).Some?
    ensures Run(c, Start(FRESH_BREAKER, n, t0), ls) == Some(s) && fresh(repo)
    ensures Agrees(repo.Stored(), s.b) && repo.Stored() == StoreAfter(s.b.saved)
  {
    ghost var start := Start(FRESH_BREAKER, n, t0);
    s := Start(FRESH_BREAKER, n, t0);
    repo := new InMemoryRepository();
    for i := 0 to |ls|
      invariant Run(c, start, ls[..i]) == Some(s)
      invariant fresh(repo) && repo.Stored() == StoreAfter(s.b.saved) && Agrees(repo.Stored(), s.b)
    {
      PrefixRuns(c, start, ls, i);
      NewSnapshotIsAccepted(c, n, t0, ls[..i], s, ls[i]);
      StoreAgrees(c, n, t0, ls[..i + 1]);
      var before := |s.b.saved|;
      s := Step(c, s, ls[i]);
      if |s.b.saved| > before {
        SaveSnapshot(repo, s.b.saved[before], s.now);
      }
    }
    assert ls[..|ls|] == ls;
  }

  /** The persistence manager's synchronous save, with a repository that does not fail. */
  method SaveSnapshot(repo: InMemoryRepository, s: Snapshot, now: Instant)
    modifies repo
    ensures repo.Stored() == if Accepts(DefaultValidator(), s, now) then Some(s) else old(repo.Stored())
  {
    var fault := Validate(DefaultValidator(), s, now);
    if fault == None {
      var copy := new SnapshotObject(s);
      var err := repo.Save(copy, false);
    }
  }

  lemma StepSavesConfig(c: Config, m: Sys, l: Label)
    requires Enabled(m, l)
    ensures var saved := Step(c, m, l).b.saved;
            saved == m.b.saved || (saved != [] && saved[|saved| - 1].config == c)
  {
  }

  lemma {:induction false} LastSavedIsConfigured(c: Config, n: nat, t0: Instant, ls: seq<Label>)
    requires Run(c, Start(FRESH_BREAKER, n, t0), ls).Some?
    ensures var b := Run(c, Start(FRESH_BREAKER, n, t0), ls).value.b;
            b.saved != [] ==> b.saved[|b.saved| - 1].config == c
  {
    if ls != [] {
      var init, m, l := RunSplit(c, Start(FRESH_BREAKER, n, t0), ls);
      LastSavedIsConfigured(c, n, t0, init);
      StepSavesConfig(c, m, l);
    }
  }

  /** A breaker restored from the repository at any later instant cannot be told, on any sequential run,
      from the one that goes on, if and only if the latter is not Closed with failures counted: those are
      the only thing a restart forgets. */
  lemma {:induction false} RestartForgetsOnlyTheCount(c: Config, n: nat, t0: Instant, ls: seq<Label>, now: Instant)
    requires Positive(c) && t0 > ZERO_TIME
    requires Run(c, Start(FRESH_BREAKER, n, t0), ls).Some? && Run(c, Start(FRESH_BREAKER, n, t0), ls).value.now <= now
    ensures var b := Run(c, Start(FRESH_BREAKER, n, t0), ls).value.b;
            var restored := Created(DEFAULT_SETUP.(config := c), StoreAfter(b.saved), now);
            Sequential.Indistinguishable(c, restored, b, now) <==> b.state != Closed || b.failureCount == 0
  {
    var s := Run(c, Start(FRESH_BREAKER, n, t0), ls).value;
    var restored := Created(DEFAULT_SETUP.(config := c), StoreAfter(s.b.saved), now);
    StoreAgrees(c, n, t0, ls);
    LastSavedIsConfigured(c, n, t0, ls);
    CounterBound(c, n, t0, ls);
    ClosedSnapshotsCountNothing(c, n, t0, ls, now);
    if s.b.state != Closed || s.b.failureCount == 0 {
      Sequential.SameViewSameRuns(c, restored, s.b, now);
    } else {
      var ops := Sequential.CountsShow(c, 0, s.b.failureCount, now);
      Sequential.RefinesPhases(c, restored, ops, now);
      Sequential.RefinesPhases(c, s.b, ops, now);
    }
  }

  lemma {:induction false} ClosedSnapshotsCountNothing(c: Config, n: nat, t0: Instant, ls: seq<Label>, now: Instant)
    requires Positive(c) && t0 > ZERO_TIME
    requires Run(c, Start(FRESH_BREAKER, n, t0), ls).Some? && Run(c, Start(FRESH_BREAKER, n, t0), ls).value.now <= now
    ensures var saved := Run(c, Start(FRESH_BREAKER, n, t0), ls).value.b.saved;
            saved != [] ==> Accepts(DefaultValidator(), saved[|saved| - 1], now)
                            && (saved[|saved| - 1].state == Code(Closed) ==> saved[|saved| - 1].failureCount == 0)
  {
    var b := Run(c, Start(FRESH_BREAKER, n, t0), ls).value.b;
    SnapshotsAreValid(c, FRESH_BREAKER, n, t0, ls, now);
    TransitionsFormAPath(c, FRESH_BREAKER, n, t0, ls);
    if b.saved != [] {
      assert b.published[|b.saved| - 1].at <= now;
      DefaultValidatorMeaning(b.saved[|b.saved| - 1], now);
    }
  }
}
