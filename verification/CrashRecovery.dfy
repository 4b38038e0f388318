/** The concurrent breaker with synchronous file saves, in a process that may crash between any two
    system calls and start again, any number of times. */
module CrashRecovery {
  import opened Basics
  import opened Snapshots
  import opened Breakers
  import opened Concurrency
  import opened Invariants
  import opened FileRepositories

  /** How far the save of a transition has got; the breaker's mutex is held until it rests again. */
  datatype Progress =
    | Resting
    | ToWrite(s: Snapshot)
    | Writing(s: Snapshot)
    | Written(s: Snapshot)
    | ToRemove(s: Snapshot)

  /** What a transition leaves in the breaker. */
  datatype Essence = Essence(state: State, failureCount: int, lastFailure: Instant)

  function EssenceOf(b: Breaker): Essence {
    Essence(b.state, b.failureCount, b.lastFailure)
  }

  datatype Event = Moved(e: Essence) | Renamed | Restarted

  datatype World = World(sys: Sys, progress: Progress, disk: Disk, hist: seq<Event>)

  /** A critical section, a step of the save under way, or a crash followed by a restart at instant `at`.
      A failed write or rename may be retried or given up. */
  datatype Move =
    | Section(l: Label)
    | Begin
    | Fill
    | WriteError
    | Rename
    | RenameError
    | Remove(works: bool)
    | GiveUp
    | Crash(at: Instant)

  predicate Possible(w: World, m: Move) {
    match m
    case Section(l) => w.progress.Resting? && Enabled(w.sys, l)
    case Begin => w.progress.ToWrite?
    case Fill => w.progress.Writing?
    case WriteError => w.progress.Writing?
    case Rename => w.progress.Written? && Temp in w.disk
    case RenameError => w.progress.Written?
    case Remove(_) => w.progress.ToRemove?
    case GiveUp => w.progress.ToWrite?
    case Crash(at) => w.sys.now <= at
  }

  /** A breaker made with the default persistence settings, from what the file holds. */
  function Reborn(c: Config, d: Disk, now: Instant): Breaker {
    var found := match Read(d) case Ok(s) => Some(s) case Err(_) => None;
    Created(DEFAULT_SETUP.(config := c), found, now)
  }

  function AfterSection(c: Config, w: World, t: Sys): World {
    if |t.b.saved| > |w.sys.b.saved| then
      var s := t.b.saved[|t.b.saved| - 1];
      World(t, if Accepts(DefaultValidator(), s, t.now) then ToWrite(s) else Resting, w.disk,
            w.hist + [Moved(EssenceOf(t.b))])
    else w.(sys := t)
  }

  function Next(c: Config, w: World, m: Move): World
    requires Possible(w, m)
  {
    match m
    case Section(l) => AfterSection(c, w, Step(c, w.sys, l))
    case Begin => w.(progress := Writing(w.progress.s), disk := OpenTemp(w.disk))
    case Fill => w.(progress := Written(w.progress.s), disk := FillTemp(w.disk, w.progress.s))
    case WriteError => w.(progress := ToWrite(w.progress.s))
    case Rename => w.(progress := Resting, disk := RenameTemp(w.disk), hist := w.hist + [Renamed])
    case RenameError => w.(progress := ToRemove(w.progress.s))
    case Remove(works) =>
      w.(progress := ToWrite(w.progress.s), disk := if works then RemoveTemp(w.disk) else w.disk)
    case GiveUp => w.(progress := Resting)
    case Crash(at) =>
      World(Start(Reborn(c, w.disk, at), |w.sys.pcs|, at), Resting, w.disk, w.hist + [Restarted])
  }

  function History(c: Config, w: World, ms: seq<Move>): Option<World> {
    if ms == [] then Some(w)
    else match History(c, w, ms[..|ms| - 1])
      case None => None
      case Some(v) => if Possible(v, ms[|ms| - 1]) then Some(Next(c, v, ms[|ms| - 1])) else None
  }

  // ---------------------------------------------------------------- one save, step by step

  /** The moves of one attempt at a save, under the given weather. */
  function Attempt(w: Weather): seq<Move> {
    if w.cancelled || !w.opens then []
    else if !w.fills then [Begin, WriteError]
    else if w.renames then [Begin, Fill, Rename]
    else [Begin, Fill, RenameError, Remove(w.removes)]
  }

  /** The disks after each move that changed one, in order. */
  function Disks(c: Config, w: World, ms: seq<Move>): seq<Disk>
    requires History(c, w, ms).Some?
  {
    if ms == [] then []
    else
      var m := ms[|ms| - 1];
      Disks(c, w, ms[..|ms| - 1]) +
      if m.Begin? || m.Fill? || m.Rename? || m == Remove(true) then [History(c, w, ms).value.disk] else []
  }

  lemma {:induction false} Extend(c: Config, w: World, ms: seq<Move>, v: World, m: Move)
    requires History(c, w, ms) == Some(v) && Possible(v, m)
    ensures History(c, w, ms + [m]) == Some(Next(c, v, m))
    ensures Disks(c, w, ms + [m]) ==
            Disks(c, w, ms) + if m.Begin? || m.Fill? || m.Rename? || m == Remove(true) then [Next(c, v, m).disk] else []
  {
    assert (ms + [m])[..|ms|] == ms;
  }

  /** The moves ms lead to v, by way of the disks ds. */
  predicate Reaches(c: Config, w: World, ms: seq<Move>, v: World, ds: seq<Disk>) {
    History(c, w, ms) == Some(v) && Disks(c, w, ms) == ds
  }

  lemma {:induction false} Begun(c: Config, w: World, s: Snapshot) returns (v: World)
    requires w.progress == ToWrite(s)
    ensures v == w.(progress := Writing(s), disk := OpenTemp(w.disk))
    ensures Reaches(c, w, [Begin], v, [v.disk])
  {
    v := Next(c, w, Begin);
    Extend(c, w, [], w, Begin);
    assert [] + [Begin] == [Begin];
  }

  lemma {:induction false} Filled(c: Config, w: World, s: Snapshot) returns (v: World)
    requires w.progress == ToWrite(s)
    ensures v == w.(progress := Written(s), disk := FillTemp(OpenTemp(w.disk), s))
    ensures Reaches(c, w, [Begin, Fill], v, [OpenTemp(w.disk), v.disk])
  {
    var m := Begun(c, w, s);
    v := Next(c, m, Fill);
    Extend(c, w, [Begin], m, Fill);
    assert [Begin] + [Fill] == [Begin, Fill];
  }

  lemma {:induction false} RenameFails(c: Config, w: World, s: Snapshot, removes: bool) returns (v: World)
    requires w.progress == ToWrite(s)
    ensures var filled := FillTemp(OpenTemp(w.disk), s);
            && v == w.(disk := if removes then RemoveTemp(filled) else filled)
            && Reaches(c, w, [Begin, Fill, RenameError, Remove(removes)], v,
                       [OpenTemp(w.disk), filled] + if removes then [v.disk] else [])
  {
    var m := Filled(c, w, s);
    var e := Next(c, m, RenameError);
    v := Next(c, e, Remove(removes));
    Extend(c, w, [Begin, Fill], m, RenameError);
    Extend(c, w, [Begin, Fill] + [RenameError], e, Remove(removes));
    assert [Begin, Fill] + [RenameError] + [Remove(removes)] == [Begin, Fill, RenameError, Remove(removes)];
  }

  /** What a save of the file repository does to the disk, in any weather, is a history of this world, from
      the moment the save is due; a crash is possible after every move of it. Afterwards the save is over if
      it succeeded, and due again if it did not. */
  lemma {:induction false} SavesAreHistories(c: Config, w: World, s: Snapshot, weather: Weather) returns (v: World)
    requires w.progress == ToWrite(s)
    ensures Reaches(c, w, Attempt(weather), v, SaveDisks(w.disk, Some(s), weather))
    ensures var ds := [w.disk] + SaveDisks(w.disk, Some(s), weather); v.disk == ds[|ds| - 1]
    ensures v.sys == w.sys
    ensures v.progress == if Succeeds(Some(s), weather) then Resting else ToWrite(s)
    ensures v.hist == w.hist + if Succeeds(Some(s), weather) then [Renamed] else []
  {
    if weather.cancelled || !weather.opens {
      v := w;
    } else if !weather.fills {
      var m := Begun(c, w, s);
      v := Next(c, m, WriteError);
      Extend(c, w, [Begin], m, WriteError);
      assert [Begin] + [WriteError] == Attempt(weather);
    } else if weather.renames {
      var m := Filled(c, w, s);
      v := Next(c, m, Rename);
      Extend(c, w, [Begin, Fill], m, Rename);
      assert [Begin, Fill] + [Rename] == Attempt(weather);
    } else {
      v := RenameFails(c, w, s, weather.removes);
    }
  }

  /** Wherever a save stands, it can come to rest, so that the next critical section can begin. */
  lemma {:induction false} SaveCanEnd(c: Config, w: World) returns (ms: seq<Move>)
    requires w.progress.Written? ==> Temp in w.disk
    ensures History(c, w, ms).Some?
    ensures var v := History(c, w, ms).value; v.progress == Resting && v.sys == w.sys
  {
    match w.progress
    case Resting => ms := [];
    case ToWrite(_) =>
      ms := [GiveUp];
      Extend(c, w, [], w, GiveUp);
    case Writing(_) =>
      ms := [WriteError] + [GiveUp];
      Extend(c, w, [], w, WriteError);
      Extend(c, w, [WriteError], Next(c, w, WriteError), GiveUp);
    case Written(_) =>
      ms := [Rename];
      Extend(c, w, [], w, Rename);
    case ToRemove(_) =>
      ms := [Remove(false)] + [GiveUp];
      Extend(c, w, [], w, Remove(false));
      Extend(c, w, [Remove(false)], Next(c, w, Remove(false)), GiveUp);
  }

  // ---------------------------------------------------------------- what has become durable

  /** The last transition so far. */
  function LastMoved(hist: seq<Event>): Option<Essence> {
    if hist == [] then None
    else if hist[|hist| - 1].Moved? then Some(hist[|hist| - 1].e)
    else LastMoved(hist[..|hist| - 1])
  }

  /** The last transition whose rename completed. */
  function LastDurable(hist: seq<Event>): Option<Essence> {
    if hist == [] then None
    else if hist[|hist| - 1].Renamed? then LastMoved(hist[..|hist| - 1])
    else LastDurable(hist[..|hist| - 1])
  }

  lemma {:induction false} HistStep(hist: seq<Event>, e: Event)
    ensures LastMoved(hist + [e]) == if e.Moved? then Some(e.e) else LastMoved(hist)
    ensures LastDurable(hist + [e]) == if e.Renamed? then LastMoved(hist) else LastDurable(hist)
  {
    assert (hist + [e])[..|hist|] == hist;
  }

  lemma {:induction false} LastMovedMeaning(hist: seq<Event>) returns (m: nat)
    ensures LastMoved(hist) == None <==> forall k | 0 <= k < |hist| :: !hist[k].Moved?
    ensures LastMoved(hist).Some? ==>
              && m < |hist| && hist[m] == Moved(LastMoved(hist).value)
              && forall k | m < k < |hist| :: !hist[k].Moved?
  {
    m := 0;
    if hist != [] {
      var init := hist[..|hist| - 1];
      if hist[|hist| - 1].Moved? {
        m := |hist| - 1;
      } else {
        m := LastMovedMeaning(init);
        assert forall k | 0 <= k < |init| :: hist[k] == init[k];
      }
    }
  }

  /** LastDurable is the transition before the last rename in the history; there is none exactly if no rename
      follows a transition. */
  lemma {:induction false} LastDurableMeaning(hist: seq<Event>) returns (m: nat, r: nat)
    ensures LastDurable(hist) == None <==> forall j, k | 0 <= j < k < |hist| :: !(hist[j].Moved? && hist[k].Renamed?)
    ensures LastDurable(hist).Some? ==>
              && m < r < |hist| && hist[m] == Moved(LastDurable(hist).value) && hist[r] == Renamed
              && (forall k | m < k < r :: !hist[k].Moved?)
              && (forall k | r < k < |hist| :: !hist[k].Renamed?)
  {
    m, r := 0, 0;
    if hist != [] {
      var init := hist[..|hist| - 1];
      if hist[|hist| - 1].Renamed? {
        m := LastMovedMeaning(init);
        r := |init|;
        assert forall k | 0 <= k < |init| :: hist[k] == init[k];
      } else {
        m, r := LastDurableMeaning(init);
        assert forall k | 0 <= k < |init| :: hist[k] == init[k];
      }
    }
  }

  // ---------------------------------------------------------------- the invariant

  /** s is a snapshot of e taken by a breaker configured as c, no later than now. */
  predicate Records(c: Config, s: Snapshot, e: Essence, now: Instant) {
    && s == Snapshot(CURRENT_VERSION, Code(e.state), e.failureCount, e.lastFailure, c, map[], s.createdAt)
    && ZERO_TIME < s.createdAt <= now
    && e.failureCount >= 0
    && (e.state == Closed ==> e.failureCount == 0)
    && (e.state == Open ==> e.lastFailure != ZERO_TIME)
  }

  predicate Consistent(c: Config, w: World) {
    && w.sys.now > ZERO_TIME
    && Sound(w.sys.b)
    && (match LastDurable(w.hist)
        case None => Target !in w.disk
        case Some(e) => Target in w.disk && w.disk[Target].Whole? && Records(c, w.disk[Target].snapshot, e, w.sys.now))
    && (!w.progress.Resting? ==> LastMoved(w.hist).Some? && Records(c, w.progress.s, LastMoved(w.hist).value, w.sys.now))
    && (w.progress.Written? ==> Temp in w.disk && w.disk[Temp] == Whole(w.progress.s))
  }

  lemma SectionRecords(c: Config, m: Sys, l: Label)
    requires Positive(c) && Enabled(m, l) && m.now > ZERO_TIME && Sound(m.b)
    ensures var t := Step(c, m, l);
            && Sound(t.b) && t.now == l.at
            && (|t.b.saved| > |m.b.saved| ==> Records(c, t.b.saved[|t.b.saved| - 1], EssenceOf(t.b), t.now))
  {
  }

  lemma {:induction false} RecordsAreAccepted(c: Config, s: Snapshot, e: Essence, now: Instant)
    requires Positive(c) && Records(c, s, e, now)
    ensures Accepts(DefaultValidator(), s, now)
    ensures EssenceOf(NewBreaker(RestoreAll, c, Some(s), now)) == e
  {
    DefaultValidatorMeaning(s, now);
  }

  /** A restart finds exactly what was durable. */
  lemma {:induction false} RebornIsDurable(c: Config, w: World, at: Instant)
    requires Positive(c) && Consistent(c, w) && w.sys.now <= at
    ensures EssenceOf(Reborn(c, w.disk, at)) ==
            match LastDurable(w.hist) case None => EssenceOf(FRESH_BREAKER) case Some(e) => e
    ensures Sound(Reborn(c, w.disk, at))
  {
    match LastDurable(w.hist)
    case None =>
    case Some(e) =>
      RecordsAreAccepted(c, w.disk[Target].snapshot, e, at);
  }

  lemma {:induction false} SectionConsistent(c: Config, w: World, l: Label)
    requires Positive(c) && Consistent(c, w) && Possible(w, Section(l))
    ensures Consistent(c, Next(c, w, Section(l)))
  {
    var t := Step(c, w.sys, l);
    SectionRecords(c, w.sys, l);
    HistStep(w.hist, Moved(EssenceOf(t.b)));
    StepEmits(c, w.sys, l);
  }

  lemma {:induction false} CrashConsistent(c: Config, w: World, at: Instant)
    requires Positive(c) && Consistent(c, w) && Possible(w, Crash(at))
    ensures Consistent(c, Next(c, w, Crash(at)))
  {
    RebornIsDurable(c, w, at);
    HistStep(w.hist, Restarted);
  }

  lemma {:induction false} NextConsistent(c: Config, w: World, m: Move)
    requires Positive(c) && Consistent(c, w) && Possible(w, m)
    ensures Consistent(c, Next(c, w, m))
  {
    match m {
      case Section(l) => SectionConsistent(c, w, l);
      case Crash(at) => CrashConsistent(c, w, at);
      case Rename => HistStep(w.hist, Renamed);
      case Begin =>
      case Fill =>
      case WriteError =>
      case RenameError =>
      case Remove(_) =>
      case GiveUp =>
    }
  }

  /** A fresh breaker and no snapshot file, whatever a temporary file may hold. */
  predicate Beginning(w: World) {
    && w.sys.b == FRESH_BREAKER && w.sys.now > ZERO_TIME
    && w.progress == Resting && w.hist == [] && Target !in w.disk
  }

  lemma {:induction false} AlwaysConsistent(c: Config, w: World, ms: seq<Move>)
    requires Positive(c) && Beginning(w) && History(c, w, ms).Some?
    ensures Consistent(c, History(c, w, ms).value)
  {
    if ms != [] {
      AlwaysConsistent(c, w, ms[..|ms| - 1]);
      NextConsistent(c, History(c, w, ms[..|ms| - 1]).value, ms[|ms| - 1]);
    }
  }

  /** After any run, with any number of crashes at any steps, the snapshot file is absent or holds a whole
      snapshot, and a breaker started from it has exactly the state, count and last failure of the last
      transition whose rename completed, or is fresh if there was none. */
  lemma {:induction false} CrashesLoseNothingDurable(c: Config, w: World, ms: seq<Move>, at: Instant)
    requires Positive(c) && Beginning(w) && History(c, w, ms).Some?
    requires History(c, w, ms).value.sys.now <= at
    ensures var v := History(c, w, ms).value;
            && (Target in v.disk ==> v.disk[Target].Whole?)
            && EssenceOf(Reborn(c, v.disk, at)) ==
               match LastDurable(v.hist) case None => EssenceOf(FRESH_BREAKER) case Some(e) => e
  {
    AlwaysConsistent(c, w, ms);
    RebornIsDurable(c, History(c, w, ms).value, at);
  }

  lemma {:induction false} CallersRemain(c: Config, w: World, ms: seq<Move>)
    requires History(c, w, ms).Some?
    ensures |History(c, w, ms).value.sys.pcs| == |w.sys.pcs|
  {
    if ms != [] {
      CallersRemain(c, w, ms[..|ms| - 1]);
    }
  }

  /** A crash that ends any run leaves the file as it is, forgets the calls and the save under way, and puts into
      the new process a breaker with exactly the last durable transition, or a fresh one if there is none. */
  lemma {:induction false} CrashRestarts(c: Config, w: World, ms: seq<Move>, at: Instant)
    requires Positive(c) && Beginning(w) && History(c, w, ms).Some?
    requires History(c, w, ms).value.sys.now <= at
    ensures History(c, w, ms + [Crash(at)]).Some?
    ensures var v, r := History(c, w, ms).value, History(c, w, ms + [Crash(at)]).value;
            && r.disk == v.disk && r.progress == Resting && r.sys.now == at && LastDurable(r.hist) == LastDurable(v.hist)
            && |r.sys.pcs| == |w.sys.pcs| && (forall i | 0 <= i < |r.sys.pcs| :: r.sys.pcs[i] == Idle)
            && r.sys.trace == [] && r.sys.b.saved == [] && r.sys.b.published == []
            && match LastDurable(v.hist)
               case None => r.sys.b == FRESH_BREAKER
               case Some(e) => EssenceOf(r.sys.b) == e
  {
    var v := History(c, w, ms).value;
    Extend(c, w, ms, v, Crash(at));
    CallersRemain(c, w, ms);
    AlwaysConsistent(c, w, ms);
    RebornIsDurable(c, v, at);
    HistStep(v.hist, Restarted);
  }

  // ---------------------------------------------------------------- when nothing at all is lost

  /** The breaker stands where the last transition left it, and at rest that transition is durable. */
  predicate UpToDate(w: World) {
    && (w.progress.Resting? ==> LastDurable(w.hist) == LastMoved(w.hist))
    && match LastMoved(w.hist)
       case None => w.sys.b.state == Closed && w.sys.b.lastFailure == ZERO_TIME
       case Some(e) => w.sys.b.state == e.state && w.sys.b.lastFailure == e.lastFailure
  }

  /** No save is given up, and no crash interrupts one. */
  predicate Gentle(w: World, m: Move) {
    !m.GiveUp? && (m.Crash? ==> w.progress.Resting?)
  }

  predicate GentleHistory(c: Config, w: World, ms: seq<Move>)
    requires History(c, w, ms).Some?
  {
    ms != [] ==>
      && GentleHistory(c, w, ms[..|ms| - 1])
      && Gentle(History(c, w, ms[..|ms| - 1]).value, ms[|ms| - 1])
  }

  lemma {:induction false} NextUpToDate(c: Config, w: World, m: Move)
    requires Positive(c) && Consistent(c, w) && Possible(w, m) && UpToDate(w) && Gentle(w, m)
    ensures UpToDate(Next(c, w, m))
  {
    match m {
      case Section(l) =>
        SectionRecords(c, w.sys, l);
        StepEmits(c, w.sys, l);
        var t := Step(c, w.sys, l);
        if |t.b.saved| > |w.sys.b.saved| {
          RecordsAreAccepted(c, t.b.saved[|t.b.saved| - 1], EssenceOf(t.b), t.now);
        }
        HistStep(w.hist, Moved(EssenceOf(t.b)));
      case Rename => HistStep(w.hist, Renamed);
      case Crash(at) =>
        RebornIsDurable(c, w, at);
        HistStep(w.hist, Restarted);
      case Begin =>
      case Fill =>
      case WriteError =>
      case RenameError =>
      case Remove(_) =>
      case GiveUp =>
    }
  }

  lemma {:induction false} AlwaysUpToDate(c: Config, w: World, ms: seq<Move>)
    requires Positive(c) && Beginning(w) && History(c, w, ms).Some? && GentleHistory(c, w, ms)
    ensures UpToDate(History(c, w, ms).value)
  {
    if ms != [] {
      AlwaysUpToDate(c, w, ms[..|ms| - 1]);
      AlwaysConsistent(c, w, ms[..|ms| - 1]);
      NextUpToDate(c, History(c, w, ms[..|ms| - 1]).value, ms[|ms| - 1]);
    }
  }

  /** While no save is given up or interrupted, a crash between critical sections preserves the breaker's
      state and last failure. */
  lemma {:induction false} RestartKeepsState(c: Config, w: World, ms: seq<Move>, at: Instant)
    requires Positive(c) && Beginning(w) && History(c, w, ms).Some? && GentleHistory(c, w, ms)
    requires History(c, w, ms).value.progress.Resting? && History(c, w, ms).value.sys.now <= at
    ensures var v := History(c, w, ms).value;
            && Reborn(c, v.disk, at).state == v.sys.b.state
            && Reborn(c, v.disk, at).lastFailure == v.sys.b.lastFailure
  {
    AlwaysUpToDate(c, w, ms);
    AlwaysConsistent(c, w, ms);
    RebornIsDurable(c, History(c, w, ms).value, at);
  }

  function Moves(hist: seq<Event>): nat {
    if hist == [] then 0 else Moves(hist[..|hist| - 1]) + if hist[|hist| - 1].Moved? then 1 else 0
  }

  function Renames(hist: seq<Event>): nat {
    if hist == [] then 0 else Renames(hist[..|hist| - 1]) + if hist[|hist| - 1].Renamed? then 1 else 0
  }

  lemma {:induction false} CountStep(hist: seq<Event>, e: Event)
    ensures Moves(hist + [e]) == Moves(hist) + if e.Moved? then 1 else 0
    ensures Renames(hist + [e]) == Renames(hist) + if e.Renamed? then 1 else 0
  {
    assert (hist + [e])[..|hist|] == hist;
  }

  /** While no save is given up or interrupted, not only the last transition but every single one gets its own
      completed rename, before the next critical section. */
  lemma {:induction false} EveryTransitionIsSaved(c: Config, w: World, ms: seq<Move>)
    requires Positive(c) && Beginning(w) && History(c, w, ms).Some? && GentleHistory(c, w, ms)
    ensures var v := History(c, w, ms).value;
            Moves(v.hist) == Renames(v.hist) + if v.progress.Resting? then 0 else 1
  {
    if ms != [] {
      var init, m := ms[..|ms| - 1], ms[|ms| - 1];
      EveryTransitionIsSaved(c, w, init);
      AlwaysConsistent(c, w, init);
      MoveCounts(c, History(c, w, init).value, m);
    }
  }

  lemma {:induction false} MoveCounts(c: Config, v: World, m: Move)
    requires Positive(c) && Consistent(c, v) && Possible(v, m) && Gentle(v, m)
    ensures var r := Next(c, v, m);
            Moves(r.hist) - Renames(r.hist) - (if r.progress.Resting? then 0 else 1) ==
            Moves(v.hist) - Renames(v.hist) - (if v.progress.Resting? then 0 else 1)
  {
    if m.Section? {
      var t := Step(c, v.sys, m.l);
      SectionRecords(c, v.sys, m.l);
      if |t.b.saved| > |v.sys.b.saved| {
        RecordsAreAccepted(c, t.b.saved[|t.b.saved| - 1], EssenceOf(t.b), t.now);
      }
      CountStep(v.hist, Moved(EssenceOf(t.b)));
    }
    CountStep(v.hist, Renamed);
    CountStep(v.hist, Restarted);
  }
}
