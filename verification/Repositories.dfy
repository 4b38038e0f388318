/** The in-memory repository: snapshots are objects, cloned on the way in and on the way out. A metadata value
    may be a reference to something that can be written, and cloning copies the reference. */
module Repositories {
  import opened Basics
  import opened Snapshots

  /** Whatever a metadata value may point to: a slice, a map, a struct. */
  class Cell {
    var text: string

    constructor (text: string)
      ensures this.text == text
    {
      this.text := text;
    }
  }

  datatype Datum = Text(text: string) | Ref(cell: Cell)

  type Entries = map<string, Datum>

  /** The cells that entries refer to, and what cells hold. */
  function CellsOf(entries: Entries): set<Cell> {
    set k | k in entries && entries[k].Ref? :: entries[k].cell
  }

  function Contents(cells: set<Cell>): map<Cell, string>
    reads cells
  {
    map cell | cell in cells :: cell.text
  }

  /** What entries look like when the cells hold `contents`. */
  function Shown(entries: Entries, contents: map<Cell, string>): map<string, string>
    requires CellsOf(entries) <= contents.Keys
  {
    map k | k in entries ::
      match entries[k]
      case Text(text) => text
      case Ref(cell) => assert cell in CellsOf(entries); contents[cell]
  }

  /** A nil map, None, has no entries. */
  function EntriesOf(m: Option<Entries>): Entries {
    if m == None then map[] else m.value
  }

  predicate Plain(entries: Entries) {
    forall k | k in entries :: entries[k].Text?
  }

  class Metadata {
    var entries: Entries

    constructor (entries: Entries)
      ensures this.entries == entries
    {
      this.entries := entries;
    }
  }

  class SnapshotObject {
    var version: int
    var state: int
    var failureCount: int
    var lastFailure: Instant
    var config: Config
    var metadata: Metadata?
    var createdAt: Instant

    function Map(): Option<Entries>
      reads this, metadata
    {
      if metadata == null then None else Some(metadata.entries)
    }

    function Entries(): Entries
      reads this, metadata
    {
      EntriesOf(Map())
    }

    function Cells(): set<Cell>
      reads this, metadata
    {
      CellsOf(Entries())
    }

    function Value(): Snapshot
      reads this, metadata, Cells()
    {
      Snapshot(version, state, failureCount, lastFailure, config, Shown(Entries(), Contents(Cells())), createdAt)
    }

    /** The objects that are the snapshot's own. */
    ghost function Footprint(): set<object>
      reads this
    {
      {this} + if metadata == null then {} else {metadata}
    }

    /** A snapshot whose metadata is all text. */
    constructor (s: Snapshot)
      ensures Value() == s && fresh(Footprint()) && metadata != null
      ensures Entries() == map k | k in s.metadata :: Text(s.metadata[k])
    {
      version, state, failureCount, lastFailure := s.version, s.state, s.failureCount, s.lastFailure;
      config, createdAt := s.config, s.createdAt;
      var m := new Metadata(map k | k in s.metadata :: Text(s.metadata[k]));
      metadata := m;
      new;
      assert Value().metadata == s.metadata;
    }

    /** An equal snapshot in objects of its own, which refers to the same cells. */
    method Clone() returns (r: SnapshotObject)
      ensures fresh(r) && fresh(r.Footprint()) && r.Value() == Value()
      ensures r.Map() == Map()
    {
      r := new SnapshotObject(Snapshot(version, state, failureCount, lastFailure, config, map[], createdAt));
      r.metadata := null;
      if metadata != null {
        var copy := new Metadata(metadata.entries);
        r.metadata := copy;
      }
    }
  }

  datatype RepositoryError = NilSnapshot | ContextDone | NotFound

  class InMemoryRepository {
    var snapshot: SnapshotObject?

    function Stored(): Option<Snapshot>
      reads this, snapshot, if snapshot == null then null else snapshot.metadata
      reads if snapshot == null then {} else snapshot.Cells()
    {
      if snapshot == null then None else Some(snapshot.Value())
    }

    ghost function Footprint(): set<object>
      reads this, snapshot
    {
      if snapshot == null then {} else snapshot.Footprint()
    }

    constructor ()
      ensures Stored() == None
    {
      snapshot := null;
    }

    method Save(s: SnapshotObject?, cancelled: bool) returns (err: Option<RepositoryError>)
      modifies this
      ensures err == if s == null then Some(NilSnapshot) else if cancelled then Some(ContextDone) else None
      ensures err == None ==>
                && Stored() == Some(s.Value()) && fresh(Footprint())
                && snapshot.Map() == s.Map()
      ensures err != None ==> snapshot == old(snapshot)
    {
      if s == null {
        return Some(NilSnapshot);
      }
      if cancelled {
        return Some(ContextDone);
      }
      snapshot := s.Clone();
      return None;
    }

    method Load(cancelled: bool) returns (r: Result<SnapshotObject, RepositoryError>)
      ensures cancelled ==> r == Err(ContextDone)
      ensures !cancelled && Stored() == None ==> r == Err(NotFound)
      ensures !cancelled && Stored() != None ==>
                && r.Ok? && Some(r.value.Value()) == Stored() && fresh(r.value) && fresh(r.value.Footprint())
                && r.value.Map() == snapshot.Map()
    {
      if cancelled {
        return Err(ContextDone);
      }
      if snapshot == null {
        return Err(NotFound);
      }
      var copy := snapshot.Clone();
      return Ok(copy);
    }

    method Delete(cancelled: bool) returns (err: Option<RepositoryError>)
      modifies this
      ensures err == if cancelled then Some(ContextDone) else None
      ensures Stored() == if cancelled then old(Stored()) else None
    {
      if cancelled {
        return Some(ContextDone);
      }
      snapshot := null;
      return None;
    }
  }

  // ---------------------------------------------------------------- what a caller can still change

  /** What the caller does to a snapshot in its hands: the one it saved, or one it loaded afterwards. */
  datatype Write =
    | SetFields(onLoaded: bool, n: int)
    | SetEntry(onLoaded: bool, key: string, text: string)
    | WriteThrough(onLoaded: bool, key: string, text: string)

  /** The metadata of both snapshots, and what the cells hold. */
  datatype Hands = Hands(saved: Option<Entries>, loaded: Option<Entries>, contents: map<Cell, string>)

  /** Writing to a nil map panics, and changes nothing; a key that holds no reference cannot be written through. */
  function Apply(h: Hands, w: Write): Hands {
    var held := if w.onLoaded then h.loaded else h.saved;
    match w
    case SetFields(_, _) => h
    case SetEntry(onLoaded, key, text) =>
      if held == None then h
      else if onLoaded then h.(loaded := Some(held.value[key := Text(text)]))
      else h.(saved := Some(held.value[key := Text(text)]))
    case WriteThrough(_, key, text) =>
      if key in EntriesOf(held) && EntriesOf(held)[key].Ref? then
        h.(contents := h.contents[EntriesOf(held)[key].cell := text])
      else h
  }

  function AfterWrites(h: Hands, ws: seq<Write>): Hands {
    if ws == [] then h else Apply(AfterWrites(h, ws[..|ws| - 1]), ws[|ws| - 1])
  }

  lemma {:induction false} CellsRemain(h: Hands, ws: seq<Write>)
    ensures h.contents.Keys <= AfterWrites(h, ws).contents.Keys
  {
    if ws != [] {
      CellsRemain(h, ws[..|ws| - 1]);
    }
  }

  /** Whatever the caller writes, what was stored still looks the same. */
  ghost predicate Isolated(m: Option<Entries>, contents: map<Cell, string>)
    requires CellsOf(EntriesOf(m)) <= contents.Keys
  {
    forall ws: seq<Write> {:induction false} ::
      CellsRemain(Hands(m, m, contents), ws);
      Shown(EntriesOf(m), AfterWrites(Hands(m, m, contents), ws).contents) == Shown(EntriesOf(m), contents)
  }

  lemma {:induction false} PlainIsConstant(entries: Entries, before: map<Cell, string>, after: map<Cell, string>)
    requires Plain(entries)
    ensures CellsOf(entries) == {} && Shown(entries, before) == Shown(entries, after)
  {
    assert forall cell :: cell !in CellsOf(entries);
  }

  /** One write through a reference shows in what is stored. */
  lemma {:induction false} ReferenceLeaks(m: Option<Entries>, contents: map<Cell, string>, key: string)
    returns (ws: seq<Write>)
    requires CellsOf(EntriesOf(m)) <= contents.Keys
    requires key in EntriesOf(m) && EntriesOf(m)[key].Ref?
    ensures CellsOf(EntriesOf(m)) <= AfterWrites(Hands(m, m, contents), ws).contents.Keys
    ensures Shown(EntriesOf(m), AfterWrites(Hands(m, m, contents), ws).contents)[key] !=
            Shown(EntriesOf(m), contents)[key]
  {
    var seen := Shown(EntriesOf(m), contents)[key];
    var w := WriteThrough(false, key, seen + "!");
    ws := [w];
    assert ws[..0] == [];
    assert AfterWrites(Hands(m, m, contents), ws) == Apply(Hands(m, m, contents), w);
    assert |seen + "!"| != |seen|;
  }

  /** What is stored is out of the caller's reach, whatever it writes to the snapshot it saved or to one it
      loaded, if and only if no metadata value is a reference. */
  lemma {:induction false} IsolatedIff(m: Option<Entries>, contents: map<Cell, string>)
    requires CellsOf(EntriesOf(m)) <= contents.Keys
    ensures Isolated(m, contents) <==> Plain(EntriesOf(m))
  {
    if Plain(EntriesOf(m)) {
      forall ws: seq<Write>
        ensures CellsOf(EntriesOf(m)) == {}
        ensures Shown(EntriesOf(m), AfterWrites(Hands(m, m, contents), ws).contents) == Shown(EntriesOf(m), contents)
      {
        PlainIsConstant(EntriesOf(m), contents, AfterWrites(Hands(m, m, contents), ws).contents);
      }
    } else {
      var key :| key in EntriesOf(m) && EntriesOf(m)[key].Ref?;
      var ws := ReferenceLeaks(m, contents, key);
    }
  }

  /** One write, to the objects themselves. */
  method Perform(s: SnapshotObject, loaded: SnapshotObject, w: Write, ghost cells: set<Cell>)
    requires s != loaded && (s.metadata == null || s.metadata != loaded.metadata)
    requires s.Cells() <= cells && loaded.Cells() <= cells
    modifies s, loaded, s.metadata, loaded.metadata, cells
    ensures s.metadata == old(s.metadata) && loaded.metadata == old(loaded.metadata)
    ensures Hands(s.Map(), loaded.Map(), Contents(cells)) ==
            Apply(old(Hands(s.Map(), loaded.Map(), Contents(cells))), w)
    ensures s.Cells() <= cells && loaded.Cells() <= cells
  {
    var held := if w.onLoaded then loaded else s;
    match w
    case SetFields(_, n) =>
      held.version, held.state, held.failureCount, held.lastFailure, held.createdAt := n, n, n, n, n;
    case SetEntry(_, key, text) =>
      if held.metadata != null {
        held.metadata.entries := held.metadata.entries[key := Text(text)];
      }
    case WriteThrough(_, key, text) =>
      if key in held.Entries() && held.Entries()[key].Ref? {
        held.Entries()[key].cell.text := text;
      }
  }

  method PerformAll(s: SnapshotObject, loaded: SnapshotObject, ws: seq<Write>, ghost cells: set<Cell>)
    requires s != loaded && (s.metadata == null || s.metadata != loaded.metadata)
    requires s.Cells() <= cells && loaded.Cells() <= cells
    modifies s, loaded, s.metadata, loaded.metadata, cells
    ensures Hands(s.Map(), loaded.Map(), Contents(cells)) ==
            AfterWrites(old(Hands(s.Map(), loaded.Map(), Contents(cells))), ws)
  {
    for i := 0 to |ws|
      invariant s.metadata == old(s.metadata) && loaded.metadata == old(loaded.metadata)
      invariant s.Cells() <= cells && loaded.Cells() <= cells
      invariant Hands(s.Map(), loaded.Map(), Contents(cells)) ==
                AfterWrites(old(Hands(s.Map(), loaded.Map(), Contents(cells))), ws[..i])
    {
      Perform(s, loaded, ws[i], cells);
      assert ws[..i + 1][..i] == ws[..i];
    }
    assert ws[..|ws|] == ws;
  }

  /** Save, load, write whatever one likes to both, and load again: the repository holds, and loads, the value
      that was saved, except that references show what their cells hold by then. */
  method SaveThenWrite(repo: InMemoryRepository, s: SnapshotObject, ws: seq<Write>) returns (again: SnapshotObject)
    modifies repo, s, s.metadata, s.Cells()
    ensures var after := AfterWrites(old(Hands(s.Map(), s.Map(), Contents(s.Cells()))), ws);
            && old(s.Cells()) <= after.contents.Keys
            && repo.Stored() == Some(old(s.Value()).(metadata := Shown(old(s.Entries()), after.contents)))
            && again.Value() == repo.Stored().value
  {
    var err := repo.Save(s, false);
    var first := repo.Load(false);
    PerformAll(s, first.value, ws, s.Cells());
    CellsRemain(old(Hands(s.Map(), s.Map(), Contents(s.Cells()))), ws);
    assert repo.snapshot.Map() == old(s.Map());
    var reloaded := repo.Load(false);
    again := reloaded.value;
  }
}
