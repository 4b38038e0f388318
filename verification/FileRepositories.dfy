/** The file repository: write a temporary file, then rename it over the target. */
module FileRepositories {
  import opened Basics
  import opened Snapshots

  datatype Path = Target | Temp

  /** A file holds a whole encoded snapshot, or what a write cut short left behind. */
  datatype Content = Whole(snapshot: Snapshot) | Torn

  type Disk = map<Path, Content>

  // The system calls of one save, each atomic as far as a crashing process can tell.

  function OpenTemp(d: Disk): Disk {
    d[Temp := Torn]
  }

  function FillTemp(d: Disk, s: Snapshot): Disk {
    d[Temp := Whole(s)]
  }

  function RenameTemp(d: Disk): Disk
    requires Temp in d
  {
    d[Target := d[Temp]] - {Temp}
  }

  function RemoveTemp(d: Disk): Disk {
    d - {Temp}
  }

  datatype LoadError = NotFound | Cancelled | Unreadable | Unmarshal

  function Read(d: Disk): Result<Snapshot, LoadError> {
    if Target !in d then Err(NotFound)
    else match d[Target]
      case Whole(s) => Ok(s)
      case Torn => Err(Unmarshal)
  }

  datatype SaveError = NilSnapshot | SaveCancelled | WriteFailed | RenameFailed

  /** What the environment does to one save. */
  datatype Weather = Weather(cancelled: bool, opens: bool, fills: bool, renames: bool, removes: bool)

  /** The disks that the system calls of one save leave behind, one after the other. */
  function SaveDisks(d: Disk, snapshot: Option<Snapshot>, w: Weather): seq<Disk> {
    if snapshot == None || w.cancelled || !w.opens then []
    else
      var torn := OpenTemp(d);
      if !w.fills then [torn]
      else
        var filled := FillTemp(torn, snapshot.value);
        if w.renames then [torn, filled, RenameTemp(filled)]
        else if w.removes then [torn, filled, RemoveTemp(filled)]
        else [torn, filled]
  }

  predicate Succeeds(snapshot: Option<Snapshot>, w: Weather) {
    snapshot.Some? && !w.cancelled && w.opens && w.fills && w.renames
  }

  /** Wherever in a save the process crashes, a reader finds what was there before or the whole new snapshot,
      and the new one exactly after the last step of a save that succeeds; no other file is touched. */
  lemma {:induction false} SaveIsAtomic(d: Disk, snapshot: Option<Snapshot>, w: Weather)
    ensures var ds := SaveDisks(d, snapshot, w);
            && (Succeeds(snapshot, w) ==>
                  ds != [] && ds[|ds| - 1] == map[Target := Whole(snapshot.value)] + (d - {Target, Temp}))
            && forall k | 0 <= k < |ds| ::
                 && ds[k] - {Target, Temp} == d - {Target, Temp}
                 && if k == |ds| - 1 && Succeeds(snapshot, w) then Read(ds[k]) == Ok(snapshot.value)
                    else Read(ds[k]) == Read(d) && ds[k] - {Temp} == d - {Temp}
    ensures var ds := SaveDisks(d, snapshot, w);
            && (|ds| > 0 ==> Temp in ds[0] && ds[0][Temp] == Torn)
            && (|ds| > 1 ==> snapshot.Some? && Temp in ds[1] && ds[1][Temp] == Whole(snapshot.value))
            && (|ds| > 2 ==> Temp !in ds[2] && (w.renames || w.removes))
            && |ds| == (if snapshot == None || w.cancelled || !w.opens then 0
                        else if !w.fills then 1
                        else if w.renames || w.removes then 3 else 2)
  {
  }

  class FileRepository {
    /** Every disk there has been, the present one last: a crash leaves one of them. */
    var disks: seq<Disk>

    ghost predicate Valid()
      reads this
    {
      disks != []
    }

    function Disk(): Disk
      requires Valid()
      reads this
    {
      disks[|disks| - 1]
    }

    constructor (d: Disk)
      ensures Valid() && disks == [d]
    {
      disks := [d];
    }

    method Put(d: Disk)
      modifies this
      ensures disks == old(disks) + [d]
    {
      disks := disks + [d];
    }

    method Save(snapshot: Option<Snapshot>, w: Weather) returns (err: Option<SaveError>)
      requires Valid()
      modifies this
      ensures Valid() && disks == old(disks) + SaveDisks(old(Disk()), snapshot, w)
      ensures err ==
              if snapshot == None then Some(NilSnapshot)
              else if w.cancelled then Some(SaveCancelled)
              else if !w.opens || !w.fills then Some(WriteFailed)
              else if !w.renames then Some(RenameFailed)
              else None
      ensures Read(Disk()) == if err == None then Ok(snapshot.value) else Read(old(Disk()))
    {
      SaveIsAtomic(Disk(), snapshot, w);
      if snapshot == None {
        return Some(NilSnapshot);
      }
      if w.cancelled {
        return Some(SaveCancelled);
      }
      if !w.opens {
        return Some(WriteFailed);
      }
      Put(OpenTemp(Disk()));
      if !w.fills {
        return Some(WriteFailed);
      }
      Put(FillTemp(Disk(), snapshot.value));
      if !w.renames {
        if w.removes {
          Put(RemoveTemp(Disk()));
        }
        return Some(RenameFailed);
      }
      Put(RenameTemp(Disk()));
      return None;
    }

    /** `readable` tells whether a file that is there can be read. */
    method Load(cancelled: bool, readable: bool) returns (r: Result<Snapshot, LoadError>)
      requires Valid()
      ensures r ==
              if cancelled then Err(Cancelled)
              else if Target !in Disk() then Err(NotFound)
              else if !readable then Err(Unreadable)
              else if Disk()[Target] == Torn then Err(Unmarshal)
              else Ok(Disk()[Target].snapshot)
      ensures !cancelled && (Target in Disk() ==> readable) ==> r == Read(Disk())
    {
      if cancelled {
        return Err(Cancelled);
      }
      if Target !in Disk() {
        return Err(NotFound);
      }
      if !readable {
        return Err(Unreadable);
      }
      match Disk()[Target]
      case Whole(s) => r := Ok(s);
      case Torn => r := Err(Unmarshal);
    }
  }
}
