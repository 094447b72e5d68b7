/** Restoring a snapshot over the live store (src/store/snapshot.rs: restore,
    interrupted_restore), with every process stopped. Each file operation may
    fail, and the history of the directory records every point at which the
    machine may stop. */
module Restore {
  import opened Values
  import opened Tables
  import opened FileStore
  import opened Operations
  import opened Protocol
  import opened ProtocolInvariant
  import opened Refinement
  import opened Snapshots

  /** What is renamed as a whole. */
  datatype Piece = Database | Wal | SharedMemory | Journal | Categories | BackupFiles | ManifestFile

  datatype Blob =
    | TablesBlob(db: Db, intact: bool)
    | SideBlob(bytes: string)
    | FilesBlob(files: map<Name, Entry>)
    | BackupsBlob(backups: map<FileId, Entry>)
    | ManifestBlob(manifest: Manifest)

  type Place = map<Piece, Blob>

  /** The base directory: the live store, the staging and parking directories of this restore,
      the marker file (an earlier restore may have left one), and whether this restore has
      written it. */
  datatype Disk = Disk(live: Place, staging: Place, parking: Place, marker: bool, begun: bool)

  datatype RestoreError = Rejected(error: SnapshotError) | Interrupted | Io

  // ---------- What a restore must keep at every moment ----------

  /** The snapshot has every piece its manifest promises. */
  predicate IsComplete(src: SnapshotDir) {
    Readable(src) && (src.manifest.value.includesBackups ==> src.backups.Some?)
  }

  /** The pieces a snapshot brings. */
  function NewPieces(src: SnapshotDir): Place
    requires IsComplete(src)
  {
    var two := map[Database := TablesBlob(src.db.value, src.intact), Categories := FilesBlob(src.categories)];
    if src.manifest.value.includesBackups then two[BackupFiles := BackupsBlob(src.backups.value)] else two
  }

  /** What reading a staging directory back as a snapshot finds. */
  function StagedDir(staging: Place): SnapshotDir {
    var manifest := if ManifestFile in staging then staging[ManifestFile] else SideBlob("");
    var tables := if Database in staging then staging[Database] else SideBlob("");
    var files := if Categories in staging then staging[Categories] else SideBlob("");
    var backups := if BackupFiles in staging then staging[BackupFiles] else SideBlob("");
    SnapshotDir(if manifest.ManifestBlob? then Some(manifest.manifest) else None,
                if tables.TablesBlob? then Some(tables.db) else None,
                tables.TablesBlob? && tables.intact,
                if files.FilesBlob? then files.files else map[],
                if backups.BackupsBlob? then Some(backups.backups) else None)
  }

  /** An exact copy of a snapshot, as far as its manifest covers it. */
  function ExactCopy(src: SnapshotDir): Place
    requires IsComplete(src)
  {
    NewPieces(src)[ManifestFile := ManifestBlob(src.manifest.value)]
  }

  /** An exact copy of a faithful snapshot verifies. */
  lemma ExactCopyIsFaithful(src: SnapshotDir)
    requires Faithful(src)
    ensures Faithful(StagedDir(ExactCopy(src)))
  {
    var copy := StagedDir(ExactCopy(src));
    assert copy == src.(backups := if src.manifest.value.includesBackups then src.backups else None);
  }

  const ALWAYS_PARKED := {Database, Wal, SharedMemory, Journal, Categories}

  /** The live store once the restore is complete: backups not in the snapshot stay. */
  function NewLive(live: Place, src: SnapshotDir): Place
    requires IsComplete(src)
  {
    (live - ALWAYS_PARKED) + NewPieces(src)
  }

  /** What one restore has to do: the live store it found, the pieces it brings, and the live
      store it has to leave. */
  datatype Goal = Goal(was: Place, brought: Place, after: Place)

  /** The staged pieces, all but the manifest, take the place of the live ones. */
  function GoalOf(live: Place, staged: Place): Goal {
    Goal(live, staged - {ManifestFile}, (live - ALWAYS_PARKED) + (staged - {ManifestFile}))
  }

  lemma ExactGoal(live: Place, src: SnapshotDir)
    requires IsComplete(src)
    ensures GoalOf(live, ExactCopy(src)) == Goal(live, NewPieces(src), NewLive(live, src))
  {
    assert ExactCopy(src) - {ManifestFile} == NewPieces(src);
  }

  /** Without a marker the live store is all old or all new; every old piece is live or parked;
      from the moment this restore has written the marker every new piece is staged or live. */
  predicate FailClosed(g: Goal, d: Disk) {
    && (!d.marker ==> d.live == g.was || d.live == g.after)
    && (forall p :: p in g.was ==> Has(d.live, p, g.was[p]) || Has(d.parking, p, g.was[p]))
    && (d.begun ==> AllHere(g, d))
  }

  predicate AllHere(g: Goal, d: Disk) {
    forall p :: p in g.brought ==> Has(d.staging, p, g.brought[p]) || Has(d.live, p, g.brought[p])
  }

  predicate Has(place: Place, piece: Piece, blob: Blob) {
    piece in place && place[piece] == blob
  }

  function Parked(d: Disk, piece: Piece): Disk {
    if piece !in d.live then d
    else d.(live := d.live - {piece}, parking := d.parking[piece := d.live[piece]])
  }

  function Installed(d: Disk, piece: Piece): Disk
    requires piece in d.staging
  {
    d.(live := d.live[piece := d.staging[piece]], staging := d.staging - {piece})
  }

  function ManifestKept(d: Disk): Disk
    requires ManifestFile in d.staging
  {
    d.(parking := d.parking[ManifestFile := d.staging[ManifestFile]], staging := d.staging - {ManifestFile})
  }

  /** What holds between writing the marker and removing it. */
  predicate Swapping(g: Goal, d: Disk) {
    d.marker && d.begun && FailClosed(g, d)
  }

  /** An old piece may be parked while its successor, if any, is still staged. */
  lemma ParkKeepsSwapping(g: Goal, d: Disk, piece: Piece)
    requires Swapping(g, d)
    requires piece in g.was && piece in d.live ==> d.live[piece] == g.was[piece]
    requires piece in g.brought ==> Has(d.staging, piece, g.brought[piece])
    ensures Swapping(g, Parked(d, piece))
  {
  }

  /** A staged piece may be installed once the old one is out of the way. */
  lemma InstallKeepsSwapping(g: Goal, d: Disk, piece: Piece)
    requires Swapping(g, d) && piece !in d.live
    requires piece in g.brought && Has(d.staging, piece, g.brought[piece])
    ensures Swapping(g, Installed(d, piece))
  {
  }

  lemma KeepManifestKeepsSwapping(g: Goal, d: Disk)
    requires Swapping(g, d) && ManifestFile in d.staging && ManifestFile !in g.was && ManifestFile !in g.brought
    ensures Swapping(g, ManifestKept(d))
  {
  }

  function PiecesBrought(withBackups: bool): set<Piece> {
    if withBackups then {Database, Categories, BackupFiles} else {Database, Categories}
  }

  // ---------- Histories ----------

  /** One file operation; `Start` is the moment before the first. */
  datatype Operation =
    | Start
    | StageOp(piece: Piece, blob: Blob)
    | DropOp
    | MarkOp
    | ParkOp(piece: Piece)
    | InstallOp(piece: Piece)
    | KeepManifestOp
    | UnmarkOp

  /** The directory after one operation. */
  datatype Moment = Moment(op: Operation, disk: Disk)

  predicate Does(op: Operation, d: Disk, after: Disk) {
    match op
    case Start => false
    case StageOp(piece, blob) => after == d.(staging := d.staging[piece := blob])
    case DropOp => after == d.(staging := map[])
    case MarkOp => after == d.(marker := true, begun := true)
    case ParkOp(piece) => piece in d.live && after == Parked(d, piece)
    case InstallOp(piece) => piece in d.staging && after == Installed(d, piece)
    case KeepManifestOp => ManifestFile in d.staging && after == ManifestKept(d)
    case UnmarkOp => after == d.(marker := false)
  }

  /** Each moment follows from the one before by one file operation. */
  predicate Chain(history: seq<Moment>) {
    forall i :: 0 < i < |history| ==> Does(history[i].op, history[i - 1].disk, history[i].disk)
  }

  predicate AllClosed(g: Goal, history: seq<Moment>) {
    forall i :: 0 <= i < |history| ==> FailClosed(g, history[i].disk)
  }

  /** Nothing but the staging directory has changed. */
  predicate AllUntouched(was: Disk, history: seq<Moment>) {
    forall i :: 0 <= i < |history| ==> history[i].disk == was.(staging := history[i].disk.staging)
  }

  lemma OneMore(g: Goal, history: seq<Moment>, m: Moment)
    requires history != [] && Chain(history) && AllClosed(g, history)
    requires Does(m.op, history[|history| - 1].disk, m.disk) && FailClosed(g, m.disk)
    ensures Chain(history + [m]) && AllClosed(g, history + [m])
  {
  }

  /** Before the marker is written any goal for the same live store is met. */
  lemma UntouchedIsClosed(g: Goal, was: Disk, history: seq<Moment>)
    requires AllUntouched(was, history) && was.live == g.was && !was.begun
    ensures AllClosed(g, history)
  {
  }

  // ---------- The directory and its operations ----------

  class BaseDir {
    var live: Place
    var staging: Place
    var parking: Place
    var marker: bool
    // Which of the coming operations fail, and what copying a piece leaves behind.
    const fails: nat -> bool
    const copies: (nat, Blob) -> Blob
    var operations: nat
    ghost var begun: bool
    ghost var history: seq<Moment>

    constructor (live: Place, marker: bool, fails: nat -> bool, copies: (nat, Blob) -> Blob)
      ensures Now() == Disk(live, map[], map[], marker, false) && history == [Moment(Start, Now())]
      ensures this.fails == fails && this.copies == copies
    {
      this.live, staging, parking, this.marker := live, map[], map[], marker;
      this.fails, this.copies, operations, begun := fails, copies, 0, false;
      history := [Moment(Start, Disk(live, map[], map[], marker, false))];
    }

    ghost function Now(): Disk
      reads this
    {
      Disk(live, staging, parking, marker, begun)
    }

    ghost predicate NothingFails() {
      forall n :: !fails(n)
    }

    ghost predicate ExactCopies() {
      forall n, blob :: copies(n, blob) == blob
    }

    /** Whether the next operation goes through; alone, a sync or the creation of a directory. */
    method Attempt() returns (ok: bool)
      modifies this`operations
      ensures NothingFails() ==> ok
    {
      ok := !fails(operations);
      operations := operations + 1;
    }

    /** The history ends now, each of its moments one operation after the one before. */
    ghost predicate Recorded()
      reads this
    {
      history != [] && history[|history| - 1].disk == Now() && Chain(history)
    }

    ghost predicate Closed(g: Goal)
      reads this
    {
      Recorded() && AllClosed(g, history)
    }

    ghost predicate Untouched(was: Disk)
      reads this
    {
      Recorded() && AllUntouched(was, history)
    }

    /** Copy one piece into the staging directory; the copy may come out wrong. */
    method StageCopy(piece: Piece, blob: Blob, ghost was: Disk) returns (ok: bool)
      requires Untouched(was)
      modifies this`operations, this`staging, this`history
      ensures Untouched(was) && old(history) <= history
      ensures staging.Keys == old(staging).Keys + if ok then {piece} else {}
      ensures ok && ExactCopies() ==> staging == old(staging)[piece := blob]
      ensures NothingFails() ==> ok
    {
      ok := Attempt();
      if ok {
        var copy := copies(operations, blob);
        staging := staging[piece := copy];
        history := history + [Moment(StageOp(piece, copy), Now())];
      }
    }

    /** Remove the staging directory with everything in it; a failure is ignored. */
    method DropStaging()
      requires Recorded()
      modifies this`operations, this`staging, this`history
      ensures Recorded() && (history == old(history) || history == old(history) + [Moment(DropOp, Now())])
    {
      var ok := Attempt();
      if ok {
        staging := map[];
        history := history + [Moment(DropOp, Now())];
      }
    }

    method WriteMarker(ghost g: Goal) returns (ok: bool)
      requires Closed(g)
      requires forall p :: p in g.brought ==> Has(staging, p, g.brought[p])
      modifies this`operations, this`marker, this`begun, this`history
      ensures Closed(g) && old(history) <= history
      ensures ok ==> Swapping(g, Now())
      ensures !ok ==> begun == old(begun)
      ensures NothingFails() ==> ok
    {
      ok := Attempt();
      if ok {
        marker, begun := true, true;
        OneMore(g, history, Moment(MarkOp, Now()));
        history := history + [Moment(MarkOp, Now())];
      }
    }

    method RemoveMarker(ghost g: Goal) returns (ok: bool)
      requires Closed(g) && Swapping(g, Now())
      requires live == g.after
      modifies this`operations, this`marker, this`history
      ensures Closed(g) && old(history) <= history
      ensures ok ==> !marker
      ensures NothingFails() ==> ok
    {
      ok := Attempt();
      if ok {
        marker := false;
        OneMore(g, history, Moment(UnmarkOp, Now()));
        history := history + [Moment(UnmarkOp, Now())];
      }
    }

    /** Rename a live piece into the parking directory, if it exists. */
    method Park(piece: Piece, ghost g: Goal) returns (ok: bool)
      requires Closed(g) && Swapping(g, Now())
      requires piece in g.was && piece in live ==> live[piece] == g.was[piece]
      requires piece in g.brought ==> Has(staging, piece, g.brought[piece])
      modifies this`operations, this`live, this`parking, this`history
      ensures Closed(g) && old(history) <= history
      ensures ok ==> Swapping(g, Now()) && live == old(live) - {piece}
      ensures NothingFails() ==> ok
    {
      ParkKeepsSwapping(g, Now(), piece);
      ok := true;
      if piece in live {
        ok := Attempt();
        if ok {
          parking, live := parking[piece := live[piece]], live - {piece};
          OneMore(g, history, Moment(ParkOp(piece), Now()));
          history := history + [Moment(ParkOp(piece), Now())];
        }
      }
    }

    /** Rename a staged piece into the live store. */
    method Install(piece: Piece, ghost g: Goal) returns (ok: bool)
      requires Closed(g) && Swapping(g, Now())
      requires piece in g.brought && Has(staging, piece, g.brought[piece]) && piece !in live
      modifies this`operations, this`live, this`staging, this`history
      ensures Closed(g) && old(history) <= history
      ensures ok ==> Swapping(g, Now())
      ensures ok ==> live == old(live)[piece := g.brought[piece]] && staging == old(staging) - {piece}
      ensures NothingFails() ==> ok
    {
      InstallKeepsSwapping(g, Now(), piece);
      ok := Attempt();
      if ok {
        live, staging := live[piece := staging[piece]], staging - {piece};
        OneMore(g, history, Moment(InstallOp(piece), Now()));
        history := history + [Moment(InstallOp(piece), Now())];
      }
    }

    /** Rename the staged manifest into the parking directory. */
    method KeepManifest(ghost g: Goal) returns (ok: bool)
      requires Closed(g) && Swapping(g, Now())
      requires ManifestFile in staging && ManifestFile !in g.was && ManifestFile !in g.brought
      modifies this`operations, this`parking, this`staging, this`history
      ensures Closed(g) && old(history) <= history
      ensures ok ==> Swapping(g, Now()) && staging == old(staging) - {ManifestFile}
      ensures NothingFails() ==> ok
    {
      KeepManifestKeepsSwapping(g, Now());
      ok := Attempt();
      if ok {
        parking, staging := parking[ManifestFile := staging[ManifestFile]], staging - {ManifestFile};
        OneMore(g, history, Moment(KeepManifestOp, Now()));
        history := history + [Moment(KeepManifestOp, Now())];
      }
    }

    method StageStore(src: SnapshotDir, ghost was: Disk) returns (ok: bool)
      requires Readable(src) && Untouched(was) && staging == map[]
      modifies this`operations, this`staging, this`history
      ensures Untouched(was) && old(history) <= history
      ensures ok ==> staging.Keys == {ManifestFile, Database, Categories}
      ensures ok && ExactCopies() ==>
        staging == map[ManifestFile := ManifestBlob(src.manifest.value),
                       Database := TablesBlob(src.db.value, src.intact), Categories := FilesBlob(src.categories)]
      ensures NothingFails() ==> ok
    {
      ok := StageCopy(ManifestFile, ManifestBlob(src.manifest.value), was);
      if !ok { return; }
      ok := StageCopy(Database, TablesBlob(src.db.value, src.intact), was);
      if !ok { return; }
      ok := StageCopy(Categories, FilesBlob(src.categories), was);
    }

    method StageEverything(src: SnapshotDir, ghost was: Disk) returns (ok: bool)
      requires IsComplete(src) && Untouched(was) && staging == map[]
      modifies this`operations, this`staging, this`history
      ensures Untouched(was) && old(history) <= history
      ensures ok ==> staging.Keys == PiecesBrought(src.manifest.value.includesBackups) + {ManifestFile}
      ensures ok && ExactCopies() ==> staging == ExactCopy(src)
      ensures NothingFails() ==> ok
    {
      ok := StageStore(src, was);
      if ok && src.manifest.value.includesBackups {
        ok := StageCopy(BackupFiles, BackupsBlob(src.backups.value), was);
      }
    }

    /** Phase 1: copy the snapshot into the staging directory and verify what arrived there. */
    method StageAll(src: SnapshotDir, ghost was: Disk) returns (ok: bool)
      requires Faithful(src) && Untouched(was) && staging == map[]
      modifies this`operations, this`staging, this`history
      ensures Untouched(was) && old(history) <= history
      ensures ok ==> staging.Keys == PiecesBrought(src.manifest.value.includesBackups) + {ManifestFile}
      ensures ok ==> Faithful(StagedDir(staging))
      ensures ok && ExactCopies() ==> staging == ExactCopy(src)
      ensures NothingFails() && ExactCopies() ==> ok
    {
      ok := StageEverything(src, was);
      if ok {
        ExactCopyIsFaithful(src);
        var verified := Verify(StagedDir(staging));
        ok := verified.Ok?;
      }
    }

    method ParkDatabase(ghost g: Goal) returns (ok: bool)
      requires Closed(g) && Swapping(g, Now()) && live == g.was
      requires forall p :: p in g.brought ==> Has(staging, p, g.brought[p])
      modifies this`operations, this`live, this`parking, this`history
      ensures Closed(g) && old(history) <= history
      ensures ok ==> Swapping(g, Now()) && live == g.was - {Database, Wal, SharedMemory, Journal}
      ensures NothingFails() ==> ok
    {
      var pieces := [Database, Wal, SharedMemory, Journal];
      ok := true;
      for i := 0 to |pieces|
        invariant ok && Closed(g) && Swapping(g, Now()) && old(history) <= history
        invariant live == g.was - (set p | p in pieces[..i])
      {
        ok := Park(pieces[i], g);
        if !ok { return; }
        assert pieces[..i + 1] == pieces[..i] + [pieces[i]];
      }
      assert (set p | p in pieces[..|pieces|]) == {Database, Wal, SharedMemory, Journal} by {
        assert pieces[..|pieces|] == pieces;
      }
    }

    /** Park the live database with its side files, then the live categories. */
    method ParkLive(ghost g: Goal) returns (ok: bool)
      requires Closed(g) && Swapping(g, Now()) && live == g.was
      requires forall p :: p in g.brought ==> Has(staging, p, g.brought[p])
      modifies this`operations, this`live, this`parking, this`history
      ensures Closed(g) && old(history) <= history
      ensures ok ==> Swapping(g, Now()) && live == g.was - ALWAYS_PARKED
      ensures NothingFails() ==> ok
    {
      ok := ParkDatabase(g);
      if ok {
        ok := Park(Categories, g);
      }
    }

    method InstallStore(ghost g: Goal) returns (ok: bool)
      requires Closed(g) && Swapping(g, Now()) && live == g.was - ALWAYS_PARKED
      requires g.brought.Keys >= {Database, Categories}
      requires forall p :: p in g.brought ==> Has(staging, p, g.brought[p])
      modifies this`operations, this`live, this`staging, this`history
      ensures Closed(g) && old(history) <= history
      ensures ok ==> Swapping(g, Now()) && staging == old(staging) - {Database, Categories}
      ensures ok ==> live == old(live)[Database := g.brought[Database]][Categories := g.brought[Categories]]
      ensures NothingFails() ==> ok
    {
      ok := Install(Database, g);
      if ok {
        ok := Install(Categories, g);
      }
    }

    method InstallBackups(ghost g: Goal) returns (ok: bool)
      requires Closed(g) && Swapping(g, Now()) && BackupFiles in g.brought
      requires Has(staging, BackupFiles, g.brought[BackupFiles])
      requires BackupFiles in live ==> Has(g.was, BackupFiles, live[BackupFiles])
      modifies this`operations, this`live, this`staging, this`parking, this`history
      ensures Closed(g) && old(history) <= history
      ensures ok ==> Swapping(g, Now()) && staging == old(staging) - {BackupFiles}
      ensures ok ==> live == old(live)[BackupFiles := g.brought[BackupFiles]]
      ensures NothingFails() ==> ok
    {
      ok := Park(BackupFiles, g);
      if ok {
        ok := Install(BackupFiles, g);
      }
    }

    method InstallAll(withBackups: bool, ghost g: Goal) returns (ok: bool)
      requires Closed(g) && Swapping(g, Now()) && live == g.was - ALWAYS_PARKED
      requires g.brought.Keys == PiecesBrought(withBackups)
      requires staging.Keys == g.brought.Keys + {ManifestFile}
      requires forall p :: p in g.brought ==> Has(staging, p, g.brought[p])
      modifies this`operations, this`live, this`staging, this`parking, this`history
      ensures Closed(g) && old(history) <= history
      ensures ok ==> Swapping(g, Now()) && staging.Keys == {ManifestFile}
      ensures ok ==> live == (g.was - ALWAYS_PARKED) + g.brought
      ensures NothingFails() ==> ok
    {
      ok := InstallStore(g);
      if ok && withBackups {
        ok := InstallBackups(g);
      }
    }

    /** The emptied staging directory goes last. */
    method DropEmptied(ghost g: Goal)
      requires Closed(g) && Swapping(g, Now()) && staging == map[]
      modifies this`operations, this`staging, this`history
      ensures Closed(g) && Swapping(g, Now()) && old(history) <= history
    {
      DropStaging();
    }

    method Finish(ghost g: Goal) returns (ok: bool)
      requires Closed(g) && Swapping(g, Now()) && live == g.after && ManifestFile !in g.was + g.brought
      requires staging.Keys == {ManifestFile}
      modifies this`operations, this`staging, this`parking, this`marker, this`history
      ensures Closed(g) && old(history) <= history
      ensures ok ==> !marker
      ensures NothingFails() ==> ok
    {
      ok := KeepManifest(g);
      if !ok { return; }
      DropEmptied(g);
      ok := Attempt();
      if !ok { return; }
      ok := RemoveMarker(g);
      if !ok { return; }
      ok := Attempt();
    }

    method Exchange(withBackups: bool, ghost g: Goal) returns (ok: bool)
      requires Closed(g) && Swapping(g, Now()) && live == g.was && g.after == (g.was - ALWAYS_PARKED) + g.brought
      requires g.brought.Keys == PiecesBrought(withBackups) && staging.Keys == g.brought.Keys + {ManifestFile}
      requires forall p :: p in g.brought ==> Has(staging, p, g.brought[p])
      requires ManifestFile !in live
      modifies this`operations, this`live, this`staging, this`parking, this`marker, this`history
      ensures Closed(g) && old(history) <= history
      ensures ok ==> !marker && live == g.after
      ensures NothingFails() ==> ok
    {
      ok := ParkLive(g);
      if !ok { return; }
      ok := InstallAll(withBackups, g);
      if !ok { return; }
      ok := Finish(g);
    }

    /** Phase 2: park the live pieces and rename the staged ones into place. */
    method Swap(withBackups: bool, ghost g: Goal) returns (ok: bool)
      requires Closed(g) && g == GoalOf(live, staging) && ManifestFile !in live
      requires staging.Keys == PiecesBrought(withBackups) + {ManifestFile}
      modifies this
      ensures Closed(g) && old(history) <= history
      ensures ok ==> !marker && live == g.after
      ensures NothingFails() ==> ok
    {
      ok := WriteMarker(g);
      if !ok { return; }
      ok := Attempt();
      if !ok { return; }
      ok := Exchange(withBackups, g);
    }

    /** `interrupted_restore`, as the store checks it when it opens: what it opens, at any moment
        of a restore, is all old or all new. */
    method Open(ghost g: Goal) returns (r: Result<Place, RestoreError>)
      requires Closed(g)
      ensures r.Ok? <==> !marker
      ensures r.Ok? ==> r.value == live && (r.value == g.was || r.value == g.after)
    {
      if marker {
        return Err(Interrupted);
      }
      r := Ok(live);
    }

    method GiveUp(ghost was: Disk, ghost g: Goal)
      requires Untouched(was) && was.live == g.was && !was.begun
      modifies this`operations, this`staging, this`history
      ensures Closed(g) && !begun && old(history) <= history
    {
      DropStaging();
      UntouchedIsClosed(g, was, history);
    }

    /** Both phases; a failure in the first removes the staging directory. The goal is set by what
        was staged and verified. */
    method Replace(src: SnapshotDir, ghost was: Disk) returns (ok: bool, ghost staged: Place)
      requires Faithful(src) && Untouched(was) && was == Now() && !begun && staging == map[] && ManifestFile !in live
      modifies this
      ensures Closed(GoalOf(was.live, staged)) && old(history) <= history
      ensures begun || ok ==> Faithful(StagedDir(staged))
      ensures ok ==> !marker && live == GoalOf(was.live, staged).after
      ensures ExactCopies() ==> staged == ExactCopy(src)
      ensures NothingFails() && ExactCopies() ==> ok
    {
      ok := StageAll(src, was);
      if ok {
        staged := staging;
        UntouchedIsClosed(GoalOf(live, staged), was, history);
        ok := Swap(src.manifest.value.includesBackups, GoalOf(live, staged));
      } else {
        staged := ExactCopy(src);
        GiveUp(was, GoalOf(live, staged));
      }
    }

    /** `restore`: the history grows by single file operations, and whatever fails and wherever it
        stops, every moment of it is fail-closed. What goes live is a staged copy that verified;
        with exact copies it is the snapshot itself. A rejected snapshot changes nothing, and
        when nothing fails a faithful one is restored. */
    method Restore(src: SnapshotDir) returns (r: Result<Manifest, RestoreError>, ghost staged: Place)
      requires Now() == Disk(live, map[], map[], marker, false) && history == [Moment(Start, Now())]
      requires ManifestFile !in live
      modifies this
      ensures old(history) <= history
      ensures !Faithful(src) ==> r.Err? && r.error.Rejected? && Now() == old(Now()) && history == old(history)
      ensures Faithful(src) ==> Closed(GoalOf(old(live), staged))
      ensures begun || r.Ok? ==> Faithful(src) && Faithful(StagedDir(staged))
      ensures r.Ok? ==> !marker && live == GoalOf(old(live), staged).after
      ensures Faithful(src) && ExactCopies() ==> GoalOf(old(live), staged) == Goal(old(live), NewPieces(src), NewLive(old(live), src))
      ensures Faithful(src) && ExactCopies() && NothingFails() ==> r.Ok?
    {
      staged := map[];
      var verified := Verify(src);
      if verified.Err? {
        return Err(Rejected(verified.error)), staged;
      }
      ExactGoal(live, src);
      var replaced;
      replaced, staged := Replace(src, Now());
      r := if replaced then Ok(verified.value) else Err(RestoreError.Io);
    }
  }

  // ---------- Snapshot and restore ----------

  /** The live store after restoring what `create` wrote. */
  predicate BroughtBack(live: Place, db: Db, files: map<Name, Content>, backups: Option<map<FileId, Backup>>, after: Place) {
    && Has(after, Database, TablesBlob(db, true))
    && Has(after, Categories, FilesBlob(FilesAsEntries(files)))
    && (backups.Some? ==> Has(after, BackupFiles, BackupsBlob(CopiesOf(backups.value))))
    && (backups.None? && BackupFiles in live ==> Has(after, BackupFiles, live[BackupFiles]))
    && after.Keys !! {Wal, SharedMemory, Journal}
  }

  lemma PiecesOfNewLive(src: SnapshotDir, live: Place)
    requires IsComplete(src)
    ensures var after := NewLive(live, src);
      && Has(after, Database, TablesBlob(src.db.value, src.intact)) && Has(after, Categories, FilesBlob(src.categories))
      && (src.manifest.value.includesBackups ==> Has(after, BackupFiles, BackupsBlob(src.backups.value)))
      && (!src.manifest.value.includesBackups && BackupFiles in live ==> Has(after, BackupFiles, live[BackupFiles]))
      && after.Keys !! {Wal, SharedMemory, Journal}
  {
    var brought := NewPieces(src);
    assert brought.Keys <= {Database, Categories, BackupFiles};
    assert NewLive(live, src).Keys <= (live.Keys - ALWAYS_PARKED) + brought.Keys;
  }

  lemma RestoreOfCreated(db: Db, files: map<Name, Content>, backups: Option<map<FileId, Backup>>, live: Place)
    requires Faithful(Created(db, files, backups))
    ensures BroughtBack(live, db, files, backups, NewLive(live, Created(db, files, backups)))
  {
    PiecesOfNewLive(Created(db, files, backups), live);
  }

  /** What a snapshot holds when it releases the lock. */
  lemma ReleasedSnapshot(states: seq<State>, events: seq<Event>, k: nat)
    requires Run(states, events) && Init(states[0]) && k < |events|
    requires events[k].action == Release && PcOf(states[k], events[k].pid).Copied?
    ensures var s, pc := states[k], PcOf(states[k + 1], events[k].pid);
      && pc.Snapped? && pc.db == s.db && pc.copied == s.files.final
      && (pc.backups.Some? ==> pc.backups.value == s.files.backups)
      && Settled(s.db.rows, s.files) && Faithful(SnapshotOf(pc))
  {
    var p := events[k].pid;
    RunKeepsInv(states, events, k);
    assert StepAt(states, events, k);
    SnapshotIsAnInstant(states[k], p, states[k + 1]);
    EverySnapshotVerifies(states, events, k + 1, p);
    NothingPendingMeansSettled(states[k].db.rows, states[k].files);
  }

  /** Restoring a snapshot, over whatever the live store has become, brings back exactly the
      tables, the category files and the backups of the instant the snapshot released the
      lock; that instant had nothing pending, and no side file of the old database stays. */
  lemma SnapshotRestoreRoundTrip(states: seq<State>, events: seq<Event>, k: nat, live: Place)
    requires Run(states, events) && Init(states[0]) && k < |events|
    requires events[k].action == Release && PcOf(states[k], events[k].pid).Copied?
    ensures var s, pc := states[k], PcOf(states[k + 1], events[k].pid);
      && pc.Snapped? && Settled(s.db.rows, s.files) && Faithful(SnapshotOf(pc))
      && BroughtBack(live, s.db, s.files.final, if pc.backups.Some? then Some(s.files.backups) else None,
                     NewLive(live, SnapshotOf(pc)))
  {
    ReleasedSnapshot(states, events, k);
    var pc := PcOf(states[k + 1], events[k].pid);
    RestoreOfCreated(pc.db, pc.copied, pc.backups, live);
  }
}
