/** Snapshots of the whole store and their verification (src/store/snapshot.rs:
    create, verify). The locked copying itself is part of module Protocol; a
    snapshot directory is described here by what reading it back finds. */
module Snapshots {
  import opened Values
  import opened Tables
  import opened FileStore
  import opened Protocol
  import opened ProtocolInvariant
  import opened Refinement

  /** A directory entry: a regular file, or anything else. */
  datatype Entry = Regular(content: Content) | Irregular

  datatype Manifest = Manifest(
    format: nat,
    categories: nat,
    includesBackups: bool,
    backupFiles: nat,
    backups: map<FileId, Hash>)

  datatype SnapshotDir = SnapshotDir(
    manifest: Option<Manifest>,
    db: Option<Db>,
    // PRAGMA integrity_check
    intact: bool,
    categories: map<Name, Entry>,
    backups: Option<map<FileId, Entry>>)

  datatype Problem =
    | NotAFile(name: Name)
    | WrongBytes(name: Name)
    | WithoutRow(name: Name)
    | CategoryCount
    | BackupUnreadable(id: FileId)
    | BackupBytes(id: FileId)
    | BackupIrregular(id: FileId)
    | BackupUnlisted(id: FileId)
    | NoBackups
    | BackupCount

  datatype SnapshotError = NotASnapshot | UnsupportedFormat | NoDatabase | Corrupt | Inconsistent(problems: seq<Problem>)

  /** `read_manifest` and the integrity check accept the directory. */
  predicate Readable(src: SnapshotDir) {
    src.manifest.Some? && src.manifest.value.format == 1 && src.db.Some? && src.intact
  }

  predicate IsRegular<K>(dir: map<K, Entry>, key: K) {
    key in dir && dir[key].Regular?
  }

  /** The problem is present in the directory. */
  predicate Present(src: SnapshotDir, q: Problem)
    requires Readable(src)
  {
    var m, rows, cats := src.manifest.value, src.db.value.rows, src.categories;
    match q
    case NotAFile(n) => n in rows && !IsRegular(cats, n)
    case WrongBytes(n) => n in rows && IsRegular(cats, n) && HashOf(cats[n].content) != rows[n].hash
    case WithoutRow(n) => n in cats && n !in rows
    case CategoryCount => |rows| != m.categories
    case BackupCount => m.includesBackups && |m.backups| != m.backupFiles
    case NoBackups => m.includesBackups && src.backups.None?
    case BackupUnreadable(b) =>
      m.includesBackups && b in m.backups && !(src.backups.Some? && IsRegular(src.backups.value, b))
    case BackupBytes(b) =>
      && m.includesBackups && b in m.backups && src.backups.Some? && IsRegular(src.backups.value, b)
      && HashOf(src.backups.value[b].content) != m.backups[b]
    case BackupIrregular(b) =>
      m.includesBackups && src.backups.Some? && b in src.backups.value && src.backups.value[b].Irregular?
    case BackupUnlisted(b) =>
      m.includesBackups && src.backups.Some? && IsRegular(src.backups.value, b) && b !in m.backups
  }

  function FilesNamed(rows: map<Name, Row>): map<Name, Entry> {
    map n | n in rows :: Regular(rows[n].hash.of)
  }

  function BackupsListed(listed: map<FileId, Hash>): map<FileId, Entry> {
    map b | b in listed :: Regular(listed[b].of)
  }

  function FilesAsEntries(files: map<Name, Content>): map<Name, Entry> {
    map n | n in files :: Regular(files[n])
  }

  function HashesOf(backups: map<FileId, Backup>): map<FileId, Hash> {
    map b | b in backups :: HashOf(backups[b].content)
  }

  function CopiesOf(backups: map<FileId, Backup>): map<FileId, Entry> {
    map b | b in backups :: Regular(backups[b].content)
  }

  /** Rows and files of one instant: exactly one file per row, carrying the bytes the row
      names, and exactly the backups the manifest lists, byte for byte. */
  predicate Faithful(src: SnapshotDir) {
    && Readable(src)
    && src.categories == FilesNamed(src.db.value.rows)
    && src.manifest.value.categories == |src.db.value.rows|
    && (src.manifest.value.includesBackups ==>
          && |src.manifest.value.backups| == src.manifest.value.backupFiles
          && src.backups == Some(BackupsListed(src.manifest.value.backups)))
  }

  lemma CategoriesFaithful(src: SnapshotDir)
    requires Readable(src)
    ensures (forall q: Problem :: q.NotAFile? || q.WrongBytes? || q.WithoutRow? ==> !Present(src, q))
      <==> src.categories == FilesNamed(src.db.value.rows)
  {
    var rows := src.db.value.rows;
    var wanted := FilesNamed(rows);
    if forall q: Problem :: q.NotAFile? || q.WrongBytes? || q.WithoutRow? ==> !Present(src, q) {
      forall n ensures n in src.categories <==> n in wanted
               ensures n in wanted ==> n in src.categories && src.categories[n] == wanted[n] {
        assert !Present(src, NotAFile(n)) && !Present(src, WrongBytes(n)) && !Present(src, WithoutRow(n));
      }
      assert src.categories == wanted;
    }
  }

  lemma BackupsFaithful(src: SnapshotDir)
    requires Readable(src) && src.manifest.value.includesBackups
    ensures (forall q: Problem :: q.BackupUnreadable? || q.BackupBytes? || q.BackupIrregular? || q.BackupUnlisted? || q.NoBackups?
              ==> !Present(src, q))
      <==> src.backups == Some(BackupsListed(src.manifest.value.backups))
  {
    var listed := src.manifest.value.backups;
    var wanted := BackupsListed(listed);
    if forall q: Problem :: q.BackupUnreadable? || q.BackupBytes? || q.BackupIrregular? || q.BackupUnlisted? || q.NoBackups?
         ==> !Present(src, q)
    {
      assert !Present(src, NoBackups);
      var found := src.backups.value;
      forall b: FileId ensures b in found <==> b in wanted
                       ensures b in wanted ==> b in found && found[b] == wanted[b] {
        assert !Present(src, BackupUnreadable(b)) && !Present(src, BackupBytes(b));
        assert !Present(src, BackupIrregular(b)) && !Present(src, BackupUnlisted(b));
      }
      assert found == wanted;
    }
  }

  /** A readable snapshot has no problem exactly when it is faithful. */
  lemma NoProblemMeansFaithful(src: SnapshotDir)
    requires Readable(src)
    ensures (forall q :: !Present(src, q)) <==> Faithful(src)
  {
    CategoriesFaithful(src);
    if src.manifest.value.includesBackups {
      BackupsFaithful(src);
    }
    if forall q :: !Present(src, q) {
      assert !Present(src, CategoryCount) && !Present(src, BackupCount);
    }
  }

  // ---------- verify ----------

  method CheckRows(src: SnapshotDir) returns (problems: seq<Problem>)
    requires Readable(src)
    ensures forall q :: q in problems <==> (q.NotAFile? || q.WrongBytes?) && Present(src, q)
  {
    problems := [];
    var rows := src.db.value.rows;
    var left := rows.Keys;
    while left != {}
      invariant left <= rows.Keys
      invariant forall q :: q in problems <==> (q.NotAFile? || q.WrongBytes?) && Present(src, q) && q.name !in left
    {
      var n :| n in left;
      left := left - {n};
      if !IsRegular(src.categories, n) {
        problems := problems + [NotAFile(n)];
      } else if HashOf(src.categories[n].content) != rows[n].hash {
        problems := problems + [WrongBytes(n)];
      }
    }
  }

  method CheckFiles(src: SnapshotDir) returns (problems: seq<Problem>)
    requires Readable(src)
    ensures forall q :: q in problems <==> q.WithoutRow? && Present(src, q)
  {
    problems := [];
    var left := src.categories.Keys;
    while left != {}
      invariant left <= src.categories.Keys
      invariant forall q :: q in problems <==> q.WithoutRow? && Present(src, q) && q.name !in left
    {
      var n :| n in left;
      left := left - {n};
      if n !in src.db.value.rows {
        problems := problems + [WithoutRow(n)];
      }
    }
  }

  method CheckListedBackups(src: SnapshotDir) returns (problems: seq<Problem>)
    requires Readable(src) && src.manifest.value.includesBackups
    ensures forall q :: q in problems <==> (q.BackupUnreadable? || q.BackupBytes?) && Present(src, q)
  {
    problems := [];
    var listed := src.manifest.value.backups;
    var left := listed.Keys;
    while left != {}
      invariant left <= listed.Keys
      invariant forall q :: q in problems <==> (q.BackupUnreadable? || q.BackupBytes?) && Present(src, q) && q.id !in left
    {
      var b :| b in left;
      left := left - {b};
      if src.backups.None? || !IsRegular(src.backups.value, b) {
        problems := problems + [BackupUnreadable(b)];
      } else if HashOf(src.backups.value[b].content) != listed[b] {
        problems := problems + [BackupBytes(b)];
      }
    }
  }

  method CheckBackupFiles(src: SnapshotDir) returns (problems: seq<Problem>)
    requires Readable(src) && src.manifest.value.includesBackups
    ensures forall q :: q in problems <==> (q.BackupIrregular? || q.BackupUnlisted? || q.NoBackups?) && Present(src, q)
  {
    if src.backups.None? {
      return [NoBackups];
    }
    problems := [];
    var found := src.backups.value;
    var left := found.Keys;
    while left != {}
      invariant left <= found.Keys
      invariant forall q :: q in problems <==> (q.BackupIrregular? || q.BackupUnlisted?) && Present(src, q) && q.id !in left
    {
      var b :| b in left;
      left := left - {b};
      if found[b].Irregular? {
        problems := problems + [BackupIrregular(b)];
      } else if b !in src.manifest.value.backups {
        problems := problems + [BackupUnlisted(b)];
      }
    }
  }

  /** `verify`: it accepts exactly the faithful snapshots, and otherwise names exactly the
      problems present. */
  method Verify(src: SnapshotDir) returns (r: Result<Manifest, SnapshotError>)
    ensures r.Ok? <==> Faithful(src)
    ensures r.Ok? ==> Some(r.value) == src.manifest
    ensures r.Err? && r.error.Inconsistent? <==> Readable(src) && !Faithful(src)
    ensures r.Err? && r.error.Inconsistent? ==> forall q :: q in r.error.problems <==> Present(src, q)
    ensures r == Err(NotASnapshot) <==> src.manifest == None
    ensures r == Err(UnsupportedFormat) <==> src.manifest.Some? && src.manifest.value.format != 1
    ensures r == Err(NoDatabase) <==> src.manifest.Some? && src.manifest.value.format == 1 && src.db == None
    ensures r == Err(Corrupt) <==> src.manifest.Some? && src.manifest.value.format == 1 && src.db.Some? && !src.intact
  {
    if src.manifest.None? {
      return Err(NotASnapshot);
    }
    var manifest := src.manifest.value;
    if manifest.format != 1 {
      return Err(UnsupportedFormat);
    }
    if src.db.None? {
      return Err(NoDatabase);
    }
    if !src.intact {
      return Err(Corrupt);
    }
    var problems := CheckRows(src);
    var extra := CheckFiles(src);
    problems := problems + extra;
    if |src.db.value.rows| != manifest.categories {
      problems := problems + [CategoryCount];
    }
    if manifest.includesBackups {
      var listed := CheckListedBackups(src);
      var found := CheckBackupFiles(src);
      problems := problems + listed + found;
      if |manifest.backups| != manifest.backupFiles {
        problems := problems + [BackupCount];
      }
    }
    NoProblemMeansFaithful(src);
    assert problems == [] || Present(src, problems[0]);
    r := if problems == [] then Ok(manifest) else Err(Inconsistent(problems));
  }

  // ---------- create ----------

  /** The directory `create` leaves behind once it has released the lock. */
  function Created(db: Db, copied: map<Name, Content>, backups: Option<map<FileId, Backup>>): SnapshotDir {
    SnapshotDir(
      Some(Manifest(1, |copied|, backups.Some?,
                    if backups.Some? then |backups.value| else 0,
                    if backups.Some? then HashesOf(backups.value) else map[])),
      Some(db),
      true,
      FilesAsEntries(copied),
      if backups.Some? then Some(CopiesOf(backups.value)) else None)
  }

  function SnapshotOf(pc: Pc): SnapshotDir
    requires pc.Snapped?
  {
    Created(pc.db, pc.copied, pc.backups)
  }

  lemma SameKeysSameSize<K, V, W>(a: map<K, V>, b: map<K, W>)
    requires a.Keys == b.Keys
    ensures |a| == |b|
  {
    assert |a| == |a.Keys|;
    assert |b| == |b.Keys|;
  }

  lemma FaithfulWhenCopiedIsCommitted(db: Db, copied: map<Name, Content>, backups: Option<map<FileId, Backup>>)
    requires copied == Contents(db.rows)
    ensures Faithful(Created(db, copied, backups))
  {
    SameKeysSameSize(copied, db.rows);
    if backups.Some? {
      SameKeysSameSize(HashesOf(backups.value), backups.value);
      assert CopiesOf(backups.value) == BackupsListed(HashesOf(backups.value));
    }
  }

  /** A snapshot taken in any run, with pending files around and late renames of other
      processes still to come, passes verification. */
  lemma EverySnapshotVerifies(states: seq<State>, events: seq<Event>, i: nat, p: Pid)
    requires Run(states, events) && Init(states[0]) && i < |states| && PcOf(states[i], p).Snapped?
    ensures Faithful(SnapshotOf(PcOf(states[i], p)))
  {
    RunKeepsInv(states, events, i);
    assert Knows(states[i], p);
    var pc := PcOf(states[i], p);
    FaithfulWhenCopiedIsCommitted(pc.db, pc.copied, pc.backups);
  }
}
