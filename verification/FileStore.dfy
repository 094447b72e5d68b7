/** The category directory as a value, its single file operations, and what it
    means for it to agree with the committed rows (src/store/atomic_json.rs).

  Files are keyed by kind, category and a suffix that is never reused; the
  string form of their names is the subject of module FileNames. */
module FileStore {
  import opened Values
  import opened Tables

  /** The unique suffix of a staged or parked file, or of a backup. */
  type FileId = nat

  datatype Kind = StagedWrite | ParkedDelete

  datatype Pending = Pending(name: Name, kind: Kind, content: Content)

  datatype Backup = Backup(name: Name, content: Content)

  datatype Files = Files(
    final: map<Name, Content>,
    pending: map<FileId, Pending>,
    backups: map<FileId, Backup>)

  const NO_FILES := Files(map[], map[], map[])

  // ---------- Single file operations ----------

  function Create(files: Files, id: FileId, file: Pending): Files {
    files.(pending := files.pending[id := file])
  }

  function Write(files: Files, id: FileId, content: Content): Files
    requires id in files.pending
  {
    files.(pending := files.pending[id := files.pending[id].(content := content)])
  }

  function Remove(files: Files, id: FileId): Files {
    files.(pending := files.pending - {id})
  }

  /** Rename a staged or parked file over the final one. */
  function RenameToFinal(files: Files, id: FileId): Files
    requires id in files.pending
  {
    files.(final := files.final[files.pending[id].name := files.pending[id].content],
           pending := files.pending - {id})
  }

  function Park(files: Files, id: FileId, name: Name): Files
    requires name in files.final
  {
    files.(final := files.final - {name},
           pending := files.pending[id := Pending(name, ParkedDelete, files.final[name])])
  }

  function CopyToBackup(files: Files, id: FileId, backup: FileId): Files
    requires id in files.pending
  {
    files.(backups := files.backups[backup := Backup(files.pending[id].name, files.pending[id].content)])
  }

  function MoveToBackup(files: Files, id: FileId, backup: FileId): Files
    requires id in files.pending
  {
    Remove(CopyToBackup(files, id, backup), id)
  }

  // ---------- Listings ----------

  function Listed(files: Files, name: Name, kind: Kind): (ids: set<FileId>) {
    set id | id in files.pending && files.pending[id].name == name && files.pending[id].kind == kind
  }

  function PendingNames(files: Files): set<Name> {
    set id | id in files.pending :: files.pending[id].name
  }

  ghost predicate HasPending(files: Files, name: Name) {
    exists id :: id in files.pending && files.pending[id].name == name
  }

  // ---------- Agreement with the committed rows ----------

  function Contents(rows: map<Name, Row>): map<Name, Content> {
    map n | n in rows :: rows[n].hash.of
  }

  /** The final file of `name` is exactly the committed content (or both are absent). */
  predicate Quiet(rows: map<Name, Row>, files: Files, name: Name) {
    && (name in rows <==> name in files.final)
    && (name in rows ==> HashOf(files.final[name]) == rows[name].hash)
  }

  predicate Committed(rows: map<Name, Row>, file: Pending) {
    file.name in rows && rows[file.name].hash == HashOf(file.content)
  }

  /** A staged file is a cut commit or garbage beside a quiet category; a parked
      file is the only copy of its category, and a row still names its bytes or is gone. */
  predicate PendingOk(rows: map<Name, Row>, files: Files, file: Pending) {
    match file.kind
    case StagedWrite => Quiet(rows, files, file.name) || Committed(rows, file)
    case ParkedDelete => file.name !in files.final && (file.name in rows ==> Committed(rows, file))
  }

  ghost predicate Coherent(rows: map<Name, Row>, files: Files) {
    && (forall i, j :: i in files.pending && j in files.pending && files.pending[i].name == files.pending[j].name ==> i == j)
    && (forall n :: n in files.final ==> n in rows)
    && (forall id :: id in files.pending ==> PendingOk(rows, files, files.pending[id]))
    && (forall n :: Quiet(rows, files, n) || HasPending(files, n))
  }

  /** Nothing pending, and the final files are the committed contents. */
  ghost predicate Settled(rows: map<Name, Row>, files: Files) {
    files.pending == map[] && files.final == Contents(rows)
  }

  /** Some file carries the committed bytes of `name`. */
  ghost predicate Carried(rows: map<Name, Row>, files: Files, name: Name)
    requires name in rows
  {
    || (name in files.final && HashOf(files.final[name]) == rows[name].hash)
    || (exists id :: id in files.pending && files.pending[id].name == name && Committed(rows, files.pending[id]))
  }

  lemma CommittedBytesCarried(rows: map<Name, Row>, files: Files, name: Name)
    requires Coherent(rows, files) && name in rows
    ensures Carried(rows, files, name)
  {
    if !Quiet(rows, files, name) {
      var id :| id in files.pending && files.pending[id].name == name;
      assert PendingOk(rows, files, files.pending[id]);
    }
  }

  lemma NothingPendingMeansSettled(rows: map<Name, Row>, files: Files)
    requires Coherent(rows, files) && files.pending == map[]
    ensures Settled(rows, files)
  {
    forall n
      ensures n in files.final <==> n in Contents(rows)
      ensures n in files.final ==> files.final[n] == Contents(rows)[n]
    {
      assert !HasPending(files, n);
      assert Quiet(rows, files, n);
    }
  }

  lemma SettledIsCoherent(rows: map<Name, Row>, files: Files)
    requires Settled(rows, files)
    ensures Coherent(rows, files)
  {
    forall n ensures Quiet(rows, files, n) {
      assert n in files.final <==> n in Contents(rows);
    }
  }

  /** A copy of the content is among the backups of the category. */
  predicate BackedUp(files: Files, name: Name, content: Content) {
    exists b :: b in files.backups && files.backups[b] == Backup(name, content)
  }

  lemma BackupsDoNotMatter(rows: map<Name, Row>, files: Files, files': Files)
    requires Coherent(rows, files) && files'.pending == files.pending && files'.final == files.final
    ensures Coherent(rows, files')
  {
    forall n ensures Quiet(rows, files', n) || HasPending(files', n) {
      assert Quiet(rows, files, n) || HasPending(files, n);
    }
    forall id | id in files'.pending ensures PendingOk(rows, files', files'.pending[id]) {
      assert PendingOk(rows, files, files.pending[id]);
    }
  }

  // ---------- What each file operation keeps ----------

  lemma CreateKeepsCoherent(rows: map<Name, Row>, files: Files, id: FileId, name: Name, content: Content)
    requires Coherent(rows, files) && id !in files.pending && !HasPending(files, name)
    ensures Coherent(rows, Create(files, id, Pending(name, StagedWrite, content)))
  {
    var after := Create(files, id, Pending(name, StagedWrite, content));
    assert Quiet(rows, files, name);
    forall n ensures Quiet(rows, after, n) || HasPending(after, n) {
      if !Quiet(rows, files, n) {
        var i :| i in files.pending && files.pending[i].name == n;
        assert i in after.pending;
      }
    }
  }

  lemma WriteKeepsCoherent(rows: map<Name, Row>, files: Files, id: FileId, content: Content)
    requires Coherent(rows, files) && id in files.pending && files.pending[id].kind == StagedWrite
    requires Quiet(rows, files, files.pending[id].name)
    ensures Coherent(rows, Write(files, id, content))
  {
    var after := Write(files, id, content);
    forall n ensures Quiet(rows, after, n) || HasPending(after, n) {
      if !Quiet(rows, files, n) {
        var i :| i in files.pending && files.pending[i].name == n;
        assert i in after.pending && after.pending[i].name == n;
      }
    }
  }

  /** Rename over the final file: sound exactly because the row names the bytes. */
  lemma RenameKeepsCoherent(rows: map<Name, Row>, files: Files, id: FileId)
    requires Coherent(rows, files) && id in files.pending && Committed(rows, files.pending[id])
    ensures Coherent(rows, RenameToFinal(files, id))
    ensures Quiet(rows, RenameToFinal(files, id), files.pending[id].name)
    ensures !HasPending(RenameToFinal(files, id), files.pending[id].name)
  {
    var after := RenameToFinal(files, id);
    RemovalKeepsOthers(rows, files, after, id);
  }

  lemma DiscardKeepsCoherent(rows: map<Name, Row>, files: Files, id: FileId)
    requires Coherent(rows, files) && id in files.pending && files.pending[id].kind == StagedWrite
    requires !Committed(rows, files.pending[id])
    ensures Coherent(rows, Remove(files, id))
    ensures Quiet(rows, Remove(files, id), files.pending[id].name)
    ensures !HasPending(Remove(files, id), files.pending[id].name)
  {
    assert PendingOk(rows, files, files.pending[id]);
    RemovalKeepsOthers(rows, files, Remove(files, id), id);
  }

  lemma FinishDeleteKeepsCoherent(rows: map<Name, Row>, files: Files, id: FileId)
    requires Coherent(rows, files) && id in files.pending && files.pending[id].kind == ParkedDelete
    requires files.pending[id].name !in rows
    ensures Coherent(rows, Remove(files, id))
    ensures Quiet(rows, Remove(files, id), files.pending[id].name)
    ensures !HasPending(Remove(files, id), files.pending[id].name)
  {
    assert PendingOk(rows, files, files.pending[id]);
    RemovalKeepsOthers(rows, files, Remove(files, id), id);
  }

  /** Dropping one pending file and leaving its category quiet disturbs no other category. */
  lemma RemovalKeepsOthers(rows: map<Name, Row>, files: Files, after: Files, id: FileId)
    requires Coherent(rows, files) && id in files.pending
    requires after.pending == files.pending - {id}
    requires forall n :: n != files.pending[id].name ==>
      (n in after.final <==> n in files.final) && (n in files.final ==> after.final[n] == files.final[n])
    requires Quiet(rows, after, files.pending[id].name)
    ensures Coherent(rows, after) && !HasPending(after, files.pending[id].name)
  {
    var name := files.pending[id].name;
    forall n ensures Quiet(rows, after, n) || HasPending(after, n) {
      if n != name && !Quiet(rows, files, n) {
        var i :| i in files.pending && files.pending[i].name == n;
        assert i in after.pending;
      }
    }
    forall i | i in after.pending ensures PendingOk(rows, after, after.pending[i]) {
      assert PendingOk(rows, files, files.pending[i]);
      assert files.pending[i].name != name;
    }
  }

  lemma ParkKeepsCoherent(rows: map<Name, Row>, files: Files, id: FileId, name: Name)
    requires Coherent(rows, files) && id !in files.pending && !HasPending(files, name) && name in files.final
    ensures Coherent(rows, Park(files, id, name))
  {
    var after := Park(files, id, name);
    assert Quiet(rows, files, name);
    assert after.pending[id].name == name;
    forall n ensures Quiet(rows, after, n) || HasPending(after, n) {
      if n != name && !Quiet(rows, files, n) {
        var i :| i in files.pending && files.pending[i].name == n;
        assert i in after.pending && after.pending[i] == files.pending[i];
      }
    }
    forall i | i in after.pending ensures PendingOk(rows, after, after.pending[i]) {
      if i != id {
        assert PendingOk(rows, files, files.pending[i]);
      }
    }
  }

  // ---------- What each COMMIT keeps ----------

  lemma CommitUpsertKeepsCoherent(rows: map<Name, Row>, files: Files, id: FileId, row: Row)
    requires Coherent(rows, files) && id in files.pending && files.pending[id].kind == StagedWrite
    requires row.hash == HashOf(files.pending[id].content)
    ensures Coherent(rows[files.pending[id].name := row], files)
  {
    var name := files.pending[id].name;
    var after := rows[name := row];
    forall n ensures Quiet(after, files, n) || HasPending(files, n) {
      assert n != name ==> (Quiet(after, files, n) <==> Quiet(rows, files, n));
    }
    forall i | i in files.pending ensures PendingOk(after, files, files.pending[i]) {
      assert PendingOk(rows, files, files.pending[i]);
      if i != id {
        assert files.pending[i].name != name;
        assert Quiet(after, files, files.pending[i].name) <==> Quiet(rows, files, files.pending[i].name);
      }
    }
  }

  lemma CommitDeleteKeepsCoherent(rows: map<Name, Row>, files: Files, name: Name)
    requires Coherent(rows, files) && name !in files.final
    requires forall id :: id in files.pending && files.pending[id].name == name ==> files.pending[id].kind == ParkedDelete
    ensures Coherent(rows - {name}, files)
  {
    var after := rows - {name};
    forall n ensures Quiet(after, files, n) || HasPending(files, n) {
      assert n != name ==> (Quiet(after, files, n) <==> Quiet(rows, files, n));
    }
    forall i | i in files.pending ensures PendingOk(after, files, files.pending[i]) {
      assert PendingOk(rows, files, files.pending[i]);
      var n := files.pending[i].name;
      assert n != name ==> (Quiet(after, files, n) <==> Quiet(rows, files, n));
    }
  }
}
