/** What every step of the commit protocol keeps. */
module ProtocolInvariant {
  import opened Values
  import opened Tables
  import opened FileStore
  import opened Operations
  import opened Protocol

  // ---------- What a program counter knows ----------

  /** The pending file a process has created or committed and has yet to dispose of. */
  function Owned(pc: Pc): set<FileId> {
    if pc.Staging? || pc.Staged? || pc.Promoting? || pc.Completing? || pc.Removing? then {pc.id}
    else if pc.ParkedFor? && pc.parked.Some? then {pc.parked.value}
    else if pc.Changed? && pc.file.Some? then {pc.file.value}
    else {}
  }

  ghost predicate Cleared(files: Files, task: Task, names: set<Name>) {
    match task
    case Mutate(op) => op.name in names || !HasPending(files, op.name)
    case Reconcile(listed) => forall n :: n in listed ==> n in names || !HasPending(files, n)
    case Snapshot(_) => forall n :: HasPending(files, n) ==> n in names
  }

  /** Ids listed for `name` and `kind` still mean that, if they exist at all. */
  predicate IdsOf(files: Files, name: Name, kind: Kind, ids: set<FileId>) {
    forall id :: id in ids && id in files.pending ==> files.pending[id].name == name && files.pending[id].kind == kind
  }

  predicate SettleOk(rows: map<Name, Row>, files: Files, name: Name, phase: SettlePhase) {
    match phase
    case LookStaged => true
    case LookParked => Listed(files, name, StagedWrite) == {}
    case GetRow => true
    case ListStaged(row) => row == RowOf(rows, name)
    case EachStaged(row, left) =>
      row == RowOf(rows, name) && Listed(files, name, StagedWrite) <= left && IdsOf(files, name, StagedWrite, left)
    case ReadStaged(row, left, id, content) =>
      && row == RowOf(rows, name) && Listed(files, name, StagedWrite) <= left + {id}
      && IdsOf(files, name, StagedWrite, left + {id})
      && (id in files.pending ==> files.pending[id].content == content)
    case ListParked(row) => row == RowOf(rows, name) && Listed(files, name, StagedWrite) == {}
    case EachParked(row, left) =>
      && row == RowOf(rows, name) && Listed(files, name, StagedWrite) == {}
      && Listed(files, name, ParkedDelete) <= left && IdsOf(files, name, ParkedDelete, left)
    case CopiedParked(row, left, id) =>
      && row == RowOf(rows, name) && row == None && Listed(files, name, StagedWrite) == {}
      && Listed(files, name, ParkedDelete) <= left + {id} && IdsOf(files, name, ParkedDelete, left + {id})
      && (id in files.pending ==> BackedUp(files, files.pending[id].name, files.pending[id].content))
  }

  /** A reader only returns bytes that hash to the metadata it returns. */
  predicate ReadOk(phase: ReadPhase) {
    phase.Found? && phase.found.Some? ==> HashOf(phase.content) == phase.found.value.hash
  }

  /** A read under the lock, with nothing pending for the category. */
  predicate LookOk(rows: map<Name, Row>, name: Name, phase: ReadPhase) {
    match phase
    case GetMeta => true
    case ListStagedFiles(meta) => RowOf(rows, name) == Some(meta)
    case ListParkedFiles(meta, _) => RowOf(rows, name) == Some(meta)
    case TryFinal(meta, _, _) => RowOf(rows, name) == Some(meta)
    case TryStaged(meta, _, _) => RowOf(rows, name) == Some(meta)
    case TryParked(meta, _) => RowOf(rows, name) == Some(meta)
    case Orphan => name !in rows
    case Found(content, found) => found.Some? && RowOf(rows, name) == found && HashOf(content) == found.value.hash
    case Absent => name !in rows
  }

  /** `value` is what `op` makes of the content committed right now. */
  predicate Decided(rows: map<Name, Row>, op: Op, value: Json) {
    !op.Delete? && Outcome(op, ContentOf(Contents(rows), op.name)) == Some(Some(Pretty(value)))
  }

  predicate StagedFor(rows: map<Name, Row>, files: Files, op: Op, id: FileId) {
    && id in files.pending
    && files.pending[id].name == op.name && files.pending[id].kind == StagedWrite
    && Quiet(rows, files, op.name)
  }

  ghost predicate ParkedOk(files: Files, op: Op, parked: Option<FileId>) {
    && op.Delete? && op.name !in files.final
    && match parked
       case None => !HasPending(files, op.name)
       case Some(id) =>
         id in files.pending && files.pending[id].name == op.name && files.pending[id].kind == ParkedDelete
  }

  ghost predicate PcOk(db: Db, files: Files, max: nat, pc: Pc) {
    match pc
    case Idle => true
    case Reading(_, _, phase) => ReadOk(phase)
    case Waiting(_) => true
    case Guarding(_) => true
    case Picking(task, names) => Cleared(files, task, names)
    case Settling(task, names, name, phase) =>
      Cleared(files, task, names + {name}) && SettleOk(db.rows, files, name, phase)
    case Looking(op, previous, _, phase) =>
      && ReadsValue(op) && !HasPending(files, op.name) && previous == RowOf(db.rows, op.name)
      && LookOk(db.rows, op.name, phase)
    case Preparing(op, value) => !HasPending(files, op.name) && Decided(db.rows, op, value)
    case Staging(op, value, id) => StagedFor(db.rows, files, op, id) && Decided(db.rows, op, value)
    case Staged(op, value, id) =>
      && StagedFor(db.rows, files, op, id) && files.pending[id].content == Pretty(value) && Decided(db.rows, op, value)
    case LookingForFile(op) => op.Delete? && !HasPending(files, op.name)
    case Parking(op) => op.Delete? && !HasPending(files, op.name) && op.name in files.final
    case ParkedFor(op, parked) => ParkedOk(files, op, parked)
    case Changed(op, written, file, db') =>
      if op.Delete? then
        written == None && ParkedOk(files, op, file) && db' == DeleteRows(db, op.name)
      else
        && written.Some? && file.Some? && StagedFor(db.rows, files, op, file.value)
        && files.pending[file.value].content == Pretty(written.value)
        && Decided(db.rows, op, written.value) && db' == UpsertRows(db, op, written.value, max)
    case Promoting(name, id, content) =>
      id in files.pending ==>
        files.pending[id] == Pending(name, StagedWrite, content) && Committed(db.rows, files.pending[id])
    case Completing(name, id) =>
      id in files.pending ==>
        files.pending[id].name == name && files.pending[id].kind == ParkedDelete && name !in db.rows
    case Removing(name, id) =>
      id in files.pending ==>
        && files.pending[id].name == name && files.pending[id].kind == ParkedDelete && name !in db.rows
        && BackedUp(files, files.pending[id].name, files.pending[id].content)
    case Vacuuming(_) => files.pending == map[]
    case ListingFinal(_, db') => files.pending == map[] && db' == db
    case CopyingFinal(_, db', toCopy, copied) =>
      && files.pending == map[] && db' == db
      && toCopy + copied.Keys == files.final.Keys
      && (forall n :: n in copied ==> n in files.final && copied[n] == files.final[n])
    case ListingBackups(_, db', copied) => files.pending == map[] && db' == db && copied == files.final
    case CopyingBackups(db', copied, left, saved) =>
      && files.pending == map[] && db' == db && copied == files.final
      && left + saved.Keys == files.backups.Keys
      && (forall b :: b in saved ==> b in files.backups && saved[b] == files.backups[b])
    case Copied(db', copied, backups) =>
      && files.pending == map[] && db' == db && copied == files.final
      && (backups.Some? ==> backups.value == files.backups)
    case Snapped(db', copied, _) => copied == Contents(db'.rows)
  }

  /** What process `p` relies on. */
  ghost predicate Knows(s: State, p: Pid) {
    PcOk(s.db, s.files, s.maxVersions, PcOf(s, p))
  }

  predicate LockAgrees(s: State, p: Pid) {
    Holding(PcOf(s, p)) <==> s.lock == Some(p)
  }

  predicate OwnsUsed(s: State, p: Pid) {
    Owned(PcOf(s, p)) <= s.used
  }

  predicate OwnsApart(s: State, p: Pid, q: Pid) {
    Owned(PcOf(s, p)) !! Owned(PcOf(s, q))
  }

  ghost predicate Inv(s: State) {
    && Coherent(s.db.rows, s.files)
    && (s.maxVersions >= 1 ==> DbOk(s.db))
    && s.files.pending.Keys <= s.used
    && (forall p: Pid :: LockAgrees(s, p))
    && (forall p: Pid :: Knows(s, p))
    && (forall p: Pid :: OwnsUsed(s, p))
    && (forall p: Pid, q: Pid :: p != q ==> OwnsApart(s, p, q))
  }

  lemma InitInv(s: State)
    requires Init(s)
    ensures Inv(s)
  {
    EmptyDbOk();
  }

  // ---------- Frames: what other processes' steps leave true ----------

  /** Files only disappear, and only a category whose file disappeared gets another final file. */
  ghost predicate Shrinks(files: Files, files': Files) {
    && (forall id :: id in files'.pending ==> id in files.pending && files'.pending[id] == files.pending[id])
    && (forall n :: HasPending(files', n) || !HasPending(files, n) ==> SameFinal(files, files', n))
    && BackupsGrow(files, files')
    && (files.pending == map[] ==> files' == files)
  }

  predicate SameFinal(files: Files, files': Files, n: Name) {
    (n in files'.final <==> n in files.final) && (n in files.final ==> files'.final[n] == files.final[n])
  }

  predicate BackupsGrow(files: Files, files': Files) {
    forall b :: b in files.backups ==> b in files'.backups && files'.backups[b] == files.backups[b]
  }

  lemma ShrinkKeepsPending(files: Files, files': Files)
    requires Shrinks(files, files')
    ensures forall n :: !HasPending(files, n) ==> !HasPending(files', n)
    ensures forall n, k :: Listed(files', n, k) <= Listed(files, n, k)
  {
  }

  lemma GrowKeepsBackedUp(files: Files, files': Files, file: Pending)
    requires BackupsGrow(files, files') && BackedUp(files, file.name, file.content)
    ensures BackedUp(files', file.name, file.content)
  {
    var b :| b in files.backups && files.backups[b] == Backup(file.name, file.content);
    assert b in files'.backups;
  }

  lemma ShrinkKeepsSettle(rows: map<Name, Row>, files: Files, files': Files, name: Name, phase: SettlePhase)
    requires Shrinks(files, files') && SettleOk(rows, files, name, phase)
    ensures SettleOk(rows, files', name, phase)
  {
    ShrinkKeepsPending(files, files');
    if phase.CopiedParked? && phase.id in files'.pending {
      GrowKeepsBackedUp(files, files', files.pending[phase.id]);
    }
  }

  /** A step that only disposes of pending files keeps what every process knows, as long as
      it does not touch the file a lock holder has in hand. */
  lemma ShrinkKeepsPc(db: Db, files: Files, files': Files, max: nat, pc: Pc)
    requires Shrinks(files, files') && PcOk(db, files, max, pc)
    requires Holding(pc) ==> forall id :: id in Owned(pc) && id in files.pending ==> id in files'.pending
    ensures PcOk(db, files', max, pc)
  {
    ShrinkKeepsPending(files, files');
    if pc.Settling? {
      ShrinkKeepsSettle(db.rows, files, files', pc.name, pc.settle);
    } else if pc.Removing? && pc.id in files'.pending {
      GrowKeepsBackedUp(files, files', files.pending[pc.id]);
    } else if pc.Staging? || pc.Staged? || (pc.Changed? && !pc.op.Delete?) {
      var id := if pc.Changed? then pc.file.value else pc.id;
      assert files'.pending[id].name == pc.op.name;
      assert SameFinal(files, files', pc.op.name);
    } else if pc.ParkedFor? || pc.Changed? {
      var parked := if pc.Changed? then pc.file else pc.parked;
      if parked.Some? {
        assert parked.value in Owned(pc);
        assert files'.pending[parked.value].name == pc.op.name;
      }
      assert SameFinal(files, files', pc.op.name);
    } else if pc.Parking? {
      assert SameFinal(files, files', pc.op.name);
    }
  }

  /** A process without the lock only cares about its own file and that category's row. */
  lemma FreePcKept(db: Db, files: Files, db': Db, files': Files, max: nat, pc: Pc)
    requires PcOk(db, files, max, pc) && !Holding(pc) && BackupsGrow(files, files')
    requires forall id :: id in Owned(pc) && id in files'.pending ==>
      && id in files.pending && files'.pending[id] == files.pending[id]
      && RowOf(db'.rows, files.pending[id].name) == RowOf(db.rows, files.pending[id].name)
    ensures PcOk(db', files', max, pc)
  {
    if pc.Promoting? || pc.Completing? || pc.Removing? {
      assert pc.id in Owned(pc);
      if pc.id in files'.pending {
        assert RowOf(db'.rows, files.pending[pc.id].name) == RowOf(db.rows, files.pending[pc.id].name);
        if pc.Removing? {
          GrowKeepsBackedUp(files, files', files.pending[pc.id]);
        }
      }
    }
  }

  // ---------- Closing the invariant after one step ----------

  function NextLock(s: State, p: Pid, pc: Pc): Option<Pid> {
    if Holding(pc) then Some(p) else if s.lock == Some(p) then None else s.lock
  }

  lemma CloseInv(s: State, p: Pid, pc: Pc, s': State)
    requires Inv(s)
    requires s'.procs == s.procs[p := pc] && s'.maxVersions == s.maxVersions && s.used <= s'.used
    requires s'.lock == NextLock(s, p, pc) && (Holding(pc) ==> s.lock == None || s.lock == Some(p))
    requires Coherent(s'.db.rows, s'.files) && (s'.maxVersions >= 1 ==> DbOk(s'.db))
    requires s'.files.pending.Keys <= s'.used
    requires PcOk(s'.db, s'.files, s'.maxVersions, pc)
    requires Owned(pc) <= s'.used && Owned(pc) * s.used <= Owned(PcOf(s, p))
    requires forall q: Pid :: q != p ==> PcOk(s'.db, s'.files, s'.maxVersions, PcOf(s, q))
    ensures Inv(s')
  {
    forall q: Pid ensures LockAgrees(s', q) {
      assert LockAgrees(s, q);
    }
    forall q: Pid ensures Knows(s', q) {
      assert PcOf(s', q) == if q == p then pc else PcOf(s, q);
    }
    forall q: Pid ensures OwnsUsed(s', q) {
      assert OwnsUsed(s, q);
    }
    forall q: Pid, r: Pid | q != r ensures OwnsApart(s', q, r) {
      assert OwnsApart(s, q, r);
      assert OwnsUsed(s, q) && OwnsUsed(s, r);
    }
  }

  /** Only the program counter and the lock move. */
  lemma LocalStep(s: State, p: Pid, pc: Pc, s': State)
    requires Inv(s)
    requires s' == To(s, p, pc).(lock := NextLock(s, p, pc))
    requires Holding(pc) ==> s.lock == None || s.lock == Some(p)
    requires PcOk(s.db, s.files, s.maxVersions, pc)
    requires Owned(pc) <= Owned(PcOf(s, p))
    ensures Inv(s')
  {
    assert OwnsUsed(s, p);
    forall q: Pid | q != p ensures PcOk(s'.db, s'.files, s'.maxVersions, PcOf(s, q)) {
      assert Knows(s, q);
    }
    CloseInv(s, p, pc, s');
  }

  /** Pending files disappear. */
  lemma ShrinkStep(s: State, p: Pid, pc: Pc, files': Files, s': State)
    requires Inv(s)
    requires s' == To(s, p, pc).(files := files') && s'.lock == NextLock(s, p, pc)
    requires Holding(pc) ==> s.lock == Some(p)
    requires Shrinks(s.files, files') && Coherent(s.db.rows, files')
    requires forall q: Pid :: q != p && Holding(PcOf(s, q)) ==>
      forall id :: id in Owned(PcOf(s, q)) && id in s.files.pending ==> id in files'.pending
    requires PcOk(s.db, files', s.maxVersions, pc)
    requires Owned(pc) <= Owned(PcOf(s, p))
    ensures Inv(s')
  {
    forall q: Pid | q != p ensures PcOk(s.db, files', s.maxVersions, PcOf(s, q)) {
      assert Knows(s, q);
      ShrinkKeepsPc(s.db, s.files, files', s.maxVersions, PcOf(s, q));
    }
    assert OwnsUsed(s, p);
    CloseInv(s, p, pc, s');
  }

  /** The lock holder adds or fills its own file. */
  lemma GrowStep(s: State, p: Pid, pc: Pc, files': Files, id: FileId, s': State)
    requires Inv(s) && s.lock == Some(p) && Holding(pc)
    requires s' == To(s, p, pc).(files := files', used := s.used + {id})
    requires id in Owned(PcOf(s, p)) || id !in s.used
    requires forall i :: i in files'.pending && i != id ==> i in s.files.pending && files'.pending[i] == s.files.pending[i]
    requires BackupsGrow(s.files, files') && Coherent(s.db.rows, files')
    requires PcOk(s.db, files', s.maxVersions, pc) && Owned(pc) <= {id}
    ensures Inv(s')
  {
    forall q: Pid | q != p ensures PcOk(s.db, files', s.maxVersions, PcOf(s, q)) {
      assert OwnsUsed(s, q);
      assert OwnsApart(s, q, p);
      assert Knows(s, q) && LockAgrees(s, q);
      FreePcKept(s.db, s.files, s.db, files', s.maxVersions, PcOf(s, q));
    }
    CloseInv(s, p, pc, s');
  }

  // ---------- Readers and requests ----------

  lemma StartReadKeepsInv(s: State, p: Pid, name: Name, s': State)
    requires Inv(s) && DoStartRead(s, p, name, s')
    ensures Inv(s')
  {
    assert Knows(s, p) && LockAgrees(s, p);
    LocalStep(s, p, Reading(name, 0, GetMeta), s');
  }

  lemma ReadNextKeepsInv(s: State, p: Pid, id: FileId, s': State)
    requires Inv(s) && DoReadNext(s, p, id, s')
    ensures Inv(s')
  {
    assert Knows(s, p) && LockAgrees(s, p);
    LocalStep(s, p, PcOf(s', p), s');
  }

  lemma RequestKeepsInv(s: State, p: Pid, a: Action, s': State)
    requires Inv(s) && Step(s, p, a, s') && (a.Ask? || a.AskReconcile? || a.AskSnapshot?)
    ensures Inv(s')
  {
    assert Knows(s, p) && LockAgrees(s, p);
    LocalStep(s, p, PcOf(s', p), s');
  }

  lemma BeginKeepsInv(s: State, p: Pid, s': State)
    requires Inv(s) && DoBegin(s, p, s')
    ensures Inv(s')
  {
    LocalStep(s, p, PcOf(s', p), s');
  }

  lemma ListPendingKeepsInv(s: State, p: Pid, s': State)
    requires Inv(s) && DoListPending(s, p, s')
    ensures Inv(s')
  {
    forall n | HasPending(s.files, n) ensures n in PendingNames(s.files) {
      var id :| id in s.files.pending && s.files.pending[id].name == n;
    }
    assert Knows(s, p) && LockAgrees(s, p);
    LocalStep(s, p, PcOf(s', p), s');
  }

  lemma StopKeepsInv(s: State, p: Pid, s': State)
    requires Inv(s) && DoStop(s, p, s')
    ensures Inv(s')
  {
    LocalStep(s, p, Idle, s');
  }

  // ---------- Settling ----------

  lemma PickKeepsInv(s: State, p: Pid, name: Name, s': State)
    requires Inv(s) && DoPick(s, p, name, s')
    ensures Inv(s')
  {
    var pc := PcOf(s, p);
    assert pc.names - {name} + {name} == pc.names;
    assert LockAgrees(s, p);
    assert Knows(s, p) && LockAgrees(s, p);
    LocalStep(s, p, PcOf(s', p), s');
  }

  lemma NothingListed(files: Files, name: Name)
    requires Listed(files, name, StagedWrite) == {} && Listed(files, name, ParkedDelete) == {}
    ensures !HasPending(files, name)
  {
    forall id | id in files.pending ensures files.pending[id].name != name {
      assert id !in Listed(files, name, StagedWrite) && id !in Listed(files, name, ParkedDelete);
    }
  }

  lemma DoneClears(files: Files, task: Task, names: set<Name>, name: Name)
    requires Cleared(files, task, names + {name}) && !HasPending(files, name)
    ensures Cleared(files, task, names)
  {
  }

  lemma RenameShrinks(rows: map<Name, Row>, files: Files, id: FileId)
    requires Coherent(rows, files) && id in files.pending && Committed(rows, files.pending[id])
    ensures Shrinks(files, RenameToFinal(files, id)) && Coherent(rows, RenameToFinal(files, id))
  {
    RenameKeepsCoherent(rows, files, id);
    assert HasPending(files, files.pending[id].name);
  }

  lemma RemoveShrinks(files: Files, id: FileId)
    ensures Shrinks(files, Remove(files, id))
  {
    if files.pending == map[] {
      assert files.pending - {id} == files.pending;
    }
  }

  lemma BackupShrinks(files: Files, id: FileId, backup: FileId)
    requires id in files.pending && backup !in files.backups
    ensures Shrinks(files, CopyToBackup(files, id, backup)) && Shrinks(files, MoveToBackup(files, id, backup))
  {
  }

  lemma ShrinkKeepsCleared(files: Files, files': Files, task: Task, names: set<Name>)
    requires Shrinks(files, files') && Cleared(files, task, names)
    ensures Cleared(files', task, names)
  {
    ShrinkKeepsPending(files, files');
  }

  /** A staged file read under the lock: a cut commit is completed, anything else is garbage. */
  lemma ReadStagedOk(rows: map<Name, Row>, files: Files, name: Name, phase: SettlePhase, files': Files)
    requires Coherent(rows, files) && phase.ReadStaged? && SettleOk(rows, files, name, phase)
    requires SettleStep(rows, files, name, 0, 0, false, phase, files', Some(EachStaged(phase.row, phase.left)))
    ensures Shrinks(files, files') && Coherent(rows, files')
    ensures SettleOk(rows, files', name, EachStaged(phase.row, phase.left))
  {
    var id := phase.id;
    if id in files.pending {
      if phase.row.Some? && phase.row.value.hash == HashOf(phase.content) {
        RenameShrinks(rows, files, id);
      } else {
        RemoveShrinks(files, id);
        DiscardKeepsCoherent(rows, files, id);
      }
    }
  }

  /** Moving or copying the parked file of a committed delete to the backups. */
  lemma FinishDeleteOk(rows: map<Name, Row>, files: Files, id: FileId, backup: FileId)
    requires Coherent(rows, files) && id in files.pending && backup !in files.backups
    requires files.pending[id].kind == ParkedDelete && files.pending[id].name !in rows
    ensures var copied := CopyToBackup(files, id, backup);
      Shrinks(files, copied) && Coherent(rows, copied) && BackedUp(copied, files.pending[id].name, files.pending[id].content)
    ensures var moved := MoveToBackup(files, id, backup);
      Shrinks(files, moved) && Coherent(rows, moved)
  {
    BackupShrinks(files, id, backup);
    FinishDeleteKeepsCoherent(rows, files, id);
    var copied := CopyToBackup(files, id, backup);
    assert copied.backups[backup] == Backup(files.pending[id].name, files.pending[id].content);
    BackupsDoNotMatter(rows, files, copied);
    BackupsDoNotMatter(rows, Remove(files, id), Remove(copied, id));
  }

  lemma RestoreParkedOk(rows: map<Name, Row>, files: Files, name: Name, id: FileId, row: Option<Row>, left: set<FileId>)
    requires Coherent(rows, files) && SettleOk(rows, files, name, EachParked(row, left))
    requires id in left && id in files.pending && row.Some?
    ensures Shrinks(files, RenameToFinal(files, id)) && Coherent(rows, RenameToFinal(files, id))
    ensures SettleOk(rows, RenameToFinal(files, id), name, EachParked(row, left - {id}))
  {
    assert PendingOk(rows, files, files.pending[id]);
    RenameShrinks(rows, files, id);
  }

  lemma FinishParkedOk(rows: map<Name, Row>, files: Files, name: Name, id: FileId, backup: FileId,
                       row: Option<Row>, left: set<FileId>)
    requires Coherent(rows, files) && SettleOk(rows, files, name, EachParked(row, left))
    requires id in left && id in files.pending && row.None? && backup !in files.backups
    ensures var copied := CopyToBackup(files, id, backup);
      Shrinks(files, copied) && Coherent(rows, copied) && SettleOk(rows, copied, name, CopiedParked(row, left - {id}, id))
    ensures var moved := MoveToBackup(files, id, backup);
      Shrinks(files, moved) && Coherent(rows, moved) && SettleOk(rows, moved, name, EachParked(row, left - {id}))
  {
    FinishDeleteOk(rows, files, id, backup);
    ShrinkKeepsPending(files, CopyToBackup(files, id, backup));
    assert left - {id} + {id} == left;
  }

  lemma EachParkedOk(rows: map<Name, Row>, files: Files, name: Name, id: FileId, backup: FileId, copying: bool,
                     phase: SettlePhase, files': Files, phase': Option<SettlePhase>)
    requires Coherent(rows, files) && phase.EachParked? && phase.left != {} && SettleOk(rows, files, name, phase)
    requires SettleStep(rows, files, name, id, backup, copying, phase, files', phase')
    ensures phase'.Some? && Shrinks(files, files') && Coherent(rows, files')
    ensures SettleOk(rows, files', name, phase'.value)
  {
    if id in files.pending {
      if phase.row.Some? {
        RestoreParkedOk(rows, files, name, id, phase.row, phase.left);
      } else {
        FinishParkedOk(rows, files, name, id, backup, phase.row, phase.left);
      }
    }
  }

  lemma CopiedParkedOk(rows: map<Name, Row>, files: Files, name: Name, phase: SettlePhase)
    requires Coherent(rows, files) && phase.CopiedParked? && SettleOk(rows, files, name, phase)
    ensures Shrinks(files, Remove(files, phase.id)) && Coherent(rows, Remove(files, phase.id))
    ensures SettleOk(rows, Remove(files, phase.id), name, EachParked(phase.row, phase.left))
  {
    RemoveShrinks(files, phase.id);
    if phase.id in files.pending {
      FinishDeleteKeepsCoherent(rows, files, phase.id);
    } else {
      assert Remove(files, phase.id).pending == files.pending;
    }
  }

  /** One settle step, whatever its phase. */
  lemma SettleStepOk(rows: map<Name, Row>, files: Files, name: Name, id: FileId, backup: FileId, copying: bool,
                     phase: SettlePhase, files': Files, phase': Option<SettlePhase>)
    requires Coherent(rows, files) && SettleOk(rows, files, name, phase)
    requires SettleStep(rows, files, name, id, backup, copying, phase, files', phase')
    ensures Shrinks(files, files') && Coherent(rows, files')
    ensures match phase' case Some(next) => SettleOk(rows, files', name, next) case None => !HasPending(files', name)
  {
    if phase.ReadStaged? {
      ReadStagedOk(rows, files, name, phase, files');
    } else if phase.EachParked? && phase.left != {} {
      EachParkedOk(rows, files, name, id, backup, copying, phase, files', phase');
    } else if phase.CopiedParked? {
      CopiedParkedOk(rows, files, name, phase);
    } else if phase' == None {
      NothingListed(files, name);
    }
  }

  lemma SettleNextPc(s: State, p: Pid, id: FileId, backup: FileId, copying: bool, s': State)
    requires Inv(s) && DoSettleNext(s, p, id, backup, copying, s')
    ensures Shrinks(s.files, s'.files) && Coherent(s.db.rows, s'.files)
    ensures PcOk(s.db, s'.files, s.maxVersions, PcOf(s', p))
  {
    var pc, pc' := PcOf(s, p), PcOf(s', p);
    assert Knows(s, p);
    SettleStepOk(s.db.rows, s.files, pc.name, id, backup, copying, pc.settle, s'.files,
                 if pc'.Settling? then Some(pc'.settle) else None);
    ShrinkKeepsCleared(s.files, s'.files, pc.task, pc.names + {pc.name});
    if pc'.Picking? {
      DoneClears(s'.files, pc.task, pc.names, pc.name);
    }
  }

  lemma SettleNextKeepsInv(s: State, p: Pid, id: FileId, backup: FileId, copying: bool, s': State)
    requires Inv(s) && DoSettleNext(s, p, id, backup, copying, s')
    ensures Inv(s')
  {
    SettleNextPc(s, p, id, backup, copying, s');
    assert LockAgrees(s, p);
    forall q: Pid | q != p ensures !Holding(PcOf(s, q)) {
      assert LockAgrees(s, q);
    }
    ShrinkStep(s, p, PcOf(s', p), s'.files, s');
  }

  // ---------- Reading and deciding under the lock ----------

  lemma GetPreviousKeepsInv(s: State, p: Pid, s': State)
    requires Inv(s) && DoGetPrevious(s, p, s')
    ensures Inv(s')
  {
    assert LockAgrees(s, p);
    assert Knows(s, p) && LockAgrees(s, p);
    LocalStep(s, p, PcOf(s', p), s');
  }

  lemma QuietMeansNoOrphan(rows: map<Name, Row>, files: Files, name: Name)
    requires Coherent(rows, files) && !HasPending(files, name)
    ensures Quiet(rows, files, name)
  {
  }

  lemma LookNextKeepsInv(s: State, p: Pid, id: FileId, s': State)
    requires Inv(s) && DoLookNext(s, p, id, s')
    ensures Inv(s')
  {
    var pc := PcOf(s, p);
    assert Knows(s, p);
    assert LockAgrees(s, p);
    QuietMeansNoOrphan(s.db.rows, s.files, pc.op.name);
    LocalStep(s, p, PcOf(s', p), s');
  }

  lemma DecideValueKeepsInv(s: State, p: Pid, s': State)
    requires Inv(s) && DoDecideValue(s, p, s')
    ensures Inv(s')
  {
    var pc := PcOf(s, p);
    assert Knows(s, p);
    assert LockAgrees(s, p);
    var current := if pc.read.Found? then Parse(pc.read.content) else None;
    DecideIsOutcome(pc.op, pc.previous, current);
    LocalStep(s, p, PcOf(s', p), s');
  }

  lemma TakeValueKeepsInv(s: State, p: Pid, s': State)
    requires Inv(s) && DoTakeValue(s, p, s')
    ensures Inv(s')
  {
    var pc := PcOf(s, p);
    assert Knows(s, p);
    assert LockAgrees(s, p);
    LocalStep(s, p, PcOf(s', p), s');
  }

  // ---------- Staging, parking, changing rows ----------

  lemma CreateFileKeepsInv(s: State, p: Pid, id: FileId, partial: Content, s': State)
    requires Inv(s) && DoCreateFile(s, p, id, partial, s')
    ensures Inv(s')
  {
    var pc := PcOf(s, p);
    assert Knows(s, p);
    assert LockAgrees(s, p);
    QuietMeansNoOrphan(s.db.rows, s.files, pc.op.name);
    CreateKeepsCoherent(s.db.rows, s.files, id, pc.op.name, partial);
    GrowStep(s, p, PcOf(s', p), s'.files, id, s');
  }

  lemma WriteFileKeepsInv(s: State, p: Pid, s': State)
    requires Inv(s) && DoWriteFile(s, p, s')
    ensures Inv(s')
  {
    var pc := PcOf(s, p);
    assert Knows(s, p);
    assert LockAgrees(s, p);
    assert OwnsUsed(s, p);
    assert s.used + {pc.id} == s.used;
    WriteKeepsCoherent(s.db.rows, s.files, pc.id, Pretty(pc.value));
    GrowStep(s, p, PcOf(s', p), s'.files, pc.id, s');
  }

  lemma LookForFileKeepsInv(s: State, p: Pid, s': State)
    requires Inv(s) && DoLookForFile(s, p, s')
    ensures Inv(s')
  {
    assert Knows(s, p);
    assert LockAgrees(s, p);
    LocalStep(s, p, PcOf(s', p), s');
  }

  lemma ParkFileKeepsInv(s: State, p: Pid, id: FileId, s': State)
    requires Inv(s) && DoParkFile(s, p, id, s')
    ensures Inv(s')
  {
    var pc := PcOf(s, p);
    assert Knows(s, p);
    assert LockAgrees(s, p);
    ParkKeepsCoherent(s.db.rows, s.files, id, pc.op.name);
    GrowStep(s, p, PcOf(s', p), s'.files, id, s');
  }

  lemma ChangeRowsKeepsInv(s: State, p: Pid, s': State)
    requires Inv(s) && DoChangeRows(s, p, s')
    ensures Inv(s')
  {
    assert Knows(s, p);
    assert LockAgrees(s, p);
    LocalStep(s, p, PcOf(s', p), s');
  }

  // ---------- COMMIT ----------

  lemma CommitCoherent(s: State, pc: Pc)
    requires Inv(s) && pc.Changed? && PcOk(s.db, s.files, s.maxVersions, pc)
    ensures Coherent(pc.db.rows, s.files)
    ensures s.maxVersions >= 1 ==> DbOk(pc.db)
    ensures forall n :: n != pc.op.name ==> RowOf(pc.db.rows, n) == RowOf(s.db.rows, n)
  {
    var name := pc.op.name;
    if pc.op.Delete? {
      CommitDeleteKeepsCoherent(s.db.rows, s.files, name);
      if s.maxVersions >= 1 {
        DeleteRowsKeepsDbOk(s.db, name);
      }
    } else {
      UpsertRowsRow(s.db, pc.op, pc.written.value, s.maxVersions);
      CommitUpsertKeepsCoherent(s.db.rows, s.files, pc.file.value, pc.db.rows[name]);
      if s.maxVersions >= 1 {
        UpsertRowsKeepsDbOk(s.db, pc.op, pc.written.value, s.maxVersions);
      }
    }
  }

  lemma CommitKeepsInv(s: State, p: Pid, s': State)
    requires Inv(s) && DoCommit(s, p, s')
    ensures Inv(s')
  {
    var pc, pc' := PcOf(s, p), PcOf(s', p);
    assert Knows(s, p);
    assert LockAgrees(s, p);
    CommitCoherent(s, pc);
    if !pc.op.Delete? {
      UpsertRowsRow(s.db, pc.op, pc.written.value, s.maxVersions);
    }
    forall q: Pid | q != p ensures PcOk(s'.db, s'.files, s.maxVersions, PcOf(s, q)) {
      assert LockAgrees(s, q);
      assert OwnsApart(s, q, p);
      forall id | id in Owned(PcOf(s, q)) && id in s.files.pending
        ensures RowOf(s'.db.rows, s.files.pending[id].name) == RowOf(s.db.rows, s.files.pending[id].name)
      {
        assert pc.file.Some? ==> pc.file.value in Owned(pc);
        assert s.files.pending[id].name != pc.op.name;
      }
      assert Knows(s, q) && LockAgrees(s, q);
      FreePcKept(s.db, s.files, s'.db, s'.files, s.maxVersions, PcOf(s, q));
    }
    assert OwnsUsed(s, p);
    CloseInv(s, p, pc', s');
  }

  // ---------- After COMMIT ----------

  lemma OwnFileOnly(s: State, p: Pid, id: FileId)
    requires Inv(s) && id in Owned(PcOf(s, p))
    ensures forall q: Pid :: q != p ==> id !in Owned(PcOf(s, q))
  {
    forall q: Pid | q != p ensures id !in Owned(PcOf(s, q)) {
      assert OwnsApart(s, q, p);
    }
  }

  lemma PromoteKeepsInv(s: State, p: Pid, s': State)
    requires Inv(s) && DoPromote(s, p, s')
    ensures Inv(s')
  {
    var pc := PcOf(s, p);
    assert Knows(s, p);
    assert LockAgrees(s, p);
    if pc.id in s.files.pending {
      RenameShrinks(s.db.rows, s.files, pc.id);
      OwnFileOnly(s, p, pc.id);
      ShrinkStep(s, p, Idle, s'.files, s');
    } else {
      LocalStep(s, p, Idle, s');
    }
  }

  lemma CompleteKeepsInv(s: State, p: Pid, backup: FileId, copying: bool, s': State)
    requires Inv(s) && DoComplete(s, p, backup, copying, s')
    ensures Inv(s')
  {
    var pc := PcOf(s, p);
    assert Knows(s, p);
    assert LockAgrees(s, p);
    if pc.id in s.files.pending {
      FinishDeleteOk(s.db.rows, s.files, pc.id, backup);
      OwnFileOnly(s, p, pc.id);
      ShrinkStep(s, p, PcOf(s', p), s'.files, s');
    } else {
      LocalStep(s, p, Idle, s');
    }
  }

  lemma RemoveCopiedKeepsInv(s: State, p: Pid, s': State)
    requires Inv(s) && DoRemoveCopied(s, p, s')
    ensures Inv(s')
  {
    var pc := PcOf(s, p);
    assert Knows(s, p);
    assert LockAgrees(s, p);
    RemoveShrinks(s.files, pc.id);
    OwnFileOnly(s, p, pc.id);
    if pc.id in s.files.pending {
      FinishDeleteKeepsCoherent(s.db.rows, s.files, pc.id);
    } else {
      assert Remove(s.files, pc.id) == s.files;
    }
    ShrinkStep(s, p, Idle, s'.files, s');
  }

  // ---------- Snapshots and releasing the lock ----------

  lemma ClearedForSnapshot(files: Files, withBackups: bool)
    requires Cleared(files, Snapshot(withBackups), {})
    ensures files.pending == map[]
  {
    if id :| id in files.pending {
      assert HasPending(files, files.pending[id].name);
    }
  }

  lemma ReleaseKeepsInv(s: State, p: Pid, s': State)
    requires Inv(s) && DoRelease(s, p, s')
    ensures Inv(s')
  {
    var pc := PcOf(s, p);
    assert Knows(s, p);
    assert LockAgrees(s, p);
    if pc.Copied? {
      NothingPendingMeansSettled(s.db.rows, s.files);
    } else if pc.task.Snapshot? {
      ClearedForSnapshot(s.files, pc.task.withBackups);
    }
    LocalStep(s, p, PcOf(s', p), s');
  }

  lemma VacuumKeepsInv(s: State, p: Pid, s': State)
    requires Inv(s) && DoVacuum(s, p, s')
    ensures Inv(s')
  {
    assert Knows(s, p);
    assert LockAgrees(s, p);
    LocalStep(s, p, PcOf(s', p), s');
  }

  lemma ListFinalKeepsInv(s: State, p: Pid, s': State)
    requires Inv(s) && DoListFinal(s, p, s')
    ensures Inv(s')
  {
    assert Knows(s, p);
    assert LockAgrees(s, p);
    LocalStep(s, p, PcOf(s', p), s');
  }

  lemma ListBackupsKeepsInv(s: State, p: Pid, s': State)
    requires Inv(s) && DoListBackups(s, p, s')
    ensures Inv(s')
  {
    assert Knows(s, p);
    assert LockAgrees(s, p);
    LocalStep(s, p, PcOf(s', p), s');
  }

  lemma CopyFinalKeepsInv(s: State, p: Pid, name: Name, s': State)
    requires Inv(s) && DoCopyFinal(s, p, name, s')
    ensures Inv(s')
  {
    var pc := PcOf(s, p);
    assert Knows(s, p);
    assert LockAgrees(s, p);
    if pc.toCopy == {} {
      assert pc.copied.Keys == s.files.final.Keys;
      assert pc.copied == s.files.final;
    }
    LocalStep(s, p, PcOf(s', p), s');
  }

  lemma CopyBackupKeepsInv(s: State, p: Pid, id: FileId, s': State)
    requires Inv(s) && DoCopyBackup(s, p, id, s')
    ensures Inv(s')
  {
    var pc := PcOf(s, p);
    assert Knows(s, p);
    assert LockAgrees(s, p);
    if pc.backupsLeft == {} {
      assert pc.saved.Keys == s.files.backups.Keys;
      assert pc.saved == s.files.backups;
    }
    LocalStep(s, p, PcOf(s', p), s');
  }

  // ---------- Every step, every run ----------

  lemma FreeStepKeepsInv(s: State, p: Pid, a: Action, s': State)
    requires Inv(s) && Step(s, p, a, s')
    requires a.StartRead? || a.ReadNext? || a.Ask? || a.AskReconcile? || a.AskSnapshot? || a.Stop?
    ensures Inv(s')
  {
    if a.StartRead? {
      StartReadKeepsInv(s, p, a.name, s');
    } else if a.ReadNext? {
      ReadNextKeepsInv(s, p, a.id, s');
    } else if a.Stop? {
      StopKeepsInv(s, p, s');
    } else {
      RequestKeepsInv(s, p, a, s');
    }
  }

  lemma LockedStepKeepsInv(s: State, p: Pid, a: Action, s': State)
    requires Inv(s) && Step(s, p, a, s')
    requires a.Begin? || a.ListPending? || a.Pick? || a.SettleNext? || a.GetPrevious? || a.LookNext?
      || a.DecideValue? || a.TakeValue?
    ensures Inv(s')
  {
    if a.Begin? {
      BeginKeepsInv(s, p, s');
    } else if a.ListPending? {
      ListPendingKeepsInv(s, p, s');
    } else if a.Pick? {
      PickKeepsInv(s, p, a.name, s');
    } else if a.SettleNext? {
      SettleNextKeepsInv(s, p, a.id, a.backup, a.copying, s');
    } else if a.GetPrevious? {
      GetPreviousKeepsInv(s, p, s');
    } else if a.LookNext? {
      LookNextKeepsInv(s, p, a.id, s');
    } else if a.DecideValue? {
      DecideValueKeepsInv(s, p, s');
    } else {
      TakeValueKeepsInv(s, p, s');
    }
  }

  lemma WriteStepKeepsInv(s: State, p: Pid, a: Action, s': State)
    requires Inv(s) && Step(s, p, a, s')
    requires a.CreateFile? || a.WriteFile? || a.LookForFile? || a.ParkFile? || a.ChangeRows? || a.Commit?
      || a.Promote? || a.Complete? || a.RemoveCopied?
    ensures Inv(s')
  {
    if a.CreateFile? {
      CreateFileKeepsInv(s, p, a.id, a.partial, s');
    } else if a.WriteFile? {
      WriteFileKeepsInv(s, p, s');
    } else if a.LookForFile? {
      LookForFileKeepsInv(s, p, s');
    } else if a.ParkFile? {
      ParkFileKeepsInv(s, p, a.id, s');
    } else if a.ChangeRows? {
      ChangeRowsKeepsInv(s, p, s');
    } else if a.Commit? {
      CommitKeepsInv(s, p, s');
    } else if a.Promote? {
      PromoteKeepsInv(s, p, s');
    } else if a.Complete? {
      CompleteKeepsInv(s, p, a.backup, a.copying, s');
    } else {
      RemoveCopiedKeepsInv(s, p, s');
    }
  }

  lemma SnapshotStepKeepsInv(s: State, p: Pid, a: Action, s': State)
    requires Inv(s) && Step(s, p, a, s')
    requires a.Release? || a.Vacuum? || a.ListFinal? || a.CopyFinal? || a.ListBackups? || a.CopyBackup?
    ensures Inv(s')
  {
    if a.Release? {
      ReleaseKeepsInv(s, p, s');
    } else if a.CopyFinal? {
      CopyFinalKeepsInv(s, p, a.name, s');
    } else if a.CopyBackup? {
      CopyBackupKeepsInv(s, p, a.id, s');
    } else if a.Vacuum? {
      VacuumKeepsInv(s, p, s');
    } else if a.ListFinal? {
      ListFinalKeepsInv(s, p, s');
    } else {
      ListBackupsKeepsInv(s, p, s');
    }
  }

  lemma StepKeepsInv(s: State, p: Pid, a: Action, s': State)
    requires Inv(s) && Step(s, p, a, s')
    ensures Inv(s')
  {
    if a.StartRead? || a.ReadNext? || a.Ask? || a.AskReconcile? || a.AskSnapshot? || a.Stop? {
      FreeStepKeepsInv(s, p, a, s');
    } else if a.Release? || a.Vacuum? || a.ListFinal? || a.CopyFinal? || a.ListBackups? || a.CopyBackup? {
      SnapshotStepKeepsInv(s, p, a, s');
    } else if a.Begin? || a.ListPending? || a.Pick? || a.SettleNext? || a.GetPrevious? || a.LookNext?
              || a.DecideValue? || a.TakeValue? {
      LockedStepKeepsInv(s, p, a, s');
    } else {
      WriteStepKeepsInv(s, p, a, s');
    }
  }

  /** The invariant holds in every state of every run. */
  lemma {:induction false} RunKeepsInv(states: seq<State>, events: seq<Event>, i: nat)
    requires Run(states, events) && Init(states[0]) && i < |states|
    ensures Inv(states[i])
  {
    if i == 0 {
      InitInv(states[0]);
    } else {
      var k := i - 1;
      RunKeepsInv(states, events, k);
      assert StepAt(states, events, k);
      StepKeepsInv(states[k], events[k].pid, events[k].action, states[k + 1]);
    }
  }
}
