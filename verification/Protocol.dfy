/** The commit protocol as a step machine: any number of processes on one store,
    interleaved at single file operations and single database statements
    (src/store/atomic_json.rs, src/store/mod.rs, src/store/snapshot.rs: create).

  The database keeps the committed tables; the holder of the write lock keeps its
  uncommitted tables in its own program counter, so that a crash or a rollback
  loses them. `Stop` is a crash, an error return or a dropped transaction: files
  stay as they are. */
module Protocol {
  import opened Values
  import opened Tables
  import opened FileStore
  import opened Operations

  type Pid = nat

  /** What a process takes the write lock for. */
  datatype Task = Mutate(op: Op) | Reconcile(names: set<Name>) | Snapshot(withBackups: bool)

  /** Where `settle_locked` is for one category. */
  datatype SettlePhase =
    | LookStaged
    | LookParked
    | GetRow
    | ListStaged(row: Option<Row>)
    | EachStaged(row: Option<Row>, left: set<FileId>)
    | ReadStaged(row: Option<Row>, left: set<FileId>, id: FileId, content: Content)
    | ListParked(row: Option<Row>)
    | EachParked(row: Option<Row>, left: set<FileId>)
    | CopiedParked(row: Option<Row>, left: set<FileId>, id: FileId)

  /** Where `read_consistent` is. */
  datatype ReadPhase =
    | GetMeta
    | ListStagedFiles(meta: Row)
    | ListParkedFiles(meta: Row, staged: set<FileId>)
    | TryFinal(meta: Row, staged: set<FileId>, parked: set<FileId>)
    | TryStaged(meta: Row, staged: set<FileId>, parked: set<FileId>)
    | TryParked(meta: Row, parked: set<FileId>)
    | Orphan
    | Found(content: Content, found: Option<Row>)
    | Absent

  const MAX_ATTEMPTS := 40

  datatype Pc =
    | Idle
    // a lock-free reader
    | Reading(name: Name, attempt: nat, read: ReadPhase)
    // waiting for BEGIN IMMEDIATE
    | Waiting(task: Task)
    // holding the lock: settle leftovers
    | Guarding(withBackups: bool)
    | Picking(task: Task, names: set<Name>)
    | Settling(task: Task, names: set<Name>, name: Name, settle: SettlePhase)
    // holding the lock: read, stage or park, change rows
    | Looking(op: Op, previous: Option<Row>, attempt: nat, read: ReadPhase)
    | Preparing(op: Op, value: Json)
    | Staging(op: Op, value: Json, id: FileId)
    | Staged(op: Op, value: Json, id: FileId)
    | LookingForFile(op: Op)
    | Parking(op: Op)
    | ParkedFor(op: Op, parked: Option<FileId>)
    | Changed(op: Op, written: Option<Json>, file: Option<FileId>, db: Db)
    // after COMMIT, lock released
    | Promoting(name: Name, id: FileId, content: Content)
    | Completing(name: Name, id: FileId)
    | Removing(name: Name, id: FileId)
    // snapshot, holding the lock after settling
    | Vacuuming(withBackups: bool)
    | ListingFinal(withBackups: bool, db: Db)
    | CopyingFinal(withBackups: bool, db: Db, toCopy: set<Name>, copied: map<Name, Content>)
    | ListingBackups(withBackups: bool, db: Db, copied: map<Name, Content>)
    | CopyingBackups(db: Db, copied: map<Name, Content>, backupsLeft: set<FileId>, saved: map<FileId, Backup>)
    | Copied(db: Db, copied: map<Name, Content>, backups: Option<map<FileId, Backup>>)
    // snapshot written, lock released
    | Snapped(db: Db, copied: map<Name, Content>, backups: Option<map<FileId, Backup>>)

  datatype State = State(
    db: Db,
    files: Files,
    lock: Option<Pid>,
    procs: map<Pid, Pc>,
    used: set<FileId>,
    maxVersions: nat)

  function PcOf(s: State, p: Pid): Pc {
    if p in s.procs then s.procs[p] else Idle
  }

  predicate Holding(pc: Pc) {
    !(pc.Idle? || pc.Reading? || pc.Waiting? || pc.Promoting? || pc.Completing? || pc.Removing? || pc.Snapped?)
  }

  predicate Init(s: State) {
    s.db == EMPTY_DB && s.files == NO_FILES && s.lock == None && s.procs == map[]
  }

  function To(s: State, p: Pid, pc: Pc): State {
    s.(procs := s.procs[p := pc])
  }

  // ---------- Actions ----------

  datatype Action =
    | StartRead(name: Name)
    | ReadNext(id: FileId)
    | Ask(op: Op)
    | AskReconcile
    | AskSnapshot(withBackups: bool)
    | Begin
    | ListPending
    | Pick(name: Name)
    | SettleNext(id: FileId, backup: FileId, copying: bool)
    | GetPrevious
    | LookNext(id: FileId)
    | DecideValue
    | TakeValue
    | CreateFile(id: FileId, partial: Content)
    | WriteFile
    | LookForFile
    | ParkFile(id: FileId)
    | ChangeRows
    | Commit
    | Promote
    | Complete(backup: FileId, copying: bool)
    | RemoveCopied
    | Release
    | Vacuum
    | ListFinal
    | CopyFinal(name: Name)
    | ListBackups
    | CopyBackup(id: FileId)
    | Stop

  /** One step of `read_consistent` on committed rows; `id` is the file tried next. */
  predicate ReadStep(rows: map<Name, Row>, files: Files, name: Name, id: FileId,
                     attempt: nat, phase: ReadPhase, attempt': nat, phase': ReadPhase)
  {
    match phase
    case GetMeta =>
      && attempt < MAX_ATTEMPTS && attempt' == attempt
      && phase' == (if name in rows then ListStagedFiles(rows[name]) else Orphan)
    case ListStagedFiles(meta) =>
      attempt' == attempt && phase' == ListParkedFiles(meta, Listed(files, name, StagedWrite))
    case ListParkedFiles(meta, staged) =>
      attempt' == attempt && phase' == TryFinal(meta, staged, Listed(files, name, ParkedDelete))
    case TryFinal(meta, staged, parked) =>
      && attempt' == attempt
      && phase' == (if name in files.final && HashOf(files.final[name]) == meta.hash
                    then Found(files.final[name], Some(meta)) else TryStaged(meta, staged, parked))
    case TryStaged(meta, staged, parked) =>
      && attempt' == attempt
      && (if staged == {} then phase' == TryParked(meta, parked)
          else
            && id in staged
            && phase' == (if id in files.pending && HashOf(files.pending[id].content) == meta.hash
                          then Found(files.pending[id].content, Some(meta)) else TryStaged(meta, staged - {id}, parked)))
    case TryParked(meta, parked) =>
      if parked == {} then attempt' == attempt + 1 && phase' == GetMeta
      else
        && attempt' == attempt && id in parked
        && phase' == (if id in files.pending && HashOf(files.pending[id].content) == meta.hash
                      then Found(files.pending[id].content, Some(meta)) else TryParked(meta, parked - {id}))
    case Orphan =>
      && attempt' == attempt
      && phase' == (if name in files.final then Found(files.final[name], None) else Absent)
    case Found(_, _) => false
    case Absent => false
  }

  /** One step of `settle_locked` for `name`: the files afterwards and the next phase
      (None: this category is done). */
  predicate SettleStep(rows: map<Name, Row>, files: Files, name: Name, id: FileId, backup: FileId, copying: bool,
                       phase: SettlePhase, files': Files, phase': Option<SettlePhase>)
  {
    match phase
    case LookStaged =>
      && files' == files
      && phase' == Some(if Listed(files, name, StagedWrite) == {} then LookParked else GetRow)
    case LookParked =>
      && files' == files
      && phase' == (if Listed(files, name, ParkedDelete) == {} then None else Some(GetRow))
    case GetRow =>
      files' == files && phase' == Some(ListStaged(RowOf(rows, name)))
    case ListStaged(row) =>
      files' == files && phase' == Some(EachStaged(row, Listed(files, name, StagedWrite)))
    case EachStaged(row, left) =>
      && files' == files
      && (if left == {} then phase' == Some(ListParked(row))
          else
            && id in left
            && phase' == Some(if id in files.pending
                              then ReadStaged(row, left - {id}, id, files.pending[id].content)
                              else EachStaged(row, left - {id})))
    case ReadStaged(row, left, one, content) =>
      && files' == (if one !in files.pending then files
                    else if row.Some? && row.value.hash == HashOf(content) then RenameToFinal(files, one)
                    else Remove(files, one))
      && phase' == Some(EachStaged(row, left))
    case ListParked(row) =>
      files' == files && phase' == Some(EachParked(row, Listed(files, name, ParkedDelete)))
    case EachParked(row, left) =>
      if left == {} then files' == files && phase' == None
      else
        && id in left
        && (if id !in files.pending then files' == files && phase' == Some(EachParked(row, left - {id}))
            else if row.Some? then files' == RenameToFinal(files, id) && phase' == Some(EachParked(row, left - {id}))
            else
              && backup !in files.backups
              && files' == (if copying then CopyToBackup(files, id, backup) else MoveToBackup(files, id, backup))
              && phase' == Some(if copying then CopiedParked(row, left - {id}, id) else EachParked(row, left - {id})))
    case CopiedParked(row, left, one) =>
      files' == Remove(files, one) && phase' == Some(EachParked(row, left))
  }

  // ---------- Steps ----------

  predicate DoStartRead(s: State, p: Pid, name: Name, s': State) {
    PcOf(s, p).Idle? && s' == To(s, p, Reading(name, 0, GetMeta))
  }

  predicate DoReadNext(s: State, p: Pid, id: FileId, s': State) {
    var pc, pc' := PcOf(s, p), PcOf(s', p);
    && pc.Reading? && pc'.Reading?
    && s' == To(s, p, Reading(pc.name, pc'.attempt, pc'.read))
    && ReadStep(s.db.rows, s.files, pc.name, id, pc.attempt, pc.read, pc'.attempt, pc'.read)
  }

  predicate DoAsk(s: State, p: Pid, op: Op, s': State) {
    PcOf(s, p).Idle? && s' == To(s, p, Waiting(Mutate(op)))
  }

  /** `reconcile_on_open` lists the pending names before it takes the lock. */
  predicate DoAskReconcile(s: State, p: Pid, s': State) {
    && PcOf(s, p).Idle? && PendingNames(s.files) != {}
    && s' == To(s, p, Waiting(Reconcile(PendingNames(s.files))))
  }

  predicate DoAskSnapshot(s: State, p: Pid, withBackups: bool, s': State) {
    PcOf(s, p).Idle? && s' == To(s, p, Waiting(Snapshot(withBackups)))
  }

  function Granted(task: Task): Pc {
    match task
    case Mutate(op) => Picking(task, {op.name})
    case Reconcile(names) => Picking(task, names)
    case Snapshot(withBackups) => Guarding(withBackups)
  }

  predicate DoBegin(s: State, p: Pid, s': State) {
    var pc := PcOf(s, p);
    pc.Waiting? && s.lock == None && s' == To(s, p, Granted(pc.task)).(lock := Some(p))
  }

  predicate DoListPending(s: State, p: Pid, s': State) {
    var pc := PcOf(s, p);
    pc.Guarding? && s' == To(s, p, Picking(Snapshot(pc.withBackups), PendingNames(s.files)))
  }

  predicate DoPick(s: State, p: Pid, name: Name, s': State) {
    var pc := PcOf(s, p);
    && pc.Picking? && name in pc.names
    && s' == To(s, p, Settling(pc.task, pc.names - {name}, name, LookStaged))
  }

  predicate DoSettleNext(s: State, p: Pid, id: FileId, backup: FileId, copying: bool, s': State) {
    var pc, pc' := PcOf(s, p), PcOf(s', p);
    && pc.Settling? && (pc'.Settling? || pc'.Picking?)
    && s' == To(s, p, if pc'.Settling? then Settling(pc.task, pc.names, pc.name, pc'.settle)
                      else Picking(pc.task, pc.names)).(files := s'.files)
    && SettleStep(s.db.rows, s.files, pc.name, id, backup, copying, pc.settle, s'.files,
                  if pc'.Settling? then Some(pc'.settle) else None)
  }

  predicate DoGetPrevious(s: State, p: Pid, s': State) {
    var pc := PcOf(s, p);
    && pc.Picking? && pc.names == {} && pc.task.Mutate? && ReadsValue(pc.task.op)
    && s' == To(s, p, Looking(pc.task.op, RowOf(s.db.rows, pc.task.op.name), 0, GetMeta))
  }

  predicate DoLookNext(s: State, p: Pid, id: FileId, s': State) {
    var pc, pc' := PcOf(s, p), PcOf(s', p);
    && pc.Looking? && pc'.Looking?
    && s' == To(s, p, Looking(pc.op, pc.previous, pc'.attempt, pc'.read))
    && ReadStep(s.db.rows, s.files, pc.op.name, id, pc.attempt, pc.read, pc'.attempt, pc'.read)
  }

  /** Kind check, compare-and-swap and the new value; a refusal is a `Stop`. */
  predicate DoDecideValue(s: State, p: Pid, s': State) {
    var pc := PcOf(s, p);
    && pc.Looking? && ReadsValue(pc.op) && (pc.read.Found? || pc.read.Absent?)
    && var current := if pc.read.Found? then Parse(pc.read.content) else None;
    && (pc.read.Found? ==> current.Some?)
    && Decide(pc.op, pc.previous, current).Ok?
    && s' == To(s, p, Preparing(pc.op, Decide(pc.op, pc.previous, current).value))
  }

  /** Imports and sync upserts bring their value; an import of the same bytes is skipped. */
  predicate DoTakeValue(s: State, p: Pid, s': State) {
    var pc := PcOf(s, p);
    && pc.Picking? && pc.names == {} && pc.task.Mutate?
    && var op := pc.task.op;
    && (op.Upsert? || op.Import?)
    && (op.Import? ==> RowOf(s.db.rows, op.name).None? || s.db.rows[op.name].hash != HashOf(Pretty(op.value)))
    && s' == To(s, p, Preparing(op, op.value))
  }

  /** The staged file exists before its bytes are complete. */
  predicate DoCreateFile(s: State, p: Pid, id: FileId, partial: Content, s': State) {
    var pc := PcOf(s, p);
    && pc.Preparing? && id !in s.used
    && s' == To(s, p, Staging(pc.op, pc.value, id))
             .(files := Create(s.files, id, Pending(pc.op.name, StagedWrite, partial)), used := s.used + {id})
  }

  predicate DoWriteFile(s: State, p: Pid, s': State) {
    var pc := PcOf(s, p);
    && pc.Staging? && pc.id in s.files.pending
    && s' == To(s, p, Staged(pc.op, pc.value, pc.id)).(files := Write(s.files, pc.id, Pretty(pc.value)))
  }

  predicate DoLookForFile(s: State, p: Pid, s': State) {
    var pc := PcOf(s, p);
    && pc.LookingForFile?
    && s' == To(s, p, if pc.op.name in s.files.final then Parking(pc.op) else ParkedFor(pc.op, None))
  }

  predicate DoParkFile(s: State, p: Pid, id: FileId, s': State) {
    var pc := PcOf(s, p);
    && pc.Parking? && id !in s.used && pc.op.name in s.files.final
    && s' == To(s, p, ParkedFor(pc.op, Some(id))).(files := Park(s.files, id, pc.op.name), used := s.used + {id})
  }

  predicate DoChangeRows(s: State, p: Pid, s': State) {
    var pc := PcOf(s, p);
    if pc.Staged? then
      && !pc.op.Delete?
      && s' == To(s, p, Changed(pc.op, Some(pc.value), Some(pc.id), UpsertRows(s.db, pc.op, pc.value, s.maxVersions)))
    else
      pc.ParkedFor? && s' == To(s, p, Changed(pc.op, None, pc.parked, DeleteRows(s.db, pc.op.name)))
  }

  function AfterCommit(op: Op, written: Option<Json>, file: Option<FileId>): Pc {
    if file.None? then Idle
    else if written.Some? then Promoting(op.name, file.value, Pretty(written.value))
    else Completing(op.name, file.value)
  }

  predicate DoCommit(s: State, p: Pid, s': State) {
    var pc := PcOf(s, p);
    pc.Changed? && s' == To(s, p, AfterCommit(pc.op, pc.written, pc.file)).(db := pc.db, lock := None)
  }

  /** A missing staged file was promoted by a reconciler: nothing to do. */
  predicate DoPromote(s: State, p: Pid, s': State) {
    var pc := PcOf(s, p);
    && pc.Promoting?
    && s' == To(s, p, Idle).(files := if pc.id in s.files.pending then RenameToFinal(s.files, pc.id) else s.files)
  }

  predicate DoComplete(s: State, p: Pid, backup: FileId, copying: bool, s': State) {
    var pc := PcOf(s, p);
    && pc.Completing?
    && if pc.id !in s.files.pending then s' == To(s, p, Idle)
       else
         && backup !in s.files.backups
         && s' == (if copying then To(s, p, Removing(pc.name, pc.id)).(files := CopyToBackup(s.files, pc.id, backup))
                   else To(s, p, Idle).(files := MoveToBackup(s.files, pc.id, backup)))
  }

  predicate DoRemoveCopied(s: State, p: Pid, s': State) {
    var pc := PcOf(s, p);
    pc.Removing? && s' == To(s, p, Idle).(files := Remove(s.files, pc.id))
  }

  /** Everything named is settled: a delete goes on to look for its file, a reconcile rolls
      back, a snapshot goes on to copy; and a finished snapshot rolls back. */
  predicate DoRelease(s: State, p: Pid, s': State) {
    var pc := PcOf(s, p);
    if pc.Copied? then s' == To(s, p, Snapped(pc.db, pc.copied, pc.backups)).(lock := None)
    else
      && pc.Picking? && pc.names == {}
      && (match pc.task
          case Mutate(op) => op.Delete? && s' == To(s, p, LookingForFile(op))
          case Reconcile(_) => s' == To(s, p, Idle).(lock := None)
          case Snapshot(withBackups) => s' == To(s, p, Vacuuming(withBackups)))
  }

  predicate DoVacuum(s: State, p: Pid, s': State) {
    var pc := PcOf(s, p);
    pc.Vacuuming? && s' == To(s, p, ListingFinal(pc.withBackups, s.db))
  }

  predicate DoListFinal(s: State, p: Pid, s': State) {
    var pc := PcOf(s, p);
    pc.ListingFinal? && s' == To(s, p, CopyingFinal(pc.withBackups, pc.db, s.files.final.Keys, map[]))
  }

  predicate DoCopyFinal(s: State, p: Pid, name: Name, s': State) {
    var pc := PcOf(s, p);
    && pc.CopyingFinal?
    && if pc.toCopy == {} then s' == To(s, p, ListingBackups(pc.withBackups, pc.db, pc.copied))
       else
         && name in pc.toCopy && name in s.files.final
         && s' == To(s, p, CopyingFinal(pc.withBackups, pc.db, pc.toCopy - {name},
                                        pc.copied[name := s.files.final[name]]))
  }

  predicate DoListBackups(s: State, p: Pid, s': State) {
    var pc := PcOf(s, p);
    && pc.ListingBackups?
    && s' == To(s, p, if pc.withBackups then CopyingBackups(pc.db, pc.copied, s.files.backups.Keys, map[])
                      else Copied(pc.db, pc.copied, None))
  }

  predicate DoCopyBackup(s: State, p: Pid, id: FileId, s': State) {
    var pc := PcOf(s, p);
    && pc.CopyingBackups?
    && if pc.backupsLeft == {} then s' == To(s, p, Copied(pc.db, pc.copied, Some(pc.saved)))
       else
         && id in pc.backupsLeft && id in s.files.backups
         && s' == To(s, p, CopyingBackups(pc.db, pc.copied, pc.backupsLeft - {id}, pc.saved[id := s.files.backups[id]]))
  }

  predicate DoStop(s: State, p: Pid, s': State) {
    !PcOf(s, p).Idle? && s' == To(s, p, Idle).(lock := if s.lock == Some(p) then None else s.lock)
  }

  predicate Step(s: State, p: Pid, a: Action, s': State) {
    match a
    case StartRead(name) => DoStartRead(s, p, name, s')
    case ReadNext(id) => DoReadNext(s, p, id, s')
    case Ask(op) => DoAsk(s, p, op, s')
    case AskReconcile => DoAskReconcile(s, p, s')
    case AskSnapshot(withBackups) => DoAskSnapshot(s, p, withBackups, s')
    case Begin => DoBegin(s, p, s')
    case ListPending => DoListPending(s, p, s')
    case Pick(name) => DoPick(s, p, name, s')
    case SettleNext(id, backup, copying) => DoSettleNext(s, p, id, backup, copying, s')
    case GetPrevious => DoGetPrevious(s, p, s')
    case LookNext(id) => DoLookNext(s, p, id, s')
    case DecideValue => DoDecideValue(s, p, s')
    case TakeValue => DoTakeValue(s, p, s')
    case CreateFile(id, partial) => DoCreateFile(s, p, id, partial, s')
    case WriteFile => DoWriteFile(s, p, s')
    case LookForFile => DoLookForFile(s, p, s')
    case ParkFile(id) => DoParkFile(s, p, id, s')
    case ChangeRows => DoChangeRows(s, p, s')
    case Commit => DoCommit(s, p, s')
    case Promote => DoPromote(s, p, s')
    case Complete(backup, copying) => DoComplete(s, p, backup, copying, s')
    case RemoveCopied => DoRemoveCopied(s, p, s')
    case Release => DoRelease(s, p, s')
    case Vacuum => DoVacuum(s, p, s')
    case ListFinal => DoListFinal(s, p, s')
    case CopyFinal(name) => DoCopyFinal(s, p, name, s')
    case ListBackups => DoListBackups(s, p, s')
    case CopyBackup(id) => DoCopyBackup(s, p, id, s')
    case Stop => DoStop(s, p, s')
  }

  // ---------- Runs ----------

  datatype Event = Event(pid: Pid, action: Action)

  predicate StepAt(states: seq<State>, events: seq<Event>, i: nat) {
    i < |events| && i + 1 < |states| && Step(states[i], events[i].pid, events[i].action, states[i + 1])
  }

  /** `states[0]` is the start; `events[i]` leads from `states[i]` to `states[i + 1]`. */
  ghost predicate Run(states: seq<State>, events: seq<Event>) {
    && |states| == |events| + 1
    && (forall i: nat :: i < |events| ==> StepAt(states, events, i))
  }
}
