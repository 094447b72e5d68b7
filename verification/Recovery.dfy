/** Recovery of stores whose rows no longer name the bytes on disk
    (src/store/recovery.rs): plan, then adopt. */
module Recovery {
  import opened Values
  import opened Tables
  import opened FileStore
  import opened Operations
  import opened AtomicJson
  import opened Store
  import Log

  // ---------- The semantic difference of two values ----------

  datatype Delta =
    | LogDelta(added: set<u64>, missing: set<u64>, duplicates: seq<u64>, changed: set<u64>,
               entriesDb: nat, entriesFile: nat, fileLogValid: bool)
    | MapDelta(addedKeys: set<string>, removedKeys: set<string>, changedKeys: set<string>)
    | FormattingOnly
    | Unrelated

  /** The ids of the entries that have one, in order. */
  function Ids(entries: seq<Json>): seq<u64> {
    if entries == [] then []
    else
      var last := Log.IdOf(entries[|entries| - 1]);
      Ids(entries[..|entries| - 1]) + if last.Some? then [last.value] else []
  }

  function IdSet(entries: seq<Json>): set<u64> {
    set id | id in Ids(entries)
  }

  /** Entries by id; of two entries with one id the later one counts. */
  function ById(entries: seq<Json>): map<u64, Json> {
    if entries == [] then map[]
    else
      var init, last := entries[..|entries| - 1], entries[|entries| - 1];
      if Log.IdOf(last).Some? then ById(init)[Log.IdOf(last).value := last] else ById(init)
  }

  /** The ids seen before, in order of their repetition. */
  function Duplicates(ids: seq<u64>): seq<u64> {
    if ids == [] then []
    else
      var init, last := ids[..|ids| - 1], ids[|ids| - 1];
      Duplicates(init) + if last in init then [last] else []
  }

  predicate Increasing(ids: seq<u64>) {
    forall i :: 0 <= i < |ids| - 1 ==> ids[i] < ids[i + 1]
  }

  /** Every entry has an id and ids strictly increase. */
  predicate ValidLog(entries: seq<Json>) {
    (forall i :: 0 <= i < |entries| ==> Log.IdOf(entries[i]).Some?) && Increasing(Ids(entries))
  }

  function CompareLogs(db: seq<Json>, file: seq<Json>): Delta {
    LogDelta(IdSet(file) - IdSet(db), IdSet(db) - IdSet(file), Duplicates(Ids(file)),
             set id | id in IdSet(db) * IdSet(file) && (id in ById(db) && id in ById(file) ==> ById(db)[id] != ById(file)[id]),
             |Ids(db)|, |Ids(file)|, ValidLog(file))
  }

  function Keys(fields: seq<Field>): set<string> {
    set i | 0 <= i < |fields| :: fields[i].key
  }

  function CompareMaps(db: seq<Field>, file: seq<Field>): Delta {
    MapDelta(Keys(file) - Keys(db), Keys(db) - Keys(file),
             set k | k in Keys(db) * Keys(file) && Lookup(db, k) != Lookup(file, k))
  }

  function DeltaOf(db: Json, file: Json): Delta {
    if db == file then FormattingOnly
    else if Log.IsLog(db) && Log.IsLog(file) then CompareLogs(Log.Entries(db), Log.Entries(file))
    else if db.Object? && file.Object? then CompareMaps(db.fields, file.fields)
    else Unrelated
  }

  method FindDuplicates(ids: seq<u64>) returns (dup: seq<u64>)
    ensures dup == Duplicates(ids)
  {
    dup := [];
    var seen: set<u64> := {};
    for i := 0 to |ids|
      invariant dup == Duplicates(ids[..i])
      invariant forall id :: id in seen <==> id in ids[..i]
    {
      assert ids[..i + 1][..i] == ids[..i];
      if ids[i] in seen {
        dup := dup + [ids[i]];
      }
      seen := seen + {ids[i]};
    }
    assert ids[..|ids|] == ids;
  }

  /** `semantic_delta`. */
  method SemanticDelta(db: Json, file: Json) returns (d: Delta)
    ensures d == DeltaOf(db, file)
  {
    if db == file {
      return FormattingOnly;
    }
    if Log.IsLog(db) && Log.IsLog(file) {
      var dbEntries, fileEntries := Log.Entries(db), Log.Entries(file);
      var dup := FindDuplicates(Ids(fileEntries));
      var compared := CompareLogs(dbEntries, fileEntries);
      d := LogDelta(compared.added, compared.missing, dup, compared.changed,
                    compared.entriesDb, compared.entriesFile, compared.fileLogValid);
    } else if db.Object? && file.Object? {
      d := CompareMaps(db.fields, file.fields);
    } else {
      d := Unrelated;
    }
  }

  // ---------- What a log delta means ----------

  lemma {:induction false} DuplicatesExact(ids: seq<u64>)
    ensures Duplicates(ids) == [] <==> forall i, j :: 0 <= i < j < |ids| ==> ids[i] != ids[j]
  {
    if ids != [] {
      var init := ids[..|ids| - 1];
      DuplicatesExact(init);
      assert forall i :: 0 <= i < |init| ==> init[i] == ids[i];
      assert ids[|ids| - 1] in init <==> exists i :: 0 <= i < |init| && init[i] == ids[|ids| - 1];
    }
  }

  /** Each id is reported once for every time it is repeated. */
  lemma {:induction false} DuplicatesCounted(ids: seq<u64>, id: u64)
    ensures multiset(Duplicates(ids))[id] + (if id in ids then 1 else 0) == multiset(ids)[id]
  {
    if ids != [] {
      var init, last := ids[..|ids| - 1], ids[|ids| - 1];
      DuplicatesCounted(init, id);
      assert ids == init + [last];
      assert multiset(ids) == multiset(init) + multiset{last};
      assert id in ids <==> id in init || id == last;
      assert id in init <==> id in multiset(init);
    }
  }

  /** Some entry has this id. */
  predicate Appears(entries: seq<Json>, id: u64) {
    exists i :: 0 <= i < |entries| && Get(entries[i], "id") == Some(Number(id))
  }

  predicate LastWithId(entries: seq<Json>, id: u64, i: nat) {
    && i < |entries| && Get(entries[i], "id") == Some(Number(id))
    && forall j :: i < j < |entries| ==> Get(entries[j], "id") != Some(Number(id))
  }

  /** The entry has an id of 64 bits. */
  predicate HasId(e: Json) {
    var id := Get(e, "id");
    id.Some? && id.value.Number? && 0 <= id.value.n < 0x1_0000_0000_0000_0000
  }

  function WithId(entries: seq<Json>): seq<Json> {
    Filter((e: Json) => HasId(e), entries)
  }

  /** The ids are those of the entries that have one, in order. */
  lemma {:induction false} IdsExact(entries: seq<Json>)
    ensures |Ids(entries)| == |WithId(entries)|
    ensures forall k :: 0 <= k < |Ids(entries)| ==> Get(WithId(entries)[k], "id") == Some(Number(Ids(entries)[k]))
  {
    if entries != [] {
      var init, last := entries[..|entries| - 1], entries[|entries| - 1];
      IdsExact(init);
      InitAndLast(entries);
      FilterConcat((e: Json) => HasId(e), init, [last]);
      assert WithId([last]) == if HasId(last) then [last] else [];
      assert WithId(entries) == WithId(init) + if HasId(last) then [last] else [];
    }
  }

  lemma {:induction false} IdSetExact(entries: seq<Json>, id: u64)
    ensures id in IdSet(entries) <==> Appears(entries, id)
  {
    IdsExact(entries);
    var ids := Ids(entries);
    if id in ids {
      var k :| 0 <= k < |ids| && ids[k] == id;
      var e := WithId(entries)[k];
      assert e in entries;
    }
    if i :| 0 <= i < |entries| && Get(entries[i], "id") == Some(Number(id)) {
      assert HasId(entries[i]) && entries[i] in WithId(entries);
      var k :| 0 <= k < |WithId(entries)| && WithId(entries)[k] == entries[i];
      assert ids[k] == id;
    }
  }

  lemma {:induction false} ByIdIsLast(entries: seq<Json>, id: u64, i: nat)
    requires LastWithId(entries, id, i)
    ensures id in ById(entries) && ById(entries)[id] == entries[i]
  {
    var init, last := entries[..|entries| - 1], entries[|entries| - 1];
    if i < |init| {
      assert forall j :: 0 <= j < |init| ==> init[j] == entries[j];
      ByIdIsLast(init, id, i);
    }
  }

  /** An id is added when only the file has it, missing when only the database has it, and changed
      when the last entries with it differ; it is a duplicate once for every repetition in the
      file; the counts are those of the entries with an id on each side. */
  lemma LogDeltaExact(db: seq<Json>, file: seq<Json>, id: u64)
    ensures var d := CompareLogs(db, file);
      && (id in d.added <==> Appears(file, id) && !Appears(db, id))
      && (id in d.missing <==> Appears(db, id) && !Appears(file, id))
      && (forall i: nat, j: nat :: LastWithId(db, id, i) && LastWithId(file, id, j) ==> (id in d.changed <==> db[i] != file[j]))
      && (id in d.changed ==> Appears(db, id) && Appears(file, id))
      && multiset(d.duplicates)[id] + (if Appears(file, id) then 1 else 0) == multiset(Ids(file))[id]
      && d.entriesDb == |WithId(db)| && d.entriesFile == |WithId(file)|
  {
    IdSetExact(db, id);
    IdSetExact(file, id);
    IdsExact(db);
    IdsExact(file);
    DuplicatesCounted(Ids(file), id);
    forall i: nat, j: nat | LastWithId(db, id, i) && LastWithId(file, id, j)
      ensures id in CompareLogs(db, file).changed <==> db[i] != file[j]
    {
      ByIdIsLast(db, id, i);
      ByIdIsLast(file, id, j);
    }
  }

  predicate IdsIncrease(entries: seq<Json>) {
    && (forall i :: 0 <= i < |entries| ==> HasId(entries[i]))
    && (forall i, j :: 0 <= i < j < |entries| ==> Get(entries[i], "id").value.n < Get(entries[j], "id").value.n)
  }

  /** The file is reported valid exactly when every entry has an id and the ids strictly increase. */
  lemma FileValidExact(db: seq<Json>, file: seq<Json>)
    ensures CompareLogs(db, file).fileLogValid <==> IdsIncrease(file)
  {
    if ValidLog(file) {
      ValidLogAscends(file);
    }
    if IdsIncrease(file) {
      assert forall i :: 0 <= i < |file| ==> Log.IdOf(file[i]) == Some(Get(file[i], "id").value.n);
      IdsOfAll(file);
    }
  }

  /** Equal values differ in formatting only; two logs are compared as logs, two other objects, or
      a log and an object, key by key; anything else is unrelated. */
  lemma DeltaCases(db: Json, file: Json)
    ensures var d := DeltaOf(db, file);
      && (d == FormattingOnly <==> db == file)
      && (d.LogDelta? <==> db != file && IsLogValue(db) && IsLogValue(file))
      && (d.LogDelta? ==> d == CompareLogs(Log.Entries(db), Log.Entries(file)))
      && (d.MapDelta? <==> db != file && db.Object? && file.Object? && !(IsLogValue(db) && IsLogValue(file)))
      && (d.MapDelta? ==> d == CompareMaps(db.fields, file.fields))
  {
  }

  lemma {:induction false} KeysAreLookedUp(fields: seq<Field>, key: string)
    ensures key in Keys(fields) <==> Lookup(fields, key).Some?
  {
    if fields != [] {
      KeysAreLookedUp(fields[1..], key);
      if key in Keys(fields) && fields[0].key != key {
        var i :| 0 <= i < |fields| && fields[i].key == key;
        assert fields[1..][i - 1].key == key;
      }
      if key in Keys(fields[1..]) {
        var i :| 0 <= i < |fields[1..]| && fields[1..][i].key == key;
        assert fields[i + 1].key == key;
      }
    }
  }

  /** An object delta names each key by what adopting the file does to it. */
  lemma MapDeltaExact(db: seq<Field>, file: seq<Field>, key: string)
    ensures var d := CompareMaps(db, file);
      && (key in d.addedKeys <==> Lookup(db, key).None? && Lookup(file, key).Some?)
      && (key in d.removedKeys <==> Lookup(db, key).Some? && Lookup(file, key).None?)
      && (key in d.changedKeys <==> Lookup(db, key).Some? && Lookup(file, key).Some? && Lookup(db, key) != Lookup(file, key))
      && (key !in d.addedKeys + d.removedKeys + d.changedKeys <==> Lookup(db, key) == Lookup(file, key))
  {
    KeysAreLookedUp(db, key);
    KeysAreLookedUp(file, key);
  }

  function InDb(db: seq<Json>): Json -> bool {
    (e: Json) => Log.IdOf(e).Some? && Log.IdOf(e).value in IdSet(db)
  }

  lemma {:induction false} IncreasingApart(ids: seq<u64>, i: nat, j: nat)
    requires Increasing(ids) && i < j < |ids|
    ensures ids[i] < ids[j]
    decreases j
  {
    if i < j - 1 {
      IncreasingApart(ids, i, j - 1);
    }
  }

  lemma {:induction false} IdsOfAll(entries: seq<Json>)
    requires forall i :: 0 <= i < |entries| ==> Log.IdOf(entries[i]).Some?
    ensures |Ids(entries)| == |entries|
    ensures forall i :: 0 <= i < |entries| ==> Ids(entries)[i] == Log.IdOf(entries[i]).value
  {
    if entries != [] {
      var init := entries[..|entries| - 1];
      IdsOfAll(init);
      assert forall i :: 0 <= i < |init| ==> init[i] == entries[i];
    }
  }

  lemma ValidLogAscends(entries: seq<Json>)
    requires ValidLog(entries)
    ensures Log.Ascends(entries, -1)
  {
    IdsOfAll(entries);
    forall i, j | 0 <= i < j < |entries| ensures Log.IdOf(entries[i]).value < Log.IdOf(entries[j]).value {
      IncreasingApart(Ids(entries), i, j);
    }
  }

  lemma {:induction false} ByIdKeys(entries: seq<Json>)
    ensures forall id :: id in ById(entries) <==> id in IdSet(entries)
    ensures forall id :: id in ById(entries) ==> Log.IdOf(ById(entries)[id]) == Some(id)
  {
    if entries != [] {
      ByIdKeys(entries[..|entries| - 1]);
    }
  }

  lemma {:induction false} ByIdExact(entries: seq<Json>, e: Json)
    requires Log.Ascends(entries, -1)
    ensures e in entries <==> Log.IdOf(e).Some? && Log.IdOf(e).value in ById(entries) && ById(entries)[Log.IdOf(e).value] == e
  {
    if entries != [] {
      var init, last := entries[..|entries| - 1], entries[|entries| - 1];
      InitAscends(entries);
      ByIdExact(init, e);
      if e in init {
        LastIsLargest(entries, e);
      }
    }
  }

  lemma LastIsLargest(entries: seq<Json>, e: Json)
    requires Log.Ascends(entries, -1) && e in entries
    ensures Log.IdOf(e).value <= Log.IdOf(entries[|entries| - 1]).value
    ensures Log.IdOf(e) == Log.IdOf(entries[|entries| - 1]) ==> e == entries[|entries| - 1]
  {
  }

  lemma InitAscends(entries: seq<Json>)
    requires entries != [] && Log.Ascends(entries, -1)
    ensures var init := entries[..|entries| - 1];
      Log.Ascends(init, -1) && forall e :: e in init <==> e in entries && e != entries[|entries| - 1]
  {
    var init, last := entries[..|entries| - 1], entries[|entries| - 1];
    assert entries == init + [last];
    assert forall i :: 0 <= i < |init| ==> init[i] == entries[i];
  }

  /** A log is determined by the set of its entries. */
  lemma {:induction false} SameEntriesSameLog(a: seq<Json>, b: seq<Json>)
    requires Log.Ascends(a, -1) && Log.Ascends(b, -1) && (forall e :: e in a <==> e in b)
    ensures a == b
    decreases |a|
  {
    assert b == [] || b[0] in a;
    assert a == [] || a[0] in b;
    if a != [] && b != [] {
      var lastA, lastB := a[|a| - 1], b[|b| - 1];
      LastIsLargest(a, lastB);
      LastIsLargest(b, lastA);
      InitAscends(a);
      InitAscends(b);
      SameEntriesSameLog(a[..|a| - 1], b[..|b| - 1]);
      assert a == a[..|a| - 1] + [lastA] && b == b[..|b| - 1] + [lastB];
    }
  }

  /** Nothing missing and nothing changed: every entry of the database is in the file. */
  lemma NothingLostMeansContained(db: seq<Json>, file: seq<Json>)
    requires ValidLog(db) && ValidLog(file)
    ensures var d := CompareLogs(db, file);
      d.missing == {} && d.changed == {} <==> forall e :: e in db ==> e in file
  {
    ValidLogAscends(db);
    ValidLogAscends(file);
    var d := CompareLogs(db, file);
    forall e ensures e in db <==> Log.IdOf(e).Some? && Log.IdOf(e).value in ById(db) && ById(db)[Log.IdOf(e).value] == e
             ensures e in file <==> Log.IdOf(e).Some? && Log.IdOf(e).value in ById(file) && ById(file)[Log.IdOf(e).value] == e
    {
      ByIdExact(db, e);
      ByIdExact(file, e);
    }
    ByIdKeys(db);
    ByIdKeys(file);
    if d.missing == {} && d.changed == {} {
      forall e | e in db ensures e in file {
        var id := Log.IdOf(e).value;
        assert id in IdSet(db) && id !in d.missing && id !in d.changed;
      }
    }
    if forall e :: e in db ==> e in file {
      forall id ensures id !in d.missing && id !in d.changed {
        if id in IdSet(db) {
          assert ById(db)[id] in db && ById(db)[id] in file;
        }
      }
    }
  }

  /** For two valid logs, a delta without missing and without changed ids means exactly that
      the database entries are the file's entries restricted to the database ids, in order. */
  lemma PureAppendDelta(db: seq<Json>, file: seq<Json>)
    requires ValidLog(db) && ValidLog(file)
    ensures var d := CompareLogs(db, file);
      d.missing == {} && d.changed == {} <==> db == Filter(InDb(db), file)
  {
    NothingLostMeansContained(db, file);
    ValidLogAscends(db);
    ValidLogAscends(file);
    Log.FilterAscends(InDb(db), file, -1);
    var kept := Filter(InDb(db), file);
    if forall e :: e in db ==> e in file {
      forall e ensures e in db <==> e in kept {
        KeptExactly(db, file, e);
      }
      SameEntriesSameLog(db, kept);
    }
  }

  lemma KeptExactly(db: seq<Json>, file: seq<Json>, e: Json)
    requires Log.Ascends(db, -1) && Log.Ascends(file, -1) && forall x :: x in db ==> x in file
    ensures e in db <==> e in file && InDb(db)(e)
  {
    ByIdKeys(db);
    ByIdExact(db, e);
    ByIdExact(file, e);
    if e in file && InDb(db)(e) {
      var mine := ById(db)[Log.IdOf(e).value];
      ByIdExact(db, mine);
      ByIdExact(file, mine);
    }
  }

  // ---------- Planning ----------

  datatype FileKind = LogFile | MemoryFile | InvalidFile

  datatype PlanEntry = PlanEntry(
    name: Name,
    dbHash: Option<Hash>,
    fileHash: Hash,
    kind: FileKind,
    dbVersionBackup: Option<FileId>,
    delta: Option<Delta>)

  datatype AdoptError =
    | BadName
    | InterruptedRestore
    | PendingFiles
    | Unreadable
    | NotJson
    | MarkedInvalid
    | FileMoved(expectedFile: Hash, actualFile: Hash)
    | RowMoved(expectedRow: Option<Hash>, actualRow: Option<Hash>)
    | CopyFailed

  /** Bytes that do not parse, a log, or any other value. */
  predicate IsKind(kind: FileKind, content: Content) {
    match kind
    case InvalidFile => Parse(content) == None
    case LogFile => Parse(content).Some? && IsLogValue(Parse(content).value)
    case MemoryFile => Parse(content).Some? && !IsLogValue(Parse(content).value)
  }

  function KindOf(content: Content): FileKind {
    match Parse(content)
    case None => InvalidFile
    case Some(v) => if Log.IsLog(v) then LogFile else MemoryFile
  }

  /** No file carries the bytes the row names. */
  ghost predicate Mismatch(rows: map<Name, Row>, files: Files, name: Name) {
    name in rows && !Carried(rows, files, name)
  }

  predicate IsBackupOf(files: Files, name: Name, hash: Hash, b: FileId) {
    b in files.backups && files.backups[b].name == name && HashOf(files.backups[b].content) == hash
  }

  /** The entry tells the truth about its category. */
  ghost predicate Describes(rows: map<Name, Row>, files: Files, e: PlanEntry) {
    && e.name in files.final
    && e.fileHash == HashOf(files.final[e.name]) && IsKind(e.kind, files.final[e.name])
    && e.dbHash == RowHash(rows, e.name)
    && (e.dbVersionBackup.Some? <==> e.dbHash.Some? && exists b :: IsBackupOf(files, e.name, e.dbHash.value, b))
    && (e.dbVersionBackup.Some? ==> IsBackupOf(files, e.name, e.dbHash.value, e.dbVersionBackup.value))
    && (if e.dbVersionBackup.Some? && Parse(e.dbHash.value.of).Some? && e.kind != InvalidFile
        then e.delta == Some(DeltaOf(Parse(e.dbHash.value.of).value, Parse(files.final[e.name]).value))
        else e.delta == None)
  }

  /** `find_backup_with_hash`: the last matching backup. */
  method FindBackup(dir: Directory, name: Name, hash: Hash) returns (found: Option<FileId>)
    ensures found.Some? ==> IsBackupOf(dir.files, name, hash, found.value)
    ensures found.Some? ==> forall b: FileId :: IsBackupOf(dir.files, name, hash, b) ==> b <= found.value
    ensures found.None? ==> forall b :: !IsBackupOf(dir.files, name, hash, b)
  {
    found := None;
    var left := dir.files.backups.Keys;
    while left != {}
      invariant left <= dir.files.backups.Keys
      invariant found.Some? ==> IsBackupOf(dir.files, name, hash, found.value)
      invariant forall b: FileId :: IsBackupOf(dir.files, name, hash, b) ==> b in left || (found.Some? && b <= found.value)
    {
      var b :| b in left;
      left := left - {b};
      if IsBackupOf(dir.files, name, hash, b) && (found.None? || found.value < b) {
        found := Some(b);
      }
    }
  }

  method PlanOne(store: Store, name: Name) returns (e: PlanEntry)
    requires name in store.dir.files.final && name in store.db.rows
    ensures e.name == name && Describes(store.db.rows, store.dir.files, e)
  {
    var content := store.dir.files.final[name];
    var fileValue := Parse(content);
    var dbHash := store.db.rows[name].hash;
    var backup := FindBackup(store.dir, name, dbHash);
    var delta: Option<Delta> := None;
    if backup.Some? {
      var dbValue := Parse(store.dir.files.backups[backup.value].content);
      if fileValue.Some? && dbValue.Some? {
        var d := SemanticDelta(dbValue.value, fileValue.value);
        delta := Some(d);
      }
    }
    e := PlanEntry(name, Some(dbHash), HashOf(content), KindOf(content), backup, delta);
  }

  /** Exactly the mismatches, each truthfully described. */
  ghost predicate PlanOf(rows: map<Name, Row>, files: Files, entries: seq<PlanEntry>) {
    && (forall i :: 0 <= i < |entries| ==>
          Mismatch(rows, files, entries[i].name) && Describes(rows, files, entries[i]))
    && (forall n :: Mismatch(rows, files, n) ==> exists i :: 0 <= i < |entries| && entries[i].name == n)
  }

  /** `plan`: refused while anything is pending, a restore was interrupted, or a mismatching
      category has no file; it changes nothing and does not look at the integrity check. */
  method Plan(store: Store, intact: bool, interrupted: bool, listed: seq<Name>, finals: seq<Name>)
    returns (r: Result<seq<PlanEntry>, AdoptError>)
    requires store.dir.Valid()
    requires forall n :: n in listed <==> n in store.db.rows
    requires forall n :: n in finals <==> n in store.dir.files.final
    ensures r.Ok? <==>
      && store.dir.files.pending == map[] && !interrupted
      && forall n :: Mismatch(store.db.rows, store.dir.files, n) ==> n in store.dir.files.final
    ensures r.Ok? ==> PlanOf(store.db.rows, store.dir.files, r.value)
  {
    var report := store.VerifyStore(listed, finals, intact, interrupted);
    NoNamesMeansNoFiles(store.dir.files);
    if report.pending != {} {
      return Err(PendingFiles);
    }
    if report.interrupted {
      return Err(InterruptedRestore);
    }
    var names := report.mismatches;
    var entries: seq<PlanEntry> := [];
    for i := 0 to |names|
      invariant |entries| == i
      invariant forall k :: 0 <= k < i ==>
        entries[k].name == names[k] && Describes(store.db.rows, store.dir.files, entries[k])
      invariant forall k :: 0 <= k < i ==> names[k] in store.dir.files.final
    {
      assert names[i] in names;
      if names[i] !in store.dir.files.final {
        assert Mismatch(store.db.rows, store.dir.files, names[i]);
        return Err(Unreadable);
      }
      var e := PlanOne(store, names[i]);
      entries := entries + [e];
    }
    forall n | Mismatch(store.db.rows, store.dir.files, n)
      ensures n in store.dir.files.final && exists i :: 0 <= i < |entries| && entries[i].name == n
    {
      assert n in names;
      var k :| 0 <= k < |names| && names[k] == n;
      assert entries[k].name == n;
    }
    forall i | 0 <= i < |entries| ensures Mismatch(store.db.rows, store.dir.files, entries[i].name) {
      assert names[i] in names;
    }
    r := Ok(entries);
  }

  // ---------- Adopting ----------

  datatype Work = Work(content: Content, value: Json, dbHash: Option<Hash>)

  datatype AdoptOutcome = AlreadyConsistent | Adopted(previous: Option<Hash>, fileHash: Hash)

  /** What has to be done for one entry, if its preconditions hold. */
  ghost function Check(rows: map<Name, Row>, files: Files, e: PlanEntry): Result<Option<Work>, AdoptError> {
    if !ValidName(e.name) then Err(BadName)
    else if e.kind == InvalidFile then Err(MarkedInvalid)
    else if HasPending(files, e.name) then Err(PendingFiles)
    else if e.name !in files.final then Err(Unreadable)
    else
      var content, dbHash := files.final[e.name], RowHash(rows, e.name);
      if Parse(content).None? then Err(NotJson)
      else if HashOf(content) != e.fileHash then Err(FileMoved(e.fileHash, HashOf(content)))
      else if dbHash == Some(e.fileHash) then Ok(None)
      else if dbHash != e.dbHash then Err(RowMoved(e.dbHash, dbHash))
      else Ok(Some(Work(content, Parse(content).value, dbHash)))
  }

  /** An entry passes exactly when its name is valid, its file parsed when planned and parses now,
      nothing is pending, and the file and the row are still those of the plan; or the row already
      names the file, and then there is nothing to do. */
  lemma CheckExact(rows: map<Name, Row>, files: Files, e: PlanEntry)
    ensures var r := Check(rows, files, e);
      && (r.Ok? <==>
            && ValidName(e.name) && e.kind != InvalidFile && !HasPending(files, e.name) && e.name in files.final
            && Parse(files.final[e.name]).Some? && HashOf(files.final[e.name]) == e.fileHash
            && (RowHash(rows, e.name) == Some(e.fileHash) || RowHash(rows, e.name) == e.dbHash))
      && (r.Ok? ==> (r.value == None <==> RowHash(rows, e.name) == Some(e.fileHash)))
      && (r.Ok? && r.value.Some? ==>
            && r.value.value.content == files.final[e.name] && Some(r.value.value.value) == Parse(files.final[e.name])
            && r.value.value.dbHash == RowHash(rows, e.name))
      && (r == Err(BadName) <==> !ValidName(e.name))
      && (r.Err? && r.error.FileMoved? ==>
            r.error.expectedFile == e.fileHash && r.error.actualFile == HashOf(files.final[e.name]))
      && (r.Err? && r.error.RowMoved? ==>
            r.error.expectedRow == e.dbHash && r.error.actualRow == RowHash(rows, e.name))
  {
  }

  /** The preflight of all entries; the first refusal counts. */
  ghost function Preflight(rows: map<Name, Row>, files: Files, entries: seq<PlanEntry>): Result<seq<Option<Work>>, AdoptError> {
    if entries == [] then Ok([])
    else
      match Preflight(rows, files, entries[..|entries| - 1])
      case Err(e) => Err(e)
      case Ok(works) =>
        match Check(rows, files, entries[|entries| - 1])
        case Err(e) => Err(e)
        case Ok(w) => Ok(works + [w])
  }

  const RECOVERY := "recovery"

  function AdoptOne(db: Db, name: Name, w: Option<Work>, now: int, max: nat): Db {
    if w.None? then db else LocalWrite(db, name, w.value.value, HashOf(w.value.content), now, RECOVERY, max)
  }

  function AdoptEach(db: Db, entries: seq<PlanEntry>, works: seq<Option<Work>>, clock: nat -> int, max: nat): Db
    requires |works| == |entries|
  {
    if entries == [] then db
    else
      var n := |entries| - 1;
      AdoptOne(AdoptEach(db, entries[..n], works[..n], clock, max), entries[n].name, works[n], clock(n), max)
  }

  /** An adopted category gets a row that names the file, at the time of the adoption, by
      "recovery", with a version of its own, queued for the next push; no other category changes. */
  lemma AdoptOneExact(db: Db, name: Name, w: Work, now: int, max: nat)
    requires VersionsOrdered(db.versions, db.nextVersion)
    ensures var after := AdoptOne(db, name, Some(w), now, max);
      && after.rows == db.rows[name := Row(HashOf(w.content), now, "recovery")]
      && after.aliases == db.aliases && after.dirty == db.dirty[name := Upserted(HashOf(w.content))]
      && VersionsOf(after, name) ==
           LastOf(VersionsOf(db, name) + [VersionRow(db.nextVersion, name, HashOf(w.content), "recovery")], max)
      && forall other :: other != name ==> SameCategory(db, after, other)
  {
    LocalVersions(db, name, w.value, HashOf(w.content), now, RECOVERY, max);
    forall other | other != name ensures SameCategory(db, AdoptOne(db, name, Some(w), now, max), other) {
      var staged := StageRows(db, name, w.value, HashOf(w.content), now, RECOVERY);
      StageRowsTouchesOne(db, name, w.value, HashOf(w.content), now, RECOVERY, other);
      PruneTouchesOne(MarkDirty(staged, name, Upserted(HashOf(w.content))), name, max, other);
    }
  }

  lemma {:induction false} PreflightEach(rows: map<Name, Row>, files: Files, entries: seq<PlanEntry>)
    ensures Preflight(rows, files, entries).Ok? <==> forall i :: 0 <= i < |entries| ==> Check(rows, files, entries[i]).Ok?
    ensures Preflight(rows, files, entries).Ok? ==>
      && |Preflight(rows, files, entries).value| == |entries|
      && forall i :: 0 <= i < |entries| ==> Preflight(rows, files, entries).value[i] == Check(rows, files, entries[i]).value
  {
    if entries != [] {
      var init := entries[..|entries| - 1];
      PreflightEach(rows, files, init);
      assert forall i :: 0 <= i < |init| ==> init[i] == entries[i];
      assert entries[|entries| - 1] == entries[|init|];
    }
  }

  /** One entry, under the lock and before anything is written. */
  method CheckEntry(store: Store, e: PlanEntry) returns (r: Result<Option<Work>, AdoptError>)
    requires store.dir.Valid()
    ensures r == Check(store.db.rows, store.dir.files, e)
  {
    if !ValidName(e.name) {
      return Err(BadName);
    }
    if e.kind == InvalidFile {
      return Err(MarkedInvalid);
    }
    PendingListed(store.dir.files, e.name, store.dir.clock);
    if store.HasPendingFiles(e.name) {
      return Err(PendingFiles);
    }
    if e.name !in store.dir.files.final {
      return Err(Unreadable);
    }
    var content := store.dir.files.final[e.name];
    var value := Parse(content);
    if value.None? {
      return Err(NotJson);
    }
    var fileHash := HashOf(content);
    if fileHash != e.fileHash {
      return Err(FileMoved(e.fileHash, fileHash));
    }
    var dbHash := RowHash(store.db.rows, e.name);
    if dbHash == Some(fileHash) {
      return Ok(None);
    }
    if dbHash != e.dbHash {
      return Err(RowMoved(e.dbHash, dbHash));
    }
    r := Ok(Some(Work(content, value.value, dbHash)));
  }

  lemma KindListed(files: Files, name: Name, kind: Kind, clock: nat)
    requires forall id: FileId :: id in files.pending ==> id < clock
    ensures Listing(files, name, kind, clock) != [] <==> exists id: FileId :: IsFile(files, name, kind, id)
  {
    ListingExact(files, name, kind, clock);
    var ids := Listing(files, name, kind, clock);
    assert ids == [] || IsFile(files, name, kind, ids[0]);
    forall id: FileId | IsFile(files, name, kind, id) ensures id in ids {}
  }

  lemma PendingListed(files: Files, name: Name, clock: nat)
    requires forall id: FileId :: id in files.pending ==> id < clock
    ensures HasPending(files, name) <==>
      Listing(files, name, StagedWrite, clock) != [] || Listing(files, name, ParkedDelete, clock) != []
  {
    KindListed(files, name, StagedWrite, clock);
    KindListed(files, name, ParkedDelete, clock);
    forall id: FileId | id in files.pending && files.pending[id].name == name
      ensures IsFile(files, name, StagedWrite, id) || IsFile(files, name, ParkedDelete, id)
    {
    }
  }

  function OutcomeOf(e: PlanEntry, w: Option<Work>): (Name, AdoptOutcome) {
    (e.name, if w.None? then AlreadyConsistent else Adopted(w.value.dbHash, HashOf(w.value.content)))
  }

  function Outcomes(entries: seq<PlanEntry>, works: seq<Option<Work>>): seq<(Name, AdoptOutcome)>
    requires |works| == |entries|
  {
    seq(|entries|, i requires 0 <= i < |entries| => OutcomeOf(entries[i], works[i]))
  }

  /** An entry is reported consistent exactly when its row named the planned file all along, and
      otherwise as adopted, with the hash the row had and that of the file. */
  predicate ReportsEach(entries: seq<PlanEntry>, rows: map<Name, Row>, outcomes: seq<(Name, AdoptOutcome)>) {
    && |outcomes| == |entries|
    && forall i :: 0 <= i < |entries| ==>
         && outcomes[i].0 == entries[i].name
         && outcomes[i].1 ==
              if RowHash(rows, entries[i].name) == Some(entries[i].fileHash) then AlreadyConsistent
              else Adopted(RowHash(rows, entries[i].name), entries[i].fileHash)
  }

  lemma OutcomesExact(rows: map<Name, Row>, files: Files, entries: seq<PlanEntry>, works: seq<Option<Work>>)
    requires |works| == |entries| && Preflight(rows, files, entries) == Ok(works)
    ensures ReportsEach(entries, rows, Outcomes(entries, works))
  {
    PreflightEach(rows, files, entries);
    forall i | 0 <= i < |entries| ensures Ok(works[i]) == Check(rows, files, entries[i]) {
      CheckExact(rows, files, entries[i]);
    }
  }

  /** Only the backups grew. */
  predicate OnlyBackups(before: Files, after: Files) {
    && after.final == before.final && after.pending == before.pending
    && forall b :: b in before.backups ==> b in after.backups && after.backups[b] == before.backups[b]
  }

  method PreflightAll(store: Store, entries: seq<PlanEntry>) returns (r: Result<seq<Option<Work>>, AdoptError>)
    requires store.dir.Valid()
    ensures r == Preflight(store.db.rows, store.dir.files, entries)
    ensures r.Ok? ==> |r.value| == |entries|
  {
    PreflightEach(store.db.rows, store.dir.files, entries);
    var works: seq<Option<Work>> := [];
    for i := 0 to |entries|
      invariant Ok(works) == Preflight(store.db.rows, store.dir.files, entries[..i])
    {
      assert entries[..i + 1][..i] == entries[..i];
      var checked := CheckEntry(store, entries[i]);
      if checked.Err? {
        FirstRefusal(store.db.rows, store.dir.files, entries, i);
        return Err(checked.error);
      }
      works := works + [checked.value];
    }
    assert entries[..|entries|] == entries;
    r := Ok(works);
  }

  /** The error is that of the first entry that does not pass. */
  ghost predicate RefusedFirst(rows: map<Name, Row>, files: Files, entries: seq<PlanEntry>, error: AdoptError) {
    exists i :: 0 <= i < |entries| && Check(rows, files, entries[i]) == Err(error)
      && forall j :: 0 <= j < i ==> Check(rows, files, entries[j]).Ok?
  }

  lemma {:induction false} RefusalIsFirst(rows: map<Name, Row>, files: Files, entries: seq<PlanEntry>)
    requires Preflight(rows, files, entries).Err?
    ensures RefusedFirst(rows, files, entries, Preflight(rows, files, entries).error)
  {
    var init := entries[..|entries| - 1];
    assert forall i :: 0 <= i < |init| ==> init[i] == entries[i];
    if Preflight(rows, files, init).Err? {
      RefusalIsFirst(rows, files, init);
      var error := Preflight(rows, files, init).error;
      var i :| 0 <= i < |init| && Check(rows, files, init[i]) == Err(error)
        && forall j :: 0 <= j < i ==> Check(rows, files, init[j]).Ok?;
      assert Check(rows, files, entries[i]) == Err(error);
      assert forall j :: 0 <= j < i ==> init[j] == entries[j];
    } else {
      PreflightEach(rows, files, init);
      assert Check(rows, files, entries[|init|]) == Err(Preflight(rows, files, entries).error);
    }
  }

  lemma {:induction false} FirstRefusal(rows: map<Name, Row>, files: Files, entries: seq<PlanEntry>, i: nat)
    requires i < |entries| && Preflight(rows, files, entries[..i]).Ok? && Check(rows, files, entries[i]).Err?
    ensures Preflight(rows, files, entries) == Err(Check(rows, files, entries[i]).error)
  {
    var init := entries[..|entries| - 1];
    if i < |init| {
      assert init[..i] == entries[..i];
      FirstRefusal(rows, files, init, i);
    } else {
      assert entries[..i] == init;
    }
  }

  lemma WorksHaveFiles(rows: map<Name, Row>, files: Files, entries: seq<PlanEntry>)
    requires Preflight(rows, files, entries).Ok?
    ensures |Preflight(rows, files, entries).value| == |entries|
    ensures forall i :: 0 <= i < |entries| ==> entries[i].name in files.final
  {
    PreflightEach(rows, files, entries);
    forall i | 0 <= i < |entries| ensures entries[i].name in files.final {
      assert Check(rows, files, entries[i]).Ok?;
    }
  }

  /** `adopt_plan`: every entry or none. The preconditions of all are checked before anything is
      written; the changed tables become visible only with the COMMIT at the end. */
  method AdoptPlan(store: Store, interrupted: bool, entries: seq<PlanEntry>, clock: nat -> int, copyFails: nat -> bool)
    returns (r: Result<seq<(Name, AdoptOutcome)>, AdoptError>)
    requires store.dir.Valid()
    modifies store`db, store.dir
    ensures store.dir.Valid() && OnlyBackups(old(store.dir.files), store.dir.files)
    ensures interrupted ==> r == Err(InterruptedRestore)
    ensures var checked := Preflight(old(store.db.rows), old(store.dir.files), entries);
      && (!interrupted && checked.Err? ==>
            r == Err(checked.error) && RefusedFirst(old(store.db.rows), old(store.dir.files), entries, checked.error))
      && (!interrupted && checked.Ok? && r.Err? ==> r.error == CopyFailed && exists i: nat :: copyFails(i))
      && (r.Ok? ==>
            && checked.Ok? && |checked.value| == |entries|
            && store.db == AdoptEach(old(store.db), entries, checked.value, clock, store.maxVersions)
            && r.value == Outcomes(entries, checked.value) && ReportsEach(entries, old(store.db.rows), r.value))
    ensures r.Err? ==> store.db == old(store.db)
    ensures r.Ok? ==> forall i :: 0 <= i < |entries| && r.value[i].1.Adopted? ==>
      entries[i].name in old(store.dir.files.final)
      && BackedUp(store.dir.files, entries[i].name, old(store.dir.files.final)[entries[i].name])
  {
    if interrupted {
      return Err(InterruptedRestore);
    }
    var checked := PreflightAll(store, entries);
    if checked.Err? {
      RefusalIsFirst(store.db.rows, store.dir.files, entries);
      return Err(checked.error);
    }
    WorksHaveFiles(store.db.rows, store.dir.files, entries);
    OutcomesExact(store.db.rows, store.dir.files, entries, checked.value);
    r := ApplyWorks(store, entries, checked.value, clock, copyFails);
  }

  /** The files of the first `n` entries that had to be adopted are among the backups. */
  ghost predicate CopiesMade(before: Files, after: Files, entries: seq<PlanEntry>, works: seq<Option<Work>>, n: nat)
    requires n <= |entries| == |works|
  {
    forall k :: 0 <= k < n && works[k].Some? ==>
      entries[k].name in before.final && BackedUp(after, entries[k].name, before.final[entries[k].name])
  }

  lemma OneMoreCopy(start: Files, before: Files, after: Files, entries: seq<PlanEntry>, works: seq<Option<Work>>,
                    n: nat)
    requires n < |entries| == |works| && CopiesMade(start, before, entries, works, n)
    requires OnlyBackups(start, before) && OnlyBackups(before, after)
    requires works[n].Some? ==>
      entries[n].name in before.final && BackedUp(after, entries[n].name, before.final[entries[n].name])
    ensures CopiesMade(start, after, entries, works, n + 1) && OnlyBackups(start, after)
  {
    forall k | 0 <= k < n + 1 && works[k].Some?
      ensures entries[k].name in start.final && BackedUp(after, entries[k].name, start.final[entries[k].name])
    {
      if k < n {
        var b :| b in before.backups && before.backups[b] == Backup(entries[k].name, start.final[entries[k].name]);
        assert after.backups[b] == before.backups[b];
      }
    }
  }

  /** Copy the file to the backups and change the uncommitted tables. */
  method AdoptFile(store: Store, name: Name, w: Work, now: int, tables: Db) returns (after: Db)
    requires store.dir.Valid() && name in store.dir.files.final
    modifies store.dir
    ensures store.dir.Valid() && OnlyBackups(old(store.dir.files), store.dir.files)
    ensures BackedUp(store.dir.files, name, old(store.dir.files.final)[name])
    ensures after == AdoptOne(tables, name, Some(w), now, store.maxVersions)
  {
    var backup := store.dir.CopyFinalToBackup(name);
    assert backup in store.dir.files.backups;
    after := LocalWrite(tables, name, w.value, HashOf(w.content), now, RECOVERY, store.maxVersions);
  }

  lemma AdoptOneMore(db: Db, entries: seq<PlanEntry>, works: seq<Option<Work>>, clock: nat -> int, max: nat, i: nat)
    requires i < |entries| == |works|
    ensures AdoptEach(db, entries[..i + 1], works[..i + 1], clock, max) ==
            AdoptOne(AdoptEach(db, entries[..i], works[..i], clock, max), entries[i].name, works[i], clock(i), max)
    ensures Outcomes(entries[..i + 1], works[..i + 1]) == Outcomes(entries[..i], works[..i]) + [OutcomeOf(entries[i], works[i])]
  {
    assert entries[..i + 1][..i] == entries[..i] && works[..i + 1][..i] == works[..i];
  }

  /** The second loop: copy, change the uncommitted tables, and COMMIT at the end. */
  method ApplyWorks(store: Store, entries: seq<PlanEntry>, works: seq<Option<Work>>, clock: nat -> int, copyFails: nat -> bool)
    returns (r: Result<seq<(Name, AdoptOutcome)>, AdoptError>)
    requires store.dir.Valid() && |works| == |entries|
    requires forall i :: 0 <= i < |entries| && works[i].Some? ==> entries[i].name in store.dir.files.final
    modifies store`db, store.dir
    ensures store.dir.Valid() && OnlyBackups(old(store.dir.files), store.dir.files)
    ensures r.Err? ==> store.db == old(store.db) && r.error == CopyFailed && exists i: nat :: copyFails(i)
    ensures r.Ok? ==>
      && store.db == AdoptEach(old(store.db), entries, works, clock, store.maxVersions)
      && r.value == Outcomes(entries, works)
      && CopiesMade(old(store.dir.files), store.dir.files, entries, works, |entries|)
  {
    var tables := store.db;
    var outcomes: seq<(Name, AdoptOutcome)> := [];
    for i := 0 to |entries|
      invariant store.dir.Valid() && OnlyBackups(old(store.dir.files), store.dir.files)
      invariant store.db == old(store.db)
      invariant tables == AdoptEach(old(store.db), entries[..i], works[..i], clock, store.maxVersions)
      invariant outcomes == Outcomes(entries[..i], works[..i])
      invariant CopiesMade(old(store.dir.files), store.dir.files, entries, works, i)
    {
      AdoptOneMore(old(store.db), entries, works, clock, store.maxVersions, i);
      var e := entries[i];
      if works[i].None? {
        outcomes := outcomes + [(e.name, AlreadyConsistent)];
      } else {
        var w := works[i].value;
        if copyFails(i) {
          return Err(CopyFailed);
        }
        ghost var before := store.dir.files;
        tables := AdoptFile(store, e.name, w, clock(i), tables);
        OneMoreCopy(old(store.dir.files), before, store.dir.files, entries, works, i);
        outcomes := outcomes + [(e.name, Adopted(w.dbHash, HashOf(w.content)))];
      }
    }
    assert entries[..|entries|] == entries && works[..|entries|] == works;
    store.db := tables;
    r := Ok(outcomes);
  }

  // ---------- What adoption achieves ----------

  /** The row names the bytes of the final file. */
  predicate Agrees(rows: map<Name, Row>, files: Files, name: Name) {
    name in rows && name in files.final && rows[name].hash == HashOf(files.final[name])
  }

  predicate Entered(entries: seq<PlanEntry>, name: Name) {
    exists i :: 0 <= i < |entries| && entries[i].name == name
  }

  lemma AdoptOneAgrees(rows: map<Name, Row>, files: Files, e: PlanEntry, before: Db, now: int, max: nat)
    requires Check(rows, files, e).Ok?
    requires Agrees(before.rows, files, e.name) || RowOf(before.rows, e.name) == RowOf(rows, e.name)
    ensures Agrees(AdoptOne(before, e.name, Check(rows, files, e).value, now, max).rows, files, e.name)
  {
  }

  lemma AdoptOneOthers(before: Db, name: Name, w: Option<Work>, now: int, max: nat, other: Name)
    requires other != name
    ensures RowOf(AdoptOne(before, name, w, now, max).rows, other) == RowOf(before.rows, other)
  {
  }

  lemma EnteredMore(entries: seq<PlanEntry>, name: Name)
    requires entries != []
    ensures Entered(entries, name) <==> Entered(entries[..|entries| - 1], name) || entries[|entries| - 1].name == name
  {
    var init := entries[..|entries| - 1];
    assert forall i :: 0 <= i < |init| ==> init[i] == entries[i];
  }

  lemma {:induction false} AdoptionAgrees(db: Db, files: Files, entries: seq<PlanEntry>, works: seq<Option<Work>>,
                                          clock: nat -> int, max: nat, name: Name)
    requires |works| == |entries| && Preflight(db.rows, files, entries) == Ok(works)
    ensures var after := AdoptEach(db, entries, works, clock, max).rows;
      if Entered(entries, name) then Agrees(after, files, name) else RowOf(after, name) == RowOf(db.rows, name)
  {
    if entries != [] {
      var n := |entries| - 1;
      var init := entries[..n];
      AdoptionAgrees(db, files, init, works[..n], clock, max, name);
      EnteredMore(entries, name);
      var before := AdoptEach(db, init, works[..n], clock, max);
      if entries[n].name == name {
        assert Ok(works[n]) == Check(db.rows, files, entries[n]);
        AdoptOneAgrees(db.rows, files, entries[n], before, clock(n), max);
      } else {
        AdoptOneOthers(before, entries[n].name, works[n], clock(n), max, name);
      }
    }
  }

  lemma AgreedIsDone(rows: map<Name, Row>, files: Files, e: PlanEntry, after: map<Name, Row>, files': Files)
    requires Check(rows, files, e).Ok? && Agrees(after, files, e.name) && OnlyBackups(files, files')
    ensures Agrees(after, files', e.name) && Check(after, files', e) == Ok(None)
  {
  }

  /** Every entry's row names its file afterwards, and running the same entries again finds
      nothing to do. */
  lemma AdoptingAgainIsNoOp(db: Db, files: Files, entries: seq<PlanEntry>, works: seq<Option<Work>>,
                            clock: nat -> int, max: nat, files': Files, clock': nat -> int)
    requires |works| == |entries| && Preflight(db.rows, files, entries) == Ok(works) && OnlyBackups(files, files')
    ensures var after := AdoptEach(db, entries, works, clock, max);
      && (forall i :: 0 <= i < |entries| ==> Agrees(after.rows, files', entries[i].name))
      && Preflight(after.rows, files', entries) == Ok(AllDone(|entries|))
      && AdoptEach(after, entries, AllDone(|entries|), clock', max) == after
  {
    var after := AdoptEach(db, entries, works, clock, max);
    PreflightEach(db.rows, files, entries);
    forall i | 0 <= i < |entries|
      ensures Agrees(after.rows, files', entries[i].name) && Check(after.rows, files', entries[i]) == Ok(None)
    {
      AdoptionAgrees(db, files, entries, works, clock, max, entries[i].name);
      AgreedIsDone(db.rows, files, entries[i], after.rows, files');
    }
    PreflightEach(after.rows, files', entries);
    assert Preflight(after.rows, files', entries).value == AllDone(|entries|);
    NothingToAdopt(after, entries, clock', max);
  }

  function AllDone(n: nat): seq<Option<Work>> {
    seq(n, _ => None)
  }

  lemma {:induction false} NothingToAdopt(db: Db, entries: seq<PlanEntry>, clock: nat -> int, max: nat)
    ensures AdoptEach(db, entries, AllDone(|entries|), clock, max) == db
  {
    if entries != [] {
      var n := |entries| - 1;
      assert AllDone(|entries|)[..n] == AllDone(n);
      NothingToAdopt(db, entries[..n], clock, max);
    }
  }

  predicate Adoptable(entries: seq<PlanEntry>) {
    forall i :: 0 <= i < |entries| ==> ValidName(entries[i].name) && entries[i].kind != InvalidFile
  }

  /** Right after a plan, adoption goes through exactly when every planned category has a valid
      name and a file that parses. */
  lemma PlanIsAdoptable(rows: map<Name, Row>, files: Files, entries: seq<PlanEntry>)
    requires files.pending == map[] && PlanOf(rows, files, entries)
    ensures Preflight(rows, files, entries).Ok? <==> Adoptable(entries)
  {
    PreflightEach(rows, files, entries);
    forall i | 0 <= i < |entries|
      ensures Check(rows, files, entries[i]).Ok? <==> ValidName(entries[i].name) && entries[i].kind != InvalidFile
    {
      assert Mismatch(rows, files, entries[i].name) && Describes(rows, files, entries[i]);
      assert !HasPending(files, entries[i].name);
    }
  }

  /** Adopting right after the plan leaves no mismatch. */
  lemma AdoptingThePlanLeavesNoMismatch(db: Db, files: Files, entries: seq<PlanEntry>, works: seq<Option<Work>>,
                                        clock: nat -> int, max: nat, files': Files, name: Name)
    requires files.pending == map[] && PlanOf(db.rows, files, entries) && OnlyBackups(files, files')
    requires |works| == |entries| && Preflight(db.rows, files, entries) == Ok(works)
    ensures !Mismatch(AdoptEach(db, entries, works, clock, max).rows, files', name)
  {
    AdoptionAgrees(db, files, entries, works, clock, max, name);
    if !Entered(entries, name) {
      assert !Mismatch(db.rows, files, name);
    }
  }

  /** The index and the versions of every category agree with its row after adoption too. */
  lemma {:induction false} AdoptionKeepsDbOk(db: Db, files: Files, entries: seq<PlanEntry>, works: seq<Option<Work>>,
                                             clock: nat -> int, max: nat)
    requires |works| == |entries| && Preflight(db.rows, files, entries) == Ok(works)
    requires DbOk(db) && max >= 1
    ensures DbOk(AdoptEach(db, entries, works, clock, max))
  {
    if entries != [] {
      var n := |entries| - 1;
      AdoptionKeepsDbOk(db, files, entries[..n], works[..n], clock, max);
      assert Ok(works[n]) == Check(db.rows, files, entries[n]);
      if works[n].Some? {
        var w := works[n].value;
        LocalWriteKeepsDbOk(AdoptEach(db, entries[..n], works[..n], clock, max), entries[n].name, w.value,
                            HashOf(w.content), clock(n), RECOVERY, max);
      }
    }
  }

  /** The name condition is needed: a category imported under a name with two dots is planned,
      its file parses, and no plan that contains it can be adopted. */
  lemma DottedNameCannotBeAdopted(old1: Content, new1: Json)
    requires old1 != Pretty(new1)
    ensures var rows := map["a..b" := Row(HashOf(old1), 0, "migration")];
      var files := Files(map["a..b" := Pretty(new1)], map[], map[]);
      var e := PlanEntry("a..b", Some(HashOf(old1)), HashOf(Pretty(new1)), KindOf(Pretty(new1)), None, None);
      && PlanOf(rows, files, [e]) && e.kind != InvalidFile
      && Preflight(rows, files, [e]) == Err(BadName)
  {
    var rows := map["a..b" := Row(HashOf(old1), 0, "migration")];
    var files := Files(map["a..b" := Pretty(new1)], map[], map[]);
    var e := PlanEntry("a..b", Some(HashOf(old1)), HashOf(Pretty(new1)), KindOf(Pretty(new1)), None, None);
    assert "a..b"[1] == '.' && "a..b"[2] == '.';
    assert !ValidName("a..b");
    assert [e][..0] == [];
    assert Preflight(rows, files, []) == Ok([]);
    assert [e][0].name == "a..b";
  }
}
