/** The store as one process drives it: each operation from taking the lock to
    promoting its file, with nothing running in between (src/store/mod.rs). */
module Store {
  import opened Values
  import opened SearchIndex
  import opened Tables
  import opened FileStore
  import opened Operations
  import opened AtomicJson
  import Log

  function RowHash(rows: map<Name, Row>, name: Name): Option<Hash> {
    if name in rows then Some(rows[name].hash) else None
  }

  // ---------- Settling one category keeps the store coherent ----------

  lemma {:induction false} SettleEachCoherent(rows: map<Name, Row>, files: Files, name: Name, ids: seq<FileId>)
    requires Coherent(rows, files) && Distinct(ids) && AllFiles(files, name, StagedWrite, ids)
    ensures Coherent(rows, SettleEach(files, ids, RowHash(rows, name)))
  {
    if ids != [] {
      var init, last := ids[..|ids| - 1], ids[|ids| - 1];
      DistinctPrefix(ids);
      SettleEachCoherent(rows, files, name, init);
      SettleEachResult(files, name, init, RowHash(rows, name));
      var before := SettleEach(files, init, RowHash(rows, name));
      assert IsFile(files, name, StagedWrite, last) && before.pending[last] == files.pending[last];
      if NamedBy(before.pending[last], RowHash(rows, name)) {
        RenameKeepsCoherent(rows, before, last);
      } else {
        DiscardKeepsCoherent(rows, before, last);
      }
    }
  }

  lemma {:induction false} RestoreEachCoherent(rows: map<Name, Row>, files: Files, name: Name, ids: seq<FileId>)
    requires Coherent(rows, files) && Distinct(ids) && AllFiles(files, name, ParkedDelete, ids) && name in rows
    ensures Coherent(rows, RestoreEach(files, ids))
  {
    if ids != [] {
      var init, last := ids[..|ids| - 1], ids[|ids| - 1];
      DistinctPrefix(ids);
      RestoreEachCoherent(rows, files, name, init);
      RestoreEachResult(files, name, init);
      var before := RestoreEach(files, init);
      assert IsFile(files, name, ParkedDelete, last) && before.pending[last] == files.pending[last];
      assert PendingOk(rows, before, before.pending[last]);
      RenameKeepsCoherent(rows, before, last);
    }
  }

  lemma {:induction false} BackUpEachCoherent(rows: map<Name, Row>, files: Files, name: Name, ids: seq<FileId>, clock: nat)
    requires Coherent(rows, files) && Distinct(ids) && AllFiles(files, name, ParkedDelete, ids) && name !in rows
    requires forall b :: b in files.backups ==> b < clock
    ensures Coherent(rows, BackUpEach(files, ids, clock))
  {
    if ids != [] {
      var init, last := ids[..|ids| - 1], ids[|ids| - 1];
      DistinctPrefix(ids);
      BackUpEachCoherent(rows, files, name, init, clock);
      BackUpEachResult(files, name, init, clock);
      var before := BackUpEach(files, init, clock);
      assert IsFile(files, name, ParkedDelete, last) && before.pending[last] == files.pending[last];
      FinishDeleteKeepsCoherent(rows, before, last);
      BackupsDoNotMatter(rows, Remove(before, last), BackUpEach(files, ids, clock));
    }
  }

  /** Everything settling `name` promises. */
  ghost predicate SettledFor(rows: map<Name, Row>, files: Files, name: Name, after: Files) {
    && Coherent(rows, after) && !HasPending(after, name)
    && NoNewPending(files, after)
    && (forall n :: n != name ==> ContentOf(after.final, n) == ContentOf(files.final, n))
    && (forall b :: b in files.backups ==> b in after.backups && after.backups[b] == files.backups[b])
  }

  predicate NoNewPending(files: Files, after: Files) {
    forall id :: id in after.pending ==> id in files.pending && after.pending[id] == files.pending[id]
  }

  lemma SettleOk(rows: map<Name, Row>, files: Files, name: Name, clock: nat)
    requires Coherent(rows, files)
    requires (forall id :: id in files.pending ==> id < clock) && (forall b :: b in files.backups ==> b < clock)
    ensures var staged := SettleEach(files, Listing(files, name, StagedWrite, clock), RowHash(rows, name));
      var after := DeletesSettled(staged, Listing(staged, name, ParkedDelete, clock), name in rows, clock);
      SettledFor(rows, files, name, after)
  {
    var ids := Listing(files, name, StagedWrite, clock);
    ListingExact(files, name, StagedWrite, clock);
    SettleEachCoherent(rows, files, name, ids);
    SettleEachResult(files, name, ids, RowHash(rows, name));
    var staged := SettleEach(files, ids, RowHash(rows, name));
    var parked := Listing(staged, name, ParkedDelete, clock);
    ListingExact(staged, name, ParkedDelete, clock);
    var after := DeletesSettled(staged, parked, name in rows, clock);
    if name in rows {
      RestoreEachCoherent(rows, staged, name, parked);
      RestoreEachResult(staged, name, parked);
    } else {
      BackUpEachCoherent(rows, staged, name, parked, clock);
      BackUpEachResult(staged, name, parked, clock);
    }
    forall id | id in after.pending ensures after.pending[id].name != name {
      assert !IsFile(files, name, StagedWrite, id);
      assert !IsFile(staged, name, ParkedDelete, id);
    }
  }

  // ---------- What verify_store reports ----------

  /** `intact`: the integrity check of the database; `interrupted`: a restore left its marker. */
  datatype Report = Report(intact: bool, mismatches: seq<Name>, orphans: seq<Name>, pending: set<Name>, interrupted: bool)

  predicate IsClean(r: Report) {
    r.intact && r.mismatches == [] && r.orphans == [] && r.pending == {} && !r.interrupted
  }

  lemma PendingNamesExact(files: Files, name: Name)
    ensures name in PendingNames(files) <==> HasPending(files, name)
  {
  }

  lemma NoNamesMeansNoFiles(files: Files)
    ensures PendingNames(files) == {} <==> files.pending == map[]
  {
    if files.pending != map[] {
      var id :| id in files.pending;
      assert files.pending[id].name in PendingNames(files);
    }
  }

  /** A directory without pending files is settled when every row is carried and no file is an orphan. */
  lemma CleanIsSettled(rows: map<Name, Row>, files: Files)
    requires files.pending == map[]
    ensures Settled(rows, files) <==>
      && (forall n :: n in rows ==> Carried(rows, files, n))
      && (forall n :: n in files.final ==> n in rows)
  {
    if Settled(rows, files) {
      forall n | n in rows ensures Carried(rows, files, n) {
        assert files.final[n] == Contents(rows)[n];
      }
    }
    if (forall n :: n in rows ==> Carried(rows, files, n)) && (forall n :: n in files.final ==> n in rows) {
      assert files.final.Keys == Contents(rows).Keys;
      assert forall n :: n in rows ==> files.final[n] == Contents(rows)[n];
      assert files.final == Contents(rows);
    }
  }

  // ---------- The store ----------

  class Store {
    var db: Db
    const dir: Directory
    const maxVersions: nat

    ghost predicate Valid()
      reads this, dir
    {
      && dir.Valid()
      && Coherent(db.rows, dir.files)
      && (maxVersions >= 1 ==> DbOk(db))
    }

    constructor (maxVersions: nat)
      ensures Valid() && fresh(dir) && db == EMPTY_DB && dir.files == NO_FILES && this.maxVersions == maxVersions
    {
      db := EMPTY_DB;
      dir := new Directory();
      this.maxVersions := maxVersions;
      new;
      EmptyDbOk();
      SettledIsCoherent(db.rows, dir.files);
    }

    predicate HasPendingFiles(name: Name)
      reads this, dir
    {
      dir.Listed(name, StagedWrite) != [] || dir.Listed(name, ParkedDelete) != []
    }

    /** `settle_locked`: committed files are completed, aborted ones discarded or restored. */
    method SettleLocked(name: Name, copying: bool)
      requires dir.Valid() && Coherent(db.rows, dir.files)
      modifies dir
      ensures dir.Valid() && SettledFor(db.rows, old(dir.files), name, dir.files)
      ensures !HasPending(old(dir.files), name) ==> dir.files == old(dir.files)
    {
      ListingExact(dir.files, name, StagedWrite, dir.clock);
      ListingExact(dir.files, name, ParkedDelete, dir.clock);
      if !HasPendingFiles(name) {
        forall id | id in dir.files.pending ensures dir.files.pending[id].name != name {
          assert !IsFile(dir.files, name, StagedWrite, id) && !IsFile(dir.files, name, ParkedDelete, id);
        }
        return;
      }
      assert HasPending(dir.files, name) by {
        var id := if dir.Listed(name, StagedWrite) != [] then dir.Listed(name, StagedWrite)[0] else dir.Listed(name, ParkedDelete)[0];
        assert IsFile(dir.files, name, StagedWrite, id) || IsFile(dir.files, name, ParkedDelete, id);
      }
      SettleOk(db.rows, dir.files, name, dir.clock);
      var _ := dir.SettleStaged(name, RowHash(db.rows, name));
      var _ := dir.SettleDeleted(name, name in db.rows, copying);
    }

    /** `reconcile_on_open`, in any order of the pending names. */
    method ReconcileOnOpen(copying: bool)
      requires Valid()
      modifies dir
      ensures Valid() && Settled(db.rows, dir.files)
    {
      var names := PendingNames(dir.files);
      while names != {}
        invariant Valid()
        invariant PendingNames(dir.files) <= names
        decreases names
      {
        var name :| name in names;
        SettleLocked(name, copying);
        PendingNamesExact(dir.files, name);
        names := names - {name};
      }
      assert dir.files.pending == map[] by {
        NoNamesMeansNoFiles(dir.files);
      }
      NothingPendingMeansSettled(db.rows, dir.files);
    }

    /** `read_consistent`, with nobody writing meanwhile: the committed bytes are found in the
        first attempt wherever some file carries them, and otherwise never. */
    method ReadConsistent(name: Name) returns (r: Result<(Content, Option<Row>), StoreError>, attempts: nat)
      requires dir.Valid()
      ensures name !in db.rows ==>
        r == if name in dir.files.final then Ok((dir.files.final[name], None)) else Err(NotFound)
      ensures name in db.rows && Carried(db.rows, dir.files, name) ==>
        r == Ok((db.rows[name].hash.of, Some(db.rows[name]))) && attempts == 1
      ensures name in db.rows && !Carried(db.rows, dir.files, name) ==> r == Err(Inconsistent) && attempts == 40
    {
      attempts := 0;
      var lastHash: Option<Hash> := None;
      while attempts < 40
        invariant attempts <= 40
        invariant attempts > 0 ==> name in db.rows && !Carried(db.rows, dir.files, name)
        invariant lastHash == if attempts > 0 then RowHash(db.rows, name) else None
      {
        attempts := attempts + 1;
        if name !in db.rows {
          r := if name in dir.files.final then Ok((dir.files.final[name], None)) else Err(NotFound);
          return;
        }
        var found := dir.CommittedContent(name, db.rows[name].hash);
        CarriedMeansFound(name);
        if found.Some? {
          return Ok((found.value.0, Some(db.rows[name]))), attempts;
        }
        lastHash := Some(db.rows[name].hash);
      }
      r := Err(Inconsistent);
    }

    /** `read`: the parsed content. */
    method Read(name: Name) returns (r: Result<Json, StoreError>)
      requires dir.Valid() && Coherent(db.rows, dir.files)
      ensures name in db.rows ==>
        r == match Parse(db.rows[name].hash.of) case Some(v) => Ok(v) case None => Err(Inconsistent)
      ensures name !in db.rows ==> r == Err(NotFound)
    {
      if name in db.rows {
        CommittedBytesCarried(db.rows, dir.files, name);
      }
      var content, _ := ReadConsistent(name);
      match content {
        case Err(e) => r := Err(e);
        case Ok((c, _)) => r := if Parse(c).Some? then Ok(Parse(c).value) else Err(Inconsistent);
      }
    }

    /** The row change, COMMIT and rename that follow a complete staged file. */
    lemma StagedUpsertOk(op: Op, value: Json, id: FileId)
      requires Valid() && !op.Delete? && id in dir.files.pending
      requires dir.files.pending[id] == Pending(op.name, StagedWrite, Pretty(value))
      ensures var after := UpsertRows(db, op, value, maxVersions);
        && (maxVersions >= 1 ==> DbOk(after))
        && Coherent(after.rows, RenameToFinal(dir.files, id))
        && !HasPending(RenameToFinal(dir.files, id), op.name)
    {
      UpsertRowsRow(db, op, value, maxVersions);
      if maxVersions >= 1 {
        UpsertRowsKeepsDbOk(db, op, value, maxVersions);
      }
      var rows := UpsertRows(db, op, value, maxVersions).rows;
      CommitUpsertKeepsCoherent(db.rows, dir.files, id, rows[op.name]);
      RenameKeepsCoherent(rows, dir.files, id);
    }

    /** Stage the file, change the rows, commit, promote: the shared tail of every upsert. */
    method StageCommitPromote(op: Op, value: Json)
      requires Valid() && !op.Delete? && !HasPending(dir.files, op.name)
      modifies this, dir
      ensures Valid() && db == UpsertRows(old(db), op, value, maxVersions)
      ensures !HasPending(dir.files, op.name)
      ensures dir.files.final == old(dir.files.final)[op.name := Pretty(value)]
      ensures dir.files.pending == old(dir.files.pending) && dir.files.backups == old(dir.files.backups)
    {
      var id := dir.Stage(op.name, Pretty(value));
      CreateKeepsCoherent(db.rows, old(dir.files), id, op.name, Pretty(value));
      StagedUpsertOk(op, value, id);
      db := UpsertRows(db, op, value, maxVersions);
      dir.Promote(id);
      assert dir.files.pending == old(dir.files.pending);
    }

    /** `write_with` and `append`: settle, read, decide, then stage, commit and promote. */
    method WriteWith(op: Op, copying: bool) returns (r: Result<Row, StoreError>)
      requires Valid() && ReadsValue(op)
      modifies this, dir
      ensures Valid()
      ensures var outcome := Outcome(op, ContentOf(Contents(old(db.rows)), op.name));
        && (r.Ok? <==> ValidName(op.name) && outcome.Some?)
        && (r.Err? ==> db == old(db) && Answer(op, RowOf(old(db.rows), op.name)) == Err(r.error))
        && (r.Ok? ==>
              && outcome.value.Some? && outcome.value.value.Pretty?
              && db == UpsertRows(old(db), op, outcome.value.value.value, maxVersions)
              && !HasPending(dir.files, op.name) && ContentOf(dir.files.final, op.name) == outcome.value
              && r.value == db.rows[op.name])
      ensures r.Ok? ==> Leaves(op, ContentOf(Contents(old(db.rows)), op.name), ContentOf(dir.files.final, op.name))
    {
      if !ValidName(op.name) {
        return Err(InvalidName);
      }
      SettleLocked(op.name, copying);
      var previous := RowOf(db.rows, op.name);
      var read := Read(op.name);
      if read.Err? && read.error != NotFound {
        return Err(read.error);
      }
      var current := if read.Ok? then Some(read.value) else None;
      var decided := Decide(op, previous, current);
      if decided.Err? {
        return Err(decided.error);
      }
      DecideIsOutcome(op, previous, current);
      OutcomeLeaves(op, ContentOf(Contents(db.rows), op.name));
      StageCommitPromote(op, decided.value);
      r := Ok(db.rows[op.name]);
    }

    /** `delete`: park the file, delete the rows, commit, move the file to the backups. */
    method Delete(name: Name, copying: bool) returns (r: Result<(), StoreError>)
      requires Valid()
      modifies this, dir
      ensures Valid()
      ensures r.Ok? <==> ValidName(name)
      ensures db == if r.Ok? then DeleteRows(old(db), name) else old(db)
      ensures r.Err? ==> dir.files == old(dir.files)
      ensures r.Ok? ==> !HasPending(dir.files, name) && name !in dir.files.final
      ensures NoNewPending(old(dir.files), dir.files)
      ensures name !in old(db.rows) && !HasPending(old(dir.files), name) ==> dir.files == old(dir.files)
      ensures r.Ok? && name in old(db.rows) ==> BackedUp(dir.files, name, old(db.rows[name].hash.of))
    {
      if !ValidName(name) {
        return Err(InvalidName);
      }
      SettleLocked(name, copying);
      assert Quiet(db.rows, dir.files, name);
      ghost var settled := dir.files;
      var parked := dir.StageDelete(name);
      if parked.Some? {
        ParkKeepsCoherent(db.rows, settled, parked.value, name);
      }
      CommitDeleteKeepsCoherent(db.rows, dir.files, name);
      if maxVersions >= 1 {
        DeleteRowsKeepsDbOk(db, name);
      }
      db := DeleteRows(db, name);
      if parked.Some? {
        ghost var before := dir.files;
        FinishDeleteKeepsCoherent(db.rows, dir.files, parked.value);
        var backup := dir.FinishDelete(parked.value, copying);
        BackupsDoNotMatter(db.rows, Remove(before, parked.value), dir.files);
        assert dir.files.backups[backup] == Backup(name, before.pending[parked.value].content);
      }
      r := Ok(());
    }

    /** `import_category`: an import of the bytes already committed is skipped. */
    method ImportCategory(op: Op, copying: bool) returns (r: Result<Row, StoreError>)
      requires Valid() && op.Import?
      modifies this, dir
      ensures Valid()
      ensures r.Err? ==> db == old(db)
      ensures r.Err? <==>
        && !IsLogValue(op.value) && op.name in old(db.rows)
        && (match Parse(old(db.rows[op.name].hash.of)) case Some(v) => IsLogValue(v) case None => true)
      ensures r.Err? ==> r.error == if Parse(old(db.rows[op.name].hash.of)).Some? then KindMismatch else Inconsistent
      ensures r.Ok? ==> match Outcome(op, ContentOf(Contents(old(db.rows)), op.name))
        case None => db == old(db)
        case Some(_) => db == UpsertRows(old(db), op, op.value, maxVersions)
      ensures r.Ok? ==> op.name in db.rows && r.value == db.rows[op.name]
      ensures r.Ok? ==> !HasPending(dir.files, op.name) && ContentOf(dir.files.final, op.name) == Some(Pretty(op.value))
    {
      if !Log.IsLog(op.value) {
        var existing := Read(op.name);
        if existing.Err? && existing.error != NotFound {
          return Err(existing.error);
        }
        if existing.Ok? && Log.IsLog(existing.value) {
          return Err(KindMismatch);
        }
      }
      SettleLocked(op.name, copying);
      assert Quiet(db.rows, dir.files, op.name);
      if op.name in db.rows && db.rows[op.name].hash == HashOf(Pretty(op.value)) {
        return Ok(db.rows[op.name]);
      }
      StageCommitPromote(op, op.value);
      r := Ok(db.rows[op.name]);
    }

    /** `upsert_synced_category`. */
    method UpsertSynced(op: Op, copying: bool) returns (r: Result<Row, StoreError>)
      requires Valid() && op.Upsert?
      modifies this, dir
      ensures Valid()
      ensures r.Ok? <==> ValidName(op.name)
      ensures r.Err? ==> dir.files == old(dir.files)
      ensures db == if r.Ok? then UpsertRows(old(db), op, op.value, maxVersions) else old(db)
      ensures r.Ok? ==> !HasPending(dir.files, op.name) && ContentOf(dir.files.final, op.name) == Some(Pretty(op.value))
    {
      if !ValidName(op.name) {
        return Err(InvalidName);
      }
      SettleLocked(op.name, copying);
      StageCommitPromote(op, op.value);
      r := Ok(db.rows[op.name]);
    }

    method ClearDirtyMark(name: Name)
      requires Valid()
      modifies this`db
      ensures Valid() && db == ClearDirty(old(db), name)
    {
      if maxVersions >= 1 {
        SameTablesDbOk(db, ClearDirty(db, name));
      }
      db := ClearDirty(db, name);
    }

    /** `verify_store`, with the rows in the order they are listed; it changes nothing. */
    method VerifyStore(listed: seq<Name>, finals: seq<Name>, intact: bool, interrupted: bool) returns (report: Report)
      requires dir.Valid()
      requires forall n :: n in listed <==> n in db.rows
      requires forall n :: n in finals <==> n in dir.files.final
      ensures forall n :: n in report.mismatches <==> n in db.rows && !Carried(db.rows, dir.files, n)
      ensures forall n :: n in report.orphans <==> n in dir.files.final && n !in db.rows
      ensures report.pending == PendingNames(dir.files) && report.intact == intact && report.interrupted == interrupted
      ensures IsClean(report) <==> intact && !interrupted && Settled(db.rows, dir.files)
    {
      var mismatches: seq<Name>, orphans: seq<Name> := [], [];
      for i := 0 to |listed|
        invariant forall n :: n in mismatches <==> n in listed[..i] && !Carried(db.rows, dir.files, n)
      {
        assert listed[i] in listed;
        var found := dir.CommittedContent(listed[i], db.rows[listed[i]].hash);
        assert found.None? <==> !Carried(db.rows, dir.files, listed[i]) by {
          CarriedMeansFound(listed[i]);
        }
        if found.None? {
          mismatches := mismatches + [listed[i]];
        }
        assert listed[..i + 1] == listed[..i] + [listed[i]];
      }
      assert listed[..|listed|] == listed;
      for i := 0 to |finals|
        invariant forall n :: n in orphans <==> n in finals[..i] && n !in db.rows
      {
        if finals[i] !in db.rows {
          orphans := orphans + [finals[i]];
        }
        assert finals[..i + 1] == finals[..i] + [finals[i]];
      }
      assert finals[..|finals|] == finals;
      report := Report(intact, mismatches, orphans, PendingNames(dir.files), interrupted);
      CleanReport(report);
    }

    lemma CarriedMeansFound(name: Name)
      requires name in db.rows
      ensures Carried(db.rows, dir.files, name) <==>
        || (name in dir.files.final && HashOf(dir.files.final[name]) == db.rows[name].hash)
        || !(forall id: FileId :: id in dir.files.pending && dir.files.pending[id].name == name ==>
               !dir.CarriedBy(db.rows[name].hash, id))
    {
      forall id: FileId | id in dir.files.pending && dir.files.pending[id].name == name
        ensures Committed(db.rows, dir.files.pending[id]) <==> dir.CarriedBy(db.rows[name].hash, id)
      {
      }
    }

    lemma CleanReport(report: Report)
      requires forall n :: n in report.mismatches <==> n in db.rows && !Carried(db.rows, dir.files, n)
      requires forall n :: n in report.orphans <==> n in dir.files.final && n !in db.rows
      requires report.pending == PendingNames(dir.files)
      ensures IsClean(report) <==> report.intact && !report.interrupted && Settled(db.rows, dir.files)
    {
      NoNamesMeansNoFiles(dir.files);
      assert report.mismatches == [] || report.mismatches[0] in report.mismatches;
      assert report.orphans == [] || report.orphans[0] in report.orphans;
      if dir.files.pending == map[] {
        CleanIsSettled(db.rows, dir.files);
      }
    }

    /** `search_in_files`: the first `limit` matching string leaves of the committed contents,
        category after category. */
    method SearchInFiles(lower: string -> string, query: string, listed: seq<Name>, limit: nat)
      returns (results: seq<IndexRow>)
      requires Valid() && forall n :: n in listed ==> n in db.rows
      ensures var all := AllMatches(db, lower, lower(query), listed);
        results == if |all| <= limit then all else all[..limit]
    {
      var found := new Results();
      var i := 0;
      while i < |listed|
        invariant 0 <= i <= |listed| && fresh(found)
        invariant found.items == UpTo([], AllMatches(db, lower, lower(query), listed[..i]), limit)
        decreases |listed| - i
      {
        assert listed[i] in listed;
        assert listed[..i + 1][..i] == listed[..i];
        var value := Read(listed[i]);
        if value.Ok? {
          found.SearchRecursive(lower, lower(query), listed[i], "", value.value, limit);
          UpToTwice([], AllMatches(db, lower, lower(query), listed[..i]),
                    RowsOf(listed[i], Matches(lower, lower(query), "", value.value)), limit);
        }
        i := i + 1;
        if limit <= |found.items| {
          MoreMatches(db, lower, lower(query), listed, i);
          UpToFull(AllMatches(db, lower, lower(query), listed[..i]), AllMatches(db, lower, lower(query), listed), limit);
          return found.items;
        }
      }
      assert listed[..i] == listed;
      results := found.items;
    }
  }

  function AllMatches(db: Db, lower: string -> string, query: string, listed: seq<Name>): seq<IndexRow>
    requires forall n :: n in listed ==> n in db.rows
  {
    if listed == [] then []
    else
      var name := listed[|listed| - 1];
      AllMatches(db, lower, query, listed[..|listed| - 1])
      + match Parse(db.rows[name].hash.of)
        case Some(v) => RowsOf(name, Matches(lower, query, "", v))
        case None => []
  }

  /** A row for every match at a position of the committed value of a listed category, and no other. */
  lemma {:induction false} AllMatchesExact(db: Db, lower: string -> string, query: string, listed: seq<Name>, row: IndexRow)
    requires forall n :: n in listed ==> n in db.rows
    ensures row in AllMatches(db, lower, query, listed) <==>
      && row.category in listed && Parse(db.rows[row.category].hash.of).Some?
      && exists position ::
           MatchedAt(lower, query, "", Parse(db.rows[row.category].hash.of).value, row.leaf, position)
  {
    if listed != [] {
      var init, name := listed[..|listed| - 1], listed[|listed| - 1];
      AllMatchesExact(db, lower, query, init, row);
      assert row.category in listed <==> row.category in init || row.category == name;
      var value := Parse(db.rows[name].hash.of);
      if value.Some? {
        var leaves := Matches(lower, query, "", value.value);
        RowsExact(name, leaves, row);
        MatchesExact(lower, query, "", value.value, row.leaf);
      }
    }
  }

  lemma {:induction false} MoreMatches(db: Db, lower: string -> string, query: string, listed: seq<Name>, i: nat)
    requires i <= |listed| && forall n :: n in listed ==> n in db.rows
    ensures AllMatches(db, lower, query, listed[..i]) <= AllMatches(db, lower, query, listed)
    decreases |listed|
  {
    if i < |listed| {
      var init := listed[..|listed| - 1];
      assert init[..i] == listed[..i];
      MoreMatches(db, lower, query, init, i);
    } else {
      assert listed[..i] == listed;
    }
  }

  lemma UpToFull(some: seq<IndexRow>, all: seq<IndexRow>, limit: nat)
    requires some <= all && limit <= |UpTo([], some, limit)|
    ensures UpTo([], some, limit) == UpTo([], all, limit)
  {
  }
}
