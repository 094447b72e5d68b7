/** The category directory, mutated in place by one process that holds the write
    lock or merely reads (src/store/atomic_json.rs). Interleaved processes are the
    subject of module Protocol; both use the file operations of FileStore. */
module AtomicJson {
  import opened Values
  import opened Tables
  import opened FileStore

  /** What settling one category did. */
  datatype Settlement = Settlement(promoted: nat, discarded: nat, restored: nat, completed: nat)

  datatype Source = FromFinal | FromStaged | FromParked

  predicate IsFile(files: Files, name: Name, kind: Kind, id: FileId) {
    id in files.pending && files.pending[id].name == name && files.pending[id].kind == kind
  }

  /** `files_with_prefix`: the files of one category and kind with a suffix below `n`, sorted. */
  function Listing(files: Files, name: Name, kind: Kind, n: nat): seq<FileId> {
    if n == 0 then []
    else Listing(files, name, kind, n - 1) + if IsFile(files, name, kind, n - 1) then [n - 1] else []
  }

  predicate AllFiles(files: Files, name: Name, kind: Kind, ids: seq<FileId>) {
    forall k :: 0 <= k < |ids| ==> IsFile(files, name, kind, ids[k])
  }

  predicate Distinct(ids: seq<FileId>) {
    forall i, j :: 0 <= i < j < |ids| ==> ids[i] != ids[j]
  }

  lemma DistinctPrefix(ids: seq<FileId>)
    requires ids != [] && Distinct(ids)
    ensures var init, last := ids[..|ids| - 1], ids[|ids| - 1];
      Distinct(init) && last !in init && forall id: FileId :: id in ids <==> id in init || id == last
  {
    assert ids == ids[..|ids| - 1] + [ids[|ids| - 1]];
  }

  lemma {:induction false} ListingExact(files: Files, name: Name, kind: Kind, n: nat)
    ensures var ids := Listing(files, name, kind, n);
      && Distinct(ids) && AllFiles(files, name, kind, ids)
      && (forall id: FileId :: id in ids <==> id < n && IsFile(files, name, kind, id))
  {
    if n > 0 {
      ListingExact(files, name, kind, n - 1);
    }
  }

  // ---------- Settling, file after file ----------

  predicate NamedBy(file: Pending, dbHash: Option<Hash>) {
    dbHash == Some(HashOf(file.content))
  }

  /** One staged file: promoted if the row names its bytes, discarded otherwise. */
  function SettleOne(files: Files, id: FileId, dbHash: Option<Hash>): Files {
    if id !in files.pending then files
    else if NamedBy(files.pending[id], dbHash) then RenameToFinal(files, id)
    else Remove(files, id)
  }

  function SettleEach(files: Files, ids: seq<FileId>, dbHash: Option<Hash>): Files {
    if ids == [] then files
    else SettleOne(SettleEach(files, ids[..|ids| - 1], dbHash), ids[|ids| - 1], dbHash)
  }

  /** What the loop counts on the way. */
  function SettleTally(files: Files, ids: seq<FileId>, dbHash: Option<Hash>): Settlement {
    if ids == [] then Settlement(0, 0, 0, 0)
    else
      var init, last := ids[..|ids| - 1], ids[|ids| - 1];
      var before, out := SettleEach(files, init, dbHash), SettleTally(files, init, dbHash);
      if last !in before.pending then out
      else if NamedBy(before.pending[last], dbHash) then out.(promoted := out.promoted + 1)
      else out.(discarded := out.discarded + 1)
  }

  function MatchingIn(files: Files, ids: seq<FileId>, dbHash: Option<Hash>): nat
    requires forall id: FileId :: id in ids ==> id in files.pending
  {
    if ids == [] then 0
    else MatchingIn(files, ids[..|ids| - 1], dbHash) + if NamedBy(files.pending[ids[|ids| - 1]], dbHash) then 1 else 0
  }

  function RestoreEach(files: Files, ids: seq<FileId>): Files {
    if ids == [] then files
    else
      var before := RestoreEach(files, ids[..|ids| - 1]);
      if ids[|ids| - 1] in before.pending then RenameToFinal(before, ids[|ids| - 1]) else before
  }

  /** Each parked file into the backups, under consecutive fresh suffixes. */
  function BackUpEach(files: Files, ids: seq<FileId>, clock: nat): Files {
    if ids == [] then files
    else
      var before := BackUpEach(files, ids[..|ids| - 1], clock);
      if ids[|ids| - 1] in before.pending then MoveToBackup(before, ids[|ids| - 1], clock + |ids| - 1) else before
  }

  function Without<T>(pending: map<FileId, T>, ids: seq<FileId>): map<FileId, T> {
    map id | id in pending && id !in ids :: pending[id]
  }

  /** Settling the staged files leaves none of them, and the committed bytes in the final file if
      one of them carried those; the other categories keep their files. */
  lemma {:induction false} SettleEachResult(files: Files, name: Name, ids: seq<FileId>, dbHash: Option<Hash>)
    requires Distinct(ids) && AllFiles(files, name, StagedWrite, ids)
    ensures var after := SettleEach(files, ids, dbHash);
      && after.pending == Without(files.pending, ids) && after.backups == files.backups
      && after.final == (if exists id: FileId :: id in ids && NamedBy(files.pending[id], dbHash)
                         then files.final[name := dbHash.value.of] else files.final)
    ensures var out := SettleTally(files, ids, dbHash);
      && out.promoted == MatchingIn(files, ids, dbHash) && out.promoted + out.discarded == |ids|
      && out.restored == 0 && out.completed == 0
  {
    if ids != [] {
      var init, last := ids[..|ids| - 1], ids[|ids| - 1];
      DistinctPrefix(ids);
      SettleEachResult(files, name, init, dbHash);
      var before := SettleEach(files, init, dbHash);
      assert before.pending[last] == files.pending[last];
      assert Without(files.pending, ids) == Without(files.pending, init) - {last};
    }
  }

  lemma {:induction false} RestoreEachResult(files: Files, name: Name, ids: seq<FileId>)
    requires Distinct(ids) && AllFiles(files, name, ParkedDelete, ids)
    ensures var after := RestoreEach(files, ids);
      && after.pending == Without(files.pending, ids) && after.backups == files.backups
      && after.final == (if ids == [] then files.final
                         else files.final[name := files.pending[ids[|ids| - 1]].content])
  {
    if ids != [] {
      var init, last := ids[..|ids| - 1], ids[|ids| - 1];
      DistinctPrefix(ids);
      RestoreEachResult(files, name, init);
      assert Without(files.pending, ids) == Without(files.pending, init) - {last};
    }
  }

  lemma {:induction false} BackUpEachResult(files: Files, name: Name, ids: seq<FileId>, clock: nat)
    requires Distinct(ids) && AllFiles(files, name, ParkedDelete, ids)
    requires forall b :: b in files.backups ==> b < clock
    ensures var after := BackUpEach(files, ids, clock);
      && after.pending == Without(files.pending, ids) && after.final == files.final
      && (forall b :: b in files.backups ==> b in after.backups && after.backups[b] == files.backups[b])
      && (forall b :: b in after.backups ==> b < clock + |ids|)
      && (forall id: FileId :: id in ids ==> BackedUp(after, name, files.pending[id].content))
  {
    if ids != [] {
      var init, last := ids[..|ids| - 1], ids[|ids| - 1];
      DistinctPrefix(ids);
      BackUpEachResult(files, name, init, clock);
      var before, after := BackUpEach(files, init, clock), BackUpEach(files, ids, clock);
      assert Without(files.pending, ids) == Without(files.pending, init) - {last};
      assert after.backups[clock + |init|] == Backup(name, files.pending[last].content);
      forall id | id in init ensures BackedUp(after, name, files.pending[id].content) {
        var b :| b in before.backups && before.backups[b] == Backup(name, files.pending[id].content);
        assert after.backups[b] == before.backups[b];
      }
    }
  }

  /** `settle_deleted` on the listed files. */
  function DeletesSettled(files: Files, ids: seq<FileId>, dbHasRow: bool, clock: nat): Files {
    if dbHasRow then RestoreEach(files, ids) else BackUpEach(files, ids, clock)
  }

  function DeletesTally(dbHasRow: bool, n: nat): Settlement {
    if dbHasRow then Settlement(0, 0, n, 0) else Settlement(0, 0, 0, n)
  }

  lemma NextStillThere(files: Files, name: Name, ids: seq<FileId>, i: nat, clock: nat)
    requires i < |ids| && Distinct(ids) && AllFiles(files, name, ParkedDelete, ids)
    requires forall b :: b in files.backups ==> b < clock
    ensures ids[i] in RestoreEach(files, ids[..i]).pending && ids[i] in BackUpEach(files, ids[..i], clock).pending
    ensures RestoreEach(files, ids[..i + 1]) == RenameToFinal(RestoreEach(files, ids[..i]), ids[i])
    ensures BackUpEach(files, ids[..i + 1], clock) == MoveToBackup(BackUpEach(files, ids[..i], clock), ids[i], clock + i)
  {
    RestoreEachResult(files, name, ids[..i]);
    BackUpEachResult(files, name, ids[..i], clock);
    DistinctPrefix(ids[..i + 1]);
    assert ids[..i + 1][..i] == ids[..i];
    assert IsFile(files, name, ParkedDelete, ids[i]);
  }

  // ---------- The directory ----------

  class Directory {
    var files: Files
    // Larger than every suffix handed out so far.
    var clock: nat

    predicate Valid()
      reads this
    {
      (forall id: FileId :: id in files.pending ==> id < clock) && (forall id: FileId :: id in files.backups ==> id < clock)
    }

    constructor ()
      ensures Valid() && files == NO_FILES
    {
      files := NO_FILES;
      clock := 0;
    }

    /** `unique_suffix`. */
    method UniqueSuffix() returns (id: FileId)
      requires Valid()
      modifies this`clock
      ensures Valid() && id == old(clock) && clock == old(clock) + 1
    {
      id := clock;
      clock := clock + 1;
    }

    /** `stage`: create the file, then write all of its bytes. */
    method Stage(name: Name, content: Content) returns (id: FileId)
      requires Valid()
      modifies this
      ensures Valid() && id !in old(files.pending)
      ensures files == Create(old(files), id, Pending(name, StagedWrite, content))
    {
      id := UniqueSuffix();
      files := Create(files, id, Pending(name, StagedWrite, Bytes("", None)));
      files := Write(files, id, content);
    }

    /** `Staged::promote`: a missing staged file was promoted by someone else. */
    method Promote(id: FileId)
      requires Valid()
      modifies this`files
      ensures Valid()
      ensures files == if id in old(files.pending) then RenameToFinal(old(files), id) else old(files)
    {
      if id in files.pending {
        files := RenameToFinal(files, id);
      }
    }

    function Listed(name: Name, kind: Kind): seq<FileId>
      reads this
    {
      Listing(files, name, kind, clock)
    }

    /** `settle_staged`. */
    method SettleStaged(name: Name, dbHash: Option<Hash>) returns (out: Settlement)
      requires Valid()
      modifies this`files
      ensures Valid()
      ensures files == SettleEach(old(files), old(Listed(name, StagedWrite)), dbHash)
      ensures out == SettleTally(old(files), old(Listed(name, StagedWrite)), dbHash)
    {
      out := Settlement(0, 0, 0, 0);
      var paths := Listed(name, StagedWrite);
      for i := 0 to |paths|
        invariant Valid()
        invariant files == SettleEach(old(files), paths[..i], dbHash)
        invariant out == SettleTally(old(files), paths[..i], dbHash)
      {
        assert paths[..i + 1][..i] == paths[..i];
        var id := paths[i];
        if id in files.pending {
          if NamedBy(files.pending[id], dbHash) {
            files := RenameToFinal(files, id);
            out := out.(promoted := out.promoted + 1);
          } else {
            files := Remove(files, id);
            out := out.(discarded := out.discarded + 1);
          }
        }
      }
      assert paths[..|paths|] == paths;
    }

    predicate CarriedBy(hash: Hash, id: FileId)
      reads this
    {
      id in files.pending && HashOf(files.pending[id].content) == hash
    }

    /** `committed_content`: the final file first, then staged files, then parked ones. */
    method CommittedContent(name: Name, hash: Hash) returns (found: Option<(Content, Source)>)
      requires Valid()
      ensures found.Some? ==> HashOf(found.value.0) == hash
      ensures found == None <==>
        && !(name in files.final && HashOf(files.final[name]) == hash)
        && (forall id: FileId :: id in files.pending && files.pending[id].name == name ==> !CarriedBy(hash, id))
      ensures found.Some? && found.value.1 == FromFinal <==> name in files.final && HashOf(files.final[name]) == hash
      ensures found.Some? && found.value.1 == FromParked ==>
        forall id: FileId :: IsFile(files, name, StagedWrite, id) ==> !CarriedBy(hash, id)
    {
      if name in files.final && HashOf(files.final[name]) == hash {
        return Some((files.final[name], FromFinal));
      }
      var staged, parked := Listed(name, StagedWrite), Listed(name, ParkedDelete);
      ListingExact(files, name, StagedWrite, clock);
      ListingExact(files, name, ParkedDelete, clock);
      for i := 0 to |staged|
        invariant forall k :: 0 <= k < i ==> !CarriedBy(hash, staged[k])
      {
        if HashOf(files.pending[staged[i]].content) == hash {
          assert CarriedBy(hash, staged[i]);
          return Some((files.pending[staged[i]].content, FromStaged));
        }
      }
      for i := 0 to |parked|
        invariant forall k :: 0 <= k < i ==> !CarriedBy(hash, parked[k])
      {
        if HashOf(files.pending[parked[i]].content) == hash {
          assert CarriedBy(hash, parked[i]);
          return Some((files.pending[parked[i]].content, FromParked));
        }
      }
      forall id | id in files.pending && files.pending[id].name == name ensures !CarriedBy(hash, id) {
        assert IsFile(files, name, files.pending[id].kind, id);
        assert id in staged || id in parked;
      }
      found := None;
    }

    /** `stage_delete`: park the final file, if there is one. */
    method StageDelete(name: Name) returns (parked: Option<FileId>)
      requires Valid()
      modifies this
      ensures Valid()
      ensures parked.None? <==> name !in old(files.final)
      ensures parked.None? ==> files == old(files)
      ensures parked.Some? ==> parked.value !in old(files.pending) && files == Park(old(files), parked.value, name)
    {
      if name !in files.final {
        return None;
      }
      var id := UniqueSuffix();
      files := Park(files, id, name);
      parked := Some(id);
    }

    /** `finish_delete`: into the backups, by rename or by copy and remove. */
    method FinishDelete(id: FileId, copying: bool) returns (backup: FileId)
      requires Valid()
      modifies this
      ensures Valid() && backup == old(clock) && clock == old(clock) + 1
      ensures files == if id in old(files.pending) then MoveToBackup(old(files), id, backup) else old(files)
    {
      backup := UniqueSuffix();
      if id !in files.pending {
        return;
      }
      if copying {
        files := CopyToBackup(files, id, backup);
        files := Remove(files, id);
      } else {
        files := MoveToBackup(files, id, backup);
      }
    }

    /** A copy of the final file for the backups. */
    method CopyFinalToBackup(name: Name) returns (backup: FileId)
      requires Valid() && name in files.final
      modifies this
      ensures Valid() && backup !in old(files.backups)
      ensures files == old(files).(backups := old(files.backups)[backup := Backup(name, old(files.final)[name])])
    {
      backup := UniqueSuffix();
      files := files.(backups := files.backups[backup := Backup(name, files.final[name])]);
    }

    /** `settle_deleted`: with the row present the delete never committed, so the file comes
        back; with the row gone it goes to the backups. */
    method SettleDeleted(name: Name, dbHasRow: bool, copying: bool) returns (out: Settlement)
      requires Valid()
      modifies this
      ensures Valid()
      ensures files == DeletesSettled(old(files), old(Listed(name, ParkedDelete)), dbHasRow, old(clock))
      ensures var n := |old(Listed(name, ParkedDelete))|;
        out == if dbHasRow then Settlement(0, 0, n, 0) else Settlement(0, 0, 0, n)
    {
      out := Settlement(0, 0, 0, 0);
      var parked := Listed(name, ParkedDelete);
      ListingExact(files, name, ParkedDelete, clock);
      for i := 0 to |parked|
        invariant Valid()
        invariant files == DeletesSettled(old(files), parked[..i], dbHasRow, old(clock))
        invariant dbHasRow || clock == old(clock) + i
        invariant out == DeletesTally(dbHasRow, i)
      {
        NextStillThere(old(files), name, parked, i, old(clock));
        if dbHasRow {
          files := RenameToFinal(files, parked[i]);
          out := out.(restored := out.restored + 1);
        } else {
          var _ := FinishDelete(parked[i], copying);
          out := out.(completed := out.completed + 1);
        }
      }
      assert parked[..|parked|] == parked;
    }
  }
}
