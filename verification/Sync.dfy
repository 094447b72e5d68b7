/** Sync import and export of category versions between stores (src/sync.rs). */
module Sync {
  import opened Values
  import opened Tables
  import opened FileStore
  import opened Operations
  import opened AtomicJson
  import opened Store
  import opened LastWrite
  import opened Protocol
  import opened ProtocolInvariant
  import opened Refinement

  /** One category version of a peer; timestamps are ranks in the order they are compared. */
  datatype SyncEntry = SyncEntry(name: Name, data: Json, hash: Hash, at: int, updatedBy: string)

  datatype Envelope = Envelope(categories: seq<SyncEntry>, deleted: seq<Name>)

  datatype Resolution = LocalWins | RemoteWins

  datatype Conflict = Conflict(category: Name, localHash: Hash, remoteHash: Hash, resolution: Resolution)

  datatype SyncResult = SyncResult(pulled: seq<string>, conflicts: seq<Conflict>, errors: seq<Name>)

  datatype SyncState = SyncState(db: Db, result: SyncResult)

  const NO_RESULT := SyncResult([], [], [])

  function ResolveConflict(localAt: int, remoteAt: int, strategy: string): Resolution {
    if strategy == "local_wins" then LocalWins
    else if strategy == "remote_wins" then RemoteWins
    else if localAt <= remoteAt then RemoteWins
    else LocalWins
  }

  // ---------- What applying an entry does to the tables ----------

  predicate Held(db: Db, e: SyncEntry) {
    e.name in db.rows && HoldsRemoteVersion(db, e.name, db.rows[e.name], e.hash, e.updatedBy)
  }

  predicate Pulls(db: Db, e: SyncEntry, strategy: string) {
    ValidName(e.name)
    && (e.name in db.rows ==>
          !Held(db, e) && ResolveConflict(db.rows[e.name].updatedAt, e.at, strategy) == RemoteWins)
  }

  function Pulled(db: Db, e: SyncEntry): Db {
    ClearDirty(SyncUpsert(db, e.name, e.data, e.hash, e.at, e.updatedBy), e.name)
  }

  function ApplyEntry(s: SyncState, e: SyncEntry, strategy: string): SyncState {
    var r := s.result;
    if Held(s.db, e) then s
    else if e.name in s.db.rows && ResolveConflict(s.db.rows[e.name].updatedAt, e.at, strategy) == LocalWins then
      s.(result := r.(conflicts := r.conflicts + [Conflict(e.name, s.db.rows[e.name].hash, e.hash, LocalWins)]))
    else if !ValidName(e.name) then s.(result := r.(errors := r.errors + [e.name]))
    else
      SyncState(Pulled(s.db, e),
                r.(pulled := r.pulled + [e.name],
                   conflicts := r.conflicts + if e.name !in s.db.rows then []
                                              else [Conflict(e.name, s.db.rows[e.name].hash, e.hash, RemoteWins)]))
  }

  function ApplyEntries(s: SyncState, es: seq<SyncEntry>, strategy: string): SyncState {
    if es == [] then s
    else ApplyEntry(ApplyEntries(s, es[..|es| - 1], strategy), es[|es| - 1], strategy)
  }

  function ApplyDelete(s: SyncState, name: Name): SyncState {
    if !ValidName(name) then s.(result := s.result.(errors := s.result.errors + [name]))
    else
      SyncState(ClearDirty(DeleteRows(s.db, name), name),
                s.result.(pulled := s.result.pulled + ["(deleted) " + name]))
  }

  function ApplyDeletes(s: SyncState, names: seq<Name>): SyncState {
    if names == [] then s
    else ApplyDelete(ApplyDeletes(s, names[..|names| - 1]), names[|names| - 1])
  }

  function ApplyEnvelope(db: Db, env: Envelope, strategy: string): SyncState {
    ApplyDeletes(ApplyEntries(SyncState(db, NO_RESULT), env.categories, strategy), env.deleted)
  }

  // ---------- The import, on a store ----------

  /** Applying the envelope would write no category and delete none that exists. */
  ghost predicate NothingToPull(db: Db, files: Files, env: Envelope, strategy: string) {
    && (forall i :: 0 <= i < |env.categories| ==> !Pulls(db, env.categories[i], strategy))
    && AllAbsent(db, files, env.deleted)
  }

  ghost predicate Absent(db: Db, files: Files, name: Name) {
    name !in db.rows && !HasPending(files, name)
  }

  lemma OneMoreAbsent(db: Db, files: Files, names: seq<Name>, i: nat)
    requires i < |names| && AllAbsent(db, files, names[..i]) && (ValidName(names[i]) ==> Absent(db, files, names[i]))
    ensures AllAbsent(db, files, names[..i + 1])
  {
  }

  ghost predicate AllAbsent(db: Db, files: Files, names: seq<Name>) {
    forall i :: 0 <= i < |names| && ValidName(names[i]) ==> Absent(db, files, names[i])
  }

  method ApplyOne(store: Store, e: SyncEntry, strategy: string, copying: bool, before: SyncResult)
    returns (result: SyncResult)
    requires store.Valid()
    modifies store, store.dir
    ensures store.Valid()
    ensures SyncState(store.db, result) == ApplyEntry(SyncState(old(store.db), before), e, strategy)
    ensures !Pulls(old(store.db), e, strategy) ==> store.dir.files == old(store.dir.files) && store.db == old(store.db)
  {
    result := before;
    var op := Upsert(e.name, e.data, e.hash, e.at, e.updatedBy);
    if e.name in store.db.rows {
      var local := store.db.rows[e.name];
      if HoldsRemoteVersion(store.db, e.name, local, e.hash, e.updatedBy) {
        return;
      }
      var resolution := ResolveConflict(local.updatedAt, e.at, strategy);
      if resolution == RemoteWins {
        var upserted := store.UpsertSynced(op, copying);
        if upserted.Ok? {
          result := result.(pulled := result.pulled + [e.name]);
          store.ClearDirtyMark(e.name);
          result := result.(conflicts := result.conflicts + [Conflict(e.name, local.hash, e.hash, resolution)]);
        } else {
          result := result.(errors := result.errors + [e.name]);
        }
      } else {
        result := result.(conflicts := result.conflicts + [Conflict(e.name, local.hash, e.hash, resolution)]);
      }
    } else {
      var upserted := store.UpsertSynced(op, copying);
      if upserted.Ok? {
        result := result.(pulled := result.pulled + [e.name]);
        store.ClearDirtyMark(e.name);
      } else {
        result := result.(errors := result.errors + [e.name]);
      }
    }
  }

  method DeleteOne(store: Store, name: Name, copying: bool, before: SyncResult) returns (result: SyncResult)
    requires store.Valid()
    modifies store, store.dir
    ensures store.Valid()
    ensures SyncState(store.db, result) == ApplyDelete(SyncState(old(store.db), before), name)
    ensures ValidName(name) ==> Absent(store.db, store.dir.files, name)
    ensures forall ns: seq<Name> :: AllAbsent(old(store.db), old(store.dir.files), ns) ==> AllAbsent(store.db, store.dir.files, ns)
    ensures !ValidName(name) || Absent(old(store.db), old(store.dir.files), name) ==>
      store.dir.files == old(store.dir.files)
  {
    var deleted := store.Delete(name, copying);
    if deleted.Ok? {
      store.ClearDirtyMark(name);
      result := before.(pulled := before.pulled + ["(deleted) " + name]);
    } else {
      result := before.(errors := before.errors + [name]);
    }
  }

  method ApplyDeletions(store: Store, names: seq<Name>, copying: bool, before: SyncResult)
    returns (result: SyncResult)
    requires store.Valid()
    modifies store, store.dir
    ensures store.Valid()
    ensures SyncState(store.db, result) == ApplyDeletes(SyncState(old(store.db), before), names)
    ensures AllAbsent(store.db, store.dir.files, names)
    ensures AllAbsent(old(store.db), old(store.dir.files), names) ==> store.dir.files == old(store.dir.files)
  {
    result := before;
    for i := 0 to |names|
      invariant store.Valid()
      invariant SyncState(store.db, result) == ApplyDeletes(SyncState(old(store.db), before), names[..i])
      invariant AllAbsent(store.db, store.dir.files, names[..i])
      invariant AllAbsent(old(store.db), old(store.dir.files), names) ==>
        AllAbsent(store.db, store.dir.files, names) && store.dir.files == old(store.dir.files)
    {
      assert names[..i + 1][..i] == names[..i];
      assert AllAbsent(old(store.db), old(store.dir.files), names) && ValidName(names[i]) ==>
        Absent(store.db, store.dir.files, names[i]);
      result := DeleteOne(store, names[i], copying, result);
      OneMoreAbsent(store.db, store.dir.files, names, i);
    }
    assert names[..|names|] == names;
  }

  /** `apply_sync_envelope`: entries in order, then the deletions. */
  method ApplySyncEnvelope(store: Store, env: Envelope, strategy: string, copying: bool)
    returns (result: SyncResult)
    requires store.Valid()
    modifies store, store.dir
    ensures store.Valid()
    ensures SyncState(store.db, result) == ApplyEnvelope(old(store.db), env, strategy)
    ensures AllAbsent(store.db, store.dir.files, env.deleted)
    ensures old(NothingToPull(store.db, store.dir.files, env, strategy)) ==> store.dir.files == old(store.dir.files)
  {
    result := NO_RESULT;
    var es := env.categories;
    for i := 0 to |es|
      invariant store.Valid()
      invariant SyncState(store.db, result) == ApplyEntries(SyncState(old(store.db), NO_RESULT), es[..i], strategy)
      invariant old(NothingToPull(store.db, store.dir.files, env, strategy)) ==>
        store.dir.files == old(store.dir.files) && store.db == old(store.db)
    {
      assert es[..i + 1][..i] == es[..i];
      result := ApplyOne(store, es[i], strategy, copying, result);
    }
    assert es[..|es|] == es;
    result := ApplyDeletions(store, env.deleted, copying, result);
  }

  // ---------- Applying an envelope twice ----------

  /** Everything the decision about one category depends on. */
  predicate SameAt(a: Db, b: Db, name: Name) {
    && RowOf(a.rows, name) == RowOf(b.rows, name)
    && (name in a.aliases <==> name in b.aliases)
    && (name in a.aliases ==> a.aliases[name] == b.aliases[name])
  }

  lemma ApplyEntryOthers(s: SyncState, e: SyncEntry, strategy: string, name: Name)
    ensures name != e.name ==> SameAt(s.db, ApplyEntry(s, e, strategy).db, name)
    ensures !Pulls(ApplyEntry(s, e, strategy).db, e, strategy)
    ensures ApplyEntry(s, e, strategy).db == if Pulls(s.db, e, strategy) then Pulled(s.db, e) else s.db
  {
  }

  // ---------- What an entry does under each strategy ----------

  /** One entry: what is held already is skipped; the version held stays under "local_wins", and
      under any strategy but "remote_wins" when it is newer, which is reported; otherwise a bad
      name is an error, and a good one gets the entry's data, time and author, the peer's hash
      beside the hash of the local bytes, and no mark for the next push. */
  lemma EntryDecided(s: SyncState, e: SyncEntry, strategy: string)
    ensures var after, name, r := ApplyEntry(s, e, strategy), e.name, s.result;
      var stays := name in s.db.rows
        && (strategy == "local_wins" || (strategy != "remote_wins" && e.at < s.db.rows[name].updatedAt));
      var bytes := HashOf(Pretty(e.data));
      if Held(s.db, e) then after == s
      else if stays then
        && after.db == s.db
        && after.result == SyncResult(r.pulled, r.conflicts + [Conflict(name, s.db.rows[name].hash, e.hash, LocalWins)], r.errors)
      else if !ValidName(name) then
        after.db == s.db && after.result == SyncResult(r.pulled, r.conflicts, r.errors + [name])
      else
        && after.db.rows == s.db.rows[name := Row(bytes, e.at, e.updatedBy)]
        && after.db.aliases == s.db.aliases[name := Alias(e.hash, e.updatedBy, bytes)]
        && after.db.dirty == s.db.dirty - {name}
        && after.result.pulled == r.pulled + [name] && after.result.errors == r.errors
        && after.result.conflicts ==
             if name in s.db.rows then r.conflicts + [Conflict(name, s.db.rows[name].hash, e.hash, RemoteWins)]
             else r.conflicts
  {
  }

  lemma DeletionDecided(s: SyncState, name: Name)
    ensures var after, r := ApplyDelete(s, name), s.result;
      if !ValidName(name) then after == SyncState(s.db, SyncResult(r.pulled, r.conflicts, r.errors + [name]))
      else
        && Gone(after.db, name)
        && after.result == SyncResult(r.pulled + ["(deleted) " + name], r.conflicts, r.errors)
        && forall other :: other != name ==> SameCategory(s.db, after.db, other)
  {
    forall other | ValidName(name) && other != name ensures SameCategory(s.db, ApplyDelete(s, name).db, other) {
      DeleteTouchesOneCategory(s.db, name, other);
    }
  }

  /** After an import exactly two versions are recognized as held: the local bytes, from anyone,
      and the version imported, from its author. */
  lemma HeldAfterImport(s: SyncState, e: SyncEntry, hash: Hash, author: string)
    ensures var db := Pulled(s.db, e);
      HoldsRemoteVersion(db, e.name, db.rows[e.name], hash, author) <==>
        hash == HashOf(Pretty(e.data)) || (hash == e.hash && author == e.updatedBy)
  {
  }

  /** A local write voids the alias, unless it leaves the very bytes that were imported. */
  lemma HeldAfterWrite(db: Db, op: Op, value: Json, max: nat, hash: Hash, author: string)
    requires !op.Delete? && !op.Upsert?
    ensures var after := UpsertRows(db, op, value, max);
      HoldsRemoteVersion(after, op.name, after.rows[op.name], hash, author) <==>
        || hash == HashOf(Pretty(value))
        || (op.name in db.aliases && db.aliases[op.name] == Alias(hash, author, HashOf(Pretty(value))))
  {
    UpsertRowsExact(db, op, value, max);
  }

  lemma EntryTouchesOneCategory(s: SyncState, e: SyncEntry, strategy: string, other: Name)
    requires other != e.name
    ensures SameCategory(s.db, ApplyEntry(s, e, strategy).db, other)
  {
    StageRowsTouchesOne(s.db, e.name, e.data, HashOf(Pretty(e.data)), e.at, e.updatedBy, other);
  }

  lemma SameCategoryTwice(a: Db, b: Db, c: Db, name: Name)
    requires SameCategory(a, b, name) && SameCategory(b, c, name)
    ensures SameCategory(a, c, name)
  {
  }

  lemma {:induction false} LocalStays(s: SyncState, es: seq<SyncEntry>, name: Name)
    requires name in s.db.rows
    ensures SameCategory(s.db, ApplyEntries(s, es, "local_wins").db, name)
  {
    if es != [] {
      var init, last := es[..|es| - 1], es[|es| - 1];
      var before := ApplyEntries(s, init, "local_wins");
      LocalStays(s, init, name);
      if last.name == name {
        EntryDecided(before, last, "local_wins");
      } else {
        EntryTouchesOneCategory(before, last, "local_wins", name);
        SameCategoryTwice(s.db, before.db, ApplyEntry(before, last, "local_wins").db, name);
      }
    }
  }

  lemma SameCategorySameAnswer(a: Db, b: Db, e: SyncEntry)
    requires SameCategory(a, b, e.name)
    ensures Held(a, e) <==> Held(b, e)
  {
  }

  predicate ReportsLocalWin(conflicts: seq<Conflict>, db: Db, e: SyncEntry)
    requires e.name in db.rows
  {
    Conflict(e.name, db.rows[e.name].hash, e.hash, LocalWins) in conflicts
  }

  lemma {:induction false} LocalWinsReported(s: SyncState, es: seq<SyncEntry>, i: nat)
    requires i < |es| && es[i].name in s.db.rows && !Held(s.db, es[i])
    ensures ReportsLocalWin(ApplyEntries(s, es, "local_wins").result.conflicts, s.db, es[i])
  {
    var init, last := es[..|es| - 1], es[|es| - 1];
    var before := ApplyEntries(s, init, "local_wins");
    EntryDecided(before, last, "local_wins");
    if i < |init| {
      LocalWinsReported(s, init, i);
      assert init[i] == es[i];
    } else {
      LocalStays(s, init, last.name);
      SameCategorySameAnswer(s.db, before.db, last);
    }
  }

  /** Under "local_wins" an import leaves every category that was there as it was, in every table,
      and reports each entry not held as a conflict won locally. */
  lemma LocalWinsAlways(db: Db, env: Envelope)
    requires env.deleted == []
    ensures var after := ApplyEnvelope(db, env, "local_wins");
      && (forall name :: name in db.rows ==> name in after.db.rows && SameCategory(db, after.db, name))
      && (forall i :: 0 <= i < |env.categories| && env.categories[i].name in db.rows && !Held(db, env.categories[i]) ==>
            ReportsLocalWin(after.result.conflicts, db, env.categories[i]))
  {
    var start := SyncState(db, NO_RESULT);
    forall name | name in db.rows
      ensures SameCategory(db, ApplyEnvelope(db, env, "local_wins").db, name)
    {
      LocalStays(start, env.categories, name);
    }
    forall i | 0 <= i < |env.categories| && env.categories[i].name in db.rows && !Held(db, env.categories[i])
      ensures ReportsLocalWin(ApplyEnvelope(db, env, "local_wins").result.conflicts, db, env.categories[i])
    {
      LocalWinsReported(start, env.categories, i);
    }
  }

  /** Under "remote_wins" a valid entry not held is taken whole, whatever the times. */
  lemma RemoteEntryWins(s: SyncState, e: SyncEntry)
    requires ValidName(e.name) && !Held(s.db, e)
    ensures VersionAt(ApplyEntry(s, e, "remote_wins").db, e.name) == Some(VersionOf(e))
  {
    EntryDecided(s, e, "remote_wins");
  }

  /** Any strategy that is neither "local_wins" nor "remote_wins" is last write wins. */
  lemma {:induction false} OtherStrategies(s: SyncState, es: seq<SyncEntry>, strategy: string)
    requires strategy != "local_wins" && strategy != "remote_wins"
    ensures ApplyEntries(s, es, strategy) == ApplyEntries(s, es, "last_write_wins")
  {
    if es != [] {
      var before := ApplyEntries(s, es[..|es| - 1], strategy);
      OtherStrategies(s, es[..|es| - 1], strategy);
      EntryDecided(before, es[|es| - 1], strategy);
      EntryDecided(before, es[|es| - 1], "last_write_wins");
    }
  }

  lemma OtherStrategiesAreLastWriteWins(db: Db, env: Envelope, strategy: string)
    requires strategy != "local_wins" && strategy != "remote_wins"
    ensures ApplyEnvelope(db, env, strategy) == ApplyEnvelope(db, env, "last_write_wins")
  {
    OtherStrategies(SyncState(db, NO_RESULT), env.categories, strategy);
  }

  predicate DistinctNames(es: seq<SyncEntry>) {
    forall i, j :: 0 <= i < j < |es| ==> es[i].name != es[j].name
  }

  predicate NonePulls(db: Db, es: seq<SyncEntry>, strategy: string) {
    forall i :: 0 <= i < |es| ==> !Pulls(db, es[i], strategy)
  }

  lemma {:induction false} EntriesLeaveNothingToPull(s: SyncState, es: seq<SyncEntry>, strategy: string)
    requires DistinctNames(es)
    ensures NonePulls(ApplyEntries(s, es, strategy).db, es, strategy)
  {
    if es != [] {
      var init, last := es[..|es| - 1], es[|es| - 1];
      var before, after := ApplyEntries(s, init, strategy), ApplyEntries(s, es, strategy);
      EntriesLeaveNothingToPull(s, init, strategy);
      forall i | 0 <= i < |es| ensures !Pulls(after.db, es[i], strategy) {
        ApplyEntryOthers(before, last, strategy, es[i].name);
        if i < |init| {
          assert init[i] == es[i] && SameAt(before.db, after.db, es[i].name);
        }
      }
    }
  }

  lemma {:induction false} NothingPulledNothingChanged(s: SyncState, es: seq<SyncEntry>, strategy: string)
    requires NonePulls(s.db, es, strategy)
    ensures ApplyEntries(s, es, strategy).db == s.db
  {
    if es != [] {
      var init := es[..|es| - 1];
      assert forall i :: 0 <= i < |init| ==> init[i] == es[i];
      NothingPulledNothingChanged(s, init, strategy);
      assert !Pulls(s.db, es[|es| - 1], strategy);
      ApplyEntryOthers(ApplyEntries(s, init, strategy), es[|es| - 1], strategy, "");
    }
  }

  /** No table mentions the category. */
  ghost predicate Gone(db: Db, name: Name) {
    && name !in db.rows && name !in db.aliases && name !in db.dirty
    && (forall v :: v in db.versions ==> v.category != name)
    && (forall r :: r in db.index ==> r.category != name)
  }

  lemma DeleteRowsOfGone(db: Db, name: Name)
    requires Gone(db, name)
    ensures DeleteRows(db, name) == db.(dirty := db.dirty[name := Removed])
  {
    FilterAll(VersionElsewhere(name), db.versions);
    FilterAll(IndexedElsewhere(name), db.index);
  }

  lemma DeletingWhatIsGone(s: SyncState, name: Name)
    requires ValidName(name) ==> Gone(s.db, name)
    ensures ApplyDelete(s, name).db == s.db
  {
    if ValidName(name) {
      DeleteRowsOfGone(s.db, name);
      assert s.db.dirty[name := Removed] - {name} == s.db.dirty;
    }
  }

  lemma DeletedIsGone(s: SyncState, name: Name, other: Name)
    ensures ValidName(name) ==> Gone(ApplyDelete(s, name).db, name)
    ensures Gone(s.db, other) ==> Gone(ApplyDelete(s, name).db, other)
    ensures other != name ==> SameAt(s.db, ApplyDelete(s, name).db, other)
  {
  }

  ghost predicate AllGone(db: Db, names: seq<Name>) {
    forall i :: 0 <= i < |names| && ValidName(names[i]) ==> Gone(db, names[i])
  }

  lemma {:induction false} DeletesLeaveThemGone(s: SyncState, names: seq<Name>, other: Name)
    ensures AllGone(ApplyDeletes(s, names).db, names)
    ensures other !in names ==> SameAt(s.db, ApplyDeletes(s, names).db, other)
  {
    if names != [] {
      var init, last := names[..|names| - 1], names[|names| - 1];
      var before := ApplyDeletes(s, init);
      DeletesLeaveThemGone(s, init, other);
      DeletedIsGone(before, last, other);
      forall i | 0 <= i < |names| && ValidName(names[i]) ensures Gone(ApplyDelete(before, last).db, names[i]) {
        DeletedIsGone(before, last, names[i]);
        assert i < |init| ==> init[i] == names[i];
      }
    }
  }

  lemma {:induction false} DeletingAllGone(s: SyncState, names: seq<Name>)
    requires AllGone(s.db, names)
    ensures ApplyDeletes(s, names).db == s.db
  {
    if names != [] {
      var init := names[..|names| - 1];
      assert forall i :: 0 <= i < |init| ==> init[i] == names[i];
      DeletingAllGone(s, init);
      DeletingWhatIsGone(ApplyDeletes(s, init), names[|names| - 1]);
    }
  }

  /** Applying the same envelope again changes no table: rows, versions, index, aliases and
      dirty marks stay as the first time left them, and there is nothing to pull. */
  lemma ReapplyingIsIdempotent(db: Db, env: Envelope, strategy: string)
    requires DistinctNames(env.categories)
    requires forall i :: 0 <= i < |env.categories| ==> env.categories[i].name !in env.deleted
    ensures var once := ApplyEnvelope(db, env, strategy).db;
      NonePulls(once, env.categories, strategy) && ApplyEnvelope(once, env, strategy).db == once
  {
    var imported := ApplyEntries(SyncState(db, NO_RESULT), env.categories, strategy);
    var once := ApplyDeletes(imported, env.deleted).db;
    EntriesLeaveNothingToPull(SyncState(db, NO_RESULT), env.categories, strategy);
    forall i | 0 <= i < |env.categories| ensures !Pulls(once, env.categories[i], strategy) {
      DeletesLeaveThemGone(imported, env.deleted, env.categories[i].name);
      assert !Pulls(imported.db, env.categories[i], strategy);
    }
    NothingPulledNothingChanged(SyncState(once, NO_RESULT), env.categories, strategy);
    DeletesLeaveThemGone(imported, env.deleted, "");
    DeletingAllGone(ApplyEntries(SyncState(once, NO_RESULT), env.categories, strategy), env.deleted);
  }

  /** The category files too stay as the first time left them. */
  lemma ReappliedFilesStay(db: Db, files: Files, env: Envelope, strategy: string)
    requires DistinctNames(env.categories)
    requires forall i :: 0 <= i < |env.categories| ==> env.categories[i].name !in env.deleted
    requires AllAbsent(ApplyEnvelope(db, env, strategy).db, files, env.deleted)
    ensures NothingToPull(ApplyEnvelope(db, env, strategy).db, files, env, strategy)
  {
    ReapplyingIsIdempotent(db, env, strategy);
  }

  // ---------- Last write wins, in any order ----------

  function VersionOf(e: SyncEntry): Version {
    Version(e.data, e.at, e.updatedBy)
  }

  /** The version a row holds, from its own bytes. */
  function RowVersion(row: Row): Option<Version> {
    match Parse(row.hash.of)
    case Some(v) => Some(Version(v, row.updatedAt, row.updatedBy))
    case None => None
  }

  function VersionAt(db: Db, name: Name): Option<Version> {
    if name in db.rows then RowVersion(db.rows[name]) else None
  }

  /** The category is absent or its bytes parse. */
  predicate Legible(db: Db, name: Name) {
    name in db.rows ==> RowVersion(db.rows[name]).Some?
  }

  /** The entry's hash is the hash of some serialization of its data. */
  predicate Honest(e: SyncEntry) {
    Parse(e.hash.of) == Some(e.data)
  }

  predicate AllHonest(es: seq<SyncEntry>) {
    forall i :: 0 <= i < |es| ==> Honest(es[i])
  }

  /** The versions offered for one category, in order. */
  function OffersTo(es: seq<SyncEntry>, name: Name): seq<Version> {
    if es == [] then []
    else
      var last := es[|es| - 1];
      OffersTo(es[..|es| - 1], name) + if last.name == name then [VersionOf(last)] else []
  }

  const LWW := "last_write_wins"

  function Applied(db: Db, es: seq<SyncEntry>): Db {
    ApplyEntries(SyncState(db, NO_RESULT), es, LWW).db
  }

  lemma ApplyEntryKeepsAliases(s: SyncState, e: SyncEntry, strategy: string)
    requires AliasesOk(s.db) && Honest(e)
    ensures AliasesOk(ApplyEntry(s, e, strategy).db)
  {
  }

  /** One entry moves the version held as last-write-wins allows: what is recognized as held
      has the value held. */
  lemma EntryMoves(s: SyncState, e: SyncEntry)
    requires ValidName(e.name) && Honest(e) && AliasesOk(s.db) && Legible(s.db, e.name)
    ensures var after := ApplyEntry(s, e, LWW).db;
      Legible(after, e.name) && Moves(VersionAt(s.db, e.name), VersionOf(e), VersionAt(after, e.name))
  {
    if Held(s.db, e) {
      HoldsMeansSameValue(s.db, e.name, s.db.rows[e.name], e.hash, e.updatedBy);
    }
  }

  lemma {:induction false} EntriesLead(db: Db, es: seq<SyncEntry>, name: Name)
    requires ValidName(name) && AliasesOk(db) && Legible(db, name) && AllHonest(es)
    ensures AliasesOk(Applied(db, es)) && Legible(Applied(db, es), name)
    ensures Leads(VersionAt(db, name), OffersTo(es, name), VersionAt(Applied(db, es), name))
  {
    if es != [] {
      var init, last := es[..|es| - 1], es[|es| - 1];
      assert forall i :: 0 <= i < |init| ==> init[i] == es[i];
      EntriesLead(db, init, name);
      var before := ApplyEntries(SyncState(db, NO_RESULT), init, LWW);
      ApplyEntryKeepsAliases(before, last, LWW);
      if last.name == name {
        EntryMoves(before, last);
        LeadsOneMore(VersionAt(db, name), OffersTo(init, name), VersionAt(before.db, name), VersionOf(last),
                     VersionAt(Applied(db, es), name));
      } else {
        ApplyEntryOthers(before, last, LWW, name);
        assert OffersTo(es, name) == OffersTo(init, name);
      }
    }
  }

  /** Importing any versions in any order, each any number of times and whatever the peers'
      serializations, leaves the category with the version that prevails over those offered and
      the one held at first. Only that version must stand apart; the others may tie. */
  lemma LastWriteWins(db: Db, es: seq<SyncEntry>, name: Name, m: Version)
    requires ValidName(name) && AliasesOk(db) && Legible(db, name) && AllHonest(es)
    requires Prevails(VersionAt(db, name), OffersTo(es, name), m)
    ensures VersionAt(Applied(db, es), name) == Some(m)
  {
    EntriesLead(db, es, name);
    PrevailingIsLast(VersionAt(db, name), OffersTo(es, name), m, VersionAt(Applied(db, es), name));
  }

  /** When hash, timestamp, author and data determine one another, that is the newest version. */
  lemma NewestWins(db: Db, es: seq<SyncEntry>, name: Name) returns (m: Version)
    requires ValidName(name) && AliasesOk(db) && Legible(db, name) && AllHonest(es)
    requires Determined(VersionAt(db, name), OffersTo(es, name))
    requires name in db.rows || OffersTo(es, name) != []
    ensures VersionAt(Applied(db, es), name) == Some(m)
    ensures Competes(VersionAt(db, name), OffersTo(es, name), m)
    ensures forall v :: Competes(VersionAt(db, name), OffersTo(es, name), v) ==> v.at <= m.at
  {
    m := DeterminedNewestPrevails(VersionAt(db, name), OffersTo(es, name));
    LastWriteWins(db, es, name, m);
  }

  // ---------- The peer wins ----------

  predicate LastEntryFor(es: seq<SyncEntry>, name: Name, i: nat) {
    i < |es| && es[i].name == name && forall j :: i < j < |es| ==> es[j].name != name
  }

  lemma {:induction false} EntriesKeepAliases(s: SyncState, es: seq<SyncEntry>, strategy: string)
    requires AliasesOk(s.db) && AllHonest(es)
    ensures AliasesOk(ApplyEntries(s, es, strategy).db)
  {
    if es != [] {
      var init := es[..|es| - 1];
      assert forall i :: 0 <= i < |init| ==> init[i] == es[i];
      EntriesKeepAliases(s, init, strategy);
      ApplyEntryKeepsAliases(ApplyEntries(s, init, strategy), es[|es| - 1], strategy);
    }
  }

  lemma {:induction false} RemoteWinsLast(s: SyncState, es: seq<SyncEntry>, name: Name, i: nat)
    requires ValidName(name) && AliasesOk(s.db) && AllHonest(es) && LastEntryFor(es, name, i)
    ensures var db := ApplyEntries(s, es, "remote_wins").db;
      && name in db.rows && Parse(db.rows[name].hash.of) == Some(es[i].data)
      && (!Held(ApplyEntries(s, es[..i], "remote_wins").db, es[i]) ==> VersionAt(db, name) == Some(VersionOf(es[i])))
  {
    var init, last := es[..|es| - 1], es[|es| - 1];
    assert forall k :: 0 <= k < |init| ==> init[k] == es[k];
    var before := ApplyEntries(s, init, "remote_wins");
    if i < |init| {
      assert init[..i] == es[..i];
      RemoteWinsLast(s, init, name, i);
      ApplyEntryOthers(before, last, "remote_wins", name);
    } else {
      assert es[..i] == init;
      EntriesKeepAliases(s, init, "remote_wins");
      EntryDecided(before, last, "remote_wins");
      if Held(before.db, last) {
        HoldsMeansSameValue(before.db, name, before.db.rows[name], last.hash, last.updatedBy);
      }
    }
  }

  /** Under "remote_wins" an import leaves every valid category it names with the data of the last
      entry for it, and, unless that entry was recognized as held, with its time and author. */
  lemma RemoteWinsAlways(db: Db, env: Envelope, name: Name, i: nat)
    requires env.deleted == [] && ValidName(name) && AliasesOk(db) && AllHonest(env.categories)
    requires LastEntryFor(env.categories, name, i)
    ensures var after := ApplyEnvelope(db, env, "remote_wins").db;
      && name in after.rows && Parse(after.rows[name].hash.of) == Some(env.categories[i].data)
      && (DistinctNames(env.categories) && !Held(db, env.categories[i]) ==>
            VersionAt(after, name) == Some(VersionOf(env.categories[i])))
  {
    var start := SyncState(db, NO_RESULT);
    RemoteWinsLast(start, env.categories, name, i);
    if DistinctNames(env.categories) {
      Untouched(start, env.categories[..i], "remote_wins", name);
    }
  }

  lemma {:induction false} Untouched(s: SyncState, es: seq<SyncEntry>, strategy: string, name: Name)
    requires forall i :: 0 <= i < |es| ==> es[i].name != name
    ensures SameAt(s.db, ApplyEntries(s, es, strategy).db, name)
  {
    if es != [] {
      Untouched(s, es[..|es| - 1], strategy, name);
      ApplyEntryOthers(ApplyEntries(s, es[..|es| - 1], strategy), es[|es| - 1], strategy, name);
    }
  }

  // ---------- Exactly when the order does not matter ----------

  predicate SameOffers(a: seq<SyncEntry>, b: seq<SyncEntry>) {
    (forall i :: 0 <= i < |a| ==> a[i] in b) && (forall i :: 0 <= i < |b| ==> b[i] in a)
  }

  lemma {:induction false} OfferedBySome(es: seq<SyncEntry>, name: Name, v: Version)
    ensures v in OffersTo(es, name) <==> exists i :: 0 <= i < |es| && es[i].name == name && VersionOf(es[i]) == v
  {
    if es != [] {
      var init, last := es[..|es| - 1], es[|es| - 1];
      OfferedBySome(init, name, v);
      assert forall i :: 0 <= i < |init| ==> init[i] == es[i];
      if v in OffersTo(init, name) {
        var i :| 0 <= i < |init| && init[i].name == name && VersionOf(init[i]) == v;
        assert es[i].name == name;
      }
      if last.name == name && VersionOf(last) == v {
        assert es[|init|] == last;
      }
    }
  }

  lemma SameOffersSameVersions(a: seq<SyncEntry>, b: seq<SyncEntry>, name: Name)
    requires SameOffers(a, b)
    ensures SameElements(OffersTo(a, name), OffersTo(b, name))
  {
    forall v ensures v in OffersTo(a, name) ==> v in OffersTo(b, name) {
      OfferedBySome(a, name, v);
      OfferedBySome(b, name, v);
      if i :| 0 <= i < |a| && a[i].name == name && VersionOf(a[i]) == v {
        var j :| 0 <= j < |b| && b[j] == a[i];
      }
    }
    forall v ensures v in OffersTo(b, name) ==> v in OffersTo(a, name) {
      OfferedBySome(a, name, v);
      OfferedBySome(b, name, v);
      if i :| 0 <= i < |b| && b[i].name == name && VersionOf(b[i]) == v {
        var j :| 0 <= j < |a| && a[j] == b[i];
      }
    }
  }

  /** This store and its peers serialize alike: every hash is that of the pretty-printed data. */
  predicate Uniform(db: Db, es: seq<SyncEntry>, name: Name) {
    && (name in db.rows ==> db.rows[name].hash.of.Pretty?)
    && (forall i :: 0 <= i < |es| && es[i].name == name ==> es[i].hash == HashOf(Pretty(es[i].data)))
  }

  lemma {:induction false} UniformIsFinal(db: Db, es: seq<SyncEntry>, name: Name)
    requires ValidName(name) && AliasesOk(db) && AllHonest(es) && Uniform(db, es, name)
    ensures VersionAt(Applied(db, es), name) == Final(VersionAt(db, name), OffersTo(es, name))
    ensures AliasesOk(Applied(db, es)) && (name in Applied(db, es).rows ==> Applied(db, es).rows[name].hash.of.Pretty?)
  {
    if es != [] {
      var init, last := es[..|es| - 1], es[|es| - 1];
      assert forall i :: 0 <= i < |init| ==> init[i] == es[i];
      UniformIsFinal(db, init, name);
      var before := ApplyEntries(SyncState(db, NO_RESULT), init, LWW);
      ApplyEntryKeepsAliases(before, last, LWW);
      if last.name == name {
        UniformEntry(before, last);
        var vs := OffersTo(es, name);
        assert vs[..|vs| - 1] == OffersTo(init, name);
      } else {
        ApplyEntryOthers(before, last, LWW, name);
        assert OffersTo(es, name) == OffersTo(init, name);
      }
    }
  }

  lemma UniformEntry(s: SyncState, e: SyncEntry)
    requires ValidName(e.name) && e.hash == HashOf(Pretty(e.data)) && AliasesOk(s.db)
    requires e.name in s.db.rows ==> s.db.rows[e.name].hash.of.Pretty?
    ensures var after := ApplyEntry(s, e, LWW).db;
      && VersionAt(after, e.name) == Next(VersionAt(s.db, e.name), VersionOf(e))
      && (e.name in after.rows ==> after.rows[e.name].hash.of.Pretty?)
  {
    if Held(s.db, e) {
      HoldsMeansSameValue(s.db, e.name, s.db.rows[e.name], e.hash, e.updatedBy);
    }
  }

  function EntryOf(name: Name, v: Version): SyncEntry {
    SyncEntry(name, v.value, HashOf(Pretty(v.value)), v.at, v.author)
  }

  function EntriesOf(name: Name, vs: seq<Version>): seq<SyncEntry> {
    seq(|vs|, i requires 0 <= i < |vs| => EntryOf(name, vs[i]))
  }

  function ForOthers(name: Name): SyncEntry -> bool {
    (e: SyncEntry) => e.name != name
  }

  /** The same entries with those of one category rearranged. */
  function Rearranged(es: seq<SyncEntry>, name: Name, vs: seq<Version>): seq<SyncEntry> {
    Filter(ForOthers(name), es) + EntriesOf(name, vs)
  }

  lemma {:induction false} OffersConcat(a: seq<SyncEntry>, b: seq<SyncEntry>, name: Name)
    ensures OffersTo(a + b, name) == OffersTo(a, name) + OffersTo(b, name)
  {
    if b == [] {
      assert a + b == a;
    } else {
      assert (a + b)[..|a + b| - 1] == a + b[..|b| - 1];
      OffersConcat(a, b[..|b| - 1], name);
    }
  }

  lemma {:induction false} OffersOfEntries(name: Name, vs: seq<Version>)
    ensures OffersTo(EntriesOf(name, vs), name) == vs
  {
    if vs != [] {
      var es := EntriesOf(name, vs);
      assert es[..|es| - 1] == EntriesOf(name, vs[..|vs| - 1]);
      OffersOfEntries(name, vs[..|vs| - 1]);
      InitAndLast(vs);
    }
  }

  lemma {:induction false} NoOffers(es: seq<SyncEntry>, name: Name)
    requires forall i :: 0 <= i < |es| ==> es[i].name != name
    ensures OffersTo(es, name) == []
  {
    if es != [] {
      NoOffers(es[..|es| - 1], name);
    }
  }

  lemma RearrangedOffers(es: seq<SyncEntry>, name: Name, vs: seq<Version>)
    ensures OffersTo(Rearranged(es, name, vs), name) == vs
  {
    var others := Filter(ForOthers(name), es);
    forall i | 0 <= i < |others| ensures others[i].name != name {
      assert others[i] in others;
    }
    OffersConcat(others, EntriesOf(name, vs), name);
    NoOffers(others, name);
    OffersOfEntries(name, vs);
  }

  lemma RearrangedSameOffers(db: Db, es: seq<SyncEntry>, name: Name, vs: seq<Version>)
    requires Uniform(db, es, name) && SameElements(vs, OffersTo(es, name))
    ensures SameOffers(Rearranged(es, name, vs), es)
  {
    var fs, others, mine := Rearranged(es, name, vs), Filter(ForOthers(name), es), EntriesOf(name, vs);
    forall i | 0 <= i < |mine| ensures mine[i] in es {
      assert vs[i] in OffersTo(es, name);
      OfferedBySome(es, name, vs[i]);
      var j :| 0 <= j < |es| && es[j].name == name && VersionOf(es[j]) == vs[i];
      assert es[j] == mine[i];
    }
    forall i | 0 <= i < |fs| ensures fs[i] in es {
      assert i < |others| ==> fs[i] in others;
      assert i >= |others| ==> fs[i] == mine[i - |others|];
    }
    forall i | 0 <= i < |es| ensures es[i] in fs {
      if es[i].name == name {
        OfferedBySome(es, name, VersionOf(es[i]));
        var j :| 0 <= j < |vs| && vs[j] == VersionOf(es[i]);
        assert fs[|others| + j] == mine[j] == es[i];
      } else {
        assert es[i] in others;
      }
    }
  }

  ghost predicate OrderDoesNotMatter(db: Db, es: seq<SyncEntry>, name: Name) {
    forall fs :: SameOffers(fs, es) ==> VersionAt(Applied(db, fs), name) == VersionAt(Applied(db, es), name)
  }

  lemma SameOffersUniform(db: Db, es: seq<SyncEntry>, fs: seq<SyncEntry>, name: Name)
    requires SameOffers(fs, es) && Uniform(db, es, name) && AllHonest(es)
    ensures Uniform(db, fs, name) && AllHonest(fs)
  {
    forall i | 0 <= i < |fs| ensures Honest(fs[i]) && (fs[i].name == name ==> fs[i].hash == HashOf(Pretty(fs[i].data))) {
      var j :| 0 <= j < |es| && es[j] == fs[i];
    }
  }

  /** Among peers that serialize alike, the outcome of an import is the same in every order
      exactly when no offer can displace the version held, or nothing is held or offered, or
      some offer prevails. */
  lemma OrderDoesNotMatterIff(db: Db, es: seq<SyncEntry>, name: Name)
    requires ValidName(name) && AliasesOk(db) && AllHonest(es) && Uniform(db, es, name)
    ensures OrderDoesNotMatter(db, es, name) <==> OneOutcome(VersionAt(db, name), OffersTo(es, name))
  {
    var cur, vs := VersionAt(db, name), OffersTo(es, name);
    OrderIrrelevantIff(cur, vs);
    UniformIsFinal(db, es, name);
    if OneOutcome(cur, vs) {
      forall fs | SameOffers(fs, es) ensures VersionAt(Applied(db, fs), name) == VersionAt(Applied(db, es), name) {
        SameOffersUniform(db, es, fs, name);
        SameOffersSameVersions(fs, es, name);
        UniformIsFinal(db, fs, name);
      }
    } else {
      var a :| SameElements(a, vs) && Final(cur, a) != Final(cur, vs);
      RearrangedSameOffers(db, es, name, a);
      var fs := Rearranged(es, name, a);
      SameOffersUniform(db, es, fs, name);
      RearrangedOffers(es, name, a);
      UniformIsFinal(db, fs, name);
    }
  }

  lemma SecondWins(first: SyncEntry, second: SyncEntry)
    requires ValidName(first.name) && second.name == first.name && first.at <= second.at
    requires Honest(first) && Honest(second) && first.data != second.data
    ensures VersionAt(Applied(EMPTY_DB, [first, second]), first.name) == Some(VersionOf(second))
  {
    var start := SyncState(EMPTY_DB, NO_RESULT);
    assert [first, second][..1] == [first] && [first][..0] == [];
    assert ApplyEntries(start, [first], LWW) == ApplyEntry(start, first, LWW);
    var once := ApplyEntry(start, first, LWW);
    ApplyEntryKeepsAliases(start, first, LWW);
    if Held(once.db, second) {
      HoldsMeansSameValue(once.db, second.name, once.db.rows[second.name], second.hash, second.updatedBy);
    }
  }

  /** Of two different values with one timestamp, whichever is imported last stays, however the
      peers serialize. */
  lemma TiesDependOnOrder(a: SyncEntry, b: SyncEntry)
    requires ValidName(a.name) && b.name == a.name && a.at == b.at
    requires Honest(a) && Honest(b) && a.data != b.data
    ensures VersionAt(Applied(EMPTY_DB, [a, b]), a.name) == Some(VersionOf(b))
    ensures VersionAt(Applied(EMPTY_DB, [b, a]), a.name) == Some(VersionOf(a))
  {
    SecondWins(a, b);
    SecondWins(b, a);
  }

  /** Of two versions with one value and hash, whichever is imported first stays, even the older. */
  lemma EchoesDependOnOrder(a: SyncEntry, b: SyncEntry)
    requires ValidName(a.name) && b.name == a.name && Honest(a) && b.data == a.data
    requires a.hash == HashOf(Pretty(a.data)) && b.hash == a.hash
    ensures VersionAt(Applied(EMPTY_DB, [a, b]), a.name) == Some(VersionOf(a))
    ensures VersionAt(Applied(EMPTY_DB, [b, a]), a.name) == Some(VersionOf(b))
  {
    var start := SyncState(EMPTY_DB, NO_RESULT);
    assert [a, b][..1] == [a] && [b, a][..1] == [b] && [a][..0] == [] && [b][..0] == [];
    assert ApplyEntries(start, [a], LWW) == ApplyEntry(start, a, LWW);
    assert ApplyEntries(start, [b], LWW) == ApplyEntry(start, b, LWW);
  }

  // ---------- Whole envelopes ----------

  /** Deletion-free envelopes, one after the other. */
  function ApplyEnvelopes(db: Db, envs: seq<Envelope>, strategy: string): Db {
    if envs == [] then db
    else ApplyEnvelope(ApplyEnvelopes(db, envs[..|envs| - 1], strategy), envs[|envs| - 1], strategy).db
  }

  function AllEntries(envs: seq<Envelope>): seq<SyncEntry> {
    if envs == [] then [] else AllEntries(envs[..|envs| - 1]) + envs[|envs| - 1].categories
  }

  /** The outcome for the tables does not depend on what was reported before. */
  lemma {:induction false} ResultsDoNotMatter(db: Db, r1: SyncResult, r2: SyncResult, es: seq<SyncEntry>, strategy: string)
    ensures ApplyEntries(SyncState(db, r1), es, strategy).db == ApplyEntries(SyncState(db, r2), es, strategy).db
  {
    if es != [] {
      ResultsDoNotMatter(db, r1, r2, es[..|es| - 1], strategy);
    }
  }

  lemma {:induction false} ApplyTwoRuns(s: SyncState, a: seq<SyncEntry>, b: seq<SyncEntry>, strategy: string)
    ensures ApplyEntries(s, a + b, strategy) == ApplyEntries(ApplyEntries(s, a, strategy), b, strategy)
  {
    if b == [] {
      assert a + b == a;
    } else {
      var init := b[..|b| - 1];
      assert (a + b)[..|a + b| - 1] == a + init;
      ApplyTwoRuns(s, a, init, strategy);
    }
  }

  predicate DeletionFree(envs: seq<Envelope>) {
    forall i :: 0 <= i < |envs| ==> envs[i].deleted == []
  }

  lemma {:induction false} EnvelopesAreTheirEntries(db: Db, envs: seq<Envelope>, strategy: string)
    requires DeletionFree(envs)
    ensures ApplyEnvelopes(db, envs, strategy) == ApplyEntries(SyncState(db, NO_RESULT), AllEntries(envs), strategy).db
  {
    if envs != [] {
      var init, last := envs[..|envs| - 1], envs[|envs| - 1];
      assert forall i :: 0 <= i < |init| ==> init[i] == envs[i];
      EnvelopesAreTheirEntries(db, init, strategy);
      var before := ApplyEntries(SyncState(db, NO_RESULT), AllEntries(init), strategy);
      ApplyTwoRuns(SyncState(db, NO_RESULT), AllEntries(init), last.categories, strategy);
      ResultsDoNotMatter(before.db, NO_RESULT, before.result, last.categories, strategy);
    }
  }

  /** Replicas that start alike and import the same versions, bundled into envelopes and ordered
      in any way, all end with the version that prevails. */
  lemma ImportsAreConfluent(db: Db, a: seq<Envelope>, b: seq<Envelope>, name: Name, m: Version)
    requires DeletionFree(a) && DeletionFree(b) && SameOffers(AllEntries(a), AllEntries(b))
    requires ValidName(name) && AliasesOk(db) && Legible(db, name) && AllHonest(AllEntries(a))
    requires Prevails(VersionAt(db, name), OffersTo(AllEntries(a), name), m)
    ensures VersionAt(ApplyEnvelopes(db, a, LWW), name) == Some(m)
    ensures VersionAt(ApplyEnvelopes(db, b, LWW), name) == Some(m)
  {
    var left, right := AllEntries(a), AllEntries(b);
    EnvelopesAreTheirEntries(db, a, LWW);
    EnvelopesAreTheirEntries(db, b, LWW);
    SameOffersSameVersions(left, right, name);
    forall i | 0 <= i < |right| ensures Honest(right[i]) {
      var j :| 0 <= j < |left| && left[j] == right[i];
    }
    LastWriteWins(db, left, name, m);
    LastWriteWins(db, right, name, m);
  }

  // ---------- Export ----------

  /** `export_sync_envelope`: one coherent read per name; unknown names are skipped. */
  method ExportSyncEnvelope(store: Store, names: seq<Name>) returns (env: Envelope)
    requires store.Valid()
    ensures env.deleted == [] && env.categories == Exported(store.db, names)
    ensures forall i :: 0 <= i < |env.categories| ==> ExportsRow(store.db, env.categories[i])
    ensures EntryNames(env.categories) == Filter(ExportedName(store.db), names)
  {
    var entries := [];
    for i := 0 to |names|
      invariant entries == Exported(store.db, names[..i])
    {
      assert names[..i + 1][..i] == names[..i];
      if names[i] in store.db.rows {
        CommittedBytesCarried(store.db.rows, store.dir.files, names[i]);
      }
      var read, _ := store.ReadConsistent(names[i]);
      if read.Ok? && read.value.1.Some? && Parse(read.value.0).Some? {
        var row := read.value.1.value;
        entries := entries + [SyncEntry(names[i], Parse(read.value.0).value, row.hash, row.updatedAt, row.updatedBy)];
      }
    }
    assert names[..|names|] == names;
    ExportedIsHonest(store.db, names);
    env := Envelope(entries, []);
  }

  function Exported(db: Db, names: seq<Name>): seq<SyncEntry> {
    if names == [] then []
    else
      var name := names[|names| - 1];
      Exported(db, names[..|names| - 1])
      + if name in db.rows && RowVersion(db.rows[name]).Some? then
          var v := RowVersion(db.rows[name]).value;
          [SyncEntry(name, v.value, db.rows[name].hash, v.at, v.author)]
        else []
  }

  /** The entry is the row, with the value its bytes parse to. */
  predicate ExportsRow(db: Db, e: SyncEntry) {
    && e.name in db.rows && Parse(db.rows[e.name].hash.of) == Some(e.data)
    && Row(e.hash, e.at, e.updatedBy) == db.rows[e.name]
  }

  function ExportedName(db: Db): Name -> bool {
    (n: Name) => n in db.rows && Parse(db.rows[n].hash.of).Some?
  }

  function EntryNames(es: seq<SyncEntry>): seq<Name> {
    seq(|es|, i requires 0 <= i < |es| => es[i].name)
  }

  /** What is exported names its own data, and the exporter holds it: one entry for each name that
      has a row and parses, in the order of the names. */
  lemma {:induction false} ExportedIsHonest(db: Db, names: seq<Name>)
    ensures var es := Exported(db, names);
      forall i :: 0 <= i < |es| ==> Honest(es[i]) && Held(db, es[i]) && ExportsRow(db, es[i])
    ensures EntryNames(Exported(db, names)) == Filter(ExportedName(db), names)
  {
    if names != [] {
      var init, last := names[..|names| - 1], names[|names| - 1];
      ExportedIsHonest(db, init);
      FilterConcat(ExportedName(db), init, [last]);
      assert names == init + [last];
      assert Filter(ExportedName(db), [last]) == if ExportedName(db)(last) then [last] else [];
      assert EntryNames(Exported(db, names)) ==
             EntryNames(Exported(db, init)) + if ExportedName(db)(last) then [last] else [];
    }
  }

  // ---------- Two stores that exchange exports ----------

  lemma {:induction false} ExportOffersWhatIsHeld(db: Db, names: seq<Name>, name: Name, v: Version)
    ensures v in OffersTo(Exported(db, names), name) <==> name in names && VersionAt(db, name) == Some(v)
  {
    if names != [] {
      var init := names[..|names| - 1];
      ExportOffersWhatIsHeld(db, init, name, v);
      InitAndLast(names);
      OffersConcat(Exported(db, init), Exported(db, names)[|Exported(db, init)|..], name);
      assert Exported(db, names) == Exported(db, init) + Exported(db, names)[|Exported(db, init)|..];
    }
  }

  /** Importing a peer's export moves each category by the one version the peer holds. */
  lemma ImportMoves(db: Db, peer: Db, names: seq<Name>, name: Name)
    requires name in names && ValidName(name) && AliasesOk(db) && Legible(db, name)
    ensures var after := Applied(db, Exported(peer, names));
      && AliasesOk(after) && Legible(after, name)
      && (match VersionAt(peer, name)
          case Some(v) => Moves(VersionAt(db, name), v, VersionAt(after, name))
          case None => VersionAt(after, name) == VersionAt(db, name))
  {
    var es := Exported(peer, names);
    var vs := OffersTo(es, name);
    ExportedIsHonest(peer, names);
    EntriesLead(db, es, name);
    forall v ensures v in vs <==> VersionAt(peer, name) == Some(v) {
      ExportOffersWhatIsHeld(peer, names, name, v);
    }
    if VersionAt(peer, name).Some? {
      assert VersionAt(peer, name).value in vs;
      RepeatedOffer(VersionAt(db, name), vs, VersionAt(peer, name).value, VersionAt(Applied(db, es), name));
    } else {
      assert vs == [] || vs[0] in vs;
    }
  }

  /** One store imports the other's export, then the other imports back. Afterwards both hold the
      same value of every category exchanged, and the same version of it unless they held one
      value under two timestamps or authors to begin with. */
  lemma ExchangeConverges(a: Db, b: Db, names: seq<Name>, name: Name)
    requires name in names && ValidName(name) && AliasesOk(a) && AliasesOk(b) && Legible(a, name) && Legible(b, name)
    ensures var b' := Applied(b, Exported(a, names));
      var a' := Applied(a, Exported(b', names));
      var left, right := VersionAt(a', name), VersionAt(b', name);
      && (left.Some? <==> name in a.rows || name in b.rows) && (right.Some? <==> left.Some?)
      && (left.Some? ==> left.value.value == right.value.value)
      && (!SameValueTwice(VersionAt(a, name), VersionAt(b, name)) ==> left == right)
  {
    var b' := Applied(b, Exported(a, names));
    ImportMoves(b, a, names, name);
    ImportMoves(a, b', names, name);
  }

  predicate SameValueTwice(v: Option<Version>, w: Option<Version>) {
    v.Some? && w.Some? && v != w && v.value.value == w.value.value
  }

  // ---------- The alias stays sound in every run ----------

  /** A sync upsert whose hash is the hash of some serialization of its value. */
  predicate HonestOp(op: Op) {
    op.Upsert? ==> Parse(op.remoteHash.of) == Some(op.value)
  }

  lemma CommitKeepsAliases(s: State, p: Pid, s': State)
    requires Inv(s) && DoCommit(s, p, s') && AliasesOk(s.db) && HonestOp(PcOf(s, p).op)
    ensures AliasesOk(s'.db)
  {
    assert Knows(s, p);
  }

  lemma {:induction false} RunKeepsAliases(states: seq<State>, events: seq<Event>, n: nat)
    requires Run(states, events) && Init(states[0]) && n <= |events|
    requires forall op :: op in CommittedOps(states, events, n) ==> HonestOp(op)
    ensures AliasesOk(states[n].db)
  {
    if n > 0 {
      var k := n - 1;
      assert forall op :: op in CommittedOps(states, events, k) ==> op in CommittedOps(states, events, n);
      RunKeepsAliases(states, events, k);
      RunKeepsInv(states, events, k);
      assert StepAt(states, events, k);
      if events[k].action.Commit? {
        assert PcOf(states[k], events[k].pid).op in CommittedOps(states, events, n);
        CommitKeepsAliases(states[k], events[k].pid, states[k + 1]);
      } else {
        OthersStutter(states[k], events[k].pid, events[k].action, states[k + 1]);
      }
    }
  }

  /** At any moment of any run, across local writes, deletes and re-creations, the store
      claims to hold a remote version only when its bytes carry that version's value. */
  lemma HoldingIsNeverWrong(states: seq<State>, events: seq<Event>, n: nat, e: SyncEntry)
    requires Run(states, events) && Init(states[0]) && n <= |events|
    requires forall op :: op in CommittedOps(states, events, n) ==> HonestOp(op)
    requires Honest(e) && Held(states[n].db, e)
    ensures ContentOf(Abs(states[n]), e.name).Some? && Parse(Abs(states[n])[e.name]) == Some(e.data)
  {
    RunKeepsAliases(states, events, n);
    HoldsMeansSameValue(states[n].db, e.name, states[n].db.rows[e.name], e.hash, e.updatedBy);
  }
}
