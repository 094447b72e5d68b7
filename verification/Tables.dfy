/** The SQLite tables and the row changes of each mutation (src/store/mod.rs).

  A transaction works on a value of type `Db`; COMMIT makes that value the
  committed one. Row timestamps are ranks in the order the program compares
  them in. */
module Tables {
  import opened Values
  import opened SearchIndex

  type Name = string

  datatype Row = Row(hash: Hash, updatedAt: int, updatedBy: string)

  datatype VersionRow = VersionRow(id: nat, category: Name, hash: Hash, actor: string)

  /** The `remote_hash:<name>` entry of `sync_state`. */
  datatype Alias = Alias(remoteHash: Hash, remoteBy: string, physicalHash: Hash)

  datatype DirtyMark = Upserted(hash: Hash) | Removed

  datatype Db = Db(
    rows: map<Name, Row>,
    versions: seq<VersionRow>,
    nextVersion: nat,
    index: seq<IndexRow>,
    aliases: map<Name, Alias>,
    dirty: map<Name, DirtyMark>)

  const EMPTY_DB := Db(map[], [], 0, [], map[], map[])

  function RowOf(rows: map<Name, Row>, name: Name): Option<Row> {
    if name in rows then Some(rows[name]) else None
  }

  function IndexedUnder(name: Name): IndexRow -> bool {
    (r: IndexRow) => r.category == name
  }

  function IndexedElsewhere(name: Name): IndexRow -> bool {
    (r: IndexRow) => r.category != name
  }

  function VersionUnder(name: Name): VersionRow -> bool {
    (v: VersionRow) => v.category == name
  }

  function VersionElsewhere(name: Name): VersionRow -> bool {
    (v: VersionRow) => v.category != name
  }

  function NewerThan(name: Name, id: nat): VersionRow -> bool {
    (v: VersionRow) => v.category == name && id < v.id
  }

  function IndexOf(db: Db, name: Name): seq<IndexRow> {
    Filter(IndexedUnder(name), db.index)
  }

  /** Oldest first. */
  function VersionsOf(db: Db, name: Name): seq<VersionRow> {
    Filter(VersionUnder(name), db.versions)
  }

  function Newest(db: Db, name: Name): Option<VersionRow> {
    var vs := VersionsOf(db, name);
    if vs == [] then None else Some(vs[|vs| - 1])
  }

  // ---------- Row changes ----------

  function Reindex(index: seq<IndexRow>, name: Name, value: Json): seq<IndexRow> {
    Filter(IndexedElsewhere(name), index) + RowsOf(name, Flatten("", value))
  }

  /** Category row, version row and search index of every upsert (`stage_rows`). */
  function StageRows(db: Db, name: Name, value: Json, hash: Hash, updatedAt: int, updatedBy: string): Db {
    db.(rows := db.rows[name := Row(hash, updatedAt, updatedBy)],
        versions := db.versions + [VersionRow(db.nextVersion, name, hash, updatedBy)],
        nextVersion := db.nextVersion + 1,
        index := Reindex(db.index, name, value))
  }

  function MarkDirty(db: Db, name: Name, mark: DirtyMark): Db {
    db.(dirty := db.dirty[name := mark])
  }

  function ClearDirty(db: Db, name: Name): Db {
    db.(dirty := db.dirty - {name})
  }

  /** A version row survives pruning if fewer than `max` rows of its category are newer. */
  function AmongNewest(versions: seq<VersionRow>, name: Name, max: nat): VersionRow -> bool {
    (v: VersionRow) => v.category == name ==> |Filter(NewerThan(name, v.id), versions)| < max
  }

  function PruneVersions(db: Db, name: Name, max: nat): Db {
    db.(versions := Filter(AmongNewest(db.versions, name, max), db.versions))
  }

  /** `stage_local_write`: a locally authored upsert. */
  function LocalWrite(db: Db, name: Name, value: Json, hash: Hash, updatedAt: int, updatedBy: string, max: nat): Db {
    PruneVersions(MarkDirty(StageRows(db, name, value, hash, updatedAt, updatedBy), name, Upserted(hash)), name, max)
  }

  function DeleteRows(db: Db, name: Name): Db {
    Db(db.rows - {name},
       Filter(VersionElsewhere(name), db.versions),
       db.nextVersion,
       Filter(IndexedElsewhere(name), db.index),
       db.aliases - {name},
       db.dirty[name := Removed])
  }

  /** `upsert_synced_category`: the row keeps the hash of the local bytes, the
      peer's hash is remembered beside it. */
  function SyncUpsert(db: Db, name: Name, value: Json, remoteHash: Hash, remoteAt: int, remoteBy: string): Db {
    var physical := HashOf(Pretty(value));
    var staged := StageRows(db, name, value, physical, remoteAt, remoteBy);
    staged.(aliases := staged.aliases[name := Alias(remoteHash, remoteBy, physical)])
  }

  /** Whether the local bytes are the remote version named by (hash, device). */
  predicate HoldsRemoteVersion(db: Db, name: Name, local: Row, remoteHash: Hash, remoteBy: string) {
    || local.hash == remoteHash
    || (name in db.aliases && db.aliases[name] == Alias(remoteHash, remoteBy, local.hash))
  }

  // ---------- Derived data agrees with the committed contents ----------

  predicate VersionsOrdered(versions: seq<VersionRow>, next: nat) {
    && (forall i :: 0 <= i < |versions| ==> versions[i].id < next)
    && (forall i, j :: 0 <= i < j < |versions| ==> versions[i].id < versions[j].id)
  }

  /** Index and newest version of one category against its row. */
  predicate DerivedOk(db: Db, name: Name) {
    if name in db.rows then
      && Parse(db.rows[name].hash.of).Some?
      && IndexOf(db, name) == RowsOf(name, Flatten("", Parse(db.rows[name].hash.of).value))
      && Newest(db, name).Some? && Newest(db, name).value.hash == db.rows[name].hash
    else
      IndexOf(db, name) == [] && VersionsOf(db, name) == []
  }

  ghost predicate DbOk(db: Db) {
    && VersionsOrdered(db.versions, db.nextVersion)
    && (forall n :: DerivedOk(db, n))
  }

  lemma IndexAfter(index: seq<IndexRow>, name: Name, value: Json, n: Name)
    ensures Filter(IndexedUnder(n), Reindex(index, name, value)) ==
            if n == name then RowsOf(name, Flatten("", value)) else Filter(IndexedUnder(n), index)
  {
    var rows := RowsOf(name, Flatten("", value));
    var rest := Filter(IndexedElsewhere(name), index);
    FilterConcat(IndexedUnder(n), rest, rows);
    assert forall r :: r in rows ==> r.category == name;
    if n == name {
      FilterNone(IndexedUnder(n), rest);
      FilterAll(IndexedUnder(n), rows);
    } else {
      FilterFilter(IndexedUnder(n), IndexedElsewhere(name), index);
      FilterNone(IndexedUnder(n), rows);
    }
  }

  lemma VersionsAfter(versions: seq<VersionRow>, added: VersionRow, n: Name)
    ensures Filter(VersionUnder(n), versions + [added]) ==
            Filter(VersionUnder(n), versions) + if added.category == n then [added] else []
  {
    FilterConcat(VersionUnder(n), versions, [added]);
    assert Filter(VersionUnder(n), [added]) == if added.category == n then [added] else [];
  }

  lemma StageRowsKeepsDbOk(db: Db, name: Name, value: Json, hash: Hash, updatedAt: int, updatedBy: string)
    requires DbOk(db) && Parse(hash.of) == Some(value)
    ensures DbOk(StageRows(db, name, value, hash, updatedAt, updatedBy))
  {
    var after := StageRows(db, name, value, hash, updatedAt, updatedBy);
    forall n ensures DerivedOk(after, n) {
      assert DerivedOk(db, n);
      IndexAfter(db.index, name, value, n);
      VersionsAfter(db.versions, VersionRow(db.nextVersion, name, hash, updatedBy), n);
    }
  }

  lemma DeleteRowsKeepsDbOk(db: Db, name: Name)
    requires DbOk(db)
    ensures DbOk(DeleteRows(db, name))
  {
    var after := DeleteRows(db, name);
    FilterVersionsOrdered(VersionElsewhere(name), db.versions, db.nextVersion);
    forall n ensures DerivedOk(after, n) {
      assert DerivedOk(db, n);
      if n == name {
        FilterNone(IndexedUnder(n), after.index);
        FilterNone(VersionUnder(n), after.versions);
      } else {
        FilterFilter(IndexedUnder(n), IndexedElsewhere(name), db.index);
        FilterFilter(VersionUnder(n), VersionElsewhere(name), db.versions);
      }
    }
  }

  predicate OrderedFrom(versions: seq<VersionRow>, low: int, next: nat) {
    && (forall i :: 0 <= i < |versions| ==> low < versions[i].id < next)
    && (forall i, j :: 0 <= i < j < |versions| ==> versions[i].id < versions[j].id)
  }

  lemma OrderedCons(first: VersionRow, rest: seq<VersionRow>, low: int, next: nat)
    requires low < first.id < next && OrderedFrom(rest, first.id, next)
    ensures OrderedFrom([first] + rest, low, next)
  {
  }

  lemma OrderedTail(versions: seq<VersionRow>, low: int, next: nat)
    requires versions != [] && OrderedFrom(versions, low, next)
    ensures OrderedFrom(versions[1..], versions[0].id, next)
  {
    var rest := versions[1..];
    assert forall i :: 0 <= i < |rest| ==> rest[i] == versions[i + 1];
  }

  lemma {:induction false} FilterOrdered(p: VersionRow -> bool, versions: seq<VersionRow>, low: int, next: nat)
    requires OrderedFrom(versions, low, next)
    ensures OrderedFrom(Filter(p, versions), low, next)
  {
    if versions != [] {
      OrderedTail(versions, low, next);
      FilterOrdered(p, versions[1..], versions[0].id, next);
      if p(versions[0]) {
        OrderedCons(versions[0], Filter(p, versions[1..]), low, next);
      }
    }
  }

  lemma FilterVersionsOrdered(p: VersionRow -> bool, versions: seq<VersionRow>, next: nat)
    requires VersionsOrdered(versions, next)
    ensures VersionsOrdered(Filter(p, versions), next)
  {
    assert OrderedFrom(versions, -1, next);
    FilterOrdered(p, versions, -1, next);
  }

  lemma NewerVersions(db: Db, name: Name, i: nat)
    requires VersionsOrdered(db.versions, db.nextVersion) && i < |VersionsOf(db, name)|
    ensures Filter(NewerThan(name, VersionsOf(db, name)[i].id), db.versions) == VersionsOf(db, name)[i + 1..]
  {
    var vs := VersionsOf(db, name);
    FilterVersionsOrdered(VersionUnder(name), db.versions, db.nextVersion);
    FilterFilter(NewerThan(name, vs[i].id), VersionUnder(name), db.versions);
    forall j | 0 <= j < |vs| ensures NewerThan(name, vs[i].id)(vs[j]) <==> i + 1 <= j {
      assert vs[j] in vs;
    }
    FilterSuffix(NewerThan(name, vs[i].id), vs, i + 1);
  }

  /** Pruning keeps exactly the newest `max` versions of the category, in order. */
  lemma PruneKeepsTheLast(db: Db, name: Name, max: nat)
    requires VersionsOrdered(db.versions, db.nextVersion)
    ensures var vs := VersionsOf(db, name);
      VersionsOf(PruneVersions(db, name, max), name) == if |vs| <= max then vs else vs[|vs| - max..]
  {
    var keep := AmongNewest(db.versions, name, max);
    var vs := VersionsOf(db, name);
    FilterSwap(VersionUnder(name), keep, db.versions);
    var k := if |vs| <= max then 0 else |vs| - max;
    forall i | 0 <= i < |vs| ensures keep(vs[i]) <==> k <= i {
      assert vs[i] in vs;
      NewerVersions(db, name, i);
    }
    FilterSuffix(keep, vs, k);
  }

  /** The newest version row of a category survives pruning exactly when max is at least 1. */
  lemma PruneKeepsNewest(db: Db, name: Name, max: nat)
    requires VersionsOrdered(db.versions, db.nextVersion) && VersionsOf(db, name) != []
    ensures Newest(PruneVersions(db, name, max), name) == if max >= 1 then Newest(db, name) else None
  {
    PruneKeepsTheLast(db, name, max);
  }

  lemma PruneVersionsKeepsDbOk(db: Db, name: Name, max: nat)
    requires DbOk(db) && max >= 1
    ensures DbOk(PruneVersions(db, name, max))
  {
    var after := PruneVersions(db, name, max);
    FilterVersionsOrdered(AmongNewest(db.versions, name, max), db.versions, db.nextVersion);
    forall n ensures DerivedOk(after, n) {
      assert DerivedOk(db, n);
      if n != name {
        FilterFilter(VersionUnder(n), AmongNewest(db.versions, name, max), db.versions);
      } else if VersionsOf(db, name) != [] {
        PruneKeepsNewest(db, name, max);
      } else {
        FilterSwap(VersionUnder(name), AmongNewest(db.versions, name, max), db.versions);
      }
    }
  }

  lemma SameTablesDbOk(db: Db, after: Db)
    requires DbOk(db)
    requires after.rows == db.rows && after.versions == db.versions && after.index == db.index
    requires after.nextVersion == db.nextVersion
    ensures DbOk(after)
  {
    forall n ensures DerivedOk(after, n) {
      assert DerivedOk(db, n);
    }
  }

  lemma LocalWriteKeepsDbOk(db: Db, name: Name, value: Json, hash: Hash, at: int, actor: string, max: nat)
    requires DbOk(db) && Parse(hash.of) == Some(value) && max >= 1
    ensures DbOk(LocalWrite(db, name, value, hash, at, actor, max))
  {
    var staged := StageRows(db, name, value, hash, at, actor);
    StageRowsKeepsDbOk(db, name, value, hash, at, actor);
    SameTablesDbOk(staged, MarkDirty(staged, name, Upserted(hash)));
    PruneVersionsKeepsDbOk(MarkDirty(staged, name, Upserted(hash)), name, max);
  }

  lemma SyncUpsertKeepsDbOk(db: Db, name: Name, value: Json, remoteHash: Hash, at: int, actor: string)
    requires DbOk(db)
    ensures DbOk(SyncUpsert(db, name, value, remoteHash, at, actor))
  {
    var physical := HashOf(Pretty(value));
    StageRowsKeepsDbOk(db, name, value, physical, at, actor);
    SameTablesDbOk(StageRows(db, name, value, physical, at, actor), SyncUpsert(db, name, value, remoteHash, at, actor));
  }

  lemma EmptyDbOk()
    ensures DbOk(EMPTY_DB)
  {
  }

  // ---------- The hash alias ----------

  /** Every recorded alias relates two serializations of one value. */
  predicate AliasesOk(db: Db) {
    forall n :: n in db.aliases ==>
      Parse(db.aliases[n].remoteHash.of).Some?
      && Parse(db.aliases[n].remoteHash.of) == Parse(db.aliases[n].physicalHash.of)
  }

  /** A positive answer means the local bytes carry the value of the remote version. */
  lemma HoldsMeansSameValue(db: Db, name: Name, local: Row, remoteHash: Hash, remoteBy: string)
    requires AliasesOk(db) && HoldsRemoteVersion(db, name, local, remoteHash, remoteBy)
    ensures Parse(local.hash.of) == Parse(remoteHash.of)
  {
  }
}
