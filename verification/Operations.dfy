/** The mutations of the store: what each decides from the current value, the
    rows it changes, and its effect on the map from names to contents
    (src/store/mod.rs: write_with, append, delete, import_category,
    upsert_synced_category). */
module Operations {
  import opened Values
  import opened Objects
  import opened Tables
  import Log

  datatype Op =
    | Replace(name: Name, value: Json, expected: Option<Hash>, actor: string, now: int)
    | Merge(name: Name, patch: seq<Field>, expected: Option<Hash>, actor: string, now: int)
    | Append(name: Name, args: Log.AppendArgs, actor: string)
    | Delete(name: Name)
    | Import(name: Name, value: Json, actor: string, now: int)
    | Upsert(name: Name, value: Json, remoteHash: Hash, remoteAt: int, remoteBy: string)

  datatype StoreError =
    | InvalidName
    | NotFound
    | KindMismatch
    | ConcurrencyConflict(expected: Hash, actual: Hash)
    | NoRow
    | Inconsistent
    | Io
    | Aborted

  /** `validate_name`. */
  predicate ValidName(name: Name) {
    && name != ""
    && '/' !in name
    && '\\' !in name
    && !(exists i :: 0 <= i < |name| - 1 && name[i] == '.' && name[i + 1] == '.')
  }

  /** A name is refused exactly when it is empty or holds a slash, a backslash or two dots. */
  lemma NamesRefused(name: Name)
    ensures !ValidName(name) <==>
      || name == "" || (exists a: string, b: string :: name == a + "/" + b)
      || (exists a: string, b: string :: name == a + "\\" + b) || (exists a: string, b: string :: name == a + ".." + b)
  {
    if i :| 0 <= i < |name| && (name[i] == '/' || name[i] == '\\') {
      assert name == name[..i] + [name[i]] + name[i + 1..];
    }
    if i :| 0 <= i < |name| - 1 && name[i] == '.' && name[i + 1] == '.' {
      assert name == name[..i] + ".." + name[i + 2..];
    }
    forall a: string, b: string | name == a + ".." + b ensures name[|a|] == '.' && name[|a| + 1] == '.' {}
    forall a: string, b: string, c: char | name == a + [c] + b ensures c in name {
      assert name[|a|] == c;
    }
    forall a: string, b: string | name == a + "/" + b || name == a + "\\" + b ensures !ValidName(name) {
      assert name == a + ['/'] + b || name == a + ['\\'] + b;
    }
  }

  /** Top-level per-key patch; null removes the key. */
  function ApplyPatch(fields: seq<Field>, patch: seq<Field>): seq<Field>
    decreases |patch|
  {
    if patch == [] then fields
    else
      var rest, last := patch[..|patch| - 1], patch[|patch| - 1];
      var before := ApplyPatch(fields, rest);
      if last.value == Null then Drop(before, last.key) else Put(before, last.key, last.value)
  }

  function MergeBase(current: Option<Json>): seq<Field> {
    match current
    case Some(Object(fields)) => fields
    case _ => []
  }

  /** Whether the operation reads the current value under the lock. */
  predicate ReadsValue(op: Op) {
    op.Replace? || op.Merge? || op.Append?
  }

  /** The new value, from the metadata and the value read under the lock. */
  function Decide(op: Op, previous: Option<Row>, current: Option<Json>): Result<Json, StoreError>
    requires ReadsValue(op)
  {
    if op.Append? then
      match Log.AppendTo(current, op.args)
      case Ok(v) => Ok(v)
      case Err(e) => Err(if e.Panicked? then Aborted else KindMismatch)
    else if current.Some? && Log.IsLog(current.value) then Err(KindMismatch)
    else if op.expected.Some? && previous.Some? && previous.value.hash != op.expected.value then
      Err(ConcurrencyConflict(op.expected.value, previous.value.hash))
    else if op.Replace? then Ok(op.value)
    else Ok(Object(ApplyPatch(MergeBase(current), op.patch)))
  }

  predicate IsLogValue(v: Json) {
    Log.MarkedLog(v) && Log.HasEntries(v)
  }

  /** A write is refused for its kind exactly when an append meets a value that is no log or
      another write meets a log; it conflicts exactly when it expects another hash than that of
      the row it would replace, and says both. */
  lemma RefusalsExact(op: Op, previous: Option<Row>, current: Option<Json>)
    requires ReadsValue(op)
    ensures var r := Decide(op, previous, current);
      && (r == Err(KindMismatch) <==> current.Some? && (op.Append? <==> !IsLogValue(current.value)))
      && (r.Err? && r.error.ConcurrencyConflict? <==>
            && !op.Append? && !(current.Some? && IsLogValue(current.value))
            && op.expected.Some? && previous.Some? && previous.value.hash != op.expected.value)
      && (r.Err? && r.error.ConcurrencyConflict? ==>
            r.error.expected == op.expected.value && r.error.actual == previous.value.hash)
      && (r.Err? ==> r.error == KindMismatch || r.error.ConcurrencyConflict? || (op.Append? && r.error == Aborted))
  {
    if op.Append? {
      Log.AppendRefusals(current, op.args.data, Log.Effective(op.args.retention, current), op.args.stamp, Some(op.args.now));
    }
  }

  /** What a write or an append answers, from the row under the lock. */
  function Answer(op: Op, previous: Option<Row>): Result<Json, StoreError>
    requires ReadsValue(op)
  {
    var current := if previous.Some? then Parse(previous.value.hash.of) else None;
    if !ValidName(op.name) then Err(InvalidName)
    else if previous.Some? && current.None? then Err(Inconsistent)
    else Decide(op, previous, current)
  }

  /** A bad name comes first, then bytes that do not parse, then the refusals of `Decide`. */
  lemma AnswersExact(op: Op, previous: Option<Row>)
    requires ReadsValue(op)
    ensures var r := Answer(op, previous);
      var current := if previous.Some? then Parse(previous.value.hash.of) else None;
      && (r == Err(InvalidName) <==> !ValidName(op.name))
      && (r == Err(Inconsistent) <==> ValidName(op.name) && previous.Some? && current == None)
      && (r == Err(KindMismatch) <==>
            ValidName(op.name) && current.Some? && (op.Append? <==> !IsLogValue(current.value)))
      && (r.Err? && r.error.ConcurrencyConflict? <==>
            && ValidName(op.name) && !op.Append? && (previous.Some? ==> current.Some? && !IsLogValue(current.value))
            && op.expected.Some? && previous.Some? && previous.value.hash != op.expected.value)
      && (r.Err? ==> r.error.InvalidName? || r.error.Inconsistent? || r.error.KindMismatch? || r.error.ConcurrencyConflict?
                     || (op.Append? && r.error == Aborted))
  {
    if ValidName(op.name) && (previous.Some? ==> Parse(previous.value.hash.of).Some?) {
      RefusalsExact(op, previous, if previous.Some? then Parse(previous.value.hash.of) else None);
    }
  }

  // ---------- Rows ----------

  function UpsertRows(db: Db, op: Op, value: Json, max: nat): Db
    requires !op.Delete?
  {
    var hash := HashOf(Pretty(value));
    match op
    case Replace(name, _, _, actor, now) => LocalWrite(db, name, value, hash, now, actor, max)
    case Merge(name, _, _, actor, now) => LocalWrite(db, name, value, hash, now, actor, max)
    case Append(name, args, actor) => LocalWrite(db, name, value, hash, args.now, actor, max)
    case Import(name, _, actor, now) => StageRows(db, name, value, hash, now, actor)
    case Upsert(name, _, remoteHash, remoteAt, remoteBy) => SyncUpsert(db, name, value, remoteHash, remoteAt, remoteBy)
  }

  lemma UpsertRowsRow(db: Db, op: Op, value: Json, max: nat)
    requires !op.Delete?
    ensures op.name in UpsertRows(db, op, value, max).rows
    ensures var row := UpsertRows(db, op, value, max).rows[op.name];
      row.hash == HashOf(Pretty(value)) && UpsertRows(db, op, value, max).rows == db.rows[op.name := row]
  {
  }

  lemma UpsertRowsKeepsDbOk(db: Db, op: Op, value: Json, max: nat)
    requires !op.Delete? && DbOk(db) && max >= 1
    ensures DbOk(UpsertRows(db, op, value, max))
  {
    var hash := HashOf(Pretty(value));
    match op {
      case Import(name, _, actor, now) => StageRowsKeepsDbOk(db, name, value, hash, now, actor);
      case Upsert(name, _, remoteHash, remoteAt, remoteBy) =>
        SyncUpsertKeepsDbOk(db, name, value, remoteHash, remoteAt, remoteBy);
      case Replace(name, _, _, actor, now) => LocalWriteKeepsDbOk(db, name, value, hash, now, actor, max);
      case Merge(name, _, _, actor, now) => LocalWriteKeepsDbOk(db, name, value, hash, now, actor, max);
      case Append(name, args, actor) => LocalWriteKeepsDbOk(db, name, value, hash, args.now, actor, max);
    }
  }

  /** No table says anything else about the category than before. */
  predicate SameCategory(a: Db, b: Db, name: Name) {
    && RowOf(a.rows, name) == RowOf(b.rows, name)
    && IndexOf(a, name) == IndexOf(b, name) && VersionsOf(a, name) == VersionsOf(b, name)
    && (if name in a.aliases then name in b.aliases && b.aliases[name] == a.aliases[name] else name !in b.aliases)
    && (if name in a.dirty then name in b.dirty && b.dirty[name] == a.dirty[name] else name !in b.dirty)
  }

  lemma StageRowsTouchesOne(db: Db, name: Name, value: Json, hash: Hash, at: int, actor: string, other: Name)
    requires other != name
    ensures SameCategory(db, StageRows(db, name, value, hash, at, actor), other)
  {
    IndexAfter(db.index, name, value, other);
    VersionsAfter(db.versions, VersionRow(db.nextVersion, name, hash, actor), other);
  }

  lemma PruneTouchesOne(db: Db, name: Name, max: nat, other: Name)
    requires other != name
    ensures SameCategory(db, PruneVersions(db, name, max), other)
  {
    FilterFilter(VersionUnder(other), AmongNewest(db.versions, name, max), db.versions);
  }

  /** A mutation changes rows, index, versions, alias and dirty mark of its own category only. */
  lemma UpsertTouchesOneCategory(db: Db, op: Op, value: Json, max: nat, other: Name)
    requires !op.Delete? && other != op.name
    ensures SameCategory(db, UpsertRows(db, op, value, max), other)
  {
    var hash := HashOf(Pretty(value));
    if op.Import? {
      StageRowsTouchesOne(db, op.name, value, hash, op.now, op.actor, other);
    } else if op.Upsert? {
      StageRowsTouchesOne(db, op.name, value, hash, op.remoteAt, op.remoteBy, other);
    } else {
      var at := if op.Append? then op.args.now else op.now;
      var staged := StageRows(db, op.name, value, hash, at, op.actor);
      StageRowsTouchesOne(db, op.name, value, hash, at, op.actor, other);
      PruneTouchesOne(MarkDirty(staged, op.name, Upserted(hash)), op.name, max, other);
    }
  }

  lemma DeleteTouchesOneCategory(db: Db, name: Name, other: Name)
    requires other != name
    ensures SameCategory(db, DeleteRows(db, name), other)
  {
    FilterFilter(IndexedUnder(other), IndexedElsewhere(name), db.index);
    FilterFilter(VersionUnder(other), VersionElsewhere(name), db.versions);
  }

  predicate LocallyAuthored(op: Op) {
    op.Replace? || op.Merge? || op.Append?
  }

  /** When and by whom: a local operation's own time and actor, for a sync upsert the peer's. */
  predicate Signed(op: Op, at: int, author: string) {
    match op
    case Replace(_, _, _, actor, now) => at == now && author == actor
    case Merge(_, _, _, actor, now) => at == now && author == actor
    case Append(_, args, actor) => at == args.now && author == actor
    case Import(_, _, actor, now) => at == now && author == actor
    case Upsert(_, _, _, remoteAt, remoteBy) => at == remoteAt && author == remoteBy
    case Delete(_) => false
  }

  /** The row names the bytes written and carries the operation's time and author; a local upsert
      queues the new hash for the next push, an import or a sync upsert leaves the queue alone;
      only a sync upsert records an alias, the peer's hash for the hash of the local bytes. */
  lemma UpsertRowsExact(db: Db, op: Op, value: Json, max: nat)
    requires !op.Delete?
    ensures var after := UpsertRows(db, op, value, max);
      && op.name in after.rows && after.rows == db.rows[op.name := after.rows[op.name]]
      && after.rows[op.name].hash == HashOf(Pretty(value))
      && Signed(op, after.rows[op.name].updatedAt, after.rows[op.name].updatedBy)
      && after.dirty == (if LocallyAuthored(op) then db.dirty[op.name := Upserted(HashOf(Pretty(value)))] else db.dirty)
      && after.aliases == (if op.Upsert? then db.aliases[op.name := Alias(op.remoteHash, op.remoteBy, HashOf(Pretty(value)))]
                           else db.aliases)
  {
  }

  lemma LocalVersions(db: Db, name: Name, value: Json, hash: Hash, at: int, actor: string, max: nat)
    requires VersionsOrdered(db.versions, db.nextVersion)
    ensures var after := LocalWrite(db, name, value, hash, at, actor, max);
      && after.nextVersion == db.nextVersion + 1
      && VersionsOf(after, name) == LastOf(VersionsOf(db, name) + [VersionRow(db.nextVersion, name, hash, actor)], max)
  {
    var staged := MarkDirty(StageRows(db, name, value, hash, at, actor), name, Upserted(hash));
    VersionsAfter(db.versions, VersionRow(db.nextVersion, name, hash, actor), name);
    PruneKeepsTheLast(staged, name, max);
  }

  function LastOf(versions: seq<VersionRow>, max: nat): seq<VersionRow> {
    if |versions| <= max then versions else versions[|versions| - max..]
  }

  /** The versions of the category are those before and a new newest one, which carries the row's
      hash and author; a local write then drops all but the newest `max`. */
  lemma UpsertVersionsExact(db: Db, op: Op, value: Json, max: nat)
    requires !op.Delete? && VersionsOrdered(db.versions, db.nextVersion)
    ensures var after := UpsertRows(db, op, value, max);
      var row := after.rows[op.name];
      var versions := VersionsOf(db, op.name) + [VersionRow(db.nextVersion, op.name, row.hash, row.updatedBy)];
      && after.nextVersion == db.nextVersion + 1
      && VersionsOf(after, op.name) == if LocallyAuthored(op) then LastOf(versions, max) else versions
  {
    var hash := HashOf(Pretty(value));
    match op {
      case Replace(name, _, _, actor, now) => LocalVersions(db, name, value, hash, now, actor, max);
      case Merge(name, _, _, actor, now) => LocalVersions(db, name, value, hash, now, actor, max);
      case Append(name, args, actor) => LocalVersions(db, name, value, hash, args.now, actor, max);
      case Import(name, _, actor, _) => VersionsAfter(db.versions, VersionRow(db.nextVersion, name, hash, actor), name);
      case Upsert(name, _, _, _, remoteBy) =>
        VersionsAfter(db.versions, VersionRow(db.nextVersion, name, hash, remoteBy), name);
    }
  }

  /** A delete leaves no row, version, index row or alias of its category, and queues its removal
      for the next push. */
  lemma DeleteRowsExact(db: Db, name: Name)
    ensures var after := DeleteRows(db, name);
      && after.rows == db.rows - {name} && VersionsOf(after, name) == [] && IndexOf(after, name) == []
      && name !in after.aliases && after.dirty == db.dirty[name := Removed]
  {
    FilterNone(VersionUnder(name), DeleteRows(db, name).versions);
    FilterNone(IndexedUnder(name), DeleteRows(db, name).index);
  }

  // ---------- The atomic effect ----------

  function ContentOf(m: map<Name, Content>, name: Name): Option<Content> {
    if name in m then Some(m[name]) else None
  }

  /** What the operation does to its category as one atomic step: None when it is
      refused or has nothing to do, otherwise the category's content afterwards. */
  function Outcome(op: Op, before: Option<Content>): Option<Option<Content>> {
    var current := if before.Some? then Parse(before.value) else None;
    if op.Delete? then Some(None)
    else if op.Upsert? then Some(Some(Pretty(op.value)))
    else if op.Import? then (if before == Some(Pretty(op.value)) then None else Some(Some(Pretty(op.value))))
    else if before.Some? && current == None then None
    else if op.Append? then
      match Log.AppendTo(current, op.args)
      case Ok(v) => Some(Some(Pretty(v)))
      case Err(_) => None
    else if current.Some? && Log.IsLog(current.value) then None
    else if before.Some? && op.expected.Some? && op.expected.value != HashOf(before.value) then None
    else if op.Replace? then Some(Some(Pretty(op.value)))
    else Some(Some(Pretty(Object(ApplyPatch(MergeBase(current), op.patch)))))
  }

  /** The operation on the whole store; None when it changes nothing. */
  function Effect(op: Op, m: map<Name, Content>): Option<map<Name, Content>> {
    match Outcome(op, ContentOf(m, op.name))
    case None => None
    case Some(None) => Some(m - {op.name})
    case Some(Some(c)) => Some(m[op.name := c])
  }

  /** The value decided from the row and the bytes it names is the atomic outcome. */
  lemma DecideIsOutcome(op: Op, previous: Option<Row>, current: Option<Json>)
    requires ReadsValue(op)
    requires previous.Some? ==> current.Some? && current == Parse(previous.value.hash.of)
    requires previous.None? ==> current.None?
    requires Decide(op, previous, current).Ok?
    ensures Outcome(op, if previous.Some? then Some(previous.value.hash.of) else None)
            == Some(Some(Pretty(Decide(op, previous, current).value)))
  {
  }

  /** Operations committed one after the other, each on the result of the previous one. */
  function Replay(ops: seq<Op>, m: map<Name, Content>): Option<map<Name, Content>> {
    if ops == [] then Some(m)
    else
      match Replay(ops[..|ops| - 1], m)
      case None => None
      case Some(before) => Effect(ops[|ops| - 1], before)
  }

  lemma ReplayOneMore(ops: seq<Op>, op: Op, m: map<Name, Content>)
    requires Replay(ops, m).Some?
    ensures Replay(ops + [op], m) == Effect(op, Replay(ops, m).value)
  {
    var more := ops + [op];
    assert more[..|more| - 1] == ops;
  }

  // ---------- Concurrent merges keep every key ----------

  predicate Mentions(patch: seq<Field>, key: string) {
    exists i :: 0 <= i < |patch| && patch[i].key == key
  }

  /** The last mention of a key in the patch. */
  predicate LastMention(patch: seq<Field>, key: string, k: nat) {
    k < |patch| && patch[k].key == key && forall j :: k < j < |patch| ==> patch[j].key != key
  }

  lemma {:induction false} UnmentionedKey(fields: seq<Field>, patch: seq<Field>, key: string)
    requires !Mentions(patch, key)
    ensures Lookup(ApplyPatch(fields, patch), key) == Lookup(fields, key)
    decreases |patch|
  {
    if patch != [] {
      var rest, last := patch[..|patch| - 1], patch[|patch| - 1];
      assert forall i :: 0 <= i < |rest| ==> rest[i] == patch[i];
      UnmentionedKey(fields, rest, key);
      LookupDrop(ApplyPatch(fields, rest), last.key, key);
      LookupPut(ApplyPatch(fields, rest), last.key, last.value, key);
    }
  }

  lemma {:induction false} MentionedKey(fields: seq<Field>, patch: seq<Field>, key: string, k: nat)
    requires LastMention(patch, key, k)
    ensures Lookup(ApplyPatch(fields, patch), key) == if patch[k].value == Null then None else Some(patch[k].value)
    decreases |patch|
  {
    var rest, last := patch[..|patch| - 1], patch[|patch| - 1];
    if k < |patch| - 1 {
      assert forall i :: 0 <= i < |rest| ==> rest[i] == patch[i];
      MentionedKey(fields, rest, key, k);
    }
    LookupDrop(ApplyPatch(fields, rest), last.key, key);
    LookupPut(ApplyPatch(fields, rest), last.key, last.value, key);
  }

  /** A mentioned key holds what its last mention says, null meaning that it is gone; the others
      are as before. */
  lemma ApplyPatchKey(fields: seq<Field>, patch: seq<Field>, key: string)
    ensures !Mentions(patch, key) ==> Lookup(ApplyPatch(fields, patch), key) == Lookup(fields, key)
    ensures forall k: nat :: LastMention(patch, key, k) ==>
      Lookup(ApplyPatch(fields, patch), key) == if patch[k].value == Null then None else Some(patch[k].value)
  {
    if !Mentions(patch, key) {
      UnmentionedKey(fields, patch, key);
    }
    forall k: nat | LastMention(patch, key, k)
      ensures Lookup(ApplyPatch(fields, patch), key) == if patch[k].value == Null then None else Some(patch[k].value)
    {
      MentionedKey(fields, patch, key, k);
    }
  }

  lemma {:induction false} FindLastMention(patch: seq<Field>, key: string) returns (k: nat)
    requires Mentions(patch, key)
    ensures LastMention(patch, key, k)
    decreases |patch|
  {
    k := |patch| - 1;
    if patch[k].key != key {
      var rest := patch[..k];
      var i :| 0 <= i < |patch| && patch[i].key == key;
      assert rest[i] == patch[i];
      var last := k;
      k := FindLastMention(rest, key);
      assert patch[last].key != key && forall j :: 0 <= j < last ==> patch[j] == rest[j];
    }
  }

  /** Patching keeps members in order, each key at most once, all the way down. */
  lemma {:induction false} ApplyPatchCanonical(fields: seq<Field>, patch: seq<Field>)
    requires Canonical(Object(fields)) && forall i :: 0 <= i < |patch| ==> Canonical(patch[i].value)
    ensures Canonical(Object(ApplyPatch(fields, patch)))
    decreases |patch|
  {
    if patch != [] {
      var rest, last := patch[..|patch| - 1], patch[|patch| - 1];
      assert forall i :: 0 <= i < |rest| ==> rest[i] == patch[i];
      ApplyPatchCanonical(fields, rest);
      PutCanonical(ApplyPatch(fields, rest), last.key, last.value);
      DropCanonical(ApplyPatch(fields, rest), last.key);
    }
  }

  function KeyIn(m: map<Name, Content>, name: Name, key: string): Option<Json> {
    if name in m && Parse(m[name]).Some? then Get(Parse(m[name]).value, key) else None
  }

  /** A merge that commits leaves every key it does not mention as it was. */
  lemma MergeEffectKey(op: Op, m: map<Name, Content>, key: string)
    requires op.Merge? && Effect(op, m).Some?
    ensures var after := KeyIn(Effect(op, m).value, op.name, key);
      && (!Mentions(op.patch, key) ==> after == KeyIn(m, op.name, key))
      && (forall k: nat :: LastMention(op.patch, key, k) ==>
            after == if op.patch[k].value == Null then None else Some(op.patch[k].value))
  {
    var current := if op.name in m then Parse(m[op.name]) else None;
    ApplyPatchKey(MergeBase(current), op.patch, key);
  }

  /** Merges of one category: a key patched by operation `i` and by no later one holds
      exactly what operation `i` put there, whatever the other merges patched. */
  lemma {:induction false} MergesSurvive(ops: seq<Op>, m: map<Name, Content>, name: Name, i: nat, key: string, k: nat)
    requires Replay(ops, m).Some? && i < |ops|
    requires ops[i].Merge? && ops[i].name == name && LastMention(ops[i].patch, key, k)
    requires forall j :: i < j < |ops| && ops[j].name == name ==> ops[j].Merge? && !Mentions(ops[j].patch, key)
    ensures KeyIn(Replay(ops, m).value, name, key) ==
            if ops[i].patch[k].value == Null then None else Some(ops[i].patch[k].value)
    decreases |ops|
  {
    var init, last := ops[..|ops| - 1], ops[|ops| - 1];
    var before := Replay(init, m).value;
    if i == |ops| - 1 {
      MergeEffectKey(last, before, key);
    } else {
      assert forall j :: 0 <= j < |init| ==> init[j] == ops[j];
      MergesSurvive(init, m, name, i, key, k);
      if last.name == name {
        MergeEffectKey(last, before, key);
      }
    }
  }

  // ---------- What each operation leaves behind ----------

  function ValueIn(content: Option<Content>): Option<Json> {
    if content.Some? then Parse(content.value) else None
  }

  function MemberOf(v: Option<Json>, key: string): Option<Json> {
    if v.Some? then Get(v.value, key) else None
  }

  /** An object with the patched members, and the members of the value before under all other keys. */
  ghost predicate MergedInto(before: Option<Json>, patch: seq<Field>, after: Json) {
    && after.Object?
    && (forall key :: !Mentions(patch, key) ==> Get(after, key) == MemberOf(before, key))
    && (forall key, k: nat :: LastMention(patch, key, k) ==>
          Get(after, key) == if patch[k].value == Null then None else Some(patch[k].value))
  }

  /** What a committed operation leaves in its category. */
  ghost predicate Leaves(op: Op, before: Option<Content>, after: Option<Content>) {
    match op
    case Replace(_, value, _, _, _) => after == Some(Pretty(value))
    case Merge(_, patch, _, _, _) =>
      after.Some? && after.value.Pretty? && MergedInto(ValueIn(before), patch, after.value.value)
    case Append(_, args, _) =>
      after.Some? && after.value.Pretty? && Log.AppendedTo(ValueIn(before), args, after.value.value)
    case Delete(_) => after == None
    case Import(_, value, _, _) => after == Some(Pretty(value))
    case Upsert(_, value, _, _, _) => after == Some(Pretty(value))
  }

  lemma OutcomeLeaves(op: Op, before: Option<Content>)
    requires Outcome(op, before).Some?
    ensures Leaves(op, before, Outcome(op, before).value)
  {
    if op.Append? {
      Log.AppendLeaves(ValueIn(before), op.args);
    } else if op.Merge? {
      forall key
        ensures !Mentions(op.patch, key) ==> Lookup(ApplyPatch(MergeBase(ValueIn(before)), op.patch), key) == MemberOf(ValueIn(before), key)
        ensures forall k: nat :: LastMention(op.patch, key, k) ==>
          Lookup(ApplyPatch(MergeBase(ValueIn(before)), op.patch), key)
          == if op.patch[k].value == Null then None else Some(op.patch[k].value)
      {
        ApplyPatchKey(MergeBase(ValueIn(before)), op.patch, key);
      }
    }
  }

  /** When an operation is refused or finds nothing to do. */
  predicate Refuses(op: Op, before: Option<Content>) {
    match op
    case Replace(_, _, expected, _, _) => RefusesWrite(before, expected)
    case Merge(_, _, expected, _, _) => RefusesWrite(before, expected)
    case Append(_, args, _) =>
      || (before.Some? && !(ValueIn(before).Some? && IsLogValue(ValueIn(before).value)))
      || (var days := Log.Effective(args.retention, ValueIn(before)).maxAgeDays;
          days.Some? && Log.OffCalendar(days.value, args.now))
    case Delete(_) => false
    case Import(_, value, _, _) => before == Some(Pretty(value))
    case Upsert(_, _, _, _, _) => false
  }

  /** Bytes that do not parse, a log, or other bytes than expected. */
  predicate RefusesWrite(before: Option<Content>, expected: Option<Hash>) {
    before.Some? &&
      (ValueIn(before) == None || IsLogValue(ValueIn(before).value) || (expected.Some? && expected.value.of != before.value))
  }

  lemma OutcomeRefuses(op: Op, before: Option<Content>)
    ensures Outcome(op, before) == None <==> Refuses(op, before)
  {
    if op.Append? && (before.Some? ==> ValueIn(before).Some?) {
      var current := ValueIn(before);
      Log.AppendRefusals(current, op.args.data, Log.Effective(op.args.retention, current), op.args.stamp, Some(op.args.now));
    }
  }

  /** One operation on the whole store: refused exactly as listed, otherwise it leaves in its own
      category what it should and every other category as it was. */
  lemma EffectExact(op: Op, m: map<Name, Content>)
    ensures Effect(op, m) == None <==> Refuses(op, ContentOf(m, op.name))
    ensures Effect(op, m).Some? ==>
      && Leaves(op, ContentOf(m, op.name), ContentOf(Effect(op, m).value, op.name))
      && forall n :: n != op.name ==> ContentOf(Effect(op, m).value, n) == ContentOf(m, n)
  {
    OutcomeRefuses(op, ContentOf(m, op.name));
    if Outcome(op, ContentOf(m, op.name)).Some? {
      OutcomeLeaves(op, ContentOf(m, op.name));
    }
  }

  // ---------- Members stay in order ----------

  /** What the callers hand in has its members in order. */
  predicate CanonicalOp(op: Op) {
    match op
    case Replace(_, value, _, _, _) => Canonical(value)
    case Merge(_, patch, _, _, _) => forall i :: 0 <= i < |patch| ==> Canonical(patch[i].value)
    case Append(_, args, _) => Canonical(args.data)
    case Delete(_) => true
    case Import(_, value, _, _) => Canonical(value)
    case Upsert(_, value, _, _, _) => Canonical(value)
  }

  predicate CanonicalContent(content: Option<Content>) {
    content.Some? ==> content.value.Pretty? && Canonical(content.value.value)
  }

  lemma OutcomeCanonical(op: Op, before: Option<Content>)
    requires CanonicalOp(op) && CanonicalContent(before) && Outcome(op, before).Some?
    ensures CanonicalContent(Outcome(op, before).value)
  {
    if op.Merge? {
      ApplyPatchCanonical(MergeBase(ValueIn(before)), op.patch);
    } else if op.Append? {
      Log.AppendCanonical(ValueIn(before), op.args);
    }
  }

  predicate CanonicalStore(m: map<Name, Content>) {
    forall n :: n in m ==> CanonicalContent(Some(m[n]))
  }

  /** Whatever is committed, every object in every category keeps its members in order, each key
      at most once. */
  lemma {:induction false} ReplayCanonical(ops: seq<Op>, m: map<Name, Content>)
    requires Replay(ops, m).Some? && CanonicalStore(m) && forall i :: 0 <= i < |ops| ==> CanonicalOp(ops[i])
    ensures CanonicalStore(Replay(ops, m).value)
  {
    if ops != [] {
      var init, last := ops[..|ops| - 1], ops[|ops| - 1];
      assert forall j :: 0 <= j < |init| ==> init[j] == ops[j];
      ReplayCanonical(init, m);
      OutcomeCanonical(last, ContentOf(Replay(init, m).value, last.name));
    }
  }

  /** A merged object is the only one with its members in order and these values under its keys. */
  lemma MergedIsUnique(before: Option<Json>, patch: seq<Field>, a: Json, b: Json)
    requires MergedInto(before, patch, a) && MergedInto(before, patch, b)
    requires Ascending(a.fields) && Ascending(b.fields)
    ensures a == b
  {
    forall key ensures Lookup(a.fields, key) == Lookup(b.fields, key) {
      assert Get(a, key) == Get(b, key) by {
        if Mentions(patch, key) {
          var k := FindLastMention(patch, key);
        }
      }
    }
    SameMembersSameObject(a.fields, b.fields);
  }

  // ---------- Concurrent appends keep every entry ----------

  /** The appends to one category among the committed operations. */
  function AppendsTo(ops: seq<Op>, name: Name): seq<Log.AppendArgs> {
    if ops == [] then []
    else
      var last := ops[|ops| - 1];
      AppendsTo(ops[..|ops| - 1], name) + if last.Append? && last.name == name then [last.args] else []
  }

  predicate OnlyAppends(ops: seq<Op>, name: Name) {
    forall i :: 0 <= i < |ops| && ops[i].name == name ==> ops[i].Append?
  }

  /** The category holds the log of these appends, or nothing when there are none. */
  predicate HoldsAppends(m: map<Name, Content>, name: Name, appends: seq<Log.AppendArgs>) {
    match Log.AppendAll(appends)
    case Err(_) => false
    case Ok(v) => ContentOf(m, name) == if v.None? then None else Some(Pretty(v.value))
  }

  lemma AppendHoldsOneMore(op: Op, m: map<Name, Content>, appends: seq<Log.AppendArgs>)
    requires op.Append? && Effect(op, m).Some? && HoldsAppends(m, op.name, appends)
    ensures HoldsAppends(Effect(op, m).value, op.name, appends + [op.args])
  {
    var more := appends + [op.args];
    assert more[..|more| - 1] == appends;
  }

  /** Whatever else is committed around them, the appends to a category that did not
      exist build the log of those appends in commit order. */
  lemma {:induction false} AppendsAreReplayed(ops: seq<Op>, m: map<Name, Content>, name: Name)
    requires Replay(ops, m).Some? && name !in m && OnlyAppends(ops, name)
    ensures HoldsAppends(Replay(ops, m).value, name, AppendsTo(ops, name))
    decreases |ops|
  {
    if ops == [] {
      assert Log.AppendAll([]) == Ok(None);
    } else {
      var init, last := ops[..|ops| - 1], ops[|ops| - 1];
      assert forall j :: 0 <= j < |init| ==> init[j] == ops[j];
      AppendsAreReplayed(init, m, name);
      if last.name == name {
        AppendHoldsOneMore(last, Replay(init, m).value, AppendsTo(init, name));
      } else {
        assert AppendsTo(ops, name) == AppendsTo(init, name);
      }
    }
  }

  // ---------- Categories deleted and created again ----------

  /** The operations after the last committed delete of the category; all of them if it was
      never deleted. */
  function SinceDelete(ops: seq<Op>, name: Name): seq<Op> {
    if ops == [] then []
    else
      var last := ops[|ops| - 1];
      if last.Delete? && last.name == name then [] else SinceDelete(ops[..|ops| - 1], name) + [last]
  }

  /** Those operations start from a store without the category and reach the same contents. */
  lemma {:induction false} SinceDeleteReplays(ops: seq<Op>, m: map<Name, Content>, name: Name) returns (start: map<Name, Content>)
    requires Replay(ops, m).Some? && name !in m
    ensures name !in start && Replay(SinceDelete(ops, name), start) == Replay(ops, m)
    decreases |ops|
  {
    start := m;
    if ops != [] {
      var init, last := ops[..|ops| - 1], ops[|ops| - 1];
      if last.Delete? && last.name == name {
        start := Replay(ops, m).value;
      } else {
        start := SinceDeleteReplays(init, m, name);
        ReplayOneMore(SinceDelete(init, name), last, start);
      }
    }
  }

  /** The appends committed since the category was last created. */
  function AppendsSince(ops: seq<Op>, name: Name): seq<Log.AppendArgs> {
    AppendsTo(SinceDelete(ops, name), name)
  }

  /** Since its last delete the category has only been appended to. */
  predicate LogSinceDelete(ops: seq<Op>, name: Name) {
    OnlyAppends(SinceDelete(ops, name), name)
  }

  lemma AppendsSinceAreReplayed(ops: seq<Op>, m: map<Name, Content>, name: Name)
    requires Replay(ops, m).Some? && name !in m && LogSinceDelete(ops, name)
    ensures HoldsAppends(Replay(ops, m).value, name, AppendsSince(ops, name))
  {
    var start := SinceDeleteReplays(ops, m, name);
    AppendsAreReplayed(SinceDelete(ops, name), start, name);
  }

  /** Every append committed to a fresh category keeps its own id forever: the log holds
      entries made by the appends their ids count, in order, down to the newest, each with its
      payload. */
  lemma CommittedLogIds(ops: seq<Op>, m: map<Name, Content>, name: Name)
    requires Replay(ops, m).Some? && name !in m && LogSinceDelete(ops, name)
    requires 0 < |AppendsSince(ops, name)| <= TWO_64
    requires forall a :: a in AppendsSince(ops, name) ==> Log.OverrideInRange(a)
    ensures var after := Replay(ops, m).value;
      name in after && Parse(after[name]).Some? && Log.IsLog(Parse(after[name]).value)
      && Log.FromHistory(Log.Entries(Parse(after[name]).value), AppendsSince(ops, name))
  {
    AppendsSinceAreReplayed(ops, m, name);
    Log.LogIds(AppendsSince(ops, name));
  }

  /** Under one retention policy since it was last created, a category holds exactly the entries
      of the committed appends that are within both caps, from the first of these on. */
  lemma CommittedLogWindow(ops: seq<Op>, m: map<Name, Content>, name: Name, r: Log.Retention) returns (from: nat)
    requires Replay(ops, m).Some? && name !in m && LogSinceDelete(ops, name)
    requires var appends := AppendsSince(ops, name);
      && 0 < |appends| <= TWO_64 && Log.FixedPolicy(appends, r) && r != Log.Retention(None, None)
      && Log.AgeInRange(r) && Log.InOrder(appends, r)
    ensures var after := ContentOf(Replay(ops, m).value, name);
      && after.Some? && Parse(after.value).Some?
      && Log.FromFirstKept(AppendsSince(ops, name), r, from)
      && Log.IsWindow(Log.Entries(Parse(after.value).value), AppendsSince(ops, name), from)
  {
    AppendsSinceAreReplayed(ops, m, name);
    from := Log.RetentionWindow(AppendsSince(ops, name), r);
  }
}
