/** The commit protocol refines an atomic map from names to contents, and what
    readers, compare-and-swap writers, snapshots and recovery get from that. */
module Refinement {
  import opened Values
  import opened Tables
  import opened FileStore
  import opened Operations
  import opened Protocol
  import opened ProtocolInvariant
  import opened SearchIndex
  import Log

  /** The abstract store: every committed name with the content its row names. */
  function Abs(s: State): map<Name, Content> {
    Contents(s.db.rows)
  }

  // ---------- Every step ----------

  lemma UpsertContents(rows: map<Name, Row>, name: Name, row: Row)
    ensures Contents(rows[name := row]) == Contents(rows)[name := row.hash.of]
  {
  }

  lemma DeleteContents(rows: map<Name, Row>, name: Name)
    ensures Contents(rows - {name}) == Contents(rows) - {name}
  {
  }

  /** COMMIT applies the operation to the value current at that moment. */
  lemma CommitIsAtomic(s: State, p: Pid, s': State)
    requires Inv(s) && DoCommit(s, p, s')
    ensures Effect(PcOf(s, p).op, Abs(s)) == Some(Abs(s'))
  {
    var pc := PcOf(s, p);
    assert Knows(s, p);
    if pc.op.Delete? {
      DeleteContents(s.db.rows, pc.op.name);
    } else {
      UpsertRowsRow(s.db, pc.op, pc.written.value, s.maxVersions);
      UpsertContents(s.db.rows, pc.op.name, pc.db.rows[pc.op.name]);
    }
  }

  /** COMMIT leaves in the operation's category what the operation should, told from the content
      current at that moment, and every other category as it was. */
  lemma CommitLeaves(s: State, p: Pid, s': State)
    requires Inv(s) && DoCommit(s, p, s')
    ensures var op := PcOf(s, p).op;
      && !Refuses(op, ContentOf(Abs(s), op.name))
      && Leaves(op, ContentOf(Abs(s), op.name), ContentOf(Abs(s'), op.name))
      && forall n :: n != op.name ==> ContentOf(Abs(s'), n) == ContentOf(Abs(s), n)
  {
    CommitIsAtomic(s, p, s');
    EffectExact(PcOf(s, p).op, Abs(s));
  }

  /** The row committed names the committed bytes and carries the operation's time and author, the
      newest version its hash and author; a delete leaves neither and is queued for the next push,
      as is the new hash of a local write. */
  lemma CommitRecords(s: State, p: Pid, s': State)
    requires Inv(s) && DoCommit(s, p, s') && s.maxVersions >= 1
    ensures var op, db := PcOf(s, p).op, s'.db;
      if op.Delete? then
        && op.name !in db.rows && VersionsOf(db, op.name) == [] && IndexOf(db, op.name) == []
        && op.name !in db.aliases && op.name in db.dirty && db.dirty[op.name] == Removed
      else
        && op.name in db.rows && Signed(op, db.rows[op.name].updatedAt, db.rows[op.name].updatedBy)
        && Newest(db, op.name) ==
             Some(VersionRow(s.db.nextVersion, op.name, db.rows[op.name].hash, db.rows[op.name].updatedBy))
        && (LocallyAuthored(op) ==> op.name in db.dirty && db.dirty[op.name] == Upserted(db.rows[op.name].hash))
        && (!LocallyAuthored(op) ==> db.dirty == s.db.dirty)
  {
    var pc := PcOf(s, p);
    assert Knows(s, p);
    if pc.op.Delete? {
      DeleteRowsExact(s.db, pc.op.name);
    } else {
      UpsertRowsExact(s.db, pc.op, pc.written.value, s.maxVersions);
      UpsertVersionsExact(s.db, pc.op, pc.written.value, s.maxVersions);
    }
  }

  /** Every other step leaves all the tables as they are. */
  lemma OthersStutter(s: State, p: Pid, a: Action, s': State)
    requires Step(s, p, a, s') && !a.Commit?
    ensures s'.db == s.db
  {
  }

  /** COMMIT changes, in every table, what is said about its own category only. */
  lemma CommitTouchesOneCategory(s: State, p: Pid, s': State, other: Name)
    requires Inv(s) && DoCommit(s, p, s') && other != PcOf(s, p).op.name
    ensures SameCategory(s.db, s'.db, other)
  {
    var pc := PcOf(s, p);
    assert Knows(s, p);
    if pc.op.Delete? {
      DeleteTouchesOneCategory(s.db, pc.op.name, other);
    } else {
      UpsertTouchesOneCategory(s.db, pc.op, pc.written.value, s.maxVersions, other);
    }
  }

  // ---------- Every run ----------

  /** The operations committed by the first `n` events, in commit order. */
  function CommittedOps(states: seq<State>, events: seq<Event>, n: nat): seq<Op>
    requires n <= |events| && n <= |states|
  {
    if n == 0 then []
    else CommittedOps(states, events, n - 1) + CommittedBy(states[n - 1], events[n - 1])
  }

  function CommittedBy(s: State, e: Event): seq<Op> {
    if e.action.Commit? && PcOf(s, e.pid).Changed? then [PcOf(s, e.pid).op] else []
  }

  /** One step: the committed map moves by the operation committed, if any. */
  lemma StepRefinesAtomicMap(s: State, e: Event, s': State)
    requires Inv(s) && Step(s, e.pid, e.action, s')
    ensures if CommittedBy(s, e) == [] then Abs(s') == Abs(s)
            else Effect(CommittedBy(s, e)[0], Abs(s)) == Some(Abs(s'))
  {
    if e.action.Commit? {
      CommitIsAtomic(s, e.pid, s');
    } else {
      OthersStutter(s, e.pid, e.action, s');
    }
  }

  ghost predicate RefinedUpTo(states: seq<State>, events: seq<Event>, n: nat) {
    && n <= |events| && n < |states|
    && Replay(CommittedOps(states, events, n), map[]) == Some(Abs(states[n]))
  }

  lemma RefinedOneMore(states: seq<State>, events: seq<Event>, n: nat)
    requires n < |events| && n + 1 < |states| && RefinedUpTo(states, events, n)
    requires var committed := CommittedBy(states[n], events[n]);
      if committed == [] then Abs(states[n + 1]) == Abs(states[n])
      else Effect(committed[0], Abs(states[n])) == Some(Abs(states[n + 1]))
    ensures RefinedUpTo(states, events, n + 1)
  {
    var committed := CommittedBy(states[n], events[n]);
    var before := CommittedOps(states, events, n);
    if committed == [] {
      assert before + committed == before;
    } else {
      ReplayOneMore(before, committed[0], map[]);
    }
  }

  /** Under any interleaving, with aborts and crashes anywhere, the committed map is the
      committed operations applied one after the other to the empty map. */
  lemma {:induction false} RunRefinesAtomicMap(states: seq<State>, events: seq<Event>, n: nat)
    requires Run(states, events) && Init(states[0]) && n <= |events|
    ensures Replay(CommittedOps(states, events, n), map[]) == Some(Abs(states[n]))
  {
    if n == 0 {
      assert Abs(states[0]) == map[];
    } else {
      var k := n - 1;
      RunRefinesAtomicMap(states, events, k);
      RunKeepsInv(states, events, k);
      assert StepAt(states, events, k);
      StepRefinesAtomicMap(states[k], events[k], states[k + 1]);
      RefinedOneMore(states, events, k);
    }
  }

  /** No append is lost: a category only appended to since it was last created, whatever
      happened to it before, holds at any moment of any run the log of all those appends. */
  lemma AppendsAreNeverLost(states: seq<State>, events: seq<Event>, n: nat, name: Name)
    requires Run(states, events) && Init(states[0]) && n <= |events|
    requires LogSinceDelete(CommittedOps(states, events, n), name)
    ensures HoldsAppends(Abs(states[n]), name, AppendsSince(CommittedOps(states, events, n), name))
  {
    RunRefinesAtomicMap(states, events, n);
    AppendsSinceAreReplayed(CommittedOps(states, events, n), map[], name);
  }

  /** Merges of disjoint keys all survive: a key patched by one committed merge and by no
      later operation on the category holds what that merge said last about it, null meaning that
      the key is gone. */
  lemma MergesAreNeverLost(states: seq<State>, events: seq<Event>, n: nat, name: Name, i: nat, key: string, k: nat)
    requires Run(states, events) && Init(states[0]) && n <= |events|
    requires var ops := CommittedOps(states, events, n);
      && i < |ops| && ops[i].Merge? && ops[i].name == name && LastMention(ops[i].patch, key, k)
      && (forall j :: i < j < |ops| && ops[j].name == name ==> ops[j].Merge? && !Mentions(ops[j].patch, key))
    ensures var patch := CommittedOps(states, events, n)[i].patch;
      KeyIn(Abs(states[n]), name, key) == if patch[k].value == Null then None else Some(patch[k].value)
  {
    RunRefinesAtomicMap(states, events, n);
    MergesSurvive(CommittedOps(states, events, n), map[], name, i, key, k);
  }

  /** In any run, when the callers hand in members in order, every object in every committed value
      has its members in order, each key at most once. */
  lemma CommittedMembersAreInOrder(states: seq<State>, events: seq<Event>, n: nat)
    requires Run(states, events) && Init(states[0]) && n <= |events|
    requires forall op :: op in CommittedOps(states, events, n) ==> CanonicalOp(op)
    ensures CanonicalStore(Abs(states[n]))
  {
    RunRefinesAtomicMap(states, events, n);
    ReplayCanonical(CommittedOps(states, events, n), map[]);
  }

  /** In any run, a category only appended to since it was last created holds entries whose ids
      count the appends committed before them since then, strictly increasing, down to the newest,
      each with the payload and the stamp of its append. */
  lemma LogIdsCountCommittedAppends(states: seq<State>, events: seq<Event>, n: nat, name: Name)
    requires Run(states, events) && Init(states[0]) && n <= |events|
    requires LogSinceDelete(CommittedOps(states, events, n), name)
    requires var appends := AppendsSince(CommittedOps(states, events, n), name);
      0 < |appends| <= TWO_64 && forall a :: a in appends ==> Log.OverrideInRange(a)
    ensures var content := ContentOf(Abs(states[n]), name);
      var appends := AppendsSince(CommittedOps(states, events, n), name);
      && content.Some? && Parse(content.value).Some? && Log.IsLog(Parse(content.value).value)
      && Log.FromHistory(Log.Entries(Parse(content.value).value), appends)
      && HasPayloads(Log.Entries(Parse(content.value).value), appends)
  {
    RunRefinesAtomicMap(states, events, n);
    CommittedLogIds(CommittedOps(states, events, n), map[], name);
  }

  /** Every entry has the payload and the stamp of the append that its id counts. */
  predicate HasPayloads(entries: seq<Json>, appends: seq<Log.AppendArgs>) {
    forall i :: 0 <= i < |entries| ==>
      var id := Get(entries[i], "id");
      && id.Some? && id.value.Number? && 0 <= id.value.n < |appends|
      && Get(entries[i], "data") == Some(appends[id.value.n].data)
      && Get(entries[i], "ts") == Some(String(appends[id.value.n].stamp, Some(appends[id.value.n].now)))
  }

  /** In any run, a log that has followed one retention policy since it was last created holds
      exactly the entries of the committed appends that are within both caps right after the last
      of them, from the first of these on, in commit order. */
  lemma LogsHoldTheWindow(states: seq<State>, events: seq<Event>, n: nat, name: Name, r: Log.Retention) returns (from: nat)
    requires Run(states, events) && Init(states[0]) && n <= |events|
    requires LogSinceDelete(CommittedOps(states, events, n), name)
    requires var appends := AppendsSince(CommittedOps(states, events, n), name);
      && 0 < |appends| <= TWO_64 && Log.FixedPolicy(appends, r) && r != Log.Retention(None, None)
      && Log.AgeInRange(r) && Log.InOrder(appends, r)
    ensures var content, appends := ContentOf(Abs(states[n]), name), AppendsSince(CommittedOps(states, events, n), name);
      && content.Some? && Parse(content.value).Some?
      && Log.FromFirstKept(appends, r, from) && Log.IsWindow(Log.Entries(Parse(content.value).value), appends, from)
  {
    RunRefinesAtomicMap(states, events, n);
    from := CommittedLogWindow(CommittedOps(states, events, n), map[], name, r);
  }

  // ---------- Coherence, spelled out ----------

  /** In every reachable state: committed bytes are on disk, no final file lacks a row, and
      a category has at most one staged or parked file. */
  lemma ReachableIsCoherent(states: seq<State>, events: seq<Event>, i: nat)
    requires Run(states, events) && Init(states[0]) && i < |states|
    ensures var s := states[i];
      && (forall n :: n in s.db.rows ==> Carried(s.db.rows, s.files, n))
      && (forall n :: n in s.files.final ==> n in s.db.rows)
      && (forall n :: n in PendingNames(s.files) ==>
            |Listed(s.files, n, StagedWrite) + Listed(s.files, n, ParkedDelete)| == 1)
  {
    RunKeepsInv(states, events, i);
    var s := states[i];
    forall n | n in s.db.rows ensures Carried(s.db.rows, s.files, n) {
      CommittedBytesCarried(s.db.rows, s.files, n);
    }
    forall n | n in PendingNames(s.files)
      ensures |Listed(s.files, n, StagedWrite) + Listed(s.files, n, ParkedDelete)| == 1
    {
      var id :| id in s.files.pending && s.files.pending[id].name == n;
      assert Listed(s.files, n, StagedWrite) + Listed(s.files, n, ParkedDelete) == {id};
    }
  }

  /** In every reachable state the index has, for every category, a row for each text and number
      at a position of its committed value, under the path to it, in document order, and no other
      row; its newest version carries the row's hash, and a deleted category has neither. */
  lemma DerivedDataAgrees(states: seq<State>, events: seq<Event>, i: nat, name: Name)
    requires Run(states, events) && Init(states[0]) && i < |states| && states[i].maxVersions >= 1
    ensures var db := states[i].db;
      if name in db.rows then
        && Parse(Abs(states[i])[name]).Some?
        && IndexOf(db, name) == RowsOf(name, Flatten("", Parse(Abs(states[i])[name]).value))
        && (forall leaf :: IndexRow(name, leaf) in db.index <==>
              exists position :: IndexedAt("", Parse(Abs(states[i])[name]).value, leaf, position))
        && Newest(db, name).Some? && Newest(db, name).value.hash == db.rows[name].hash
      else (forall r :: r in db.index ==> r.category != name) && VersionsOf(db, name) == []
  {
    RunKeepsInv(states, events, i);
    assert DerivedOk(states[i].db, name);
    IndexRowsExact(states[i].db, name);
  }

  lemma IndexRowsExact(db: Db, name: Name)
    requires DerivedOk(db, name)
    ensures name !in db.rows ==> forall r :: r in db.index ==> r.category != name
    ensures name in db.rows ==> forall leaf :: IndexRow(name, leaf) in db.index <==>
      exists position :: IndexedAt("", Parse(db.rows[name].hash.of).value, leaf, position)
  {
    forall r: IndexRow | r.category == name ensures r in db.index <==> r in IndexOf(db, name) {
      assert IndexedUnder(name)(r);
    }
    if name in db.rows {
      var value := Parse(db.rows[name].hash.of).value;
      forall leaf
        ensures IndexRow(name, leaf) in db.index <==> exists position :: IndexedAt("", value, leaf, position)
      {
        RowsExact(name, Flatten("", value), IndexRow(name, leaf));
        FlattenExact("", value, leaf);
      }
    }
  }

  /** A late promotion takes effect only while the committed row still names its bytes: it
      installs the committed content and touches no other category. */
  lemma LatePromotionIsSafe(s: State, p: Pid, s': State)
    requires Inv(s) && DoPromote(s, p, s')
    ensures var pc := PcOf(s, p);
      if pc.id in s.files.pending then
        && pc.name in s.db.rows && s.db.rows[pc.name].hash == HashOf(pc.content)
        && s'.files.final == s.files.final[pc.name := pc.content]
      else s'.files == s.files
  {
    assert Knows(s, p);
  }

  /** Completing a delete late never removes a category that was created again. */
  lemma LateDeleteIsSafe(s: State, p: Pid, a: Action, s': State)
    requires Inv(s) && Step(s, p, a, s') && (a.Complete? || a.RemoveCopied?)
    ensures s'.files.final == s.files.final
    ensures var pc := PcOf(s, p);
      s'.files.pending != s.files.pending ==> pc.name !in s.db.rows && s'.files.pending == s.files.pending - {pc.id}
  {
    assert Knows(s, p);
  }

  /** A parked file whose row is gone: the content of a committed delete. */
  predicate DeletedContent(s: State, id: FileId) {
    id in s.files.pending && s.files.pending[id].kind == ParkedDelete && s.files.pending[id].name !in s.db.rows
  }

  lemma SettleKeepsDeleted(s: State, p: Pid, id: FileId, backup: FileId, copying: bool, s': State, one: FileId)
    requires Inv(s) && DoSettleNext(s, p, id, backup, copying, s')
    requires DeletedContent(s, one) && one !in s'.files.pending
    ensures BackedUp(s'.files, s.files.pending[one].name, s.files.pending[one].content)
  {
    var phase := PcOf(s, p).settle;
    assert Knows(s, p);
    if phase.EachParked? {
      assert s'.files.backups[backup] == Backup(s.files.pending[one].name, s.files.pending[one].content);
    }
  }

  lemma CompleteKeepsDeleted(s: State, p: Pid, backup: FileId, copying: bool, s': State, one: FileId)
    requires DoComplete(s, p, backup, copying, s')
    requires DeletedContent(s, one) && one !in s'.files.pending
    ensures BackedUp(s'.files, s.files.pending[one].name, s.files.pending[one].content)
  {
    assert s'.files.backups[backup] == Backup(s.files.pending[one].name, s.files.pending[one].content);
  }

  lemma RemoveCopiedKeepsDeleted(s: State, p: Pid, s': State, one: FileId)
    requires Inv(s) && DoRemoveCopied(s, p, s')
    requires DeletedContent(s, one) && one !in s'.files.pending
    ensures BackedUp(s'.files, s.files.pending[one].name, s.files.pending[one].content)
  {
    assert Knows(s, p);
  }

  lemma PromoteKeepsDeleted(s: State, p: Pid, s': State, one: FileId)
    requires Inv(s) && DoPromote(s, p, s') && DeletedContent(s, one)
    ensures one in s'.files.pending
  {
    assert Knows(s, p);
  }

  /** No other step removes a pending file. */
  lemma OthersKeepPending(s: State, p: Pid, a: Action, s': State, id: FileId)
    requires Step(s, p, a, s') && id in s.files.pending
    requires !(a.SettleNext? || a.Complete? || a.RemoveCopied? || a.Promote?)
    ensures id in s'.files.pending
  {
  }

  /** The content of a committed delete only leaves the directory for the backups. */
  lemma DeletedContentIsKept(s: State, p: Pid, a: Action, s': State, id: FileId)
    requires Inv(s) && Step(s, p, a, s') && DeletedContent(s, id)
    ensures id in s'.files.pending || BackedUp(s'.files, s.files.pending[id].name, s.files.pending[id].content)
  {
    if !(a.SettleNext? || a.Complete? || a.RemoveCopied? || a.Promote?) {
      OthersKeepPending(s, p, a, s', id);
    } else if a.Promote? {
      PromoteKeepsDeleted(s, p, s', id);
    } else if id !in s'.files.pending {
      if a.SettleNext? {
        SettleKeepsDeleted(s, p, a.id, a.backup, a.copying, s', id);
      } else if a.Complete? {
        CompleteKeepsDeleted(s, p, a.backup, a.copying, s', id);
      } else {
        RemoveCopiedKeepsDeleted(s, p, s', id);
      }
    }
  }

  // ---------- Lock-free readers ----------

  function MetaOf(phase: ReadPhase): Option<Row> {
    match phase
    case ListStagedFiles(meta) => Some(meta)
    case ListParkedFiles(meta, _) => Some(meta)
    case TryFinal(meta, _, _) => Some(meta)
    case TryStaged(meta, _, _) => Some(meta)
    case TryParked(meta, _) => Some(meta)
    case Found(_, found) => found
    case GetMeta => None
    case Orphan => None
    case Absent => None
  }

  /** One call of `read_consistent`: it starts in the step after state `a` and is still running in state `b`. */
  ghost predicate Call(states: seq<State>, p: Pid, name: Name, a: nat, b: nat) {
    && a < b < |states|
    && !PcOf(states[a], p).Reading?
    && (forall i :: a < i <= b ==> PcOf(states[i], p).Reading? && PcOf(states[i], p).name == name)
  }

  ghost predicate WasCommitted(states: seq<State>, name: Name, row: Row, a: nat, b: nat) {
    exists k :: a <= k <= b && k < |states| && RowOf(states[k].db.rows, name) == Some(row)
  }

  lemma ReaderStep(s: State, e: Event, s': State, p: Pid)
    requires Step(s, e.pid, e.action, s') && PcOf(s', p).Reading?
    ensures !PcOf(s, p).Reading? ==> PcOf(s', p).read == GetMeta
    ensures PcOf(s, p).Reading? && PcOf(s, p).name == PcOf(s', p).name && MetaOf(PcOf(s', p).read).Some? ==>
      || MetaOf(PcOf(s', p).read) == MetaOf(PcOf(s, p).read)
      || MetaOf(PcOf(s', p).read) == RowOf(s.db.rows, PcOf(s, p).name)
  {
    if e.pid != p {
      assert PcOf(s', p) == PcOf(s, p);
    }
  }

  lemma {:induction false} MetaWasCommitted(states: seq<State>, events: seq<Event>, p: Pid, name: Name, a: nat, b: nat)
    requires Run(states, events) && Call(states, p, name, a, b)
    requires MetaOf(PcOf(states[b], p).read).Some?
    ensures WasCommitted(states, name, MetaOf(PcOf(states[b], p).read).value, a, b)
  {
    var row := MetaOf(PcOf(states[b], p).read).value;
    var k := b - 1;
    assert StepAt(states, events, k);
    ReaderStep(states[k], events[k], states[k + 1], p);
    if a < k {
      if RowOf(states[k].db.rows, name) != Some(row) {
        MetaWasCommitted(states, events, p, name, a, k);
        var i :| a <= i <= k && i < |states| && RowOf(states[i].db.rows, name) == Some(row);
      }
    }
  }

  /** Whatever runs in between, a pair returned by a lock-free read is coherent: the bytes hash
      to the metadata, and that metadata was committed at some moment during the call. */
  lemma ReadersSeeCommitted(states: seq<State>, events: seq<Event>, p: Pid, name: Name, a: nat, b: nat)
    requires Run(states, events) && Init(states[0]) && Call(states, p, name, a, b)
    requires PcOf(states[b], p).read.Found? && PcOf(states[b], p).read.found.Some?
    ensures var read := PcOf(states[b], p).read;
      HashOf(read.content) == read.found.value.hash && WasCommitted(states, name, read.found.value, a, b)
  {
    RunKeepsInv(states, events, b);
    assert Knows(states[b], p);
    MetaWasCommitted(states, events, p, name, a, b);
  }

  /** Readers rename and remove nothing, and take no lock. */
  lemma ReadersTouchNothing(s: State, p: Pid, a: Action, s': State)
    requires Step(s, p, a, s') && (a.StartRead? || a.ReadNext?)
    ensures s'.files == s.files && s'.db == s.db && s'.lock == s.lock
  {
  }

  // ---------- Compare-and-swap, end to end ----------

  /** If a process read (content, row) at state `i` and a write that expects that row's hash
      commits at event `j` over an existing category, then it replaces exactly what was read. */
  lemma CasReplacesWhatWasRead(states: seq<State>, events: seq<Event>, i: nat, p: Pid, j: nat)
    requires Run(states, events) && Init(states[0]) && i <= j < |events|
    requires PcOf(states[i], p).Reading? && PcOf(states[i], p).read.Found? && PcOf(states[i], p).read.found.Some?
    requires events[j] == Event(p, Commit) && PcOf(states[j], p).Changed?
    requires var op := PcOf(states[j], p).op;
      && (op.Replace? || op.Merge?) && op.name == PcOf(states[i], p).name
      && op.expected == Some(PcOf(states[i], p).read.found.value.hash)
      && op.name in states[j].db.rows
    ensures Abs(states[j])[PcOf(states[i], p).name] == PcOf(states[i], p).read.content
  {
    RunKeepsInv(states, events, i);
    RunKeepsInv(states, events, j);
    assert Knows(states[i], p);
    assert StepAt(states, events, j);
    CommitIsAtomic(states[j], p, states[j + 1]);
  }

  // ---------- Snapshots ----------

  /** When a snapshot releases the lock it holds exactly the tables and the files of that
      instant, and its files are the contents its rows name. */
  lemma SnapshotIsAnInstant(s: State, p: Pid, s': State)
    requires Inv(s) && DoRelease(s, p, s') && PcOf(s, p).Copied?
    ensures var snap := PcOf(s', p);
      && snap.Snapped? && snap.db == s.db && snap.copied == s.files.final
      && snap.copied == Contents(snap.db.rows)
      && (snap.backups.Some? ==> snap.backups.value == s.files.backups)
      && s.files.pending == map[]
  {
    assert Knows(s, p);
    NothingPendingMeansSettled(s.db.rows, s.files);
  }

  /** Whether the snapshot this process is taking shall have the backups. */
  function BackupsAsked(pc: Pc): Option<bool> {
    match pc
    case Waiting(Snapshot(w)) => Some(w)
    case Guarding(w) => Some(w)
    case Picking(Snapshot(w), _) => Some(w)
    case Settling(Snapshot(w), _, _, _) => Some(w)
    case Vacuuming(w) => Some(w)
    case ListingFinal(w, _) => Some(w)
    case CopyingFinal(w, _, _, _) => Some(w)
    case ListingBackups(w, _, _) => Some(w)
    case CopyingBackups(_, _, _, _) => Some(true)
    case Copied(_, _, backups) => Some(backups.Some?)
    case Snapped(_, _, backups) => Some(backups.Some?)
    case _ => None
  }

  lemma SnapshotStep(s: State, e: Event, s': State, p: Pid)
    requires Step(s, e.pid, e.action, s') && BackupsAsked(PcOf(s, p)).Some? && !PcOf(s', p).Idle?
    ensures BackupsAsked(PcOf(s', p)) == BackupsAsked(PcOf(s, p))
  {
    if e.pid != p {
      assert PcOf(s', p) == PcOf(s, p);
    }
  }

  /** A snapshot has the backups exactly when it was asked for with them: from the request at event
      `j` to a finished snapshot in state `k`, whatever other processes do in between. */
  lemma {:induction false} SnapshotHasWhatWasAsked(states: seq<State>, events: seq<Event>, p: Pid, w: bool, j: nat, k: nat)
    requires Run(states, events) && j < k <= |events| && events[j] == Event(p, AskSnapshot(w))
    requires forall i :: j < i <= k ==> !PcOf(states[i], p).Idle?
    ensures BackupsAsked(PcOf(states[k], p)) == Some(w)
    ensures PcOf(states[k], p).Snapped? ==> (PcOf(states[k], p).backups.Some? <==> w)
  {
    var h := k - 1;
    assert StepAt(states, events, h);
    if h > j {
      SnapshotHasWhatWasAsked(states, events, p, w, j, h);
      SnapshotStep(states[h], events[h], states[k], p);
    }
  }

  // ---------- Recovery on open ----------

  /** The categories a reconciling process still has to settle. */
  function ToSettle(pc: Pc): set<Name> {
    if pc.Waiting? && pc.task.Reconcile? then pc.task.names
    else if pc.Picking? then pc.names
    else if pc.Settling? then pc.names + {pc.name}
    else {}
  }

  predicate Reconciling(pc: Pc) {
    (pc.Waiting? || pc.Picking? || pc.Settling?) && pc.task.Reconcile?
  }

  ghost predicate LeftToSettle(s: State, p: Pid) {
    Reconciling(PcOf(s, p)) && forall n :: HasPending(s.files, n) ==> n in ToSettle(PcOf(s, p))
  }

  lemma ReconcileSettleStep(s: State, p: Pid, id: FileId, backup: FileId, copying: bool, s': State)
    requires Inv(s) && LeftToSettle(s, p) && DoSettleNext(s, p, id, backup, copying, s')
    ensures LeftToSettle(s', p)
  {
    var pc := PcOf(s, p);
    assert Knows(s, p);
    SettleStepOk(s.db.rows, s.files, pc.name, id, backup, copying, pc.settle, s'.files,
                 if PcOf(s', p).Settling? then Some(PcOf(s', p).settle) else None);
    ShrinkKeepsPending(s.files, s'.files);
  }

  lemma ReconcileStep(s: State, p: Pid, a: Action, s': State)
    requires Inv(s) && LeftToSettle(s, p) && Step(s, p, a, s')
    requires a.Begin? || a.Pick? || a.SettleNext?
    ensures LeftToSettle(s', p)
  {
    if a.Pick? {
      assert ToSettle(PcOf(s', p)) == ToSettle(PcOf(s, p));
    } else if a.SettleNext? {
      ReconcileSettleStep(s, p, a.id, a.backup, a.copying, s');
    }
  }

  /** An uninterrupted `reconcile_on_open`: it lists, locks, settles every listed name in any
      order, and rolls back. */
  ghost predicate ReconcileRun(states: seq<State>, events: seq<Event>, p: Pid) {
    && Run(states, events) && |events| >= 2
    && (forall i :: 0 <= i < |events| ==> events[i].pid == p)
    && events[0].action == AskReconcile && events[|events| - 1].action == Release
    && (forall i :: 0 < i < |events| - 1 ==>
          events[i].action.Begin? || events[i].action.Pick? || events[i].action.SettleNext?)
  }

  lemma {:induction false} ReconcileProgress(states: seq<State>, events: seq<Event>, p: Pid, i: nat)
    requires ReconcileRun(states, events, p) && Inv(states[0]) && 0 < i < |events|
    ensures Inv(states[i]) && LeftToSettle(states[i], p) && states[i].db == states[0].db
  {
    if i == 1 {
      assert StepAt(states, events, 0);
      StepKeepsInv(states[0], p, events[0].action, states[1]);
      forall n | HasPending(states[0].files, n) ensures n in PendingNames(states[0].files) {
        var id :| id in states[0].files.pending && states[0].files.pending[id].name == n;
      }
    } else {
      var k := i - 1;
      ReconcileProgress(states, events, p, k);
      assert StepAt(states, events, k);
      StepKeepsInv(states[k], p, events[k].action, states[k + 1]);
      ReconcileStep(states[k], p, events[k].action, states[k + 1]);
      OthersStutter(states[k], p, events[k].action, states[k + 1]);
    }
  }

  lemma ReleaseSettles(s: State, p: Pid, s': State)
    requires Inv(s) && LeftToSettle(s, p) && DoRelease(s, p, s')
    ensures s'.db == s.db && s'.lock == None && Settled(s'.db.rows, s'.files)
  {
    assert Cleared(s'.files, Snapshot(false), {});
    ClearedForSnapshot(s'.files, false);
    NothingPendingMeansSettled(s'.db.rows, s'.files);
  }

  /** From any reachable state, including one left by an interrupted reconcile, a reconcile that
      runs to its end changes no row and leaves exactly the committed files. */
  lemma ReconcileSettles(states: seq<State>, events: seq<Event>, p: Pid)
    requires ReconcileRun(states, events, p) && Inv(states[0])
    ensures var last := states[|events|];
      last.db == states[0].db && Settled(last.db.rows, last.files) && last.lock == None
  {
    var n := |events| - 1;
    ReconcileProgress(states, events, p, n);
    assert StepAt(states, events, n);
    ReleaseSettles(states[n], p, states[n + 1]);
  }

  /** Wherever a run is cut, recovery leaves on disk exactly what the committed operations made:
      a new content survives exactly when its COMMIT happened. */
  lemma RecoveryKeepsExactlyTheCommitted(states: seq<State>, events: seq<Event>, n: nat,
                                         after: seq<State>, recovery: seq<Event>, p: Pid)
    requires Run(states, events) && Init(states[0]) && n <= |events|
    requires ReconcileRun(after, recovery, p) && after[0] == states[n]
    ensures var last := after[|recovery|];
      && last.files.pending == map[] && last.db == states[n].db
      && Replay(CommittedOps(states, events, n), map[]) == Some(last.files.final)
  {
    RunKeepsInv(states, events, n);
    RunRefinesAtomicMap(states, events, n);
    ReconcileSettles(after, recovery, p);
  }

  // ---------- Recovery among other processes ----------

  lemma ReconcileKeepsTask(s: State, e: Event, s': State, p: Pid)
    requires Step(s, e.pid, e.action, s') && Reconciling(PcOf(s, p)) && Reconciling(PcOf(s', p))
    ensures PcOf(s', p).task == PcOf(s, p).task
  {
    if e.pid != p {
      assert PcOf(s', p) == PcOf(s, p);
    }
  }

  /** `reconcile_on_open` of process `p`, from the listing of the pending names at event `j` to the
      rollback at event `k`, with any steps of other processes in between. */
  ghost predicate ReconcileSpan(states: seq<State>, events: seq<Event>, p: Pid, j: nat, k: nat) {
    && Run(states, events) && j < k < |events|
    && events[j] == Event(p, AskReconcile) && events[k] == Event(p, Release)
    && (forall i :: j < i <= k ==> Reconciling(PcOf(states[i], p)))
  }

  lemma {:induction false} SpanKeepsTask(states: seq<State>, events: seq<Event>, p: Pid, j: nat, k: nat, i: nat)
    requires ReconcileSpan(states, events, p, j, k) && j < i <= k
    ensures PcOf(states[i], p).task == Reconcile(PendingNames(states[j].files))
  {
    var h := i - 1;
    assert StepAt(states, events, h);
    if i > j + 1 {
      SpanKeepsTask(states, events, p, j, k, h);
      ReconcileKeepsTask(states[h], events[h], states[h + 1], p);
    }
  }

  /** Whatever other processes do meanwhile, a recovery leaves every category it found pending
      without pending files and with exactly the committed content, and changes no row itself. */
  lemma ReconcileSettlesAmongOthers(states: seq<State>, events: seq<Event>, p: Pid, j: nat, k: nat, name: Name)
    requires ReconcileSpan(states, events, p, j, k) && Init(states[0])
    requires name in PendingNames(states[j].files)
    ensures !HasPending(states[k + 1].files, name) && Quiet(states[k + 1].db.rows, states[k + 1].files, name)
    ensures forall i :: j <= i <= k && events[i].pid == p ==> states[i + 1].db == states[i].db
  {
    SpanKeepsTask(states, events, p, j, k, k);
    RunKeepsInv(states, events, k);
    assert Knows(states[k], p);
    assert StepAt(states, events, k);
    RunKeepsInv(states, events, k + 1);
    forall i | j <= i <= k && events[i].pid == p ensures states[i + 1].db == states[i].db {
      SpanStepIsNoCommit(states, events, p, j, k, i);
    }
  }

  lemma SpanStepIsNoCommit(states: seq<State>, events: seq<Event>, p: Pid, j: nat, k: nat, i: nat)
    requires ReconcileSpan(states, events, p, j, k) && j <= i <= k && events[i].pid == p
    ensures states[i + 1].db == states[i].db
  {
    assert StepAt(states, events, i);
    if !events[i].action.Commit? {
      OthersStutter(states[i], p, events[i].action, states[i + 1]);
    }
  }
}
