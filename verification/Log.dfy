/** Bounded append-only logs (src/store/log.rs): the value shape, entry ids and
    retention. No clock is read here: callers pass the time. */
module Log {
  import opened Values
  import opened Objects
  import opened Sorting

  const KIND_KEY := "_kind"
  const LOG_KIND := "log"
  const RETENTION_KEY := "_retention"
  const ENTRIES_KEY := "entries"

  const NANOS_PER_DAY := 86_400_000_000_000
  // The instants chrono can represent, in nanoseconds since the epoch.
  const MIN_INSTANT := -8_334_601_228_800_000_000_000
  const MAX_INSTANT := 8_210_266_876_800_000_000_000 - 1

  datatype Retention = Retention(maxEntries: Option<u64>, maxAgeDays: Option<u64>)

  const DEFAULT_RETENTION := Retention(Some(200), None)

  /** `Panicked`: date arithmetic left the representable range, which aborts the process. */
  datatype LogError = NotALog | MalformedLog | Panicked

  predicate IsLog(v: Json) {
    && (match Get(v, KIND_KEY) case Some(String(k, _)) => k == LOG_KIND case _ => false)
    && (match Get(v, ENTRIES_KEY) case Some(Array(_)) => true case _ => false)
  }

  function Entries(v: Json): seq<Json> {
    match Get(v, ENTRIES_KEY)
    case Some(Array(items)) => items
    case _ => []
  }

  function IdOf(entry: Json): Option<u64> {
    match Get(entry, "id")
    case Some(id) => AsU64(id)
    case None => None
  }

  function InstantOf(entry: Json): Option<int> {
    match Get(entry, "ts")
    case Some(String(_, at)) => at
    case _ => None
  }

  function MaxId(entries: seq<Json>): Option<u64> {
    if entries == [] then None
    else
      match (IdOf(entries[0]), MaxId(entries[1..]))
      case (None, m) => m
      case (Some(id), None) => Some(id)
      case (Some(id), Some(m)) => Some(if id < m then m else id)
  }

  /** One past the highest id, in 64-bit arithmetic. */
  function NextId(entries: seq<Json>): u64 {
    match MaxId(entries)
    case Some(m) => (m + 1) % TWO_64
    case None => 0
  }

  function CapToJson(cap: Option<u64>): Json {
    match cap
    case Some(n) => Number(n)
    case None => Null
  }

  function RetentionToJson(r: Retention): Json {
    Object([Field("max_age_days", CapToJson(r.maxAgeDays)), Field("max_entries", CapToJson(r.maxEntries))])
  }

  function Cap(v: Json, key: string): Option<u64> {
    match Get(v, key)
    case Some(n) => AsU64(n)
    case None => None
  }

  function StoredRetention(v: Json): Option<Retention> {
    match Get(v, RETENTION_KEY)
    case None => None
    case Some(r) =>
      var found := Retention(Cap(r, "max_entries"), Cap(r, "max_age_days"));
      if found == Retention(None, None) then None else Some(found)
  }

  /** `days as i64`. */
  function AsI64(days: u64): int {
    if days < 0x8000_0000_0000_0000 then days else days - TWO_64
  }

  /** The oldest instant to keep, when chrono can represent it. */
  function Cutoff(days: u64, now: int): Option<int> {
    var cutoff := now - AsI64(days) * NANOS_PER_DAY;
    if MIN_INSTANT <= cutoff <= MAX_INSTANT then Some(cutoff) else None
  }

  predicate Young(entry: Json, cutoff: int) {
    match InstantOf(entry)
    case Some(t) => cutoff <= t
    case None => true
  }

  /** What age pruning keeps; None when it panics. An unparseable `now` disables it. */
  function PruneByAge(entries: seq<Json>, maxAgeDays: Option<u64>, now: Option<int>): Option<seq<Json>> {
    if maxAgeDays == None || now == None then Some(entries)
    else
      match Cutoff(maxAgeDays.value, now.value)
      case None => None
      case Some(cutoff) => Some(Filter(e => Young(e, cutoff), entries))
  }

  function CountCap(max: u64): nat {
    if max < 1 then 1 else max
  }

  function PruneByCount(entries: seq<Json>, maxEntries: Option<u64>): seq<Json> {
    if maxEntries == None || |entries| <= CountCap(maxEntries.value) then entries
    else entries[|entries| - CountCap(maxEntries.value)..]
  }

  function Pruned(entries: seq<Json>, retention: Retention, now: Option<int>): Option<seq<Json>> {
    match PruneByAge(entries, retention.maxAgeDays, now)
    case None => None
    case Some(young) => Some(PruneByCount(young, retention.maxEntries))
  }

  function MakeEntry(id: u64, data: Json, stamp: string, now: Option<int>): Json {
    Object([Field("data", data), Field("id", Number(id)), Field("ts", String(stamp, now))])
  }

  /** The log object the new entries go into: the existing log, or a fresh one. */
  function LogFields(existing: Option<Json>, retention: Retention): Result<seq<Field>, LogError> {
    match existing
    case None =>
      Ok([Field(KIND_KEY, String(LOG_KIND, None)), Field(RETENTION_KEY, RetentionToJson(retention)),
          Field(ENTRIES_KEY, Array([]))])
    case Some(v) =>
      if IsLog(v) then Ok(Put(v.fields, RETENTION_KEY, RetentionToJson(retention))) else Err(NotALog)
  }

  /** Specification of `append_entry`. */
  function AppendEntry(existing: Option<Json>, data: Json, retention: Retention, stamp: string, now: Option<int>)
    : Result<Json, LogError>
  {
    match LogFields(existing, retention)
    case Err(e) => Err(e)
    case Ok(fields) =>
      match Lookup(fields, ENTRIES_KEY)
      case Some(Array(items)) =>
        (match Pruned(items + [MakeEntry(NextId(items), data, stamp, now)], retention, now)
         case None => Err(Panicked)
         case Some(kept) => Ok(Object(Put(fields, ENTRIES_KEY, Array(kept)))))
      case _ => Err(MalformedLog)
  }

  // ---------- The entries vector, changed in place ----------

  class EntryVec {
    var items: seq<Json>

    constructor (items: seq<Json>)
      ensures this.items == items
    {
      this.items := items;
    }

    /** `prune_entries`: drop what is too old, then drain the front down to the cap. */
    method PruneEntries(retention: Retention, now: Option<int>) returns (panicked: bool)
      modifies this
      ensures panicked == Pruned(old(items), retention, now).None?
      ensures !panicked ==> items == Pruned(old(items), retention, now).value
    {
      if retention.maxAgeDays.Some? && now.Some? {
        var cutoff := Cutoff(retention.maxAgeDays.value, now.value);
        if cutoff.None? {
          return true;
        }
        items := Filter(e => Young(e, cutoff.value), items);
      }
      if retention.maxEntries.Some? {
        var max := CountCap(retention.maxEntries.value);
        if |items| > max {
          items := items[|items| - max..];
        }
      }
      panicked := false;
    }
  }

  /** `append_entry`, with the entries vector mutated in place. */
  method AppendEntryInPlace(existing: Option<Json>, data: Json, retention: Retention, stamp: string, now: Option<int>)
    returns (r: Result<Json, LogError>)
    ensures r == AppendEntry(existing, data, retention, stamp, now)
  {
    var fields: seq<Field>;
    match existing {
      case None =>
        fields := [Field(KIND_KEY, String(LOG_KIND, None)), Field(RETENTION_KEY, RetentionToJson(retention)),
                   Field(ENTRIES_KEY, Array([]))];
      case Some(v) =>
        if !IsLog(v) {
          return Err(NotALog);
        }
        fields := Put(v.fields, RETENTION_KEY, RetentionToJson(retention));
    }
    var found := Lookup(fields, ENTRIES_KEY);
    if found.None? || !found.value.Array? {
      return Err(MalformedLog);
    }
    var vec := new EntryVec(found.value.items);
    var id := NextId(vec.items);
    vec.items := vec.items + [MakeEntry(id, data, stamp, now)];
    var panicked := vec.PruneEntries(retention, now);
    if panicked {
      return Err(Panicked);
    }
    r := Ok(Object(Put(fields, ENTRIES_KEY, Array(vec.items))));
  }

  // ---------- Pruning keeps the longest admissible suffix ----------

  predicate Stamped(entries: seq<Json>) {
    && (forall i :: 0 <= i < |entries| ==> InstantOf(entries[i]).Some?)
    && (forall i, j :: 0 <= i < j < |entries| ==> InstantOf(entries[i]).value <= InstantOf(entries[j]).value)
  }

  /** The moment so many days before now is none chrono can represent. */
  predicate OffCalendar(days: u64, now: int) {
    var cutoff := now - (if days < 0x8000_0000_0000_0000 then days else days - 0x1_0000_0000_0000_0000) * 86_400_000_000_000;
    cutoff < MIN_INSTANT || MAX_INSTANT < cutoff
  }

  /** Stamped at most so many days before now; the cap is read as a signed number. An entry
      without a readable stamp is never too old. */
  predicate Within(entry: Json, days: u64, now: int) {
    InstantOf(entry).Some? ==>
      now - (if days < 0x8000_0000_0000_0000 then days else days - 0x1_0000_0000_0000_0000) * 86_400_000_000_000
      <= InstantOf(entry).value
  }

  predicate AllWithin(entries: seq<Json>, days: u64, now: int) {
    forall i :: 0 <= i < |entries| ==> Within(entries[i], days, now)
  }

  /** Within both caps; one entry is always allowed. */
  predicate Admissible(entries: seq<Json>, retention: Retention, now: int) {
    && (retention.maxEntries.Some? ==> |entries| <= retention.maxEntries.value || |entries| <= 1)
    && (retention.maxAgeDays.Some? ==> AllWithin(entries, retention.maxAgeDays.value, now))
  }

  /** Age pruning keeps exactly the entries within the cap, in order, whatever their stamps; without
      a cap, or when the time now is not readable, all of them. */
  lemma AgePruneExact(entries: seq<Json>, days: u64, now: int)
    ensures PruneByAge(entries, None, Some(now)) == PruneByAge(entries, Some(days), None) == Some(entries)
    ensures OffCalendar(days, now) <==> PruneByAge(entries, Some(days), Some(now)) == None
    ensures !OffCalendar(days, now) ==> PruneByAge(entries, Some(days), Some(now)) == Some(Filter(e => Within(e, days, now), entries))
  {
    if !OffCalendar(days, now) {
      SameFilter(e => Young(e, Cutoff(days, now).value), e => Within(e, days, now), entries);
    }
  }

  lemma {:induction false} SameFilter(p: Json -> bool, q: Json -> bool, entries: seq<Json>)
    requires forall e :: p(e) == q(e)
    ensures Filter(p, entries) == Filter(q, entries)
  {
    if entries != [] {
      SameFilter(p, q, entries[1..]);
    }
  }

  lemma {:induction false} YoungSuffix(entries: seq<Json>, cutoff: int) returns (k: nat)
    requires Stamped(entries)
    ensures k <= |entries|
    ensures Filter(e => Young(e, cutoff), entries) == entries[k..]
    ensures forall i :: 0 <= i < |entries| ==> (Young(entries[i], cutoff) <==> k <= i)
  {
    if entries == [] {
      k := 0;
    } else if Young(entries[0], cutoff) {
      k := 0;
      forall i | 0 <= i < |entries| ensures Young(entries[i], cutoff) {
        assert InstantOf(entries[0]).value <= InstantOf(entries[i]).value;
      }
      FilterAll(e => Young(e, cutoff), entries);
    } else {
      var rest := entries[1..];
      var j := YoungSuffix(rest, cutoff);
      k := j + 1;
      assert entries[k..] == rest[j..];
      forall i | 0 <= i < |entries| ensures Young(entries[i], cutoff) <==> k <= i {
        if i > 0 { assert entries[i] == rest[i - 1]; }
      }
    }
  }

  /** `prune_entries` returns the longest suffix within both caps. */
  lemma PrunedIsLongestSuffix(entries: seq<Json>, retention: Retention, now: int) returns (k: nat)
    requires retention.maxAgeDays.Some? ==> Stamped(entries) && Cutoff(retention.maxAgeDays.value, now).Some?
    ensures k <= |entries|
    ensures Pruned(entries, retention, Some(now)) == Some(entries[k..])
    ensures Admissible(entries[k..], retention, now)
    ensures forall j :: 0 <= j < k ==> !Admissible(entries[j..], retention, now)
  {
    var a: nat := 0;
    if retention.maxAgeDays.Some? {
      a := YoungSuffix(entries, Cutoff(retention.maxAgeDays.value, now).value);
    }
    k := CountSuffix(entries, a, retention.maxEntries);
    assert PruneByAge(entries, retention.maxAgeDays, Some(now)) == Some(entries[a..]);
    forall j | 0 <= j < k ensures !Admissible(entries[j..], retention, now) {
      if j < a {
        assert entries[j..][0] == entries[j];
        assert !Within(entries[j..][0], retention.maxAgeDays.value, now);
      }
    }
  }

  lemma CountSuffix(entries: seq<Json>, a: nat, maxEntries: Option<u64>) returns (k: nat)
    requires a <= |entries|
    ensures a <= k <= |entries|
    ensures PruneByCount(entries[a..], maxEntries) == entries[k..]
    ensures maxEntries.Some? ==> |entries[k..]| <= CountCap(maxEntries.value)
    ensures k > a ==> maxEntries.Some? && k == |entries| - CountCap(maxEntries.value)
  {
    k := a;
    if maxEntries.Some? && |entries[a..]| > CountCap(maxEntries.value) {
      k := |entries| - CountCap(maxEntries.value);
    }
  }

  predicate MarkedLog(v: Json) {
    Get(v, "_kind").Some? && Get(v, "_kind").value.String? && Get(v, "_kind").value.text == "log"
  }

  predicate HasEntries(v: Json) {
    Get(v, "entries").Some? && Get(v, "entries").value.Array?
  }

  /** An append is refused exactly when the category exists and lacks the mark or the entries; a
      value with both is never found malformed. Otherwise it fails exactly when the cutoff leaves
      the calendar. */
  lemma AppendRefusals(existing: Option<Json>, data: Json, retention: Retention, stamp: string, now: Option<int>)
    ensures var r := AppendEntry(existing, data, retention, stamp, now);
      && (r == Err(NotALog) <==> existing.Some? && !(MarkedLog(existing.value) && HasEntries(existing.value)))
      && r != Err(MalformedLog)
      && (r == Err(Panicked) <==>
            && (existing.Some? ==> MarkedLog(existing.value) && HasEntries(existing.value))
            && retention.maxAgeDays.Some? && now.Some? && OffCalendar(retention.maxAgeDays.value, now.value))
  {
    if existing.Some? && IsLog(existing.value) {
      LookupPut(existing.value.fields, RETENTION_KEY, RetentionToJson(retention), ENTRIES_KEY);
    } else if existing.None? {
      var fields := LogFields(None, retention).value;
      assert fields[1..][1..][0].key == ENTRIES_KEY;
      assert Lookup(fields, ENTRIES_KEY) == Lookup(fields[1..], ENTRIES_KEY) == Lookup(fields[1..][1..], ENTRIES_KEY);
    }
  }

  // ---------- Histories of appends ----------

  datatype AppendArgs = AppendArgs(data: Json, retention: Option<Retention>, stamp: string, now: int)

  /** Explicit override, else the policy stored in the log, else the default. */
  function Effective(retention: Option<Retention>, existing: Option<Json>): Retention {
    match retention
    case Some(r) => r
    case None =>
      match existing
      case None => DEFAULT_RETENTION
      case Some(v) => if StoredRetention(v).Some? then StoredRetention(v).value else DEFAULT_RETENTION
  }

  function AppendTo(existing: Option<Json>, a: AppendArgs): Result<Json, LogError> {
    AppendEntry(existing, a.data, Effective(a.retention, existing), a.stamp, Some(a.now))
  }

  /** The value after these appends to a category that did not exist. */
  function AppendAll(appends: seq<AppendArgs>): Result<Option<Json>, LogError> {
    if appends == [] then Ok(None)
    else
      match AppendAll(appends[..|appends| - 1])
      case Err(e) => Err(e)
      case Ok(before) =>
        match AppendTo(before, appends[|appends| - 1])
        case Err(e) => Err(e)
        case Ok(v) => Ok(Some(v))
  }

  /** An age cap that is not negative when read as a signed number. */
  predicate AgeInRange(r: Retention) {
    r.maxAgeDays.Some? ==> r.maxAgeDays.value < 0x8000_0000_0000_0000
  }

  predicate OverrideInRange(a: AppendArgs) {
    a.retention.Some? ==> AgeInRange(a.retention.value)
  }

  /** The entry an append makes: its payload, its id and its stamp, and nothing else. */
  predicate IsEntry(e: Json, id: int, a: AppendArgs) {
    && e.Object? && |e.fields| == 3
    && Get(e, "data") == Some(a.data)
    && Get(e, "id") == Some(Number(id))
    && Get(e, "ts") == Some(String(a.stamp, Some(a.now)))
  }

  /** Every entry is the one made by the append its id counts, ids strictly increase, and the
      newest is there. */
  predicate FromHistory(entries: seq<Json>, appends: seq<AppendArgs>)
    requires |appends| <= TWO_64
  {
    && (forall i :: 0 <= i < |entries| ==>
          && IdOf(entries[i]).Some? && IdOf(entries[i]).value < |appends|
          && IsEntry(entries[i], IdOf(entries[i]).value, appends[IdOf(entries[i]).value]))
    && (forall i, j :: 0 <= i < j < |entries| ==> IdOf(entries[i]).value < IdOf(entries[j]).value)
    && (appends != [] ==> entries != [] && IdOf(entries[|entries| - 1]).value == |appends| - 1)
  }

  function EntryFor(id: u64, a: AppendArgs): Json {
    MakeEntry(id, a.data, a.stamp, Some(a.now))
  }

  lemma EntryParts(id: u64, a: AppendArgs)
    ensures IsEntry(EntryFor(id, a), id, a)
  {
    var fields := EntryFor(id, a).fields;
    assert fields[1..][0].key == "id";
    assert fields[1..][1..][0].key == "ts";
    assert Lookup(fields[1..], "id") == Some(Number(id));
    assert Lookup(fields[1..], "ts") == Lookup(fields[1..][1..], "ts");
  }

  lemma EntryReads(e: Json, id: u64, a: AppendArgs)
    requires IsEntry(e, id, a)
    ensures IdOf(e) == Some(id) && InstantOf(e) == Some(a.now)
  {
  }

  predicate HighestId(entries: seq<Json>, m: u64) {
    && (exists e :: e in entries && Get(e, "id") == Some(Number(m)))
    && (forall e, n: u64 :: e in entries && Get(e, "id") == Some(Number(n)) ==> n <= m)
  }

  predicate NoIds(entries: seq<Json>) {
    forall e, n: u64 :: e in entries ==> Get(e, "id") != Some(Number(n))
  }

  lemma {:induction false} MaxIdExact(entries: seq<Json>)
    ensures match MaxId(entries) case None => NoIds(entries) case Some(m) => HighestId(entries, m)
  {
    if entries != [] {
      MaxIdExact(entries[1..]);
      assert entries == [entries[0]] + entries[1..];
      assert entries[0] in entries;
    }
  }

  /** The next id is 0 without ids, and otherwise one past the highest, modulo 2^64. */
  lemma NextIdExact(entries: seq<Json>)
    ensures NoIds(entries) ==> NextId(entries) == 0
    ensures forall m: u64 :: HighestId(entries, m) ==> NextId(entries) == (m + 1) % 0x1_0000_0000_0000_0000
  {
    MaxIdExact(entries);
  }

  lemma RetentionRoundTrip(r: Retention)
    ensures Cap(RetentionToJson(r), "max_entries") == r.maxEntries
    ensures Cap(RetentionToJson(r), "max_age_days") == r.maxAgeDays
  {
    var fields := RetentionToJson(r).fields;
    assert fields[1..][0].key == "max_entries";
    assert Lookup(fields, "max_entries") == Lookup(fields[1..], "max_entries");
  }

  function EntriesIn(v: Option<Json>): seq<Json> {
    if v.Some? then Entries(v.value) else []
  }

  function NumberOrNull(cap: Option<u64>): Json {
    if cap.Some? then Number(cap.value) else Null
  }

  /** The policy written into a log. */
  predicate RecordsCaps(v: Json, r: Retention) {
    Get(v, "_retention") == Some(Object([Field("max_age_days", NumberOrNull(r.maxAgeDays)),
                                         Field("max_entries", NumberOrNull(r.maxEntries))]))
  }

  /** The mark and all other members stay; a fresh log has none but the three of every log. */
  ghost predicate OtherMembersStay(existing: Option<Json>, v: Json) {
    && Get(v, "_kind") == (if existing.Some? then Get(existing.value, "_kind") else Some(String("log", None)))
    && (forall key :: key != "_kind" && key != "_retention" && key != "entries" ==>
          Get(v, key) == if existing.Some? then Get(existing.value, key) else None)
  }

  lemma FreshFields(retention: Retention, key: string)
    ensures var fields := LogFields(None, retention).value;
      Lookup(fields, key) == if key == "_kind" then Some(String("log", None))
                             else if key == "_retention" then Some(RetentionToJson(retention))
                             else if key == "entries" then Some(Array([])) else None
  {
    var kind, recorded, entries :=
      Field(KIND_KEY, String(LOG_KIND, None)), Field(RETENTION_KEY, RetentionToJson(retention)), Field(ENTRIES_KEY, Array([]));
    LookupCons(kind, [recorded, entries], key);
    LookupCons(recorded, [entries], key);
    LookupCons(entries, [], key);
    assert [kind] + [recorded, entries] == LogFields(None, retention).value;
    assert [recorded] + [entries] == [recorded, entries];
    assert [entries] + [] == [entries];
  }

  lemma LookupCons(first: Field, rest: seq<Field>, key: string)
    ensures Lookup([first] + rest, key) == if first.key == key then Some(first.value) else Lookup(rest, key)
  {
    assert ([first] + rest)[1..] == rest;
  }

  /** The members of the log object after the retention is recorded. */
  lemma LogFieldsMember(existing: Option<Json>, retention: Retention, key: string)
    requires LogFields(existing, retention).Ok?
    ensures var fields := LogFields(existing, retention).value;
      Lookup(fields, key) == if key == "_retention" then Some(RetentionToJson(retention))
                             else if existing.Some? then Get(existing.value, key)
                             else if key == "_kind" then Some(String("log", None))
                             else if key == "entries" then Some(Array([])) else None
  {
    if existing.Some? {
      LookupPut(existing.value.fields, RETENTION_KEY, RetentionToJson(retention), key);
    } else {
      FreshFields(retention, key);
    }
  }

  /** What one append leaves behind, member by member. */
  lemma AppendShape(existing: Option<Json>, data: Json, retention: Retention, stamp: string, now: Option<int>)
    requires AppendEntry(existing, data, retention, stamp, now).Ok?
    ensures existing.Some? ==> IsLog(existing.value)
    ensures var v := AppendEntry(existing, data, retention, stamp, now).value;
      var before := EntriesIn(existing);
      && v.Object? && IsLog(v) && Get(v, "entries") == Some(Array(Entries(v)))
      && Pruned(before + [MakeEntry(NextId(before), data, stamp, now)], retention, now) == Some(Entries(v))
      && RecordsCaps(v, retention) && OtherMembersStay(existing, v)
      && StoredRetention(v) == (if retention == Retention(None, None) then None else Some(retention))
  {
    var fields := LogFields(existing, retention).value;
    var v := AppendEntry(existing, data, retention, stamp, now).value;
    LogFieldsMember(existing, retention, ENTRIES_KEY);
    LogFieldsMember(existing, retention, RETENTION_KEY);
    LogFieldsMember(existing, retention, KIND_KEY);
    var before := EntriesIn(existing);
    var kept := Pruned(before + [MakeEntry(NextId(before), data, stamp, now)], retention, now).value;
    assert v == Object(Put(fields, ENTRIES_KEY, Array(kept)));
    forall key ensures Get(v, key) == if key == "entries" then Some(Array(kept)) else Lookup(fields, key) {
      LookupPut(fields, ENTRIES_KEY, Array(kept), key);
    }
    forall key | key != "_kind" && key != "_retention" && key != "entries"
      ensures Get(v, key) == if existing.Some? then Get(existing.value, key) else None
    {
      LogFieldsMember(existing, retention, key);
    }
    RetentionRoundTrip(retention);
  }

  /** The member `key` of a recorded policy, when it is a number of 64 bits. */
  predicate CapIs(policy: Json, key: string, cap: Option<u64>) {
    var member := Get(policy, key);
    if member.Some? && member.value.Number? && 0 <= member.value.n < 0x1_0000_0000_0000_0000
    then cap == Some(member.value.n) else cap == None
  }

  predicate StoredPolicy(existing: Option<Json>, r: Retention) {
    if existing.Some? && Get(existing.value, "_retention").Some? then
      var policy := Get(existing.value, "_retention").value;
      CapIs(policy, "max_entries", r.maxEntries) && CapIs(policy, "max_age_days", r.maxAgeDays)
    else r == Retention(None, None)
  }

  /** The policy an append names comes first, then the one the log records if it has a cap at all,
      then 200 entries; the log records it. */
  lemma PolicyInForce(existing: Option<Json>, a: AppendArgs, stored: Retention)
    requires AppendTo(existing, a).Ok? && StoredPolicy(existing, stored)
    ensures var r := if a.retention.Some? then a.retention.value
                     else if stored != Retention(None, None) then stored
                     else Retention(Some(200), None);
      Effective(a.retention, existing) == r && RecordsCaps(AppendTo(existing, a).value, r)
  {
    AppendShape(existing, a.data, Effective(a.retention, existing), a.stamp, Some(a.now));
  }

  lemma {:induction false} MaxIdOfAscending(entries: seq<Json>)
    requires forall i :: 0 <= i < |entries| ==> IdOf(entries[i]).Some?
    requires forall i, j :: 0 <= i < j < |entries| ==> IdOf(entries[i]).value < IdOf(entries[j]).value
    ensures entries != [] ==> MaxId(entries) == IdOf(entries[|entries| - 1])
    ensures entries == [] ==> MaxId(entries) == None
  {
    if |entries| > 1 {
      var rest := entries[1..];
      assert rest[|rest| - 1] == entries[|entries| - 1];
      MaxIdOfAscending(rest);
    } else if |entries| == 1 {
      assert MaxId(entries[1..]) == None;
    }
  }

  predicate Ascends(entries: seq<Json>, bound: int) {
    && (forall i :: 0 <= i < |entries| ==> IdOf(entries[i]).Some? && bound < IdOf(entries[i]).value)
    && (forall i, j :: 0 <= i < j < |entries| ==> IdOf(entries[i]).value < IdOf(entries[j]).value)
  }

  lemma AscendsCons(first: Json, rest: seq<Json>, bound: int)
    requires IdOf(first).Some? && bound < IdOf(first).value && Ascends(rest, IdOf(first).value)
    ensures Ascends([first] + rest, bound)
  {
  }

  lemma AscendsTail(entries: seq<Json>, bound: int)
    requires entries != [] && Ascends(entries, bound)
    ensures Ascends(entries[1..], IdOf(entries[0]).value)
  {
    var rest := entries[1..];
    forall i | 0 <= i < |rest| ensures IdOf(rest[i]).Some? && IdOf(entries[0]).value < IdOf(rest[i]).value {
      assert rest[i] == entries[i + 1];
    }
  }

  /** Filtering keeps the order. */
  lemma {:induction false} FilterAscends(p: Json -> bool, entries: seq<Json>, bound: int)
    requires Ascends(entries, bound)
    ensures Ascends(Filter(p, entries), bound)
  {
    if entries != [] {
      var rest := entries[1..];
      AscendsTail(entries, bound);
      FilterAscends(p, rest, IdOf(entries[0]).value);
      if p(entries[0]) {
        AscendsCons(entries[0], Filter(p, rest), bound);
      }
    }
  }

  lemma AgeKeepsHistory(entries: seq<Json>, appends: seq<AppendArgs>, cutoff: int)
    requires 0 < |appends| <= TWO_64
    requires FromHistory(entries, appends) && Young(entries[|entries| - 1], cutoff)
    ensures FromHistory(Filter(e => Young(e, cutoff), entries), appends)
  {
    var young := Filter(e => Young(e, cutoff), entries);
    assert Ascends(entries, -1);
    FilterAscends(e => Young(e, cutoff), entries, -1);
    FilterLast(e => Young(e, cutoff), entries);
    forall i | 0 <= i < |young|
      ensures IdOf(young[i]).value < |appends| && IsEntry(young[i], IdOf(young[i]).value, appends[IdOf(young[i]).value])
    {
      assert young[i] in entries;
    }
  }

  lemma CountKeepsHistory(entries: seq<Json>, appends: seq<AppendArgs>, maxEntries: Option<u64>)
    requires 0 < |appends| <= TWO_64
    requires FromHistory(entries, appends)
    ensures FromHistory(PruneByCount(entries, maxEntries), appends)
  {
    var k := CountSuffix(entries, 0, maxEntries);
    assert entries[0..] == entries;
    SuffixKeepsHistory(entries, appends, k);
  }

  lemma SuffixKeepsHistory(entries: seq<Json>, appends: seq<AppendArgs>, k: nat)
    requires 0 < |appends| <= TWO_64 && k < |entries|
    requires FromHistory(entries, appends)
    ensures FromHistory(entries[k..], appends)
  {
    var kept := entries[k..];
    assert forall i :: 0 <= i < |kept| ==> kept[i] == entries[k + i];
  }

  lemma PruneKeepsHistory(entries: seq<Json>, appends: seq<AppendArgs>, retention: Retention, now: int)
    requires 0 < |appends| <= TWO_64
    requires FromHistory(entries, appends) && InstantOf(entries[|entries| - 1]) == Some(now)
    requires AgeInRange(retention)
    requires Pruned(entries, retention, Some(now)).Some?
    ensures FromHistory(Pruned(entries, retention, Some(now)).value, appends)
  {
    if retention.maxAgeDays.Some? {
      AgeKeepsHistory(entries, appends, Cutoff(retention.maxAgeDays.value, now).value);
    }
    CountKeepsHistory(PruneByAge(entries, retention.maxAgeDays, Some(now)).value, appends, retention.maxEntries);
  }

  lemma ExtendHistory(entries: seq<Json>, appends: seq<AppendArgs>, a: AppendArgs)
    requires |appends| < TWO_64
    requires FromHistory(entries, appends)
    requires appends == [] ==> entries == []
    ensures FromHistory(entries + [EntryFor(NextId(entries), a)], appends + [a])
  {
    MaxIdOfAscending(entries);
    assert NextId(entries) == |appends|;
    EntryParts(|appends|, a);
    var more := appends + [a];
    forall i | 0 <= i < |entries| ensures IsEntry(entries[i], IdOf(entries[i]).value, more[IdOf(entries[i]).value]) {
      assert more[IdOf(entries[i]).value] == appends[IdOf(entries[i]).value];
    }
    assert more[|appends|] == a;
  }

  predicate StoredInRange(v: Option<Json>) {
    v.Some? && StoredRetention(v.value).Some? ==> AgeInRange(StoredRetention(v.value).value)
  }

  /** One append to a log whose ids count its appends. */
  lemma LogIdsStep(before: Option<Json>, init: seq<AppendArgs>, a: AppendArgs)
    requires |init| < TWO_64 && FromHistory(EntriesIn(before), init) && (init == [] ==> EntriesIn(before) == [])
    requires StoredInRange(before) && OverrideInRange(a) && AppendTo(before, a).Ok?
    ensures var v := AppendTo(before, a).value;
      IsLog(v) && FromHistory(Entries(v), init + [a]) && StoredInRange(Some(v))
  {
    var effective := Effective(a.retention, before);
    var entries := EntriesIn(before);
    AppendShape(before, a.data, effective, a.stamp, Some(a.now));
    ExtendHistory(entries, init, a);
    var id := NextId(entries);
    EntryParts(id, a);
    PruneKeepsHistory(entries + [EntryFor(id, a)], init + [a], effective, a.now);
  }

  /** Ids: entry `id` is the one made by append number `id`; ids strictly increase, are never
      reused after pruning, and the newest entry is always kept. */
  lemma {:induction false} LogIds(appends: seq<AppendArgs>)
    requires 0 < |appends| <= TWO_64
    requires AppendAll(appends).Ok?
    requires forall i :: 0 <= i < |appends| ==> OverrideInRange(appends[i])
    ensures var v := AppendAll(appends).value;
      v.Some? && IsLog(v.value) && FromHistory(Entries(v.value), appends) && StoredInRange(v)
  {
    var init, a := appends[..|appends| - 1], appends[|appends| - 1];
    assert forall i :: 0 <= i < |init| ==> init[i] == appends[i];
    if init != [] {
      LogIds(init);
    }
    LogIdsStep(AppendAll(init).value, init, a);
    InitAndLast(appends);
  }

  lemma NewestYoung(before: seq<Json>, newest: Json, maxAgeDays: Option<u64>, now: int)
    requires InstantOf(newest) == Some(now) && PruneByAge(before + [newest], maxAgeDays, Some(now)).Some?
    ensures var young := PruneByAge(before + [newest], maxAgeDays, Some(now)).value;
      exists older :: Older(older, before)
        && young == older + if AgeInRange(Retention(None, maxAgeDays)) then [newest] else []
  {
    if maxAgeDays.Some? {
      var cutoff := Cutoff(maxAgeDays.value, now).value;
      FilterConcat(e => Young(e, cutoff), before, [newest]);
      assert Young(newest, cutoff) <==> AgeInRange(Retention(None, maxAgeDays));
      assert Older(Filter(e => Young(e, cutoff), before), before);
    } else {
      assert Older(before, before);
    }
  }

  predicate Older(older: seq<Json>, before: seq<Json>) {
    forall i :: 0 <= i < |older| ==> older[i] in before
  }

  lemma NewestPruned(before: seq<Json>, newest: Json, retention: Retention, now: int)
    requires InstantOf(newest) == Some(now) && Pruned(before + [newest], retention, Some(now)).Some?
    ensures var kept := Pruned(before + [newest], retention, Some(now)).value;
      if AgeInRange(retention) then
        kept != [] && kept[|kept| - 1] == newest && forall i :: 0 <= i < |kept| - 1 ==> kept[i] in before
      else forall e :: e in kept ==> e in before
  {
    NewestYoung(before, newest, retention.maxAgeDays, now);
    var young := PruneByAge(before + [newest], retention.maxAgeDays, Some(now)).value;
    var older :| Older(older, before) && young == older + if AgeInRange(retention) then [newest] else [];
    var k := CountSuffix(young, 0, retention.maxEntries);
    assert young[0..] == young;
  }

  /** The newest entry survives an append exactly when the age cap is in range. It is then the
      last one, carries the payload, the next id and the stamp of the append, and all others were
      there before; otherwise nothing but what was there before is left. */
  lemma NewestKeptIff(existing: Option<Json>, a: AppendArgs)
    requires AppendTo(existing, a).Ok?
    ensures var before, after := EntriesIn(existing), Entries(AppendTo(existing, a).value);
      if AgeInRange(Effective(a.retention, existing)) then
        && after != [] && IsEntry(after[|after| - 1], NextId(before), a)
        && forall i :: 0 <= i < |after| - 1 ==> after[i] in before
      else forall e :: e in after ==> e in before
  {
    var before, effective := EntriesIn(existing), Effective(a.retention, existing);
    AppendShape(existing, a.data, effective, a.stamp, Some(a.now));
    EntryParts(NextId(before), a);
    NewestPruned(before, EntryFor(NextId(before), a), effective, a.now);
  }

  /** `v` is the log `existing`, or a fresh one, after the append: it records the policy, keeps its
      other members, and holds no more entries than allowed, the newest being that of the append. */
  ghost predicate AppendedTo(existing: Option<Json>, a: AppendArgs, v: Json) {
    var r := Effective(a.retention, existing);
    && MarkedLog(v) && Get(v, "entries") == Some(Array(Entries(v)))
    && RecordsCaps(v, r) && OtherMembersStay(existing, v)
    && (r.maxEntries.Some? ==> |Entries(v)| <= r.maxEntries.value || |Entries(v)| <= 1)
    && (if AgeInRange(r) then EndsWith(Entries(v), EntriesIn(existing), a)
        else forall e :: e in Entries(v) ==> e in EntriesIn(existing))
  }

  predicate EndsWith(entries: seq<Json>, before: seq<Json>, a: AppendArgs) {
    && entries != [] && IsEntry(entries[|entries| - 1], NextId(before), a)
    && forall i :: 0 <= i < |entries| - 1 ==> entries[i] in before
  }

  lemma AppendLeaves(existing: Option<Json>, a: AppendArgs)
    requires AppendTo(existing, a).Ok?
    ensures AppendedTo(existing, a, AppendTo(existing, a).value)
  {
    AppendShape(existing, a.data, Effective(a.retention, existing), a.stamp, Some(a.now));
    NewestKeptIff(existing, a);
  }

  /** The age range is needed: 2^64 - 1 days is read as -1, the cutoff falls a day in the
      future, an append drops its own entry and the next one reuses its id. */
  lemma WrappedAgeLosesTheNewest(data: Json, stamp: string)
    ensures var r := Retention(None, Some(0xFFFF_FFFF_FFFF_FFFF));
      var one := AppendArgs(data, Some(r), stamp, 0);
      !AgeInRange(r) && AppendAll([one]).Ok? && AppendAll([one]).value.Some?
      && Entries(AppendAll([one]).value.value) == []
      && NextId(Entries(AppendAll([one]).value.value)) == 0
  {
    var r := Retention(None, Some(0xFFFF_FFFF_FFFF_FFFF));
    var one := AppendArgs(data, Some(r), stamp, 0);
    assert [one][..0] == [];
    assert Cutoff(0xFFFF_FFFF_FFFF_FFFF, 0) == Some(NANOS_PER_DAY);
    LogFieldsMember(None, r, ENTRIES_KEY);
    assert AppendTo(None, one).Ok?;
    var after := Entries(AppendTo(None, one).value);
    assert after == [] || after[0] in after;
    NewestKeptIff(None, one);
  }

  // ---------- A fixed policy ----------

  /** Every append follows the policy `r`, by its own choice or because the log records it. */
  predicate FixedPolicy(appends: seq<AppendArgs>, r: Retention) {
    forall i :: 0 <= i < |appends| ==>
      || appends[i].retention == Some(r)
      || (appends[i].retention == None && (i > 0 || r == Retention(Some(200), None)))
  }

  /** The clock never ran backwards; without an age cap it does not matter. */
  predicate InOrder(appends: seq<AppendArgs>, r: Retention) {
    r.maxAgeDays.Some? ==> forall i, j :: 0 <= i <= j < |appends| ==> appends[i].now <= appends[j].now
  }

  /** Append number `j` is within both caps right after the last one. */
  predicate Kept(appends: seq<AppendArgs>, r: Retention, j: nat)
    requires j < |appends|
  {
    && (r.maxEntries.Some? ==> |appends| - j <= r.maxEntries.value || |appends| - j <= 1)
    && (r.maxAgeDays.Some? ==>
          appends[|appends| - 1].now - r.maxAgeDays.value * 86_400_000_000_000 <= appends[j].now)
  }

  /** The entries made by the appends from number `from` on, in order. */
  predicate IsWindow(entries: seq<Json>, appends: seq<AppendArgs>, from: nat) {
    && from <= |appends|
    && |entries| == |appends| - from
    && (forall i :: 0 <= i < |entries| ==> IsEntry(entries[i], from + i, appends[from + i]))
  }

  /** The window starts with the first append that is kept. */
  predicate FromFirstKept(appends: seq<AppendArgs>, r: Retention, from: nat) {
    && from < |appends|
    && (forall j: nat :: j < |appends| ==> (Kept(appends, r, j) <==> from <= j))
  }

  lemma WindowNextId(entries: seq<Json>, appends: seq<AppendArgs>, from: nat)
    requires |appends| < TWO_64 && IsWindow(entries, appends, from) && (appends != [] ==> from < |appends|)
    ensures NextId(entries) == |appends|
  {
    forall i | 0 <= i < |entries| ensures IdOf(entries[i]) == Some(from + i) {
      EntryReads(entries[i], from + i, appends[from + i]);
    }
    MaxIdOfAscending(entries);
  }

  lemma WindowExtends(entries: seq<Json>, init: seq<AppendArgs>, a: AppendArgs, from: nat)
    requires |init| < TWO_64 && IsWindow(entries, init, from)
    ensures IsWindow(entries + [EntryFor(|init|, a)], init + [a], from)
  {
    var more := init + [a];
    EntryParts(|init|, a);
    forall i | 0 <= i < |entries| ensures IsEntry(entries[i], from + i, more[from + i]) {
      assert more[from + i] == init[from + i];
    }
    assert more[|init|] == a;
  }

  lemma WindowSuffix(all: seq<Json>, appends: seq<AppendArgs>, from: nat, k: nat)
    requires IsWindow(all, appends, from) && k <= |all|
    ensures IsWindow(all[k..], appends, from + k)
  {
  }

  lemma WindowStamped(all: seq<Json>, appends: seq<AppendArgs>, r: Retention, from: nat)
    requires |appends| <= TWO_64 && InOrder(appends, r) && IsWindow(all, appends, from)
    ensures r.maxAgeDays.Some? ==> Stamped(all)
    ensures forall i :: 0 <= i < |all| ==> InstantOf(all[i]) == Some(appends[from + i].now)
  {
    forall i | 0 <= i < |all| ensures InstantOf(all[i]) == Some(appends[from + i].now) {
      EntryReads(all[i], from + i, appends[from + i]);
    }
  }

  /** A suffix of the window is admissible exactly when its first append is kept. */
  lemma AdmissibleMeansKept(all: seq<Json>, appends: seq<AppendArgs>, r: Retention, from: nat, k: nat)
    requires |appends| <= TWO_64 && InOrder(appends, r) && IsWindow(all, appends, from) && AgeInRange(r)
    requires k < |all|
    ensures Admissible(all[k..], r, appends[|appends| - 1].now) <==> Kept(appends, r, from + k)
  {
    WindowStamped(all, appends, r, from);
    var now, rest := appends[|appends| - 1].now, all[k..];
    assert forall i :: 0 <= i < |rest| ==> rest[i] == all[k + i];
    if r.maxAgeDays.Some? {
      assert Within(rest[0], r.maxAgeDays.value, now) <==> now - r.maxAgeDays.value * NANOS_PER_DAY <= appends[from + k].now;
      forall i | 0 <= i < |rest| ensures Within(rest[0], r.maxAgeDays.value, now) ==> Within(rest[i], r.maxAgeDays.value, now) {
        assert appends[from + k].now <= appends[from + k + i].now;
      }
    }
  }

  lemma KeptIsUpward(appends: seq<AppendArgs>, r: Retention, i: nat, j: nat)
    requires InOrder(appends, r) && i <= j < |appends| && Kept(appends, r, i)
    ensures Kept(appends, r, j)
  {
  }

  /** What was dropped stays dropped. */
  lemma DroppedStays(init: seq<AppendArgs>, a: AppendArgs, r: Retention, j: nat)
    requires InOrder(init + [a], r) && j < |init| && !Kept(init, r, j)
    ensures !Kept(init + [a], r, j)
  {
    var more := init + [a];
    assert more[|init| - 1] == init[|init| - 1] && more[|init|] == a && more[j] == init[j];
  }

  /** One append and its pruning slide the window to the first append that is kept. */
  lemma WindowSlides(entries: seq<Json>, init: seq<AppendArgs>, a: AppendArgs, r: Retention, from: nat)
    returns (next: nat)
    requires |init| < TWO_64 && InOrder(init + [a], r) && AgeInRange(r) && IsWindow(entries, init, from)
    requires if init == [] then from == 0 else FromFirstKept(init, r, from)
    requires Pruned(entries + [EntryFor(NextId(entries), a)], r, Some(a.now)).Some?
    ensures FromFirstKept(init + [a], r, next)
    ensures IsWindow(Pruned(entries + [EntryFor(NextId(entries), a)], r, Some(a.now)).value, init + [a], next)
  {
    var more := init + [a];
    WindowNextId(entries, init, from);
    WindowExtends(entries, init, a, from);
    var all := entries + [EntryFor(|init|, a)];
    WindowStamped(all, more, r, from);
    var k := PrunedIsLongestSuffix(all, r, a.now);
    next := from + k;
    WindowSuffix(all, more, from, k);
    assert Kept(more, r, |init|);
    if k == |all| {
      AdmissibleMeansKept(all, more, r, from, k - 1);
    }
    forall j: nat | j < |more| ensures Kept(more, r, j) <==> next <= j {
      if j < from {
        DroppedStays(init, a, r, j);
      } else {
        AdmissibleMeansKept(all, more, r, from, j - from);
        AdmissibleMeansKept(all, more, r, from, k);
        if next <= j {
          KeptIsUpward(more, r, next, j);
        }
      }
    }
  }

  /** The policy the log records after an append that follows it. */
  predicate Follows(v: Option<Json>, r: Retention) {
    v.Some? && StoredRetention(v.value) == if r == Retention(None, None) then None else Some(r)
  }

  /** One more append under the policy. */
  lemma PolicyStep(before: Option<Json>, init: seq<AppendArgs>, a: AppendArgs, r: Retention, from: nat) returns (next: nat)
    requires |init| < TWO_64 && InOrder(init + [a], r) && AgeInRange(r) && IsWindow(EntriesIn(before), init, from)
    requires if init == [] then from == 0 else FromFirstKept(init, r, from)
    requires Effective(a.retention, before) == r && AppendTo(before, a).Ok?
    ensures var v := AppendTo(before, a).value;
      && Get(v, "entries") == Some(Array(Entries(v))) && Follows(Some(v), r)
      && FromFirstKept(init + [a], r, next) && IsWindow(Entries(v), init + [a], next)
  {
    AppendShape(before, a.data, r, a.stamp, Some(a.now));
    next := WindowSlides(EntriesIn(before), init, a, r, from);
  }

  /** Under one policy a log holds exactly the entries of the appends that are within both caps
      right after the last append, from the first of these on, in commit order. */
  lemma {:induction false} RetentionWindow(appends: seq<AppendArgs>, r: Retention) returns (from: nat)
    requires 0 < |appends| <= TWO_64 && AppendAll(appends).Ok?
    requires FixedPolicy(appends, r) && r != Retention(None, None) && AgeInRange(r) && InOrder(appends, r)
    ensures var v := AppendAll(appends).value;
      && v.Some? && Get(v.value, "entries") == Some(Array(Entries(v.value))) && Follows(v, r)
      && FromFirstKept(appends, r, from) && IsWindow(Entries(v.value), appends, from)
  {
    var init, a := appends[..|appends| - 1], appends[|appends| - 1];
    assert forall i :: 0 <= i < |init| ==> init[i] == appends[i];
    var earlier: nat := 0;
    if init != [] {
      earlier := RetentionWindow(init, r);
    }
    assert init + [a] == appends;
    from := PolicyStep(AppendAll(init).value, init, a, r, earlier);
  }

  function LastOf(k: nat, m: u64): nat {
    if m == 0 && k > 0 then 1 else if m < k then m else k
  }

  lemma CountedStart(appends: seq<AppendArgs>, m: u64, from: nat)
    requires FromFirstKept(appends, Retention(Some(m), None), from)
    ensures from == |appends| - LastOf(|appends|, m)
  {
    var r, start := Retention(Some(m), None), |appends| - LastOf(|appends|, m);
    assert Kept(appends, r, start);
    if start > 0 {
      assert !Kept(appends, r, start - 1);
    }
  }

  /** The payloads and the ids of these entries. */
  predicate HoldPayloads(entries: seq<Json>, appends: seq<AppendArgs>, from: nat) {
    && |entries| + from == |appends|
    && forall i :: 0 <= i < |entries| ==>
         && Get(entries[i], "data") == Some(appends[from + i].data)
         && Get(entries[i], "id") == Some(Number(from + i))
  }

  /** With a fixed count cap m and no age cap a log of k appends holds exactly the payloads of the
      last min(k, max(1, m)), in commit order. */
  lemma FixedCountWindow(appends: seq<AppendArgs>, m: u64)
    requires 0 < |appends| <= TWO_64
    requires FixedPolicy(appends, Retention(Some(m), None)) && AppendAll(appends).Ok?
    ensures var v := AppendAll(appends).value;
      && v.Some? && Get(v.value, "entries") == Some(Array(Entries(v.value)))
      && |Entries(v.value)| == (if m == 0 then 1 else if m < |appends| then m else |appends|)
      && HoldPayloads(Entries(v.value), appends, |appends| - |Entries(v.value)|)
  {
    var from := RetentionWindow(appends, Retention(Some(m), None));
    CountedStart(appends, m, from);
    assert HoldPayloads(Entries(AppendAll(appends).value.value), appends, from);
  }

  // ---------- Members in order ----------

  lemma LogFieldsCanonical(existing: Option<Json>, retention: Retention)
    requires existing.Some? ==> Canonical(existing.value)
    requires LogFields(existing, retention).Ok?
    ensures Canonical(Object(LogFields(existing, retention).value))
  {
    RetentionCanonical(retention);
    if existing.Some? {
      PutCanonical(existing.value.fields, RETENTION_KEY, RetentionToJson(retention));
    } else {
      LessAt(KIND_KEY, RETENTION_KEY, 1);
      LessAt(RETENTION_KEY, ENTRIES_KEY, 0);
      LessAt(KIND_KEY, ENTRIES_KEY, 0);
    }
  }

  lemma RetentionCanonical(r: Retention)
    ensures Canonical(RetentionToJson(r))
  {
    LessAt("max_age_days", "max_entries", 4);
  }

  lemma EntryCanonical(id: u64, data: Json, stamp: string, now: Option<int>)
    requires Canonical(data)
    ensures Canonical(MakeEntry(id, data, stamp, now))
  {
    LessAt("data", "id", 0);
    LessAt("id", "ts", 0);
    LessAt("data", "ts", 0);
  }

  /** An append to a log with members in order leaves one, each member once, all the way down. */
  lemma AppendCanonical(existing: Option<Json>, a: AppendArgs)
    requires existing.Some? ==> Canonical(existing.value)
    requires Canonical(a.data) && AppendTo(existing, a).Ok?
    ensures Canonical(AppendTo(existing, a).value)
  {
    var retention := Effective(a.retention, existing);
    var fields := LogFields(existing, retention).value;
    LogFieldsCanonical(existing, retention);
    CanonicalMember(fields, ENTRIES_KEY);
    var items := Lookup(fields, ENTRIES_KEY).value.items;
    var newest := MakeEntry(NextId(items), a.data, a.stamp, Some(a.now));
    EntryCanonical(NextId(items), a.data, a.stamp, Some(a.now));
    assert AllCanonical(items + [newest]);
    var kept := Pruned(items + [newest], retention, Some(a.now)).value;
    assert AllCanonical(kept);
    PutCanonical(fields, ENTRIES_KEY, Array(kept));
  }
}
