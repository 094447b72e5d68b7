/** The file names of categories and how a directory listing is read back
    (src/store/atomic_json.rs: json_path, stage, stage_delete, pending_names,
    json_names, files_with_prefix). */
module FileNames {
  import opened Values
  import opened Operations
  import opened Sorting

  const STAGED_MARK := ".json.new."
  const DELETED_MARK := ".json.deleted."
  const EXTENSION := ".json"

  /** A file of the categories directory; the suffix is unique to its transaction. */
  datatype File = FinalFile(name: string) | StagedFile(name: string, suffix: string) | ParkedFile(name: string, suffix: string)

  function FileName(f: File): string {
    match f
    case FinalFile(name) => name + EXTENSION
    case StagedFile(name, suffix) => name + STAGED_MARK + suffix
    case ParkedFile(name, suffix) => name + DELETED_MARK + suffix
  }

  predicate OccursAt(s: string, mark: string, i: nat) {
    i + |mark| <= |s| && s[i..i + |mark|] == mark
  }

  ghost predicate Occurs(s: string, mark: string) {
    exists i: nat :: OccursAt(s, mark, i)
  }

  /** `find`: the first occurrence at or after `from`. */
  function Find(s: string, mark: string, from: nat): (r: Option<nat>)
    ensures r.Some? ==> from <= r.value && OccursAt(s, mark, r.value)
    ensures r.Some? ==> forall j: nat :: from <= j < r.value ==> !OccursAt(s, mark, j)
    ensures r.None? ==> forall j: nat :: from <= j ==> !OccursAt(s, mark, j)
    decreases |s| - from
  {
    if |s| < from + |mark| || |s| <= from then (if OccursAt(s, mark, from) then Some(from) else None)
    else if OccursAt(s, mark, from) then Some(from)
    else Find(s, mark, from + 1)
  }

  // ---------- Reading names back ----------

  predicate HasExtension(s: string) {
    |EXTENSION| <= |s| && s[|s| - |EXTENSION|..] == EXTENSION
  }

  /** The category of a final file, as `json_names` sees it. */
  function JsonName(fname: string): Option<string> {
    if Find(fname, STAGED_MARK, 0).Some? || Find(fname, DELETED_MARK, 0).Some? then None
    else if HasExtension(fname) then Some(fname[..|fname| - |EXTENSION|])
    else None
  }

  /** The category of a staged or parked file, as `pending_names` sees it. */
  function PendingName(fname: string): Option<string> {
    match Find(fname, STAGED_MARK, 0)
    case Some(i) => Some(fname[..i])
    case None =>
      match Find(fname, DELETED_MARK, 0)
      case Some(i) => Some(fname[..i])
      case None => None
  }

  // ---------- Which names are safe ----------

  /** No mark ends inside the name or at the dot that follows it. */
  ghost predicate Safe(name: string) {
    !Occurs(name + ".", STAGED_MARK) && !Occurs(name + ".", DELETED_MARK)
  }

  predicate IsMark(mark: string) {
    mark == STAGED_MARK || mark == DELETED_MARK
  }

  lemma OccursInPrefix(s: string, rest: string, mark: string, i: nat)
    requires i + |mark| <= |s|
    ensures OccursAt(s + rest, mark, i) <==> OccursAt(s, mark, i)
  {
    assert (s + rest)[i..i + |mark|] == s[i..i + |mark|];
  }

  lemma CharOf(s: string, mark: string, i: nat, k: nat)
    requires OccursAt(s, mark, i) && k < |mark|
    ensures s[i + k] == mark[k]
  {
    assert s[i..i + |mark|][k] == s[i + k];
  }

  /** A mark ends with a dot, and the suffix has none. */
  lemma EndsBeforeSuffix(name: string, mark: string, suffix: string, other: string, i: nat)
    requires IsMark(other) && '.' !in suffix && OccursAt(name + mark + suffix, other, i)
    ensures i + |other| <= |name| + |mark|
  {
    var s := name + mark + suffix;
    CharOf(s, other, i, |other| - 1);
    assert forall k :: 0 <= k < |suffix| ==> s[|name| + |mark| + k] == suffix[k];
  }

  lemma EndsBehindName(name: string, mark: string, suffix: string, other: string, i: nat)
    requires IsMark(mark) && !Occurs(name + ".", other) && OccursAt(name + mark + suffix, other, i)
    ensures |name| + 1 < i + |other|
  {
    assert name + mark + suffix == (name + ".") + (mark[1..] + suffix);
    if i + |other| <= |name| + 1 {
      OccursInPrefix(name + ".", mark[1..] + suffix, other, i);
    }
  }

  /** Marks start and end with a dot and overlap each other only there: behind a safe name the
      only mark is the one written. */
  lemma OnlyTheWrittenMark(name: string, mark: string, suffix: string, other: string, i: nat)
    requires IsMark(mark) && IsMark(other) && '.' !in suffix
    requires !Occurs(name + ".", other)
    requires OccursAt(name + mark + suffix, other, i)
    ensures i == |name| && other == mark
  {
    EndsBeforeSuffix(name, mark, suffix, other, i);
    EndsBehindName(name, mark, suffix, other, i);
    OverlapIsWhole(name, mark, suffix, other, i);
  }

  lemma OverlapIsWhole(name: string, mark: string, suffix: string, other: string, i: nat)
    requires IsMark(mark) && IsMark(other)
    requires OccursAt(name + mark + suffix, other, i) && |name| + 1 < i + |other| <= |name| + |mark|
    ensures i == |name| && other == mark
  {
    var s := name + mark + suffix;
    var l := i + |other| - |name|;
    CharOf(s, other, i, |other| - 1);
    assert forall k :: |name| <= k < |name| + |mark| ==> s[k] == mark[k - |name|];
    assert s[i + |other| - 1] == mark[l - 1] == '.';
    assert l == 6 || l == |mark|;
    CharOf(s, other, i, 0);
    assert i <= |name|;
    CharOf(s, other, i, |name| - i);
  }

  // ---------- Decoding one name ----------

  lemma WrittenMarkOccurs(name: string, mark: string, suffix: string)
    ensures OccursAt(name + mark + suffix, mark, |name|)
  {
    assert (name + mark + suffix)[|name|..|name| + |mark|] == mark;
  }

  /** A mark in a final name ends with the name or at the dot of the extension. */
  lemma MarksInFinalName(name: string, mark: string)
    requires IsMark(mark)
    ensures Occurs(name + EXTENSION, mark) <==> Occurs(name + ".", mark)
  {
    var s := name + EXTENSION;
    assert s == (name + ".") + EXTENSION[1..];
    forall i: nat ensures OccursAt(s, mark, i) <==> OccursAt(name + ".", mark, i) {
      if OccursAt(s, mark, i) {
        CharOf(s, mark, i, |mark| - 1);
        assert s[i + |mark| - 1] == '.';
        assert forall k :: 0 <= k < |EXTENSION| ==> s[|name| + k] == EXTENSION[k];
        assert i + |mark| <= |name| + 1;
      }
      if i + |mark| <= |name| + 1 {
        OccursInPrefix(name + ".", EXTENSION[1..], mark, i);
      }
    }
    if i: nat :| OccursAt(s, mark, i) {
      assert OccursAt(name + ".", mark, i);
    }
    if i: nat :| OccursAt(name + ".", mark, i) {
      assert OccursAt(s, mark, i);
    }
  }

  /** A final file is listed under its own name exactly when the name is safe. */
  lemma FinalNameDecodes(name: string)
    ensures JsonName(FileName(FinalFile(name))) == Some(name) <==> Safe(name)
    ensures !Safe(name) ==> JsonName(FileName(FinalFile(name))) == None
    ensures Safe(name) ==> PendingName(FileName(FinalFile(name))) == None
  {
    var s := FileName(FinalFile(name));
    MarksInFinalName(name, STAGED_MARK);
    MarksInFinalName(name, DELETED_MARK);
    assert s[|s| - |EXTENSION|..] == EXTENSION;
    assert s[..|s| - |EXTENSION|] == name;
  }

  lemma FirstMark(name: string, mark: string, suffix: string)
    requires IsMark(mark) && '.' !in suffix && Safe(name)
    ensures Find(name + mark + suffix, mark, 0) == Some(|name|)
    ensures forall other :: IsMark(other) && other != mark ==> Find(name + mark + suffix, other, 0) == None
  {
    var s := name + mark + suffix;
    WrittenMarkOccurs(name, mark, suffix);
    forall other, i: nat | IsMark(other) && OccursAt(s, other, i) ensures i == |name| && other == mark {
      OnlyTheWrittenMark(name, mark, suffix, other, i);
    }
  }

  lemma MarkInsideName(name: string, mark: string, suffix: string, other: string, i: nat)
    requires IsMark(mark) && IsMark(other) && OccursAt(name + ".", other, i)
    ensures OccursAt(name + mark + suffix, other, i) && i < |name|
  {
    assert name + mark + suffix == (name + ".") + (mark[1..] + suffix);
    OccursInPrefix(name + ".", mark[1..] + suffix, other, i);
  }

  /** A staged or parked file of a safe name is attributed to that name and listed as no final
      file; a parked file is attributed to its name only if the name is safe. */
  lemma PendingNameDecodes(name: string, mark: string, suffix: string)
    requires IsMark(mark) && '.' !in suffix
    ensures Safe(name) ==> PendingName(name + mark + suffix) == Some(name)
    ensures JsonName(name + mark + suffix) == None
    ensures mark == DELETED_MARK && !Safe(name) ==> PendingName(name + mark + suffix) != Some(name)
    ensures mark == STAGED_MARK ==>
      (PendingName(name + mark + suffix) == Some(name) <==> !Occurs(name + ".", STAGED_MARK))
  {
    var s := name + mark + suffix;
    WrittenMarkOccurs(name, mark, suffix);
    if Safe(name) {
      FirstMark(name, mark, suffix);
      assert s[..|name|] == name;
    }
    if i: nat :| OccursAt(name + ".", STAGED_MARK, i) {
      MarkInsideName(name, mark, suffix, STAGED_MARK, i);
    } else if mark == STAGED_MARK {
      StagedMarkFirst(name, suffix);
      assert s[..|name|] == name;
    } else if i: nat :| OccursAt(name + ".", DELETED_MARK, i) {
      MarkInsideName(name, mark, suffix, DELETED_MARK, i);
      StagedMarkNotThere(name, suffix);
    }
  }

  lemma StagedMarkFirst(name: string, suffix: string)
    requires '.' !in suffix && !Occurs(name + ".", STAGED_MARK)
    ensures Find(name + STAGED_MARK + suffix, STAGED_MARK, 0) == Some(|name|)
  {
    WrittenMarkOccurs(name, STAGED_MARK, suffix);
    forall i: nat | OccursAt(name + STAGED_MARK + suffix, STAGED_MARK, i) ensures i == |name| {
      OnlyTheWrittenMark(name, STAGED_MARK, suffix, STAGED_MARK, i);
    }
  }

  lemma StagedMarkNotThere(name: string, suffix: string)
    requires '.' !in suffix && !Occurs(name + ".", STAGED_MARK)
    ensures Find(name + DELETED_MARK + suffix, STAGED_MARK, 0) == None
  {
    forall i: nat ensures !OccursAt(name + DELETED_MARK + suffix, STAGED_MARK, i) {
      if OccursAt(name + DELETED_MARK + suffix, STAGED_MARK, i) {
        OnlyTheWrittenMark(name, DELETED_MARK, suffix, STAGED_MARK, i);
      }
    }
  }

  /** Which file names are listed as final files, and of which category. */
  lemma FinalNamesExact(fname: string, name: string)
    ensures FileName(FinalFile(name)) == name + ".json"
    ensures JsonName(fname) == Some(name) <==>
      fname == name + ".json" && !Occurs(fname, ".json.new.") && !Occurs(fname, ".json.deleted.")
  {
    if HasExtension(fname) {
      assert fname == fname[..|fname| - |EXTENSION|] + ".json";
    }
    if fname == name + ".json" {
      assert fname[|fname| - |EXTENSION|..] == EXTENSION && fname[..|fname| - |EXTENSION|] == name;
    }
  }

  predicate FirstAt(s: string, mark: string, i: nat) {
    OccursAt(s, mark, i) && forall j: nat :: j < i ==> !OccursAt(s, mark, j)
  }

  /** Which file names are listed as staged or parked files, and of which category: the text before
      the first mark of a staged file, or, without one, before the first mark of a parked file. */
  lemma PendingNamesExact(fname: string, name: string, suffix: string)
    ensures FileName(StagedFile(name, suffix)) == name + ".json.new." + suffix
    ensures FileName(ParkedFile(name, suffix)) == name + ".json.deleted." + suffix
    ensures PendingName(fname) == Some(name) <==>
      && name <= fname
      && (FirstAt(fname, ".json.new.", |name|)
          || (!Occurs(fname, ".json.new.") && FirstAt(fname, ".json.deleted.", |name|)))
  {
    assert name <= fname <==> |name| <= |fname| && fname[..|name|] == name;
  }

  lemma ShortNamesAreSafe(name: string)
    requires |name| < 9
    ensures Safe(name)
  {
  }

  /** The condition is needed: the final file of "<base>.json.new" has the very name of a staged
      file of <base>, so it is listed as no category and settled as a leftover of another. */
  lemma UnsafeNameIsCaptured(base: string)
    requires Safe(base)
    ensures var name := base + ".json.new";
      && FileName(FinalFile(name)) == FileName(StagedFile(base, "json")) && !Safe(name)
      && JsonName(FileName(FinalFile(name))) == None && PendingName(FileName(FinalFile(name))) == Some(base)
  {
    var name := base + ".json.new";
    assert name + EXTENSION == base + STAGED_MARK + "json";
    assert name + "." == base + STAGED_MARK + "";
    WrittenMarkOccurs(base, STAGED_MARK, "");
    PendingNameDecodes(base, STAGED_MARK, "json");
    FinalNameDecodes(name);
  }

  /** The store accepts such names. */
  lemma UnsafeNamesAreValid()
    ensures Safe("a") && ValidName("a" + ".json.new")
  {
    ShortNamesAreSafe("a");
    var name := "a" + ".json.new";
    assert name == ['a', '.', 'j', 's', 'o', 'n', '.', 'n', 'e', 'w'];
    assert forall i :: 0 <= i < |name| && name[i] == '.' ==> i == 1 || i == 6;
  }

  // ---------- Scanning a directory ----------

  function FinalNames(dir: seq<string>): seq<string> {
    if dir == [] then []
    else
      var last := JsonName(dir[|dir| - 1]);
      FinalNames(dir[..|dir| - 1]) + if last.Some? then [last.value] else []
  }

  function PendingSet(dir: seq<string>): set<string> {
    if dir == [] then {}
    else
      var last := PendingName(dir[|dir| - 1]);
      PendingSet(dir[..|dir| - 1]) + if last.Some? then {last.value} else {}
  }

  function StartingWith(prefix: string): string -> bool {
    (fname: string) => prefix <= fname
  }

  /** `json_names`. */
  method JsonNames(dir: seq<string>) returns (names: seq<string>)
    ensures names == Sort(FinalNames(dir))
  {
    var out: seq<string> := [];
    for i := 0 to |dir|
      invariant out == FinalNames(dir[..i])
    {
      assert dir[..i + 1][..i] == dir[..i];
      if Find(dir[i], STAGED_MARK, 0).None? && Find(dir[i], DELETED_MARK, 0).None? {
        if HasExtension(dir[i]) {
          out := out + [dir[i][..|dir[i]| - |EXTENSION|]];
        }
      }
    }
    assert dir[..|dir|] == dir;
    names := Sort(out);
  }

  /** `pending_names`. */
  method PendingNames(dir: seq<string>) returns (names: set<string>)
    ensures names == PendingSet(dir)
  {
    names := {};
    for i := 0 to |dir|
      invariant names == PendingSet(dir[..i])
    {
      assert dir[..i + 1][..i] == dir[..i];
      var staged := Find(dir[i], STAGED_MARK, 0);
      if staged.Some? {
        names := names + {dir[i][..staged.value]};
      } else {
        var parked := Find(dir[i], DELETED_MARK, 0);
        if parked.Some? {
          names := names + {dir[i][..parked.value]};
        }
      }
    }
    assert dir[..|dir|] == dir;
  }

  /** `files_with_prefix`. */
  method FilesWithPrefix(dir: seq<string>, prefix: string) returns (found: seq<string>)
    ensures found == Sort(Filter(StartingWith(prefix), dir))
  {
    var out: seq<string> := [];
    for i := 0 to |dir|
      invariant out == Filter(StartingWith(prefix), dir[..i])
    {
      FilterOneMore(StartingWith(prefix), dir, i);
      if prefix <= dir[i] {
        out := out + [dir[i]];
      }
    }
    assert dir[..|dir|] == dir;
    found := Sort(out);
  }

  // ---------- A directory of safe names reads back exactly ----------

  ghost predicate WellNamed(f: File) {
    Safe(f.name) && (f.FinalFile? || '.' !in f.suffix)
  }

  function NamesOf(files: seq<File>): seq<string> {
    if files == [] then [] else NamesOf(files[..|files| - 1]) + [FileName(files[|files| - 1])]
  }

  function FinalsOf(files: seq<File>): seq<string> {
    if files == [] then []
    else
      var last := files[|files| - 1];
      FinalsOf(files[..|files| - 1]) + if last.FinalFile? then [last.name] else []
  }

  function PendingOf(files: seq<File>): set<string> {
    set i | 0 <= i < |files| && !files[i].FinalFile? :: files[i].name
  }

  function StagedFor(name: string): File -> bool {
    (f: File) => f.StagedFile? && f.name == name
  }

  function ParkedFor(name: string): File -> bool {
    (f: File) => f.ParkedFile? && f.name == name
  }

  lemma PrefixIsOccurrence(s: string, name: string, mark: string)
    ensures name + mark <= s ==> OccursAt(s, mark, |name|) && s[..|name|] == name
  {
    if name + mark <= s {
      assert s[..|name| + |mark|] == name + mark;
      assert s[|name|..|name| + |mark|] == (name + mark)[|name|..] == mark;
      assert s[..|name|] == (name + mark)[..|name|] == name;
    }
  }

  /** A prefix scan for one category captures no file of another category or kind. */
  lemma NoCrossCapture(f: File, name: string)
    requires WellNamed(f)
    ensures name + STAGED_MARK <= FileName(f) <==> StagedFor(name)(f)
    ensures name + DELETED_MARK <= FileName(f) <==> ParkedFor(name)(f)
  {
    var s := FileName(f);
    PrefixIsOccurrence(s, name, STAGED_MARK);
    PrefixIsOccurrence(s, name, DELETED_MARK);
    match f {
      case FinalFile(_) =>
        MarksInFinalName(f.name, STAGED_MARK);
        MarksInFinalName(f.name, DELETED_MARK);
      case StagedFile(_, suffix) => OwnMarkOnly(f.name, STAGED_MARK, suffix, name);
      case ParkedFile(_, suffix) => OwnMarkOnly(f.name, DELETED_MARK, suffix, name);
    }
  }

  lemma OwnMarkOnly(own: string, mark: string, suffix: string, name: string)
    requires IsMark(mark) && Safe(own) && '.' !in suffix
    ensures forall other :: IsMark(other) ==> (name + other <= own + mark + suffix <==> name == own && other == mark)
  {
    var s := own + mark + suffix;
    forall other | IsMark(other) ensures name + other <= s <==> name == own && other == mark {
      PrefixIsOccurrence(s, name, other);
      if name + other <= s {
        OnlyTheWrittenMark(own, mark, suffix, other, |name|);
        assert s[..|own|] == own;
      }
      if name == own && other == mark {
        assert s[..|own + mark|] == own + mark;
      }
    }
  }

  lemma ScanOneMore(dir: seq<string>, fname: string)
    ensures FinalNames(dir + [fname]) == FinalNames(dir) + if JsonName(fname).Some? then [JsonName(fname).value] else []
    ensures PendingSet(dir + [fname]) == PendingSet(dir) + if PendingName(fname).Some? then {PendingName(fname).value} else {}
  {
    assert (dir + [fname])[..|dir|] == dir;
  }

  lemma PendingOfMore(files: seq<File>)
    requires files != []
    ensures var init, last := files[..|files| - 1], files[|files| - 1];
      PendingOf(files) == PendingOf(init) + if last.FinalFile? then {} else {last.name}
  {
    var init, last := files[..|files| - 1], files[|files| - 1];
    forall n ensures n in PendingOf(files) <==> n in PendingOf(init) || (!last.FinalFile? && n == last.name) {
      if n in PendingOf(init) {
        var i :| 0 <= i < |init| && !init[i].FinalFile? && init[i].name == n;
        assert files[i].name == n;
      }
      if n in PendingOf(files) {
        var i :| 0 <= i < |files| && !files[i].FinalFile? && files[i].name == n;
        assert i < |init| ==> init[i].name == n;
      }
    }
  }

  /** Reading a directory of safe names finds exactly the final files and exactly the
      categories with pending files. */
  lemma {:induction false} DirectoryReadsBack(files: seq<File>)
    requires forall i :: 0 <= i < |files| ==> WellNamed(files[i])
    ensures FinalNames(NamesOf(files)) == FinalsOf(files)
    ensures PendingSet(NamesOf(files)) == PendingOf(files)
  {
    if files != [] {
      var init, last := files[..|files| - 1], files[|files| - 1];
      assert forall i :: 0 <= i < |init| ==> init[i] == files[i];
      DirectoryReadsBack(init);
      ScanOneMore(NamesOf(init), FileName(last));
      LastReadsBack(last);
      PendingOfMore(files);
    }
  }

  /** Scanning it for the staged or the parked files of one category finds exactly its own. */
  lemma {:induction false} PrefixScansReadBack(files: seq<File>, name: string)
    requires forall i :: 0 <= i < |files| ==> WellNamed(files[i])
    ensures Filter(StartingWith(name + STAGED_MARK), NamesOf(files)) == NamesOf(Filter(StagedFor(name), files))
    ensures Filter(StartingWith(name + DELETED_MARK), NamesOf(files)) == NamesOf(Filter(ParkedFor(name), files))
  {
    if files != [] {
      var init, last := files[..|files| - 1], files[|files| - 1];
      assert forall i :: 0 <= i < |init| ==> init[i] == files[i];
      PrefixScansReadBack(init, name);
      NoCrossCapture(last, name);
      FilterLastName(init, last, StagedFor(name), name + STAGED_MARK);
      FilterLastName(init, last, ParkedFor(name), name + DELETED_MARK);
      assert files == init + [last];
    }
  }

  lemma LastReadsBack(f: File)
    requires WellNamed(f)
    ensures JsonName(FileName(f)) == if f.FinalFile? then Some(f.name) else None
    ensures PendingName(FileName(f)) == if f.FinalFile? then None else Some(f.name)
  {
    match f {
      case FinalFile(name) => FinalNameDecodes(name);
      case StagedFile(name, suffix) => PendingNameDecodes(name, STAGED_MARK, suffix);
      case ParkedFile(name, suffix) => PendingNameDecodes(name, DELETED_MARK, suffix);
    }
  }

  lemma NamesOfMore(init: seq<File>, last: File)
    ensures NamesOf(init + [last]) == NamesOf(init) + [FileName(last)]
    ensures var names := NamesOf(init + [last]); names[..|names| - 1] == NamesOf(init) && names[|names| - 1] == FileName(last)
  {
    assert (init + [last])[..|init|] == init;
  }

  lemma FilterLastName(init: seq<File>, last: File, keep: File -> bool, prefix: string)
    requires keep(last) <==> prefix <= FileName(last)
    requires Filter(StartingWith(prefix), NamesOf(init)) == NamesOf(Filter(keep, init))
    ensures Filter(StartingWith(prefix), NamesOf(init + [last])) == NamesOf(Filter(keep, init + [last]))
  {
    NamesOfMore(init, last);
    FilterConcat(StartingWith(prefix), NamesOf(init), [FileName(last)]);
    FilterConcat(keep, init, [last]);
    if keep(last) {
      NamesOfMore(Filter(keep, init), last);
    }
    assert Filter(keep, [last]) == if keep(last) then [last] else [];
    assert Filter(StartingWith(prefix), [FileName(last)]) == if keep(last) then [FileName(last)] else [];
    assert Filter(keep, init) + [] == Filter(keep, init);
  }

  /** Different files of safe names have different names on disk. */
  lemma FileNamesAreDistinct(f: File, g: File)
    requires WellNamed(f) && WellNamed(g) && FileName(f) == FileName(g)
    ensures f == g
  {
    LastReadsBack(f);
    LastReadsBack(g);
    NoCrossCapture(f, f.name);
    NoCrossCapture(g, f.name);
    if f.StagedFile? {
      SuffixOf(f.name, STAGED_MARK, f.suffix);
      SuffixOf(g.name, STAGED_MARK, g.suffix);
    } else if f.ParkedFile? {
      SuffixOf(f.name, DELETED_MARK, f.suffix);
      SuffixOf(g.name, DELETED_MARK, g.suffix);
    }
  }

  lemma SuffixOf(name: string, mark: string, suffix: string)
    ensures (name + mark + suffix)[|name| + |mark|..] == suffix
    ensures name + mark <= name + mark + suffix
  {
    assert (name + mark + suffix)[..|name + mark|] == name + mark;
  }
}
