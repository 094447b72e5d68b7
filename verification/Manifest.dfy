/** Sync manifests, their Merkle root and the difference of two of them
    (src/sync.rs: compute_merkle_root, build_manifest, compute_diff).

  The digest is a parameter with 64-character results. No such function is free of
  collisions on all inputs, so each result names the inputs it must not collide on. */
module Manifests {
  import opened Values
  import opened Tables
  import opened FileStore
  import opened Sorting

  datatype Item = Item(name: Name, hash: string)

  datatype Manifest = Manifest(root: string, items: seq<Item>)

  const DIGEST_LENGTH := 64

  ghost predicate FixedLength(digest: string -> string) {
    forall x :: |digest(x)| == DIGEST_LENGTH
  }

  predicate CollisionFree(digest: string -> string, inputs: set<string>) {
    forall x, y :: x in inputs && y in inputs && digest(x) == digest(y) ==> x == y
  }

  // ---------- Leaves and root ----------

  function LeafText(i: Item): string {
    i.name + ":" + i.hash
  }

  function Leaves(digest: string -> string, items: seq<Item>): seq<string> {
    seq(|items|, k requires 0 <= k < |items| => digest(LeafText(items[k])))
  }

  function Concat(leaves: seq<string>): string {
    if leaves == [] then [] else Concat(leaves[..|leaves| - 1]) + leaves[|leaves| - 1]
  }

  function RootText(digest: string -> string, items: seq<Item>): string {
    Concat(Sort(Leaves(digest, items)))
  }

  function Root(digest: string -> string, items: seq<Item>): string {
    if items == [] then "empty" else digest(RootText(digest, items))
  }

  /** `compute_merkle_root`: hash the leaves, sort them, feed them to one digest. */
  method ComputeMerkleRoot(digest: string -> string, items: seq<Item>) returns (root: string)
    ensures root == Root(digest, items)
  {
    if items == [] {
      return "empty";
    }
    var leaves: seq<string> := [];
    for i := 0 to |items|
      invariant leaves == Leaves(digest, items[..i])
    {
      leaves := leaves + [digest(LeafText(items[i]))];
    }
    assert items[..|items|] == items;
    leaves := Sort(leaves);
    var fed := "";
    for i := 0 to |leaves|
      invariant fed == Concat(leaves[..i])
    {
      assert leaves[..i + 1][..i] == leaves[..i];
      fed := fed + leaves[i];
    }
    assert leaves[..|leaves|] == leaves;
    root := digest(fed);
  }

  predicate AllLength(leaves: seq<string>, n: nat) {
    forall i :: 0 <= i < |leaves| ==> |leaves[i]| == n
  }

  /** Concatenating pieces of one positive length loses nothing. */
  lemma {:induction false} ConcatInjective(a: seq<string>, b: seq<string>, n: nat)
    requires n > 0 && AllLength(a, n) && AllLength(b, n) && Concat(a) == Concat(b)
    ensures a == b
  {
    ConcatLength(a, n);
    ConcatLength(b, n);
    EmptyProduct(|a|, n);
    EmptyProduct(|b|, n);
    if a != [] && b != [] {
      var a', b' := a[..|a| - 1], b[..|b| - 1];
      ConcatLength(a', n);
      ConcatLength(b', n);
      assert |Concat(a')| == |Concat(b')|;
      assert Concat(a') == Concat(a)[..|Concat(a')|] == Concat(b)[..|Concat(b')|] == Concat(b');
      assert a[|a| - 1] == Concat(a)[|Concat(a')|..] == Concat(b)[|Concat(b')|..] == b[|b| - 1];
      ConcatInjective(a', b', n);
      assert a == a' + [a[|a| - 1]] && b == b' + [b[|b| - 1]];
    }
  }

  lemma EmptyProduct(k: nat, n: nat)
    requires n > 0
    ensures k * n == 0 <==> k == 0
  {
  }

  lemma {:induction false} ConcatLength(a: seq<string>, n: nat)
    requires AllLength(a, n)
    ensures |Concat(a)| == |a| * n
  {
    if a != [] {
      ConcatLength(a[..|a| - 1], n);
      assert |a| * n == (|a| - 1) * n + n;
    }
  }

  /** Name and hash can be told apart in a leaf because hashes have one length. */
  lemma LeafTextInjective(a: Item, b: Item)
    requires |a.hash| == |b.hash| && LeafText(a) == LeafText(b)
    ensures a == b
  {
    var n := |a.name|;
    assert a.name == LeafText(a)[..n];
    assert b.name == LeafText(b)[..n];
    assert a.hash == LeafText(a)[n + 1..];
    assert b.hash == LeafText(b)[n + 1..];
  }

  predicate DistinctNames(items: seq<Item>) {
    forall i, j :: 0 <= i < j < |items| ==> items[i].name != items[j].name
  }

  predicate WellFormed(items: seq<Item>) {
    DistinctNames(items) && forall i :: 0 <= i < |items| ==> |items[i].hash| == DIGEST_LENGTH
  }

  /** Everything hashed on the way to the two roots. */
  function Hashed(digest: string -> string, a: seq<Item>, b: seq<Item>): set<string> {
    (set i | 0 <= i < |a| :: LeafText(a[i])) + (set i | 0 <= i < |b| :: LeafText(b[i]))
    + {RootText(digest, a), RootText(digest, b)}
  }

  predicate SameItems(a: seq<Item>, b: seq<Item>) {
    (forall i :: i in a ==> i in b) && (forall i :: i in b ==> i in a)
  }

  lemma SameLeavesSameItems(digest: string -> string, a: seq<Item>, b: seq<Item>)
    requires WellFormed(a) && WellFormed(b) && CollisionFree(digest, Hashed(digest, a, b))
    requires multiset(Leaves(digest, a)) == multiset(Leaves(digest, b))
    ensures forall i :: i in a ==> i in b
  {
    forall i | 0 <= i < |a| ensures a[i] in b {
      var leaf := Leaves(digest, a)[i];
      assert leaf in multiset(Leaves(digest, b));
      var j :| 0 <= j < |b| && Leaves(digest, b)[j] == leaf;
      assert LeafText(a[i]) in Hashed(digest, a, b) && LeafText(b[j]) in Hashed(digest, a, b);
      LeafTextInjective(a[i], b[j]);
    }
  }

  lemma SameItemsRest(a: seq<Item>, b: seq<Item>, k: nat)
    requires a != [] && k < |b| && b[k] == a[0]
    requires DistinctNames(a) && DistinctNames(b) && SameItems(a, b)
    ensures var rest := b[..k] + b[k + 1..];
      DistinctNames(a[1..]) && DistinctNames(rest) && SameItems(a[1..], rest)
  {
    var rest := b[..k] + b[k + 1..];
    forall i | i in a[1..] ensures i in rest {
      var j :| 0 <= j < |a[1..]| && a[1..][j] == i;
      assert a[j + 1] == i && i in b;
      var m :| 0 <= m < |b| && b[m] == i;
      assert m < k ==> rest[m] == i;
      assert m > k ==> rest[m - 1] == i;
    }
    forall i | i in rest ensures i in a[1..] {
      var m :| 0 <= m < |rest| && rest[m] == i;
      assert i == b[if m < k then m else m + 1] && i in a;
      var j :| 0 <= j < |a| && a[j] == i;
      assert j > 0 ==> a[1..][j - 1] == i;
    }
  }

  lemma LeavesWithoutOne(digest: string -> string, items: seq<Item>, k: nat)
    requires k < |items|
    ensures multiset(Leaves(digest, items)) ==
            multiset(Leaves(digest, items[..k] + items[k + 1..])) + multiset{digest(LeafText(items[k]))}
  {
    var leaves := Leaves(digest, items);
    assert Leaves(digest, items[..k] + items[k + 1..]) == leaves[..k] + leaves[k + 1..];
    WithoutOne(leaves, k);
  }

  lemma FirstItemThere(a: seq<Item>, b: seq<Item>) returns (k: nat)
    requires a != [] && SameItems(a, b)
    ensures k < |b| && b[k] == a[0]
  {
    assert a[0] in a;
    k :| 0 <= k < |b| && b[k] == a[0];
  }

  lemma PutBack(digest: string -> string, a: seq<Item>, b: seq<Item>, k: nat)
    requires a != [] && k < |b| && b[k] == a[0]
    requires multiset(Leaves(digest, a[1..])) == multiset(Leaves(digest, b[..k] + b[k + 1..]))
    ensures multiset(Leaves(digest, a)) == multiset(Leaves(digest, b))
  {
    assert a[..0] + a[1..] == a[1..];
    LeavesWithoutOne(digest, a, 0);
    LeavesWithoutOne(digest, b, k);
  }

  lemma {:induction false} SameItemsSameLeaves(digest: string -> string, a: seq<Item>, b: seq<Item>)
    requires DistinctNames(a) && DistinctNames(b) && SameItems(a, b)
    ensures multiset(Leaves(digest, a)) == multiset(Leaves(digest, b))
    decreases |a|
  {
    assert b == [] || b[0] in a;
    if a != [] {
      var k := FirstItemThere(a, b);
      SameItemsRest(a, b, k);
      SameItemsSameLeaves(digest, a[1..], b[..k] + b[k + 1..]);
      PutBack(digest, a, b, k);
    }
  }

  /** Two roots agree, whatever the listing orders, exactly when the items agree. */
  lemma RootsAgree(digest: string -> string, a: seq<Item>, b: seq<Item>)
    requires FixedLength(digest) && WellFormed(a) && WellFormed(b) && CollisionFree(digest, Hashed(digest, a, b))
    ensures Root(digest, a) == Root(digest, b) <==> SameItems(a, b)
  {
    var la, lb := Leaves(digest, a), Leaves(digest, b);
    if SameItems(a, b) {
      SameItemsSameLeaves(digest, a, b);
      SortCanonical(la, lb);
      assert a == [] || a[0] in b;
      assert b == [] || b[0] in a;
    }
    if Root(digest, a) == Root(digest, b) && a != [] && b != [] {
      assert RootText(digest, a) in Hashed(digest, a, b) && RootText(digest, b) in Hashed(digest, a, b);
      SortKeepsElements(la);
      SortKeepsElements(lb);
      SortedLengths(la);
      SortedLengths(lb);
      ConcatInjective(Sort(la), Sort(lb), DIGEST_LENGTH);
      SameLeavesSameItems(digest, a, b);
      assert Hashed(digest, a, b) == Hashed(digest, b, a);
      SameLeavesSameItems(digest, b, a);
    }
  }

  lemma SortedLengths(leaves: seq<string>)
    requires AllLength(leaves, DIGEST_LENGTH)
    ensures AllLength(Sort(leaves), DIGEST_LENGTH)
  {
    SortKeepsElements(leaves);
    forall i | 0 <= i < |leaves| ensures |Sort(leaves)[i]| == DIGEST_LENGTH {
      assert Sort(leaves)[i] in multiset(leaves);
    }
  }

  lemma {:induction false} ConcatPieces(leaves: seq<string>)
    requires AllLength(leaves, 64)
    ensures |Concat(leaves)| == 64 * |leaves|
    ensures forall i :: 0 <= i < |leaves| ==> Concat(leaves)[64 * i..64 * i + 64] == leaves[i]
  {
    if leaves != [] {
      var init := leaves[..|leaves| - 1];
      ConcatPieces(init);
      forall i | 0 <= i < |init| ensures Concat(leaves)[64 * i..64 * i + 64] == leaves[i] {
        assert Concat(leaves)[64 * i..64 * i + 64] == Concat(init)[64 * i..64 * i + 64];
      }
    }
  }

  function Digests(digest: string -> string, items: seq<Item>): seq<string> {
    seq(|items|, i requires 0 <= i < |items| => digest(items[i].name + ":" + items[i].hash))
  }

  /** The format of the root: "empty" for no items, otherwise the digest of the item digests, each
      of the name, a colon and the hash, sorted and put one behind the other. */
  lemma RootFormat(digest: string -> string, items: seq<Item>) returns (leaves: seq<string>, text: string)
    requires FixedLength(digest)
    ensures Root(digest, []) == "empty" && (items != [] ==> Root(digest, items) == digest(text))
    ensures Sorted(leaves) && multiset(leaves) == multiset(Digests(digest, items)) && |leaves| == |items|
    ensures |text| == 64 * |items| && forall i :: 0 <= i < |items| ==> text[64 * i..64 * i + 64] == leaves[i]
  {
    var unsorted := Leaves(digest, items);
    leaves := Sort(unsorted);
    text := Concat(leaves);
    forall i | 0 <= i < |unsorted| ensures |unsorted[i]| == DIGEST_LENGTH && unsorted[i] == Digests(digest, items)[i] {
      assert LeafText(items[i]) == items[i].name + ":" + items[i].hash;
      assert unsorted[i] == digest(LeafText(items[i]));
    }
    assert unsorted == Digests(digest, items);
    SortSorts(Leaves(digest, items));
    SortKeepsElements(Leaves(digest, items));
    SortedLengths(Leaves(digest, items));
    ConcatPieces(leaves);
  }

  // ---------- The difference of two manifests ----------

  datatype Change = Change(name: Name, local: string, remote: string)

  datatype Diff = Diff(toPull: seq<Item>, toPush: seq<Name>, conflicts: seq<Change>, same: seq<Name>)

  /** Collected into a map, later items win. */
  function MapOf(items: seq<Item>): map<Name, string> {
    if items == [] then map[]
    else MapOf(items[..|items| - 1])[items[|items| - 1].name := items[|items| - 1].hash]
  }

  predicate NoRepeats<T(==)>(s: seq<T>) {
    forall i, j :: 0 <= i < j < |s| ==> s[i] != s[j]
  }

  lemma NoRepeatsMore<T>(s: seq<T>, x: T)
    requires NoRepeats(s) && x !in s
    ensures NoRepeats(s + [x])
  {
  }

  /** The four groups of the difference, each name once. */
  ghost predicate IsDiff(local: map<Name, string>, remote: map<Name, string>, d: Diff) {
    && (forall i :: i in d.toPull <==> i.name in remote && i.name !in local && remote[i.name] == i.hash)
    && (forall n :: n in d.toPush <==> n in local && n !in remote)
    && (forall c :: c in d.conflicts <==>
          && c.name in local && c.name in remote && local[c.name] != remote[c.name]
          && local[c.name] == c.local && remote[c.name] == c.remote)
    && (forall n :: n in d.same <==> n in local && n in remote && local[n] == remote[n])
    && NoRepeats(d.toPull) && NoRepeats(d.toPush) && NoRepeats(d.conflicts) && NoRepeats(d.same)
  }

  function Restrict(m: map<Name, string>, names: set<Name>): map<Name, string> {
    map n | n in m && n in names :: m[n]
  }

  method CollectItems(items: seq<Item>) returns (m: map<Name, string>)
    ensures m == MapOf(items)
  {
    m := map[];
    for i := 0 to |items|
      invariant m == MapOf(items[..i])
    {
      assert items[..i + 1][..i] == items[..i];
      m := m[items[i].name := items[i].hash];
    }
    assert items[..|items|] == items;
  }

  /** One name goes into the group it belongs to. */
  method Classify(local: map<Name, string>, remote: map<Name, string>, name: Name, seen: set<Name>, d: Diff)
    returns (after: Diff)
    requires name !in seen && name in local.Keys + remote.Keys
    requires IsDiff(Restrict(local, seen), Restrict(remote, seen), d)
    ensures IsDiff(Restrict(local, seen + {name}), Restrict(remote, seen + {name}), after)
  {
    if name !in local {
      NoRepeatsMore(d.toPull, Item(name, remote[name]));
      after := d.(toPull := d.toPull + [Item(name, remote[name])]);
    } else if name !in remote {
      NoRepeatsMore(d.toPush, name);
      after := d.(toPush := d.toPush + [name]);
    } else if local[name] == remote[name] {
      NoRepeatsMore(d.same, name);
      after := d.(same := d.same + [name]);
    } else {
      NoRepeatsMore(d.conflicts, Change(name, local[name], remote[name]));
      after := d.(conflicts := d.conflicts + [Change(name, local[name], remote[name])]);
    }
  }

  /** `compute_diff`, over the names of both sides in any order. */
  method ComputeDiff(local: seq<Item>, remote: seq<Item>) returns (d: Diff)
    ensures IsDiff(MapOf(local), MapOf(remote), d)
  {
    var localMap := CollectItems(local);
    var remoteMap := CollectItems(remote);
    d := Diff([], [], [], []);
    var names := localMap.Keys + remoteMap.Keys;
    var left := names;
    while left != {}
      invariant left <= names
      invariant IsDiff(Restrict(localMap, names - left), Restrict(remoteMap, names - left), d)
    {
      var name :| name in left;
      assert (names - left) + {name} == names - (left - {name});
      d := Classify(localMap, remoteMap, name, names - left, d);
      left := left - {name};
    }
    assert Restrict(localMap, names - left) == localMap;
    assert Restrict(remoteMap, names - left) == remoteMap;
  }

  function Count(b: bool): nat {
    if b then 1 else 0
  }

  predicate Pulls(d: Diff, n: Name) {
    exists i :: 0 <= i < |d.toPull| && d.toPull[i].name == n
  }

  predicate Conflicts(d: Diff, n: Name) {
    exists i :: 0 <= i < |d.conflicts| && d.conflicts[i].name == n
  }

  lemma GroupOf(local: map<Name, string>, remote: map<Name, string>, d: Diff, n: Name)
    requires IsDiff(local, remote, d)
    ensures Pulls(d, n) <==> n in remote && n !in local
    ensures Conflicts(d, n) <==> n in local && n in remote && local[n] != remote[n]
  {
    if n in remote && n !in local {
      assert Item(n, remote[n]) in d.toPull;
    }
    if n in local && n in remote && local[n] != remote[n] {
      assert Change(n, local[n], remote[n]) in d.conflicts;
    }
  }

  /** The four groups partition the names of both sides. */
  lemma GroupsPartitionNames(local: map<Name, string>, remote: map<Name, string>, d: Diff, n: Name)
    requires IsDiff(local, remote, d)
    ensures Count(Pulls(d, n)) + Count(n in d.toPush) + Count(Conflicts(d, n)) + Count(n in d.same)
            == Count(n in local.Keys + remote.Keys)
  {
    GroupOf(local, remote, d, n);
  }

  /** Seen from the other side, what was pulled is pushed and the rest stays in its group. */
  lemma SwappingSwapsPullAndPush(local: map<Name, string>, remote: map<Name, string>, d: Diff, e: Diff, n: Name)
    requires IsDiff(local, remote, d) && IsDiff(remote, local, e)
    ensures Pulls(d, n) <==> n in e.toPush
    ensures n in d.toPush <==> Pulls(e, n)
    ensures n in d.same <==> n in e.same
    ensures forall l, r :: Change(n, l, r) in d.conflicts <==> Change(n, r, l) in e.conflicts
  {
    GroupOf(local, remote, d, n);
    GroupOf(remote, local, e, n);
  }

  lemma {:induction false} MapOfItems(items: seq<Item>, i: Item)
    requires DistinctNames(items)
    ensures i in items <==> i.name in MapOf(items) && MapOf(items)[i.name] == i.hash
  {
    if items != [] {
      var init, last := items[..|items| - 1], items[|items| - 1];
      MapOfItems(init, i);
      assert items == init + [last];
      forall k | 0 <= k < |init| ensures init[k].name != last.name {
        assert init[k] == items[k];
      }
    }
  }

  lemma SameItemsSameMap(a: seq<Item>, b: seq<Item>)
    requires DistinctNames(a) && DistinctNames(b)
    ensures SameItems(a, b) <==> MapOf(a) == MapOf(b)
  {
    forall i ensures (i in a <==> i.name in MapOf(a) && MapOf(a)[i.name] == i.hash)
                  && (i in b <==> i.name in MapOf(b) && MapOf(b)[i.name] == i.hash) {
      MapOfItems(a, i);
      MapOfItems(b, i);
    }
    if SameItems(a, b) {
      forall n ensures n in MapOf(a) ==> n in MapOf(b) && MapOf(b)[n] == MapOf(a)[n]
               ensures n in MapOf(b) ==> n in MapOf(a) {
        assert n in MapOf(a) ==> Item(n, MapOf(a)[n]) in a;
        assert n in MapOf(b) ==> Item(n, MapOf(b)[n]) in b;
      }
      assert MapOf(a) == MapOf(b);
    }
  }

  /** The difference is empty exactly when the two sides list the same names and hashes. */
  lemma EmptyDiff(local: map<Name, string>, remote: map<Name, string>, d: Diff)
    requires IsDiff(local, remote, d)
    ensures local == remote <==> d.toPull == [] && d.toPush == [] && d.conflicts == []
  {
    assert d.toPull == [] || d.toPull[0] in d.toPull;
    assert d.toPush == [] || d.toPush[0] in d.toPush;
    assert d.conflicts == [] || d.conflicts[0] in d.conflicts;
    if d.toPull == [] && d.toPush == [] && d.conflicts == [] {
      forall n ensures n in local <==> n in remote
               ensures n in local && n in remote ==> local[n] == remote[n] {
        GroupOf(local, remote, d, n);
      }
      assert local == remote;
    }
  }

  /** Equal roots mean an empty difference, and the other way round. */
  lemma RootsAgreeIffUnchanged(digest: string -> string, a: seq<Item>, b: seq<Item>, d: Diff)
    requires FixedLength(digest) && WellFormed(a) && WellFormed(b) && CollisionFree(digest, Hashed(digest, a, b))
    requires IsDiff(MapOf(a), MapOf(b), d)
    ensures Root(digest, a) == Root(digest, b) <==> d.toPull == [] && d.toPush == [] && d.conflicts == []
  {
    RootsAgree(digest, a, b);
    SameItemsSameMap(a, b);
    EmptyDiff(MapOf(a), MapOf(b), d);
  }

  // ---------- Manifests of stores ----------

  lemma {:induction false} RootIgnoresOrder(digest: string -> string, a: seq<Item>, b: seq<Item>)
    requires multiset(a) == multiset(b)
    ensures multiset(Leaves(digest, a)) == multiset(Leaves(digest, b))
    ensures Root(digest, a) == Root(digest, b)
    decreases |a|
  {
    assert |a| == |multiset(a)| == |b|;
    if a != [] {
      assert a[0] in multiset(a);
      var k :| 0 <= k < |b| && b[k] == a[0];
      WithoutOne(a, 0);
      WithoutOne(b, k);
      assert a[..0] + a[1..] == a[1..];
      CancelOne(multiset(a[1..]), multiset(b[..k] + b[k + 1..]), a[0]);
      RootIgnoresOrder(digest, a[1..], b[..k] + b[k + 1..]);
      PutBack(digest, a, b, k);
      SortCanonical(Leaves(digest, a), Leaves(digest, b));
    }
  }

  function InsertItem(x: Item, items: seq<Item>): seq<Item> {
    if items == [] then [x]
    else if !Less(items[0].name, x.name) then [x] + items
    else [items[0]] + InsertItem(x, items[1..])
  }

  function SortByName(items: seq<Item>): seq<Item> {
    if items == [] then [] else InsertItem(items[0], SortByName(items[1..]))
  }

  lemma {:induction false} InsertItemKeeps(x: Item, items: seq<Item>)
    ensures multiset(InsertItem(x, items)) == multiset(items) + multiset{x}
  {
    if items != [] && Less(items[0].name, x.name) {
      InsertItemKeeps(x, items[1..]);
      assert items == [items[0]] + items[1..];
    }
  }

  lemma {:induction false} SortByNameKeeps(items: seq<Item>)
    ensures multiset(SortByName(items)) == multiset(items)
  {
    if items != [] {
      SortByNameKeeps(items[1..]);
      InsertItemKeeps(items[0], SortByName(items[1..]));
      assert items == [items[0]] + items[1..];
    }
  }

  predicate AllRows(listed: seq<Name>, rows: map<Name, Row>) {
    forall i :: 0 <= i < |listed| ==> listed[i] in rows
  }

  function ItemsOf(rows: map<Name, Row>, listed: seq<Name>, hex: Hash -> string): seq<Item>
    requires AllRows(listed, rows)
  {
    seq(|listed|, i requires 0 <= i < |listed| => Item(listed[i], hex(rows[listed[i]].hash)))
  }

  /** `build_manifest`: the items in listing order, the root over them sorted by name. */
  method BuildManifest(digest: string -> string, hex: Hash -> string, rows: map<Name, Row>, listed: seq<Name>)
    returns (m: Manifest)
    requires AllRows(listed, rows)
    ensures m.items == ItemsOf(rows, listed, hex) && m.root == Root(digest, m.items)
  {
    var items: seq<Item> := [];
    for i := 0 to |listed|
      invariant items == ItemsOf(rows, listed[..i], hex)
    {
      items := items + [Item(listed[i], hex(rows[listed[i]].hash))];
    }
    assert listed[..|listed|] == listed;
    SortByNameKeeps(items);
    RootIgnoresOrder(digest, SortByName(items), items);
    var root := ComputeMerkleRoot(digest, SortByName(items));
    m := Manifest(root, items);
  }

  /** Each row listed once. */
  predicate Lists(listed: seq<Name>, rows: map<Name, Row>) {
    AllRows(listed, rows) && NoRepeats(listed) && forall n :: n in rows ==> n in listed
  }

  ghost predicate HexDistinguishes(hex: Hash -> string, a: map<Name, Row>, b: map<Name, Row>) {
    && (forall h :: |hex(h)| == DIGEST_LENGTH)
    && (forall n :: n in a && n in b && hex(a[n].hash) == hex(b[n].hash) ==> a[n].hash == b[n].hash)
  }

  lemma ItemsWellFormed(hex: Hash -> string, rows: map<Name, Row>, listed: seq<Name>)
    requires Lists(listed, rows) && forall h :: |hex(h)| == DIGEST_LENGTH
    ensures WellFormed(ItemsOf(rows, listed, hex))
  {
    var items := ItemsOf(rows, listed, hex);
    forall i | 0 <= i < |items| ensures |items[i].hash| == DIGEST_LENGTH {
      assert items[i] == Item(listed[i], hex(rows[listed[i]].hash));
    }
    forall i, j | 0 <= i < j < |items| ensures items[i].name != items[j].name {
      assert items[i].name == listed[i] && items[j].name == listed[j];
    }
  }

  lemma SameItemsSameContents(hex: Hash -> string, a: map<Name, Row>, la: seq<Name>, b: map<Name, Row>, lb: seq<Name>)
    requires Lists(la, a) && Lists(lb, b) && HexDistinguishes(hex, a, b)
    ensures SameItems(ItemsOf(a, la, hex), ItemsOf(b, lb, hex)) <==> Contents(a) == Contents(b)
  {
    var ia, ib := ItemsOf(a, la, hex), ItemsOf(b, lb, hex);
    forall n ensures n in a <==> exists i :: 0 <= i < |la| && la[i] == n {}
    forall n | n in a ensures Item(n, hex(a[n].hash)) in ia {
      var i :| 0 <= i < |la| && la[i] == n;
      assert ia[i] == Item(n, hex(a[n].hash));
    }
    forall n | n in b ensures Item(n, hex(b[n].hash)) in ib {
      var i :| 0 <= i < |lb| && lb[i] == n;
      assert ib[i] == Item(n, hex(b[n].hash));
    }
    if SameItems(ia, ib) {
      forall n ensures n in Contents(a) <==> n in Contents(b)
               ensures n in Contents(a) && n in Contents(b) ==> Contents(a)[n] == Contents(b)[n] {
        assert n in a ==> Item(n, hex(a[n].hash)) in ib;
        assert n in b ==> Item(n, hex(b[n].hash)) in ia;
      }
    }
    if Contents(a) == Contents(b) {
      forall i | i in ia ensures i in ib {
        assert i.name in Contents(a) && i.name in b;
        assert Contents(a)[i.name] == Contents(b)[i.name];
      }
      forall i | i in ib ensures i in ia {
        assert i.name in Contents(b) && i.name in a;
        assert Contents(a)[i.name] == Contents(b)[i.name];
      }
    }
  }

  /** Two stores publish the same root, in whatever order they list their rows, exactly when
      they hold the same categories with the same contents. */
  lemma RootsCompareStores(digest: string -> string, hex: Hash -> string,
                           a: map<Name, Row>, la: seq<Name>, b: map<Name, Row>, lb: seq<Name>)
    requires Lists(la, a) && Lists(lb, b) && HexDistinguishes(hex, a, b) && FixedLength(digest)
    requires CollisionFree(digest, Hashed(digest, ItemsOf(a, la, hex), ItemsOf(b, lb, hex)))
    ensures Root(digest, ItemsOf(a, la, hex)) == Root(digest, ItemsOf(b, lb, hex)) <==> Contents(a) == Contents(b)
  {
    ItemsWellFormed(hex, a, la);
    ItemsWellFormed(hex, b, lb);
    RootsAgree(digest, ItemsOf(a, la, hex), ItemsOf(b, lb, hex));
    SameItemsSameContents(hex, a, la, b, lb);
  }
}
