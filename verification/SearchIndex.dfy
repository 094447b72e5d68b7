/** The text index of a category value and the direct file search
    (src/store/mod.rs: index_recursive, search_recursive). */
module SearchIndex {
  import opened Values

  datatype Leaf = Leaf(path: string, text: string)

  datatype IndexRow = IndexRow(category: string, leaf: Leaf)

  function Digit(n: nat): char
    requires n < 10
  {
    "0123456789"[n]
  }

  function NatText(n: nat): string {
    if n < 10 then [Digit(n)] else NatText(n / 10) + [Digit(n % 10)]
  }

  function IntText(n: int): string {
    if n < 0 then "-" + NatText(-n) else NatText(n)
  }

  // ---------- Numerals ----------

  predicate AllDigits(text: string) {
    forall i :: 0 <= i < |text| ==> '0' <= text[i] <= '9'
  }

  /** The number that decimal digits denote. */
  function Value(text: string): nat
    requires AllDigits(text)
  {
    if text == "" then 0
    else Value(text[..|text| - 1]) * 10 + (text[|text| - 1] as int - '0' as int)
  }

  /** The decimal text of a natural number: its digits, without leading zeros. */
  predicate NaturalNumeral(text: string, n: int) {
    text != "" && AllDigits(text) && (|text| > 1 ==> text[0] != '0') && Value(text) == n
  }

  predicate Numeral(text: string, n: int) {
    if n < 0 then text != "" && text[0] == '-' && NaturalNumeral(text[1..], -n) else NaturalNumeral(text, n)
  }

  lemma DigitsFollow(n: nat)
    requires n < 10
    ensures Digit(n) as int == '0' as int + n
  {
  }

  lemma {:induction false} NatTextDenotes(n: nat)
    ensures NaturalNumeral(NatText(n), n) && (n > 0 ==> NatText(n)[0] != '0')
  {
    DigitsFollow(n % 10);
    if n < 10 {
      assert [Digit(n)][..0] == "";
    } else {
      NatTextDenotes(n / 10);
      var text := NatText(n / 10) + [Digit(n % 10)];
      assert text[..|text| - 1] == NatText(n / 10);
    }
  }

  lemma {:induction false} LeadingDigitCounts(text: string)
    requires text != "" && AllDigits(text) && text[0] != '0'
    ensures Value(text) > 0
  {
    if |text| > 1 {
      LeadingDigitCounts(text[..|text| - 1]);
    }
  }

  lemma LastDigit(n: nat, front: nat, digit: nat)
    requires digit < 10 && n == front * 10 + digit
    ensures n / 10 == front && n % 10 == digit
  {
  }

  lemma {:induction false} NaturalNumeralUnique(text: string, n: nat)
    requires NaturalNumeral(text, n)
    ensures text == NatText(n)
  {
    var init, last := text[..|text| - 1], text[|text| - 1];
    var digit := last as int - '0' as int;
    LastDigit(n, Value(init), digit);
    DigitsFollow(digit);
    if init != "" {
      LeadingDigitCounts(init);
      NaturalNumeralUnique(init, n / 10);
    }
    assert text == init + [last];
  }

  /** Numbers are written in decimal, in exactly one way. */
  lemma IntTextExact(text: string, n: int)
    ensures Numeral(text, n) <==> text == IntText(n)
  {
    NatTextDenotes(if n < 0 then -n else n);
    assert n < 0 ==> IntText(n)[1..] == NatText(-n);
    if Numeral(text, n) {
      if n < 0 {
        NaturalNumeralUnique(text[1..], -n);
        assert text == ['-'] + text[1..];
      } else {
        NaturalNumeralUnique(text, n);
      }
    }
  }

  // ---------- Paths and leaves ----------

  function KeyPath(path: string, key: string): string {
    if path == "" then key else path + "." + key
  }

  function ItemPath(path: string, i: nat): string {
    path + "[" + NatText(i) + "]"
  }

  /** The text a value contributes by itself: non-empty strings and numbers. */
  function LeafText(v: Json): Option<string> {
    match v
    case String(s, _) => if s == "" then None else Some(s)
    case Number(n) => Some(IntText(n))
    case Decimal(t) => Some(t)
    case _ => None
  }

  // ---------- Flattening ----------

  /** The leaves `pick` selects, in value order, each under its path. */
  function Collect(pick: Json -> Option<string>, path: string, v: Json): seq<Leaf>
    decreases v
  {
    match v
    case Object(fields) => CollectFields(pick, path, fields)
    case Array(items) => CollectItems(pick, path, items)
    case _ => if pick(v).Some? then [Leaf(path, pick(v).value)] else []
  }

  function CollectFields(pick: Json -> Option<string>, path: string, fields: seq<Field>): seq<Leaf>
    decreases fields
  {
    if fields == [] then []
    else
      var last := fields[|fields| - 1];
      CollectFields(pick, path, fields[..|fields| - 1]) + Collect(pick, KeyPath(path, last.key), last.value)
  }

  function CollectItems(pick: Json -> Option<string>, path: string, items: seq<Json>): seq<Leaf>
    decreases items
  {
    if items == [] then []
    else
      var i := |items| - 1;
      CollectItems(pick, path, items[..i]) + Collect(pick, ItemPath(path, i), items[i])
  }

  /** What the index keeps of a value. */
  function Flatten(path: string, v: Json): seq<Leaf> {
    Collect(LeafText, path, v)
  }

  function RowsOf(category: string, leaves: seq<Leaf>): seq<IndexRow> {
    seq(|leaves|, i requires 0 <= i < |leaves| => IndexRow(category, leaves[i]))
  }

  lemma RowsExact(category: string, leaves: seq<Leaf>, row: IndexRow)
    ensures row in RowsOf(category, leaves) <==> row.category == category && row.leaf in leaves
  {
    if row.leaf in leaves {
      var i :| 0 <= i < |leaves| && leaves[i] == row.leaf;
      assert RowsOf(category, leaves)[i] == IndexRow(category, row.leaf);
    }
  }

  lemma RowsOfConcat(category: string, a: seq<Leaf>, b: seq<Leaf>)
    ensures RowsOf(category, a + b) == RowsOf(category, a) + RowsOf(category, b)
  {
  }

  /** The table after inserting one row per leaf, in order. */
  function Indexed(rows: seq<IndexRow>, category: string, leaves: seq<Leaf>): seq<IndexRow> {
    rows + RowsOf(category, leaves)
  }

  lemma IndexedTwice(rows: seq<IndexRow>, category: string, a: seq<Leaf>, b: seq<Leaf>)
    ensures Indexed(Indexed(rows, category, a), category, b) == Indexed(rows, category, a + b)
  {
    RowsOfConcat(category, a, b);
  }

  /** The `search_index` table. */
  class IndexTable {
    var rows: seq<IndexRow>

    constructor (rows: seq<IndexRow>)
      ensures this.rows == rows
    {
      this.rows := rows;
    }

    method IndexRecursive(category: string, path: string, v: Json)
      modifies this
      ensures rows == Indexed(old(rows), category, Flatten(path, v))
      decreases v
    {
      match v {
        case Object(fields) =>
          for i := 0 to |fields|
            invariant rows == Indexed(old(rows), category, CollectFields(LeafText, path, fields[..i]))
          {
            IndexRecursive(category, KeyPath(path, fields[i].key), fields[i].value);
            assert fields[..i + 1][..i] == fields[..i];
            IndexedTwice(old(rows), category, CollectFields(LeafText, path, fields[..i]),
                         Flatten(KeyPath(path, fields[i].key), fields[i].value));
          }
          assert fields[..|fields|] == fields;
        case Array(items) =>
          for i := 0 to |items|
            invariant rows == Indexed(old(rows), category, CollectItems(LeafText, path, items[..i]))
          {
            IndexRecursive(category, ItemPath(path, i), items[i]);
            assert items[..i + 1][..i] == items[..i];
            IndexedTwice(old(rows), category, CollectItems(LeafText, path, items[..i]), Flatten(ItemPath(path, i), items[i]));
          }
          assert items[..|items|] == items;
        case String(s, _) =>
          if s != "" {
            rows := rows + [IndexRow(category, Leaf(path, s))];
          }
        case Number(n) =>
          rows := rows + [IndexRow(category, Leaf(path, IntText(n)))];
        case Decimal(digits) =>
          rows := rows + [IndexRow(category, Leaf(path, digits))];
        case _ =>
      }
    }
  }

  // ---------- Flattening against positions in the value ----------

  /** A position: which member or item to enter at each level. */
  function At(v: Json, position: seq<nat>): Option<Json>
    decreases |position|
  {
    if position == [] then Some(v)
    else
      match v
      case Object(fields) =>
        if position[0] < |fields| then At(fields[position[0]].value, position[1..]) else None
      case Array(items) =>
        if position[0] < |items| then At(items[position[0]], position[1..]) else None
      case _ => None
  }

  function PathTo(path: string, v: Json, position: seq<nat>): string
    requires At(v, position).Some?
    decreases |position|
  {
    if position == [] then path
    else
      match v
      case Object(fields) =>
        PathTo(KeyPath(path, fields[position[0]].key), fields[position[0]].value, position[1..])
      case Array(items) =>
        PathTo(ItemPath(path, position[0]), items[position[0]], position[1..])
  }

  ghost predicate LeafAt(pick: Json -> Option<string>, path: string, v: Json, leaf: Leaf, position: seq<nat>) {
    At(v, position).Some?
    && pick(At(v, position).value) == Some(leaf.text)
    && !At(v, position).value.Object? && !At(v, position).value.Array?
    && PathTo(path, v, position) == leaf.path
  }

  // ---------- Objects and arrays alike ----------

  predicate Nested(v: Json) {
    v.Object? || v.Array?
  }

  function Children(v: Json): nat
    requires Nested(v)
  {
    if v.Object? then |v.fields| else |v.items|
  }

  function Child(v: Json, i: nat): (child: Json)
    requires Nested(v) && i < Children(v)
    ensures child < v
  {
    if v.Object? then v.fields[i].value else v.items[i]
  }

  function ChildPath(path: string, v: Json, i: nat): string
    requires Nested(v) && i < Children(v)
  {
    if v.Object? then KeyPath(path, v.fields[i].key) else ItemPath(path, i)
  }

  /** The leaves of the first `n` members or items. */
  function CollectFirst(pick: Json -> Option<string>, path: string, v: Json, n: nat): seq<Leaf>
    requires Nested(v) && n <= Children(v)
  {
    if v.Object? then CollectFields(pick, path, v.fields[..n]) else CollectItems(pick, path, v.items[..n])
  }

  lemma CollectOneMore(pick: Json -> Option<string>, path: string, v: Json, n: nat)
    requires Nested(v) && n < Children(v)
    ensures CollectFirst(pick, path, v, 0) == []
    ensures CollectFirst(pick, path, v, n + 1) ==
            CollectFirst(pick, path, v, n) + Collect(pick, ChildPath(path, v, n), Child(v, n))
  {
    if v.Object? {
      assert v.fields[..n + 1][..n] == v.fields[..n];
    } else {
      assert v.items[..n + 1][..n] == v.items[..n];
    }
  }

  lemma CollectAll(pick: Json -> Option<string>, path: string, v: Json)
    requires Nested(v)
    ensures CollectFirst(pick, path, v, Children(v)) == Collect(pick, path, v)
  {
    if v.Object? {
      assert v.fields[..|v.fields|] == v.fields;
    } else {
      assert v.items[..|v.items|] == v.items;
    }
  }

  lemma EnterChild(pick: Json -> Option<string>, path: string, v: Json, leaf: Leaf, i: nat, rest: seq<nat>)
    requires Nested(v) && i < Children(v)
    ensures LeafAt(pick, path, v, leaf, [i] + rest) <==> LeafAt(pick, ChildPath(path, v, i), Child(v, i), leaf, rest)
  {
    assert ([i] + rest)[1..] == rest;
  }

  /** The path of a position: keys joined by dots, item numbers in brackets. */
  lemma {:induction false} PathSpelled(path: string, v: Json, position: seq<nat>, i: nat)
    requires At(v, position).Some? && Nested(At(v, position).value) && i < Children(At(v, position).value)
    ensures At(v, position + [i]) == Some(Child(At(v, position).value, i))
    ensures PathTo(path, v, []) == path
    ensures var parent, here := At(v, position).value, PathTo(path, v, position);
      match parent
      case Object(fields) =>
        PathTo(path, v, position + [i]) == if here == "" then fields[i].key else here + "." + fields[i].key
      case Array(items) =>
        exists number :: Numeral(number, i) && PathTo(path, v, position + [i]) == here + "[" + number + "]"
      case _ => true
    decreases |position|
  {
    NatTextDenotes(i);
    if position == [] {
      assert position + [i] == [i] && [i][1..] == [];
      assert v.Array? ==> PathTo(path, v, [i]) == path + "[" + NatText(i) + "]";
    } else {
      assert (position + [i])[1..] == position[1..] + [i];
      PathSpelled(ChildPath(path, v, position[0]), Child(v, position[0]), position[1..], i);
    }
  }

  // ---------- The leaves, exactly and in order ----------

  /** Document order. */
  predicate Before(p: seq<nat>, q: seq<nat>) {
    p != [] && q != [] && (p[0] < q[0] || (p[0] == q[0] && Before(p[1..], q[1..])))
  }

  /** `ps` are the positions, in document order and each once, of exactly the leaves among the
      positions that `within` admits, and `leaves` are these leaves. */
  ghost predicate Enumerates(pick: Json -> Option<string>, path: string, v: Json, within: seq<nat> -> bool,
                             leaves: seq<Leaf>, ps: seq<seq<nat>>)
  {
    && AreLeaves(pick, path, v, within, leaves, ps)
    && InOrder(ps)
    && (forall leaf, p :: within(p) && LeafAt(pick, path, v, leaf, p) ==> p in ps)
  }

  ghost predicate AreLeaves(pick: Json -> Option<string>, path: string, v: Json, within: seq<nat> -> bool,
                            leaves: seq<Leaf>, ps: seq<seq<nat>>)
  {
    |ps| == |leaves| && forall i :: 0 <= i < |ps| ==> within(ps[i]) && LeafAt(pick, path, v, leaves[i], ps[i])
  }

  predicate InOrder(ps: seq<seq<nat>>) {
    forall i, j :: 0 <= i < j < |ps| ==> Before(ps[i], ps[j])
  }

  function Anywhere(): seq<nat> -> bool {
    (p: seq<nat>) => true
  }

  function Below(n: nat): seq<nat> -> bool {
    (p: seq<nat>) => p != [] && p[0] < n
  }

  function Under(n: nat, ps: seq<seq<nat>>): seq<seq<nat>> {
    seq(|ps|, i requires 0 <= i < |ps| => [n] + ps[i])
  }

  lemma UnderKeepsOrder(n: nat, ps: seq<seq<nat>>)
    requires InOrder(ps)
    ensures InOrder(Under(n, ps))
  {
    forall i, j | 0 <= i < j < |ps| ensures Before(Under(n, ps)[i], Under(n, ps)[j]) {
      assert ([n] + ps[i])[1..] == ps[i] && ([n] + ps[j])[1..] == ps[j];
    }
  }

  lemma ChildLeaves(pick: Json -> Option<string>, path: string, v: Json, n: nat, more: seq<Leaf>, qs: seq<seq<nat>>)
    requires Nested(v) && n < Children(v)
    requires AreLeaves(pick, ChildPath(path, v, n), Child(v, n), Anywhere(), more, qs)
    ensures AreLeaves(pick, path, v, Below(n + 1), more, Under(n, qs))
  {
    forall i | 0 <= i < |qs| ensures LeafAt(pick, path, v, more[i], Under(n, qs)[i]) {
      EnterChild(pick, path, v, more[i], n, qs[i]);
    }
  }

  lemma JoinLeaves(pick: Json -> Option<string>, path: string, v: Json, n: nat, leaves: seq<Leaf>, ps: seq<seq<nat>>,
                   more: seq<Leaf>, us: seq<seq<nat>>)
    requires AreLeaves(pick, path, v, Below(n), leaves, ps) && AreLeaves(pick, path, v, Below(n + 1), more, us)
    ensures AreLeaves(pick, path, v, Below(n + 1), leaves + more, ps + us)
  {
  }

  lemma JoinInOrder(n: nat, ps: seq<seq<nat>>, us: seq<seq<nat>>)
    requires InOrder(ps) && InOrder(us)
    requires (forall i :: 0 <= i < |ps| ==> Below(n)(ps[i])) && (forall i :: 0 <= i < |us| ==> us[i] != [] && us[i][0] == n)
    ensures InOrder(ps + us)
  {
  }

  lemma JoinComplete(pick: Json -> Option<string>, path: string, v: Json, n: nat, ps: seq<seq<nat>>, qs: seq<seq<nat>>,
                     leaf: Leaf, p: seq<nat>)
    requires Nested(v) && n < Children(v) && Below(n + 1)(p) && LeafAt(pick, path, v, leaf, p)
    requires Below(n)(p) ==> p in ps
    requires LeafAt(pick, ChildPath(path, v, n), Child(v, n), leaf, p[1..]) ==> p[1..] in qs
    ensures p in ps + Under(n, qs)
  {
    if p[0] == n {
      FirstStep(p);
      EnterChild(pick, path, v, leaf, n, p[1..]);
      var k :| 0 <= k < |qs| && qs[k] == p[1..];
      assert Under(n, qs)[k] == p;
    }
  }

  /** One more member or item. */
  lemma EnumeratesOneMore(pick: Json -> Option<string>, path: string, v: Json, n: nat, leaves: seq<Leaf>, ps: seq<seq<nat>>,
                          more: seq<Leaf>, qs: seq<seq<nat>>)
    requires Nested(v) && n < Children(v)
    requires Enumerates(pick, path, v, Below(n), leaves, ps)
    requires Enumerates(pick, ChildPath(path, v, n), Child(v, n), Anywhere(), more, qs)
    ensures Enumerates(pick, path, v, Below(n + 1), leaves + more, ps + Under(n, qs))
  {
    var us := Under(n, qs);
    ChildLeaves(pick, path, v, n, more, qs);
    JoinLeaves(pick, path, v, n, leaves, ps, more, us);
    UnderKeepsOrder(n, qs);
    JoinInOrder(n, ps, us);
    forall leaf, p | Below(n + 1)(p) && LeafAt(pick, path, v, leaf, p) ensures p in ps + us {
      JoinComplete(pick, path, v, n, ps, qs, leaf, p);
    }
  }

  lemma FirstStep(position: seq<nat>)
    requires position != []
    ensures position == [position[0]] + position[1..]
  {
  }

  lemma {:induction false} FirstInOrder(pick: Json -> Option<string>, path: string, v: Json, n: nat) returns (ps: seq<seq<nat>>)
    requires Nested(v) && n <= Children(v)
    ensures Enumerates(pick, path, v, Below(n), CollectFirst(pick, path, v, n), ps)
    decreases v, 0, n
  {
    if n == 0 {
      ps := [];
    } else {
      var k := n - 1;
      ps := FirstInOrder(pick, path, v, k);
      var qs := CollectInOrder(pick, ChildPath(path, v, k), Child(v, k));
      CollectOneMore(pick, path, v, k);
      EnumeratesOneMore(pick, path, v, k, CollectFirst(pick, path, v, k), ps,
                        Collect(pick, ChildPath(path, v, k), Child(v, k)), qs);
      ps := ps + Under(k, qs);
    }
  }

  /** The selected leaves are those found at the positions of the value, each position once and in
      document order, under the path to it. */
  lemma {:induction false} CollectInOrder(pick: Json -> Option<string>, path: string, v: Json) returns (ps: seq<seq<nat>>)
    ensures Enumerates(pick, path, v, Anywhere(), Collect(pick, path, v), ps)
    decreases v, 1, 0
  {
    if Nested(v) {
      ps := FirstInOrder(pick, path, v, Children(v));
      CollectAll(pick, path, v);
      forall leaf, p | LeafAt(pick, path, v, leaf, p) ensures p in ps {
        assert Below(Children(v))(p);
      }
    } else {
      ps := if pick(v).Some? then [[]] else [];
      assert forall leaf, p :: LeafAt(pick, path, v, leaf, p) ==> p == [];
    }
  }

  /** The selected leaves are exactly those found at the positions of the value, each under its
      path. */
  lemma CollectExact(pick: Json -> Option<string>, path: string, v: Json, leaf: Leaf)
    ensures leaf in Collect(pick, path, v) <==> exists position :: LeafAt(pick, path, v, leaf, position)
  {
    var ps := CollectInOrder(pick, path, v);
    var leaves := Collect(pick, path, v);
    if leaf in leaves {
      var i :| 0 <= i < |leaves| && leaves[i] == leaf;
      assert LeafAt(pick, path, v, leaf, ps[i]);
    }
    if position :| LeafAt(pick, path, v, leaf, position) {
      var i :| 0 <= i < |ps| && ps[i] == position;
      assert LeafAt(pick, path, v, leaves[i], position);
      assert leaves[i] == leaf;
    }
  }

  /** What the index keeps at a position: a string that is not empty, a number in decimal, or the
      text of another number; nothing for null, booleans, empty strings, objects and arrays. */
  ghost predicate IndexedAt(path: string, v: Json, leaf: Leaf, position: seq<nat>) {
    At(v, position).Some? && PathTo(path, v, position) == leaf.path
    && match At(v, position).value
       case String(text, _) => text != "" && leaf.text == text
       case Number(n) => Numeral(leaf.text, n)
       case Decimal(digits) => leaf.text == digits
       case _ => false
  }

  lemma FlattenExact(path: string, v: Json, leaf: Leaf)
    ensures leaf in Flatten(path, v) <==> exists position :: IndexedAt(path, v, leaf, position)
  {
    CollectExact(LeafText, path, v, leaf);
    forall position ensures LeafAt(LeafText, path, v, leaf, position) <==> IndexedAt(path, v, leaf, position) {
      if At(v, position).Some? && At(v, position).value.Number? {
        IntTextExact(leaf.text, At(v, position).value.n);
      }
    }
  }

  // ---------- Searching values directly ----------

  predicate Contains(s: string, q: string) {
    exists i :: 0 <= i <= |s| && q <= s[i..]
  }

  lemma ContainsExact(s: string, q: string)
    ensures Contains(s, q) <==> exists a: string, b: string :: s == a + q + b
  {
    if i :| 0 <= i <= |s| && q <= s[i..] {
      assert s == s[..i] + q + s[i + |q|..];
    }
    forall a: string, b: string | s == a + q + b ensures q <= s[|a|..] {
      assert s[|a|..] == q + b;
    }
  }

  function MatchText(lower: string -> string, query: string): Json -> Option<string> {
    (v: Json) => if v.String? && Contains(lower(v.text), query) then Some(v.text) else None
  }

  /** Every string leaf whose lower-cased text contains the query, in value order. */
  function Matches(lower: string -> string, query: string, path: string, v: Json): seq<Leaf> {
    Collect(MatchText(lower, query), path, v)
  }

  /** What a search finds at a position: a string whose lower-cased text contains the query. */
  ghost predicate MatchedAt(lower: string -> string, query: string, path: string, v: Json, leaf: Leaf, position: seq<nat>) {
    && At(v, position).Some? && At(v, position).value.String?
    && leaf == Leaf(PathTo(path, v, position), At(v, position).value.text)
    && exists a: string, b: string :: lower(leaf.text) == a + query + b
  }

  lemma MatchesExact(lower: string -> string, query: string, path: string, v: Json, leaf: Leaf)
    ensures leaf in Matches(lower, query, path, v) <==> exists position :: MatchedAt(lower, query, path, v, leaf, position)
  {
    CollectExact(MatchText(lower, query), path, v, leaf);
    ContainsExact(lower(leaf.text), query);
    forall position
      ensures LeafAt(MatchText(lower, query), path, v, leaf, position) <==> MatchedAt(lower, query, path, v, leaf, position)
    {
      if At(v, position).Some? && At(v, position).value.String? {
        ContainsExact(lower(At(v, position).value.text), query);
      }
    }
  }

  /** `found` extended with as much of `more` as the limit allows. */
  function UpTo(found: seq<IndexRow>, more: seq<IndexRow>, limit: nat): seq<IndexRow> {
    if limit <= |found| then found
    else if |found| + |more| <= limit then found + more
    else found + more[..limit - |found|]
  }

  lemma UpToTwice(found: seq<IndexRow>, a: seq<IndexRow>, b: seq<IndexRow>, limit: nat)
    ensures UpTo(UpTo(found, a, limit), b, limit) == UpTo(found, a + b, limit)
  {
  }

  /** The results after adding one row per leaf, in order, as the limit allows. */
  function Found(items: seq<IndexRow>, category: string, leaves: seq<Leaf>, limit: nat): seq<IndexRow> {
    UpTo(items, RowsOf(category, leaves), limit)
  }

  lemma FoundTwice(items: seq<IndexRow>, category: string, a: seq<Leaf>, b: seq<Leaf>, limit: nat)
    ensures Found(Found(items, category, a, limit), category, b, limit) == Found(items, category, a + b, limit)
  {
    UpToTwice(items, RowsOf(category, a), RowsOf(category, b), limit);
    RowsOfConcat(category, a, b);
  }

  lemma FoundField(items: seq<IndexRow>, category: string, pick: Json -> Option<string>, path: string,
                   fields: seq<Field>, i: nat, limit: nat)
    requires i < |fields|
    ensures Found(Found(items, category, CollectFields(pick, path, fields[..i]), limit), category,
                  Collect(pick, KeyPath(path, fields[i].key), fields[i].value), limit)
            == Found(items, category, CollectFields(pick, path, fields[..i + 1]), limit)
  {
    assert fields[..i + 1][..i] == fields[..i];
    FoundTwice(items, category, CollectFields(pick, path, fields[..i]),
               Collect(pick, KeyPath(path, fields[i].key), fields[i].value), limit);
  }

  lemma FoundItem(items: seq<IndexRow>, category: string, pick: Json -> Option<string>, path: string,
                  values: seq<Json>, i: nat, limit: nat)
    requires i < |values|
    ensures Found(Found(items, category, CollectItems(pick, path, values[..i]), limit), category,
                  Collect(pick, ItemPath(path, i), values[i]), limit)
            == Found(items, category, CollectItems(pick, path, values[..i + 1]), limit)
  {
    assert values[..i + 1][..i] == values[..i];
    FoundTwice(items, category, CollectItems(pick, path, values[..i]), Collect(pick, ItemPath(path, i), values[i]), limit);
  }

  /** The results vector shared by the recursive calls. */
  class Results {
    var items: seq<IndexRow>

    constructor ()
      ensures items == []
    {
      items := [];
    }

    method SearchRecursive(lower: string -> string, query: string, category: string, path: string, v: Json, limit: nat)
      modifies this
      ensures items == Found(old(items), category, Matches(lower, query, path, v), limit)
      decreases v
    {
      if limit <= |items| {
        return;
      }
      match v {
        case String(s, _) =>
          if Contains(lower(s), query) {
            items := items + [IndexRow(category, Leaf(path, s))];
          }
        case Object(fields) =>
          for i := 0 to |fields|
            invariant items == Found(old(items), category, CollectFields(MatchText(lower, query), path, fields[..i]), limit)
          {
            FoundField(old(items), category, MatchText(lower, query), path, fields, i, limit);
            SearchRecursive(lower, query, category, KeyPath(path, fields[i].key), fields[i].value, limit);
          }
          assert fields[..|fields|] == fields;
        case Array(values) =>
          for i := 0 to |values|
            invariant items == Found(old(items), category, CollectItems(MatchText(lower, query), path, values[..i]), limit)
          {
            FoundItem(old(items), category, MatchText(lower, query), path, values, i, limit);
            SearchRecursive(lower, query, category, ItemPath(path, i), values[i], limit);
          }
          assert values[..|values|] == values;
        case _ =>
      }
    }
  }
}
