/** JSON values, file contents and content hashes shared by every module.

  Three things the program computes with outside code are carried by the data
  instead of being recomputed, so that nothing about them is assumed:

  - a JSON string carries the instant its text denotes under RFC 3339, if any;
  - bytes that the program did not serialize itself carry what they parse to;
  - a content hash carries the content it was computed from, which is exactly
    the assumption that SHA-256 has no collision.
*/
module Values {

  datatype Option<+T> = None | Some(value: T)

  datatype Result<+T, +E> = Ok(value: T) | Err(error: E)

  const TWO_64 := 0x1_0000_0000_0000_0000

  type u64 = n: int | 0 <= n < TWO_64

  // ---------- JSON ----------

  /** Object fields are listed in the iteration order of the map that holds
      them (ascending keys). `Number` is an integer; other numbers keep only
      their text. */
  datatype Json =
    | Null
    | Bool(b: bool)
    | Number(n: int)
    | Decimal(digits: string)
    | String(text: string, instant: Option<int>)
    | Array(items: seq<Json>)
    | Object(fields: seq<Field>)

  datatype Field = Field(key: string, value: Json)

  function Lookup(fields: seq<Field>, key: string): Option<Json> {
    if fields == [] then None
    else if fields[0].key == key then Some(fields[0].value)
    else Lookup(fields[1..], key)
  }

  /** `v.get(key)`: only objects have members. */
  function Get(v: Json, key: string): Option<Json> {
    if v.Object? then Lookup(v.fields, key) else None
  }

  predicate Less(a: string, b: string) {
    if b == [] then false
    else if a == [] then true
    else if a[0] != b[0] then a[0] < b[0]
    else Less(a[1..], b[1..])
  }

  /** Insert or replace one member, keeping the key order. */
  function Put(fields: seq<Field>, key: string, value: Json): seq<Field> {
    if fields == [] then [Field(key, value)]
    else if fields[0].key == key then [Field(key, value)] + fields[1..]
    else if Less(key, fields[0].key) then [Field(key, value)] + fields
    else [fields[0]] + Put(fields[1..], key, value)
  }

  function Drop(fields: seq<Field>, key: string): seq<Field> {
    if fields == [] then []
    else if fields[0].key == key then Drop(fields[1..], key)
    else [fields[0]] + Drop(fields[1..], key)
  }

  lemma {:induction false} LookupPut(fields: seq<Field>, key: string, value: Json, other: string)
    ensures Lookup(Put(fields, key, value), other) == if other == key then Some(value) else Lookup(fields, other)
  {
    if fields != [] && fields[0].key != key && !Less(key, fields[0].key) {
      LookupPut(fields[1..], key, value, other);
    }
  }

  lemma {:induction false} LookupDrop(fields: seq<Field>, key: string, other: string)
    ensures Lookup(Drop(fields, key), other) == if other == key then None else Lookup(fields, other)
  {
    if fields != [] {
      LookupDrop(fields[1..], key, other);
    }
  }

  function AsU64(v: Json): Option<u64> {
    if v.Number? && 0 <= v.n < TWO_64 then Some(v.n) else None
  }

  // ---------- Contents and hashes ----------

  /** The bytes of a category file: either the pretty-printed form of a value,
      or other bytes together with what they parse to. */
  datatype Content =
    | Pretty(value: Json)
    | Bytes(raw: string, parsed: Option<Json>)

  function Parse(c: Content): Option<Json> {
    match c
    case Pretty(v) => Some(v)
    case Bytes(_, p) => p
  }

  datatype Hash = Hash(of: Content)

  function HashOf(c: Content): Hash {
    Hash(c)
  }

  // ---------- Sequences ----------

  lemma InitAndLast<T>(s: seq<T>)
    requires s != []
    ensures s == s[..|s| - 1] + [s[|s| - 1]]
  {
  }

  function Filter<T(!new)>(p: T -> bool, s: seq<T>): (r: seq<T>)
    ensures |r| <= |s|
    ensures forall x :: x in r <==> x in s && p(x)
  {
    if s == [] then []
    else if p(s[0]) then [s[0]] + Filter(p, s[1..])
    else Filter(p, s[1..])
  }

  lemma {:induction false} FilterConcat<T(!new)>(p: T -> bool, a: seq<T>, b: seq<T>)
    ensures Filter(p, a + b) == Filter(p, a) + Filter(p, b)
  {
    if a == [] {
      assert a + b == b;
    } else {
      assert (a + b)[1..] == a[1..] + b;
      FilterConcat(p, a[1..], b);
    }
  }

  lemma FilterOneMore<T(!new)>(p: T -> bool, s: seq<T>, i: nat)
    requires i < |s|
    ensures Filter(p, s[..i + 1]) == Filter(p, s[..i]) + if p(s[i]) then [s[i]] else []
  {
    assert s[..i + 1] == s[..i] + [s[i]];
    FilterConcat(p, s[..i], [s[i]]);
    assert Filter(p, [s[i]]) == if p(s[i]) then [s[i]] else [];
  }

  lemma {:induction false} FilterAll<T(!new)>(p: T -> bool, s: seq<T>)
    requires forall x :: x in s ==> p(x)
    ensures Filter(p, s) == s
  {
    if s != [] {
      FilterAll(p, s[1..]);
    }
  }

  lemma {:induction false} FilterNone<T(!new)>(p: T -> bool, s: seq<T>)
    requires forall x :: x in s ==> !p(x)
    ensures Filter(p, s) == []
  {
    if s != [] {
      FilterNone(p, s[1..]);
    }
  }

  /** Filtering by `q` first does not change what `p` keeps, when `q` keeps all of `p`. */
  lemma {:induction false} FilterFilter<T(!new)>(p: T -> bool, q: T -> bool, s: seq<T>)
    requires forall x :: x in s && p(x) ==> q(x)
    ensures Filter(p, Filter(q, s)) == Filter(p, s)
  {
    if s != [] {
      FilterFilter(p, q, s[1..]);
    }
  }

  /** When `p` holds of exactly the elements from `k` on, it keeps that suffix. */
  lemma FilterSuffix<T(!new)>(p: T -> bool, s: seq<T>, k: nat)
    requires k <= |s| && forall i :: 0 <= i < |s| ==> (p(s[i]) <==> k <= i)
    ensures Filter(p, s) == s[k..]
  {
    assert s == s[..k] + s[k..];
    FilterConcat(p, s[..k], s[k..]);
    FilterNone(p, s[..k]);
    FilterAll(p, s[k..]);
  }

  lemma {:induction false} FilterSwap<T(!new)>(p: T -> bool, q: T -> bool, s: seq<T>)
    ensures Filter(p, Filter(q, s)) == Filter(q, Filter(p, s))
  {
    if s != [] {
      FilterSwap(p, q, s[1..]);
    }
  }

  lemma {:induction false} FilterLast<T(!new)>(p: T -> bool, s: seq<T>)
    requires s != [] && p(s[|s| - 1])
    ensures Filter(p, s) != [] && Filter(p, s)[|Filter(p, s)| - 1] == s[|s| - 1]
  {
    if |s| > 1 {
      FilterLast(p, s[1..]);
    }
  }
}
