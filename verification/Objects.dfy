/** JSON objects as the program holds them: members in strictly ascending order of
    their keys, so that each key has at most one member. */
module Objects {
  import opened Values
  import opened Sorting

  predicate Ascending(fields: seq<Field>) {
    forall i, j :: 0 <= i < j < |fields| ==> Less(fields[i].key, fields[j].key)
  }

  /** Every object in the value has ascending members. */
  predicate Canonical(v: Json)
    decreases v
  {
    match v
    case Object(fields) => Ascending(fields) && forall i :: 0 <= i < |fields| ==> Canonical(fields[i].value)
    case Array(items) => forall i :: 0 <= i < |items| ==> Canonical(items[i])
    case _ => true
  }

  predicate AllCanonical(items: seq<Json>) {
    forall v :: v in items ==> Canonical(v)
  }

  predicate Above(key: string, fields: seq<Field>) {
    forall f :: f in fields ==> Less(key, f.key)
  }

  lemma AscendingCons(first: Field, rest: seq<Field>)
    requires Ascending(rest) && Above(first.key, rest)
    ensures Ascending([first] + rest)
  {
  }

  lemma AscendingTail(fields: seq<Field>)
    requires fields != [] && Ascending(fields)
    ensures Ascending(fields[1..]) && Above(fields[0].key, fields[1..])
  {
    var rest := fields[1..];
    forall i | 0 <= i < |rest| ensures Less(fields[0].key, rest[i].key) {
      assert rest[i] == fields[i + 1];
    }
    forall i, j | 0 <= i < j < |rest| ensures Less(rest[i].key, rest[j].key) {
      assert rest[i] == fields[i + 1] && rest[j] == fields[j + 1];
    }
  }

  lemma AscendingKeysDiffer(fields: seq<Field>)
    requires Ascending(fields)
    ensures forall i, j :: 0 <= i < j < |fields| ==> fields[i].key != fields[j].key
  {
    forall i, j | 0 <= i < j < |fields| ensures fields[i].key != fields[j].key {
      LessIrreflexive(fields[i].key);
    }
  }

  lemma {:induction false} PutMembers(fields: seq<Field>, key: string, value: Json, f: Field)
    ensures f in Put(fields, key, value) ==> f == Field(key, value) || f in fields
  {
    if fields != [] && fields[0].key != key && !Less(key, fields[0].key) {
      PutMembers(fields[1..], key, value, f);
    }
  }

  lemma {:induction false} DropMembers(fields: seq<Field>, key: string, f: Field)
    ensures f in Drop(fields, key) ==> f in fields
  {
    if fields != [] {
      DropMembers(fields[1..], key, f);
    }
  }

  /** Inserting or replacing a member keeps the keys strictly ascending. */
  lemma {:induction false} PutAscends(fields: seq<Field>, key: string, value: Json)
    requires Ascending(fields)
    ensures Ascending(Put(fields, key, value))
  {
    if fields != [] {
      var first, rest := fields[0], fields[1..];
      AscendingTail(fields);
      LessTotal(first.key, key);
      if first.key == key {
        AscendingCons(Field(key, value), rest);
      } else if Less(key, first.key) {
        forall f | f in fields ensures Less(key, f.key) {
          if f in rest {
            LessTransitive(key, first.key, f.key);
          }
        }
        AscendingCons(Field(key, value), fields);
      } else {
        PutAscends(rest, key, value);
        forall f | f in Put(rest, key, value) ensures Less(first.key, f.key) {
          PutMembers(rest, key, value, f);
        }
        AscendingCons(first, Put(rest, key, value));
      }
    }
  }

  lemma {:induction false} DropAscends(fields: seq<Field>, key: string)
    requires Ascending(fields)
    ensures Ascending(Drop(fields, key))
  {
    if fields != [] {
      AscendingTail(fields);
      DropAscends(fields[1..], key);
      forall f | f in Drop(fields[1..], key) ensures Less(fields[0].key, f.key) {
        DropMembers(fields[1..], key, f);
      }
      if fields[0].key != key {
        AscendingCons(fields[0], Drop(fields[1..], key));
      }
    }
  }

  /** With ascending keys looking up finds exactly the members. */
  lemma {:induction false} MembersAreLookedUp(fields: seq<Field>, f: Field)
    requires Ascending(fields)
    ensures f in fields <==> Lookup(fields, f.key) == Some(f.value)
  {
    if fields != [] {
      AscendingTail(fields);
      MembersAreLookedUp(fields[1..], f);
      LessIrreflexive(f.key);
      assert fields == [fields[0]] + fields[1..];
    }
  }

  /** An ascending object is determined by what looking up its keys finds. */
  lemma {:induction false} SameMembersSameObject(a: seq<Field>, b: seq<Field>)
    requires Ascending(a) && Ascending(b) && forall key :: Lookup(a, key) == Lookup(b, key)
    ensures a == b
    decreases |a|
  {
    assert a == [] || Lookup(b, a[0].key) == Some(a[0].value);
    assert b == [] || Lookup(a, b[0].key) == Some(b[0].value);
    if a != [] && b != [] {
      HeadsAgree(a, b);
      AscendingTail(a);
      AscendingTail(b);
      forall key ensures Lookup(a[1..], key) == Lookup(b[1..], key) {
        if key == a[0].key {
          NotInTail(a);
          NotInTail(b);
        } else {
          assert Lookup(a, key) == Lookup(b, key);
        }
      }
      SameMembersSameObject(a[1..], b[1..]);
      assert a == [a[0]] + a[1..] && b == [b[0]] + b[1..];
    }
  }

  lemma NotInTail(fields: seq<Field>)
    requires fields != [] && Ascending(fields)
    ensures Lookup(fields[1..], fields[0].key) == None
  {
    var key := fields[0].key;
    AscendingTail(fields);
    LessIrreflexive(key);
    if Lookup(fields[1..], key).Some? {
      MembersAreLookedUp(fields[1..], Field(key, Lookup(fields[1..], key).value));
    }
  }

  lemma HeadsAgree(a: seq<Field>, b: seq<Field>)
    requires a != [] && b != [] && Ascending(a) && Ascending(b)
    requires forall key :: Lookup(a, key) == Lookup(b, key)
    ensures a[0] == b[0]
  {
    MembersAreLookedUp(a, b[0]);
    MembersAreLookedUp(b, a[0]);
    MembersAreLookedUp(b, b[0]);
    MembersAreLookedUp(a, a[0]);
    AscendingTail(a);
    AscendingTail(b);
    LessTotal(a[0].key, b[0].key);
    assert a == [a[0]] + a[1..] && b == [b[0]] + b[1..];
  }

  lemma PutCanonical(fields: seq<Field>, key: string, value: Json)
    requires Canonical(Object(fields)) && Canonical(value)
    ensures Canonical(Object(Put(fields, key, value)))
  {
    var after := Put(fields, key, value);
    PutAscends(fields, key, value);
    forall i | 0 <= i < |after| ensures Canonical(after[i].value) {
      PutMembers(fields, key, value, after[i]);
    }
  }

  lemma DropCanonical(fields: seq<Field>, key: string)
    requires Canonical(Object(fields))
    ensures Canonical(Object(Drop(fields, key)))
  {
    var after := Drop(fields, key);
    DropAscends(fields, key);
    forall i | 0 <= i < |after| ensures Canonical(after[i].value) {
      DropMembers(fields, key, after[i]);
    }
  }

  lemma {:induction false} CanonicalMember(fields: seq<Field>, key: string)
    requires forall i :: 0 <= i < |fields| ==> Canonical(fields[i].value)
    ensures Lookup(fields, key).Some? ==> Canonical(Lookup(fields, key).value)
  {
    if fields != [] {
      CanonicalMember(fields[1..], key);
    }
  }
}
