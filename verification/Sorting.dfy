/** Sorting strings in byte order, and why the result does not depend on the order
    of the input. */
module Sorting {
  import opened Values

  lemma {:induction false} LessTotal(a: string, b: string)
    ensures Less(a, b) || Less(b, a) || a == b
    ensures !(Less(a, b) && Less(b, a)) && !Less(a, a)
  {
    if a != [] && b != [] {
      LessTotal(a[1..], b[1..]);
      assert a == [a[0]] + a[1..] && b == [b[0]] + b[1..];
    }
    LessIrreflexive(a);
  }

  lemma {:induction false} LessIrreflexive(a: string)
    ensures !Less(a, a)
  {
    if a != [] {
      LessIrreflexive(a[1..]);
    }
  }

  lemma {:induction false} LessTransitive(a: string, b: string, c: string)
    requires Less(a, b) && Less(b, c)
    ensures Less(a, c)
  {
    if a != [] && a[0] == b[0] == c[0] {
      LessTransitive(a[1..], b[1..], c[1..]);
    }
  }

  /** The first difference of two strings. */
  predicate DiffersAt(a: string, b: string, k: nat) {
    k < |a| && k < |b| && a[k] != b[k] && forall i :: 0 <= i < k ==> a[i] == b[i]
  }

  lemma {:induction false} LessAt(a: string, b: string, k: nat)
    requires DiffersAt(a, b, k)
    ensures Less(a, b) <==> a[k] < b[k]
  {
    if k > 0 {
      LessAt(a[1..], b[1..], k - 1);
    }
  }

  /** Strings compare by their first difference; a proper prefix comes first. */
  lemma {:induction false} LessExact(a: string, b: string)
    ensures Less(a, b) <==> (|a| < |b| && a == b[..|a|]) || exists k: nat :: DiffersAt(a, b, k) && a[k] < b[k]
  {
    if a != [] && b != [] && a[0] == b[0] {
      var c, d := a[1..], b[1..];
      LessExact(c, d);
      assert a == [a[0]] + c && b == [b[0]] + d;
      assert |a| < |b| && a == b[..|a|] <==> |c| < |d| && c == d[..|c|];
      forall k: nat ensures DiffersAt(c, d, k) <==> DiffersAt(a, b, k + 1) {
        assert k < |c| && k < |d| ==> a[k + 1] == c[k] && b[k + 1] == d[k];
      }
      if k: nat :| DiffersAt(c, d, k) && c[k] < d[k] {
        assert DiffersAt(a, b, k + 1);
      }
      if k: nat :| DiffersAt(a, b, k) && a[k] < b[k] {
        assert DiffersAt(c, d, k - 1);
      }
    } else if a != [] && b != [] {
      assert DiffersAt(a, b, 0);
      assert forall k: nat :: DiffersAt(a, b, k) ==> k == 0;
    }
  }

  function Insert(x: string, s: seq<string>): seq<string> {
    if s == [] then [x]
    else if !Less(s[0], x) then [x] + s
    else [s[0]] + Insert(x, s[1..])
  }

  function Sort(s: seq<string>): seq<string> {
    if s == [] then [] else Insert(s[0], Sort(s[1..]))
  }

  lemma {:induction false} InsertKeepsElements(x: string, s: seq<string>)
    ensures multiset(Insert(x, s)) == multiset(s) + multiset{x} && |Insert(x, s)| == |s| + 1
  {
    if s != [] && Less(s[0], x) {
      InsertKeepsElements(x, s[1..]);
      assert s == [s[0]] + s[1..];
    }
  }

  lemma {:induction false} SortKeepsElements(s: seq<string>)
    ensures multiset(Sort(s)) == multiset(s) && |Sort(s)| == |s|
  {
    if s != [] {
      SortKeepsElements(s[1..]);
      InsertKeepsElements(s[0], Sort(s[1..]));
      assert s == [s[0]] + s[1..];
    }
  }

  predicate Sorted(s: seq<string>) {
    forall i, j :: 0 <= i < j < |s| ==> !Less(s[j], s[i])
  }

  lemma SortedCons(x: string, s: seq<string>)
    requires Sorted(s) && forall y :: y in s ==> !Less(y, x)
    ensures Sorted([x] + s)
  {
  }

  lemma SortedTail(s: seq<string>)
    requires s != [] && Sorted(s)
    ensures Sorted(s[1..]) && forall y :: y in s[1..] ==> !Less(y, s[0])
  {
    var rest := s[1..];
    assert forall i :: 0 <= i < |rest| ==> rest[i] == s[i + 1];
  }

  lemma NotLessTransitive(a: string, b: string, c: string)
    requires !Less(b, a) && !Less(c, b)
    ensures !Less(c, a)
  {
    LessTotal(a, b);
    LessTotal(b, c);
    if Less(c, a) {
      LessTransitiveOrEqual(c, a, b);
    }
  }

  lemma LessTransitiveOrEqual(c: string, a: string, b: string)
    requires Less(c, a) && (Less(a, b) || a == b)
    ensures Less(c, b)
  {
    if Less(a, b) {
      LessTransitive(c, a, b);
    }
  }

  lemma {:induction false} InsertSorted(x: string, s: seq<string>)
    requires Sorted(s)
    ensures Sorted(Insert(x, s))
  {
    if s != [] {
      SortedTail(s);
      if !Less(s[0], x) {
        forall y | y in s ensures !Less(y, x) {
          if y != s[0] {
            assert y in s[1..];
            NotLessTransitive(x, s[0], y);
          }
        }
        SortedCons(x, s);
      } else {
        InsertSorted(x, s[1..]);
        InsertKeepsElements(x, s[1..]);
        LessTotal(s[0], x);
        forall y | y in Insert(x, s[1..]) ensures !Less(y, s[0]) {
          assert y in multiset(Insert(x, s[1..]));
          assert y == x || y in s[1..];
        }
        SortedCons(s[0], Insert(x, s[1..]));
      }
    }
  }

  /** Sorting sorts, and keeps every element as often as it was there. */
  lemma {:induction false} SortSorts(s: seq<string>)
    ensures Sorted(Sort(s)) && multiset(Sort(s)) == multiset(s)
  {
    SortKeepsElements(s);
    if s != [] {
      SortSorts(s[1..]);
      InsertSorted(s[0], Sort(s[1..]));
    }
  }

  lemma {:induction false} InsertCommutes(x: string, y: string, s: seq<string>)
    ensures Insert(x, Insert(y, s)) == Insert(y, Insert(x, s))
  {
    LessTotal(x, y);
    if s != [] {
      var head := s[0];
      LessTotal(x, head);
      LessTotal(y, head);
      if Less(head, x) && Less(head, y) {
        InsertCommutes(x, y, s[1..]);
        assert ([head] + Insert(y, s[1..]))[1..] == Insert(y, s[1..]);
        assert ([head] + Insert(x, s[1..]))[1..] == Insert(x, s[1..]);
      } else if Less(head, x) {
        if Less(x, y) { LessTransitive(head, x, y); }
        assert ([head] + Insert(x, s[1..]))[1..] == Insert(x, s[1..]);
        assert ([y] + s)[1..] == s;
      } else if Less(head, y) {
        if Less(y, x) { LessTransitive(head, y, x); }
        assert ([head] + Insert(y, s[1..]))[1..] == Insert(y, s[1..]);
        assert ([x] + s)[1..] == s;
      } else {
        assert ([y] + s)[1..] == s && ([x] + s)[1..] == s;
      }
    }
  }

  lemma {:induction false} SortMovesFront(s: seq<string>, k: nat)
    requires k < |s|
    ensures Sort(s) == Insert(s[k], Sort(s[..k] + s[k + 1..]))
  {
    if k == 0 {
      assert s[..0] + s[1..] == s[1..];
    } else {
      var rest := s[1..];
      SortMovesFront(rest, k - 1);
      InsertCommutes(s[0], s[k], Sort(rest[..k - 1] + rest[k..]));
      var without := s[..k] + s[k + 1..];
      assert without[1..] == rest[..k - 1] + rest[k..];
    }
  }

  lemma WithoutOne<T>(s: seq<T>, k: nat)
    requires k < |s|
    ensures multiset(s) == multiset(s[..k] + s[k + 1..]) + multiset{s[k]}
  {
    assert s == s[..k] + [s[k]] + s[k + 1..];
  }

  lemma CancelOne<T>(a: multiset<T>, b: multiset<T>, x: T)
    requires a + multiset{x} == b + multiset{x}
    ensures a == b
  {
    assert a == (a + multiset{x}) - multiset{x};
    assert b == (b + multiset{x}) - multiset{x};
  }

  /** Sorting forgets the order: permutations sort alike. */
  lemma {:induction false} SortCanonical(a: seq<string>, b: seq<string>)
    requires multiset(a) == multiset(b)
    ensures Sort(a) == Sort(b)
    decreases |a|
  {
    if a == [] {
      assert |b| == |multiset(b)| == 0;
    } else {
      assert a[0] in multiset(a);
      var k :| 0 <= k < |b| && b[k] == a[0];
      var rest := b[..k] + b[k + 1..];
      WithoutOne(b, k);
      WithoutOne(a, 0);
      assert a[..0] + a[1..] == a[1..];
      CancelOne(multiset(a[1..]), multiset(rest), a[0]);
      SortCanonical(a[1..], rest);
      SortMovesFront(b, k);
    }
  }
}
