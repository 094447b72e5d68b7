/** Competing versions of one category under last-write-wins (src/sync.rs:
    resolve_conflict, apply_sync_envelope), apart from the tables that hold them. */
module LastWrite {
  import opened Values

  datatype Version = Version(value: Json, at: int, author: string)

  // ---------- One offer after another ----------

  /** What one offer may do to the version held: a first version is taken; an offer recognized
      as already held changes nothing, and only an equal value can be recognized; otherwise the
      offer wins unless it is older. */
  predicate Moves(cur: Option<Version>, v: Version, next: Option<Version>) {
    if cur.None? then next == Some(v)
    else
      || (cur.value.value == v.value && next == cur)
      || next == if cur.value.at <= v.at then Some(v) else cur
  }

  /** The offers, in order, may lead from one version held to another. */
  ghost predicate Leads(cur: Option<Version>, vs: seq<Version>, next: Option<Version>) {
    if vs == [] then next == cur
    else
      var init, last := vs[..|vs| - 1], vs[|vs| - 1];
      exists mid :: Leads(cur, init, mid) && Moves(mid, last, next)
  }

  lemma LeadsOneMore(cur: Option<Version>, vs: seq<Version>, mid: Option<Version>, v: Version, next: Option<Version>)
    requires Leads(cur, vs, mid) && Moves(mid, v, next)
    ensures Leads(cur, vs + [v], next)
  {
    assert (vs + [v])[..|vs|] == vs;
  }

  /** `m` prevails over the version held at first and all those offered. If it is held, every
      other offer is older. If it is offered, the version held is not newer and has another
      value, and every other offer that is not older than the version held is older than `m`
      and has another value. */
  predicate Prevails(cur: Option<Version>, vs: seq<Version>, m: Version) {
    if cur == Some(m) then forall v :: v in vs ==> v == m || v.at < m.at
    else m in vs && Beats(cur, m) && forall v :: v in vs ==> Yields(cur, v, m)
  }

  predicate Beats(cur: Option<Version>, m: Version) {
    cur.Some? ==> cur.value.at <= m.at && cur.value.value != m.value
  }

  predicate Yields(cur: Option<Version>, v: Version, m: Version) {
    v == m || (v.at < m.at && v.value != m.value) || (cur.Some? && v.at < cur.value.at)
  }

  /** Where the offers may have led before and after `m` was among them. */
  predicate OnTheWay(cur: Option<Version>, vs: seq<Version>, m: Version, x: Option<Version>) {
    if m in vs || cur == Some(m) then x == Some(m)
    else x == cur || (x.Some? && x.value in vs && (cur.Some? ==> cur.value.at <= x.value.at))
  }

  lemma {:induction false} LeadsOnTheWay(cur: Option<Version>, vs: seq<Version>, m: Version, x: Option<Version>)
    requires Leads(cur, vs, x)
    requires if cur == Some(m) then forall v :: v in vs ==> v == m || v.at < m.at
             else Beats(cur, m) && forall v :: v in vs ==> Yields(cur, v, m)
    ensures OnTheWay(cur, vs, m, x)
  {
    if vs != [] {
      var init, last := vs[..|vs| - 1], vs[|vs| - 1];
      var mid :| Leads(cur, init, mid) && Moves(mid, last, x);
      InitAndLast(vs);
      LeadsOnTheWay(cur, init, m, mid);
      assert last in vs;
      if mid.Some? && mid.value in init {
        assert mid.value in vs;
      }
    }
  }

  /** Whatever is recognized as held on the way, the prevailing version is the last one held. */
  lemma PrevailingIsLast(cur: Option<Version>, vs: seq<Version>, m: Version, x: Option<Version>)
    requires Prevails(cur, vs, m) && Leads(cur, vs, x)
    ensures x == Some(m)
  {
    LeadsOnTheWay(cur, vs, m, x);
  }

  /** Offering one version several times is like offering it once. */
  lemma {:induction false} RepeatedOffer(cur: Option<Version>, vs: seq<Version>, v: Version, x: Option<Version>)
    requires vs != [] && (forall w :: w in vs ==> w == v) && Leads(cur, vs, x)
    ensures Moves(cur, v, x)
  {
    var init, last := vs[..|vs| - 1], vs[|vs| - 1];
    var mid :| Leads(cur, init, mid) && Moves(mid, last, x);
    InitAndLast(vs);
    assert last in vs;
    if init != [] {
      assert forall w :: w in init ==> w in vs;
      RepeatedOffer(cur, init, v, mid);
    }
  }

  predicate SameElements(a: seq<Version>, b: seq<Version>) {
    (forall v :: v in a ==> v in b) && (forall v :: v in b ==> v in a)
  }

  lemma {:induction false} Newest(vs: seq<Version>) returns (m: Version)
    requires vs != []
    ensures m in vs && forall v :: v in vs ==> v.at <= m.at
  {
    m := vs[0];
    if |vs| > 1 {
      var rest := Newest(vs[1..]);
      if m.at < rest.at {
        m := rest;
      }
    }
  }

  /** Among the version held and those offered, timestamp, author and value determine one another. */
  predicate Competes(cur: Option<Version>, vs: seq<Version>, v: Version) {
    v in vs || cur == Some(v)
  }

  ghost predicate Determined(cur: Option<Version>, vs: seq<Version>) {
    forall v, w :: Competes(cur, vs, v) && Competes(cur, vs, w) && (v.at == w.at || v.value == w.value) ==> v == w
  }

  /** Then the newest of them prevails. */
  lemma DeterminedNewestPrevails(cur: Option<Version>, vs: seq<Version>) returns (m: Version)
    requires Determined(cur, vs) && (cur.Some? || vs != [])
    ensures Competes(cur, vs, m) && Prevails(cur, vs, m)
    ensures forall v :: Competes(cur, vs, v) ==> v.at <= m.at
  {
    var all := vs + if cur.Some? then [cur.value] else [];
    m := Newest(all);
    forall v ensures v in all <==> Competes(cur, vs, v) {}
  }

  // ---------- When every equal value is recognized ----------

  /** Peers that serialize as this store does: an offer of the value held is always recognized. */
  function Next(cur: Option<Version>, v: Version): Option<Version> {
    if cur.None? then Some(v)
    else if cur.value.value == v.value then cur
    else if cur.value.at <= v.at then Some(v)
    else cur
  }

  function Final(cur: Option<Version>, vs: seq<Version>): Option<Version> {
    if vs == [] then cur else Next(Final(cur, vs[..|vs| - 1]), vs[|vs| - 1])
  }

  lemma {:induction false} FinalLeads(cur: Option<Version>, vs: seq<Version>)
    ensures Leads(cur, vs, Final(cur, vs))
  {
    if vs != [] {
      FinalLeads(cur, vs[..|vs| - 1]);
    }
  }

  lemma {:induction false} FinalConcat(cur: Option<Version>, a: seq<Version>, b: seq<Version>)
    ensures Final(cur, a + b) == Final(Final(cur, a), b)
  {
    if b == [] {
      assert a + b == a;
    } else {
      assert (a + b)[..|a + b| - 1] == a + b[..|b| - 1];
      FinalConcat(cur, a, b[..|b| - 1]);
    }
  }

  /** The final version was held at first or offered. */
  lemma {:induction false} FinalCompetes(cur: Option<Version>, vs: seq<Version>)
    ensures Final(cur, vs) == cur || (Final(cur, vs).Some? && Final(cur, vs).value in vs)
  {
    if vs != [] {
      FinalCompetes(cur, vs[..|vs| - 1]);
      InitAndLast(vs);
    }
  }

  /** No offer can displace the version held. */
  predicate Stays(c: Version, vs: seq<Version>) {
    forall v :: v in vs ==> v.value == c.value || v.at < c.at
  }

  lemma {:induction false} FinalStays(c: Version, vs: seq<Version>)
    requires Stays(c, vs)
    ensures Final(Some(c), vs) == Some(c)
  {
    if vs != [] {
      InitAndLast(vs);
      FinalStays(c, vs[..|vs| - 1]);
    }
  }

  /** Exactly when the outcome does not depend on the order: no offer displaces the version held,
      nothing is held and nothing offered, or some offer prevails. */
  ghost predicate OneOutcome(cur: Option<Version>, vs: seq<Version>) {
    || (cur.Some? && Stays(cur.value, vs))
    || (cur.None? && vs == [])
    || (exists m :: m in vs && Prevails(cur, vs, m))
  }

  ghost predicate OrderIrrelevant(cur: Option<Version>, vs: seq<Version>) {
    forall a :: SameElements(a, vs) ==> Final(cur, a) == Final(cur, vs)
  }

  lemma OneOutcomeIsReached(cur: Option<Version>, vs: seq<Version>, a: seq<Version>)
    requires OneOutcome(cur, vs) && SameElements(a, vs)
    ensures Final(cur, a) == Final(cur, vs)
  {
    assert a == [] || a[0] in a;
    if cur.Some? && Stays(cur.value, vs) {
      FinalStays(cur.value, vs);
      FinalStays(cur.value, a);
    } else if vs != [] {
      var m :| m in vs && Prevails(cur, vs, m);
      FinalLeads(cur, vs);
      FinalLeads(cur, a);
      PrevailingIsLast(cur, vs, m, Final(cur, vs));
      PrevailingIsLast(cur, a, m, Final(cur, a));
    }
  }

  // ---------- Two orders with two outcomes ----------

  /** Offered last, a version that nothing is newer than decides the value. */
  lemma LastNewestDecides(cur: Option<Version>, vs: seq<Version>, w: Version)
    requires (forall v :: v in vs ==> v.at <= w.at) && (cur.Some? ==> cur.value.at <= w.at)
    ensures Final(cur, vs + [w]).Some? && Final(cur, vs + [w]).value.value == w.value
  {
    FinalConcat(cur, vs, [w]);
    FinalCompetes(cur, vs);
    assert [w][..0] == [];
    assert Final(Final(cur, vs), [w]) == Next(Final(cur, vs), w);
  }

  function Without(vs: seq<Version>, m: Version): seq<Version> {
    Filter((v: Version) => v != m, vs)
  }

  /** A version offered only where its value is already held is not taken. */
  lemma EchoIsNotTaken(cur: Option<Version>, m: Version, rest: seq<Version>)
    requires cur.Some? && cur.value.value == m.value && cur.value != m && m !in rest
    ensures Final(cur, [m] + rest) != Some(m)
  {
    FinalConcat(cur, [m], rest);
    assert [m][..0] == [];
    assert Final(cur, [m]) == cur;
    FinalCompetes(cur, rest);
  }

  /** Taken once, the newest version stays. */
  lemma NewestTakenStays(cur: Option<Version>, first: seq<Version>, m: Version, vs: seq<Version>)
    requires Next(Final(cur, first), m) == Some(m) && Stays(m, vs)
    ensures Final(cur, first + [m] + vs) == Some(m)
  {
    FinalConcat(cur, first, [m]);
    FinalConcat(cur, first + [m], vs);
    assert [m][..0] == [];
    assert Final(Final(cur, first), [m]) == Next(Final(cur, first), m);
    FinalStays(m, vs);
  }

  lemma OneFirst(cur: Option<Version>, v: Version)
    ensures Final(cur, [v]) == Next(cur, v) && Final(cur, []) == cur
  {
    assert [v][..0] == [];
  }

  lemma PutFirst(vs: seq<Version>, m: Version, w: Version)
    requires m in vs && w in vs
    ensures SameElements([m] + Without(vs, m), vs) && SameElements([m] + vs, vs) && SameElements(vs + [m], vs)
    ensures SameElements([w] + ([m] + Without(vs, m)), vs) && SameElements([w] + [m] + vs, vs)
    ensures m !in Without(vs, m)
  {
  }

  /** Some other offer with the value of the newest comes first, and the newest is never taken. */
  lemma EchoFirst(cur: Option<Version>, vs: seq<Version>, m: Version, w: Version)
    requires m in vs && w in vs && w != m && w.value == m.value && Stays(m, vs)
    requires Beats(cur, m) && (cur.Some? ==> cur.value.at <= w.at)
    ensures Final(cur, [w] + ([m] + Without(vs, m))) != Some(m)
  {
    OneFirst(cur, w);
    FinalConcat(cur, [w], [m] + Without(vs, m));
    PutFirst(vs, m, w);
    EchoIsNotTaken(Some(w), m, Without(vs, m));
  }

  lemma NewestFirst(cur: Option<Version>, vs: seq<Version>, m: Version)
    requires Beats(cur, m) && Stays(m, vs)
    ensures Final(cur, [m] + vs) == Some(m)
  {
    OneFirst(cur, m);
    assert [] + [m] + vs == [m] + vs;
    NewestTakenStays(cur, [], m, vs);
  }

  /** The version held has the value of the newest offer, and another offer may displace it first. */
  lemma EchoOfHeld(c: Version, vs: seq<Version>, m: Version, u: Version)
    requires m in vs && u in vs && c.value == m.value && c != m && Stays(m, vs)
    requires u.value != c.value && c.at <= u.at <= m.at
    ensures Final(Some(c), [m] + Without(vs, m)) != Some(m)
    ensures Final(Some(c), [u] + [m] + vs) == Some(m)
  {
    PutFirst(vs, m, u);
    EchoIsNotTaken(Some(c), m, Without(vs, m));
    OneFirst(Some(c), u);
    NewestTakenStays(Some(c), [u], m, vs);
  }

  /** Outside `OneOutcome` two orders of the same offers end with different versions. */
  lemma TwoOrders(cur: Option<Version>, vs: seq<Version>) returns (a: seq<Version>, b: seq<Version>)
    requires !OneOutcome(cur, vs)
    ensures SameElements(a, vs) && SameElements(b, vs) && Final(cur, a) != Final(cur, b)
  {
    var u: Version;
    if cur.Some? {
      u :| u in vs && u.value != cur.value.value && cur.value.at <= u.at;
    } else {
      u := vs[0];
    }
    var m := Newest(vs);
    PutFirst(vs, m, u);
    if w :| w in vs && w.at == m.at && w.value != m.value {
      a, b := vs + [w], vs + [m];
      PutFirst(vs, w, w);
      LastNewestDecides(cur, vs, w);
      LastNewestDecides(cur, vs, m);
    } else if cur.Some? && cur.value.value == m.value {
      a, b := [m] + Without(vs, m), [u] + [m] + vs;
      EchoOfHeld(cur.value, vs, m, u);
    } else {
      assert !Prevails(cur, vs, m);
      var w :| w in vs && !Yields(cur, w, m);
      a, b := [w] + ([m] + Without(vs, m)), [m] + vs;
      PutFirst(vs, m, w);
      EchoFirst(cur, vs, m, w);
      NewestFirst(cur, vs, m);
    }
  }

  /** Last write wins does not depend on the order of the offers exactly when `OneOutcome` holds. */
  lemma OrderIrrelevantIff(cur: Option<Version>, vs: seq<Version>)
    ensures OrderIrrelevant(cur, vs) <==> OneOutcome(cur, vs)
  {
    if OneOutcome(cur, vs) {
      forall a | SameElements(a, vs) ensures Final(cur, a) == Final(cur, vs) {
        OneOutcomeIsReached(cur, vs, a);
      }
    } else {
      var a, b := TwoOrders(cur, vs);
    }
  }
}
