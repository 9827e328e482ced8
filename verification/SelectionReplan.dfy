/** The stored query plans to the rule it was stored for, as long as folding and composing text twice is the same as
    once. Together with coherence: a live scope holds exactly what its stored query selects now. */
module SelectionReplan {
  import opened Results
  import opened Schema
  import opened Values
  import opened Orders
  import opened Filters
  import opened FilterSql
  import opened FilterMeaning
  import opened RecordWhere
  import opened FilterTexts
  import opened CanonicalFilter
  import opened SelectionPlans
  import opened SelectionScopes
  import opened SelectionCoherence

  ghost predicate Settled(x: Reader) {
    && (forall s :: x.lib.fold(x.lib.fold(s)) == x.lib.fold(s))
    && (forall s :: x.compose(x.compose(s)) == x.compose(s))
  }

  // ----- normal filters stay normal -----

  lemma {:induction false} NormalTwice(x: Reader, fields: Fields, node: FilterNode)
    requires Settled(x)
    ensures Normal(x.lib, fields, Normal(x.lib, fields, node)) == Normal(x.lib, fields, node)
    decreases node
  {
    if node.kind == "group" {
      NormalAllTwice(x, fields, node.children);
    }
  }

  lemma {:induction false} NormalAllTwice(x: Reader, fields: Fields, nodes: seq<FilterNode>)
    requires Settled(x)
    ensures NormalAll(x.lib, fields, NormalAll(x.lib, fields, nodes)) == NormalAll(x.lib, fields, nodes)
    decreases nodes
  {
    if nodes != [] {
      NormalAllTwice(x, fields, nodes[..|nodes| - 1]);
      NormalTwice(x, fields, nodes[|nodes| - 1]);
      var r := NormalAll(x.lib, fields, nodes);
      assert r[..|r| - 1] == NormalAll(x.lib, fields, nodes[..|nodes| - 1]);
    }
  }

  lemma {:induction false} AllNormal(x: Reader, fields: Fields, nodes: seq<FilterNode>)
    ensures NormalAll(x.lib, fields, nodes) == nodes <==> forall n | n in nodes :: Normal(x.lib, fields, n) == n
  {
    if nodes != [] {
      var front, last := nodes[..|nodes| - 1], nodes[|nodes| - 1];
      AllNormal(x, fields, front);
      assert nodes == front + [last];
      assert last in nodes && forall n | n in front :: n in nodes;
      var r := NormalAll(x.lib, fields, nodes);
      assert r == NormalAll(x.lib, fields, front) + [Normal(x.lib, fields, last)];
    }
  }

  /** The canonical form of a normal filter is normal. */
  lemma {:induction false} CanonicalNormal(x: Reader, fields: Fields, node: FilterNode)
    requires Encodes(x.enc) && Normal(x.lib, fields, node) == node
    ensures Normal(x.lib, fields, Canonical(x.enc, node)) == Canonical(x.enc, node)
    decreases node
  {
    var d := Canonical(x.enc, node);
    CanonicalChildren(x.enc, node);
    if node.kind == "group" {
      AllNormal(x, fields, node.children);
      AllNormal(x, fields, d.children);
      forall n | n in d.children ensures Normal(x.lib, fields, n) == n {
        assert n in Elements(d.children);
        var c :| c in node.children && Canonical(x.enc, c) == n;
        assert NormalAll(x.lib, fields, node.children) == node.children;
        CanonicalNormal(x, fields, c);
      }
    }
  }

  // ----- the canonical form is no larger -----

  lemma {:induction false} SizeConcat(a: seq<FilterNode>, b: seq<FilterNode>)
    ensures SizeAll(a + b) == SizeAll(a) + SizeAll(b)
  {
    if b == [] {
      assert a + b == a;
    } else {
      assert (a + b)[..|a + b| - 1] == a + b[..|b| - 1];
      SizeConcat(a, b[..|b| - 1]);
    }
  }

  lemma SizeOne(n: FilterNode)
    ensures SizeAll([n]) == Size(n)
  {
    assert [n][..0] == [];
  }

  lemma {:induction false} InsertSize(enc: Encoding, n: FilterNode, s: seq<FilterNode>)
    ensures SizeAll(Insert(ByCode(enc), n, s)) == Size(n) + SizeAll(s)
  {
    SizeOne(n);
    if s == [] || ByCode(enc)(n, s[0]) {
      SizeConcat([n], s);
    } else {
      InsertSize(enc, n, s[1..]);
      SizeOne(s[0]);
      SizeConcat([s[0]], Insert(ByCode(enc), n, s[1..]));
      SizeConcat([s[0]], s[1..]);
      assert [s[0]] + s[1..] == s;
    }
  }

  lemma {:induction false} SortSize(enc: Encoding, s: seq<FilterNode>)
    ensures SizeAll(Sort(ByCode(enc), s)) == SizeAll(s)
  {
    if s != [] {
      SortSize(enc, s[1..]);
      InsertSize(enc, s[0], Sort(ByCode(enc), s[1..]));
      SizeOne(s[0]);
      SizeConcat([s[0]], s[1..]);
      assert [s[0]] + s[1..] == s;
    }
  }

  lemma {:induction false} CompactSize(enc: Encoding, s: seq<FilterNode>)
    ensures SizeAll(Compact(enc, s)) <= SizeAll(s)
  {
    if s != [] {
      CompactSize(enc, s[..|s| - 1]);
      SizeOne(s[|s| - 1]);
      SizeConcat(Compact(enc, s[..|s| - 1]), [s[|s| - 1]]);
    }
  }

  lemma {:induction false} CanonicalSize(enc: Encoding, node: FilterNode)
    ensures Size(Canonical(enc, node)) <= Size(node)
    decreases node
  {
    CanonicalAllSize(enc, node.children);
    SortSize(enc, CanonicalAll(enc, node.children));
    CompactSize(enc, Sort(ByCode(enc), CanonicalAll(enc, node.children)));
  }

  lemma {:induction false} CanonicalAllSize(enc: Encoding, nodes: seq<FilterNode>)
    ensures SizeAll(CanonicalAll(enc, nodes)) <= SizeAll(nodes)
    decreases nodes
  {
    if nodes != [] {
      CanonicalAllSize(enc, nodes[..|nodes| - 1]);
      CanonicalSize(enc, nodes[|nodes| - 1]);
      var r := CanonicalAll(enc, nodes);
      assert r[..|r| - 1] == CanonicalAll(enc, nodes[..|nodes| - 1]);
    }
  }

  lemma {:induction false} HeightBound(nodes: seq<FilterNode>, k: nat)
    ensures HeightAll(nodes) <= k <==> forall n | n in nodes :: Height(n) <= k
  {
    if nodes != [] {
      var front, last := nodes[..|nodes| - 1], nodes[|nodes| - 1];
      HeightBound(front, k);
      assert nodes == front + [last];
      assert last in nodes && forall n | n in front :: n in nodes;
    }
  }

  lemma {:induction false} CanonicalHeight(enc: Encoding, node: FilterNode)
    requires Encodes(enc)
    ensures Height(Canonical(enc, node)) <= Height(node)
    decreases node
  {
    var d, k := Canonical(enc, node), HeightAll(node.children);
    CanonicalChildren(enc, node);
    HeightBound(node.children, k);
    forall n | n in d.children ensures Height(n) <= k {
      assert n in Elements(d.children);
      var c :| c in node.children && Canonical(enc, c) == n;
      CanonicalHeight(enc, c);
    }
    HeightBound(d.children, k);
  }

  // ----- planning again -----

  lemma CanonicalReplans(x: Reader, fields: Fields, node: FilterNode)
    requires Encodes(x.enc) && Settled(x) && Acceptable(x.lib, fields, node)
    ensures var c := Canonical(x.enc, Normal(x.lib, fields, node));
            Acceptable(x.lib, fields, c) && Canonical(x.enc, Normal(x.lib, fields, c)) == c
  {
    var m := Normal(x.lib, fields, node);
    NormalOk(x.lib, fields, node);
    NormalTwice(x, fields, node);
    CanonicalOk(x.enc, x.lib, fields, m);
    CanonicalSize(x.enc, m);
    CanonicalHeight(x.enc, m);
    CanonicalNormal(x, fields, m);
    CanonicalIdempotent(x.enc, m);
  }

  /** The stored query plans to the same rule as the query it was made from. */
  lemma StoredReplans(x: Reader, tables: map<string, TableState>, table: string, query: SelectionQuery)
    requires Encodes(x.enc) && Settled(x) && Planned(x, tables, table, query).Ok?
    ensures var p := Planned(x, tables, table, query);
            Planned(x, tables, table, StoredQuery(x, query, p.value)) == p
  {
    var t := tables[table];
    var p := Planned(x, tables, table, query).value;
    var stored := StoredQuery(x, query, p);
    var chosen := Chosen(t, query);
    assert x.compose(stored.search) == x.compose(query.search);
    if query.filterPresent && chosen.Some? {
      CanonicalReplans(x, t.fields, chosen.value);
      assert Chosen(t, stored) == p.fingerprint.filter;
    } else {
      assert Chosen(t, stored) == chosen;
    }
  }

  // ----- over runs -----

  ghost predicate Replans(x: Reader, w: World) {
    forall id | id in w.scopes && InForce(w.scopes[id], w.now) ::
      Agrees(Planned(x, w.tables, w.scopes[id].table, w.scopes[id].query), w.scopes[id])
  }

  lemma PlannedByTable(x: Reader, a: map<string, TableState>, b: map<string, TableState>, table: string, query: SelectionQuery)
    requires table in a && table in b && a[table] == b[table]
    ensures Planned(x, a, table, query) == Planned(x, b, table, query)
  {
  }

  lemma AcquireReplans(x: Reader, w: World, r: Request)
    requires Encodes(x.enc) && Settled(x) && Replans(x, w) && r.scopeId !in w.scopes && Acquired(x, w, r).Ok?
    ensures Replans(x, Acquired(x, w, r).value.0)
  {
    var plan := Planned(x, w.tables, r.table, r.query).value;
    if PreviousOf(w, r).None? {
      StoredReplans(x, w.tables, r.table, r.query);
      AllocatedReplans(x, w, r, plan);
    }
  }

  lemma AllocatedReplans(x: Reader, w: World, r: Request, plan: SelectionPlan)
    requires Replans(x, w) && Allocated(x, w, r, plan).Ok?
    requires Planned(x, w.tables, r.table, StoredQuery(x, r.query, plan)) == Ok(plan)
    ensures Replans(x, Allocated(x, w, r, plan).value.0)
  {
    SweptReplans(x, w, r.scopeId, NewScope(x, w, r, plan));
  }

  lemma SweptReplans(x: Reader, w: World, scopeId: string, scope: Scope)
    requires Replans(x, w) && Agrees(Planned(x, w.tables, scope.table, scope.query), scope)
    ensures Replans(x, w.(scopes := Swept(w)[scopeId := scope]))
  {
    var done := w.(scopes := Swept(w)[scopeId := scope]);
    forall id | id in done.scopes && InForce(done.scopes[id], done.now)
      ensures Agrees(Planned(x, done.tables, done.scopes[id].table, done.scopes[id].query), done.scopes[id])
    {
      if id != scopeId {
        assert done.scopes[id] == w.scopes[id];
      }
    }
  }

  lemma NextReplans(x: Reader, w: World, e: Event)
    requires Encodes(x.enc) && Settled(x) && Replans(x, w) && Legal(w, e)
    ensures Replans(x, Next(x, w, e))
  {
    var done := Next(x, w, e);
    if e.Acquire? {
      if Acquired(x, w, e.request).Ok? { AcquireReplans(x, w, e.request); }
    } else {
      forall id | id in done.scopes && InForce(done.scopes[id], done.now)
        ensures Agrees(Planned(x, done.tables, done.scopes[id].table, done.scopes[id].query), done.scopes[id])
      {
        OneReplans(x, w, e, id);
      }
    }
  }

  lemma OneReplans(x: Reader, w: World, e: Event, id: string)
    requires Replans(x, w) && Legal(w, e) && !e.Acquire?
    requires id in Next(x, w, e).scopes && InForce(Next(x, w, e).scopes[id], Next(x, w, e).now)
    ensures var done := Next(x, w, e);
            Agrees(Planned(x, done.tables, done.scopes[id].table, done.scopes[id].query), done.scopes[id])
  {
    var done := Next(x, w, e);
    var s := w.scopes[id];
    assert done.scopes[id] == s && InForce(s, w.now);
    if !(e.Write? && s.table == e.table) {
      PlannedByTable(x, w.tables, done.tables, s.table, s.query);
    }
  }

  lemma {:induction false} RunReplans(x: Reader, w: World, events: seq<Event>)
    requires Encodes(x.enc) && Settled(x) && Replans(x, w) && LegalRun(x, w, events)
    ensures Replans(x, Run(x, w, events))
  {
    if events != [] {
      var n := |events| - 1;
      LegalFront(x, w, events);
      RunReplans(x, w, events[..n]);
      assert Legal(Run(x, w, events[..n]), events[n]);
      NextReplans(x, Run(x, w, events[..n]), events[n]);
    }
  }

  lemma LegalFront(x: Reader, w: World, events: seq<Event>)
    requires events != [] && LegalRun(x, w, events)
    ensures LegalRun(x, w, events[..|events| - 1])
  {
    var front := events[..|events| - 1];
    forall i | 0 <= i < |front| ensures Legal(Run(x, w, front[..i]), front[i]) {
      assert front[..i] == events[..i];
      assert Legal(Run(x, w, events[..i]), events[i]);
    }
  }

  /** The active records a query selects now. */
  ghost function SelectedByQuery(x: Reader, w: World, table: string, query: SelectionQuery): Option<set<string>> {
    match Planned(x, w.tables, table, query)
    case Ok(p) => Some(SelectedNow(w, p.fingerprint))
    case Err(_) => None
  }

  /** Headline: after any legal run, each scope with a safe root that is neither invalidated nor expired has exactly the
      active records its stored query now selects. */
  lemma StoredQueryIsExact(x: Reader, w: World, events: seq<Event>, id: string)
    requires Encodes(x.enc) && Settled(x) && Coherent(x, w) && Replans(x, w) && LegalRun(x, w, events)
    requires var u := Run(x, w, events);
             && id in u.scopes && InForce(u.scopes[id], u.now) && SafeRoot(u.scopes[id].fingerprint.filter)
             && ShapedRows(FieldsOf(u.tables, u.scopes[id].table), u.rows, u.scopes[id].table)
    ensures var u := Run(x, w, events);
            SelectedByQuery(x, u, u.scopes[id].table, u.scopes[id].query) == Some(u.scopes[id].members)
  {
    LiveScopesAreExact(x, w, events, id);
    RunReplans(x, w, events);
  }

  // ----- where coherence ends -----

  /** The rule's members are the records it describes, whatever the tables hold. */
  ghost predicate AcquiresExactly(fields: Fields, f: Fingerprint) {
    forall row | ShapedRow(fields, row) :: Member(fields, f, row) <==> Selected(fields, RuleQuery(f), row)
  }

  /** A scope is exact at the moment it is taken, for every content of the tables, exactly when the canonical root is
      safe or none of its loose children can hold. */
  lemma AcquisitionExact(x: Reader, fields: Fields, f: Fingerprint)
    requires f.filter.Some? ==> NodeOk(x.lib, fields, f.filter.value)
    ensures AcquiresExactly(fields, f) <==> SafeRoot(f.filter) || !LooseChildCanHold(fields, RuleQuery(f))
  {
    WhereExact(x.lib, fields, RuleQuery(f));
    var empty := Row(f.table, 0, map[], map[], "", 0.0, 0, false);
    if SafeRoot(f.filter) {
      SafeWhereMeans(x.lib, fields, RuleQuery(f), [], empty);
    } else {
      UnsafeWhereMeans(x.lib, fields, RuleQuery(f), [], empty);
    }
  }
}
