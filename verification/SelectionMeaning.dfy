/** What a selection holds, said of the request: the active records of the table that satisfy the filter in force and the
    search. Neither plans nor fingerprints occur in the meaning. */
module SelectionMeaning {
  import opened Results
  import opened Schema
  import opened Values
  import opened Orders
  import opened Filters
  import opened FilterSql
  import opened FilterMeaning
  import opened FilterTexts
  import opened FilterValues
  import opened RecordWhere
  import opened CanonicalFilter
  import opened SearchMeaning
  import opened SelectionPlans
  import opened SelectionScopes
  import opened SelectionCoherence
  import opened SelectionReplan

  /** The filter in force: the one the query brings, should it bring one or bring none on purpose; else the view's. */
  ghost predicate InForceIs(t: TableState, query: SelectionQuery, filter: Option<FilterNode>) {
    if query.filterPresent then filter == query.filter
    else if query.viewId in t.views && query.viewId != "" then filter == t.views[query.viewId].filter
    else filter.None?
  }

  /** The search text as it is compared with the index. */
  function Sought(x: Reader, query: SelectionQuery): string {
    x.lib.fold(x.compose(query.search))
  }

  /** The query wants the record, going by the record's index. */
  ghost predicate Wanted(x: Reader, t: TableState, table: string, query: SelectionQuery, row: Row) {
    && row.tableId == table && !row.deleted
    && (forall node | InForceIs(t, query, Some(node)) :: Holds(t.fields, Normal(x.lib, t.fields, node), row))
    && (Sought(x, query) != "" ==> Occurs(Sought(x, query), row.searchText))
  }

  /** The query wants the record, going by the values the record stores. */
  ghost predicate WantedValues(x: Reader, t: TableState, table: string, query: SelectionQuery, row: Row) {
    && row.tableId == table && !row.deleted
    && (forall node | InForceIs(t, query, Some(node)) :: FilterMeets(x.lib, t.fields, node, row))
    && (Sought(x, query) != "" ==>
          exists f :: Searched(row.values, t.fields, f) && Occurs(Sought(x, query), x.lib.fold(row.values[f].text)))
  }

  // ----- roots -----

  /** No `or` of children that really differ. */
  ghost predicate OneWay(node: FilterNode) {
    node.kind == "group" && node.operator == "or" ==>
      forall a, b | a in node.children && b in node.children :: Equivalent(a, b)
  }

  lemma FormListed(enc: Encoding, node: FilterNode, c: FilterNode, a: FilterNode)
    requires Elements(c.children) == ChildForms(enc, node) && a in node.children
    ensures Canonical(enc, a) in c.children
  {
    assert Canonical(enc, a) in ChildForms(enc, node);
    assert Canonical(enc, a) in Elements(c.children);
  }

  lemma FormsAgree(enc: Encoding, node: FilterNode, c: FilterNode, a: FilterNode, b: FilterNode)
    requires Encodes(enc) && |c.children| < 2 && Elements(c.children) == ChildForms(enc, node)
    requires a in node.children && b in node.children
    ensures Equivalent(a, b)
  {
    FormListed(enc, node, c, a);
    FormListed(enc, node, c, b);
    SameCanonical(enc, a, b);
  }

  lemma OneForm(enc: Encoding, node: FilterNode)
    requires Encodes(enc)
    ensures |Canonical(enc, node).children| < 2 <==>
            forall a, b | a in node.children && b in node.children :: Equivalent(a, b)
  {
    var c := Canonical(enc, node);
    CanonicalChildren(enc, node);
    if |c.children| >= 2 {
      FormsDiffer(enc, node, c);
    } else {
      forall a, b | a in node.children && b in node.children ensures Equivalent(a, b) {
        FormsAgree(enc, node, c, a, b);
      }
    }
  }

  lemma FormsDiffer(enc: Encoding, node: FilterNode, c: FilterNode)
    requires Encodes(enc) && |c.children| >= 2 && Ascending(ByCode(enc), c.children)
    requires Elements(c.children) == ChildForms(enc, node)
    ensures exists a, b :: a in node.children && b in node.children && !Equivalent(a, b)
  {
    var p, q := c.children[0], c.children[1];
    assert p in Elements(c.children) && q in Elements(c.children);
    var a :| a in node.children && Canonical(enc, a) == p;
    var b :| b in node.children && Canonical(enc, b) == q;
    CodeLessTotal(enc(p), enc(p));
    assert ByCode(enc)(p, q);
    SameCanonical(enc, a, b);
  }

  /** The guard, said of the filter before it is canonicalised. */
  lemma OneWayIsSafe(enc: Encoding, node: FilterNode)
    requires Encodes(enc)
    ensures SafeRoot(Some(Canonical(enc, node))) <==> OneWay(node)
  {
    OneForm(enc, node);
    CanonicalChildren(enc, node);
  }

  // ----- plans -----

  /** What a plan selects is what its query wants. */
  lemma PlanMeans(x: Reader, tables: map<string, TableState>, table: string, query: SelectionQuery, p: SelectionPlan, row: Row)
    requires Encodes(x.enc) && Planned(x, tables, table, query) == Ok(p)
    ensures table in tables
    ensures Selected(tables[table].fields, RuleQuery(p.fingerprint), row) <==> Wanted(x, tables[table], table, query, row)
  {
    var t := tables[table];
    var chosen := Chosen(t, query);
    ChosenInForce(t, query);
    if chosen.Some? {
      CanonicalHolds(x.enc, t.fields, Normal(x.lib, t.fields, chosen.value), row);
    }
  }

  lemma ChosenInForce(t: TableState, query: SelectionQuery)
    ensures forall filter :: InForceIs(t, query, filter) <==> filter == Chosen(t, query)
  {
  }

  lemma MembersWanted(x: Reader, tables: map<string, TableState>, table: string, query: SelectionQuery, p: SelectionPlan,
                      rows: map<string, Row>, id: string)
    requires Encodes(x.enc) && Planned(x, tables, table, query) == Ok(p) && SafeRoot(p.fingerprint.filter)
    requires ShapedRows(FieldsOf(tables, table), rows, table)
    ensures id in rows && Member(FieldsOf(tables, table), p.fingerprint, rows[id]) <==>
            id in rows && Wanted(x, tables[table], table, query, rows[id])
  {
    PlannedFits(x, tables, table, query);
    if id in rows {
      var fields := tables[table].fields;
      PlanMeans(x, tables, table, query, p, rows[id]);
      if rows[id].tableId == table {
        MemberMeans(x, fields, p.fingerprint, p.schema, rows[id]);
      } else {
        MemberOfTable(x, fields, p.fingerprint, p.schema, rows[id]);
      }
    }
  }

  /** The members are exactly the records the query wants. */
  ghost predicate HoldsWanted(x: Reader, w: World, table: string, query: SelectionQuery, members: set<string>) {
    && table in w.tables
    && forall id :: id in members <==> id in w.rows && Wanted(x, w.tables[table], table, query, w.rows[id])
  }

  lemma PlannedMembers(x: Reader, w: World, table: string, query: SelectionQuery, p: SelectionPlan)
    requires Encodes(x.enc) && Planned(x, w.tables, table, query) == Ok(p) && SafeRoot(p.fingerprint.filter)
    requires ShapedRows(FieldsOf(w.tables, table), w.rows, table)
    ensures HoldsWanted(x, w, table, query, MemberIds(FieldsOf(w.tables, table), p.fingerprint, w.rows))
  {
    PlannedFits(x, w.tables, table, query);
    forall id
      ensures id in MemberIds(FieldsOf(w.tables, table), p.fingerprint, w.rows) <==>
              id in w.rows && Wanted(x, w.tables[table], table, query, w.rows[id])
    {
      MembersWanted(x, w.tables, table, query, p, w.rows, id);
    }
  }

  // ----- acquiring -----

  /** The canonical root is safe: the filter in force is no `or` of children that differ once normalised. */
  ghost predicate SafelyRooted(x: Reader, t: TableState, query: SelectionQuery) {
    forall node | InForceIs(t, query, Some(node)) :: OneWay(Normal(x.lib, t.fields, node))
  }

  lemma SafelyPlanned(x: Reader, tables: map<string, TableState>, table: string, query: SelectionQuery, p: SelectionPlan)
    requires Encodes(x.enc) && Planned(x, tables, table, query) == Ok(p)
    ensures table in tables && (SafeRoot(p.fingerprint.filter) <==> SafelyRooted(x, tables[table], query))
  {
    var t := tables[table];
    ChosenInForce(t, query);
    var chosen := Chosen(t, query);
    if chosen.Some? {
      OneWayIsSafe(x.enc, Normal(x.lib, t.fields, chosen.value));
    }
  }

  lemma AcquiredScope(x: Reader, w: World, r: Request)
    requires Acquired(x, w, r).Ok?
    ensures Planned(x, w.tables, r.table, r.query).Ok? && r.table in w.tables && w.tables[r.table].active
    ensures var p, s := Planned(x, w.tables, r.table, r.query).value, Acquired(x, w, r).value.1;
            && s.fingerprint == p.fingerprint && s.schema == p.schema && s.table == r.table
            && (s == NewScope(x, w, r, p) || (exists id :: id in w.scopes && w.scopes[id] == s && InForce(s, w.now)))
  {
    var previous := PreviousOf(w, r);
    if previous.Some? {
      var ids := SortedSet(Existing(w, r.actor, r.requestId));
      assert ids[0] in w.scopes && w.scopes[ids[0]] == previous.value;
    }
  }

  /** Main result: whatever request is answered with a scope, new or repeated, the scope holds exactly the records its
      query wants, and counts them. */
  lemma AcquiredMeans(x: Reader, w: World, r: Request)
    requires Encodes(x.enc) && Coherent(x, w) && Acquired(x, w, r).Ok?
    requires SafelyRooted(x, w.tables[r.table], r.query) && ShapedRows(FieldsOf(w.tables, r.table), w.rows, r.table)
    ensures HoldsWanted(x, w, r.table, r.query, Acquired(x, w, r).value.1.members)
    ensures Acquired(x, w, r).value.1.count == |Acquired(x, w, r).value.1.members|
  {
    AcquiredScope(x, w, r);
    var p, s := Planned(x, w.tables, r.table, r.query).value, Acquired(x, w, r).value.1;
    SafelyPlanned(x, w.tables, r.table, r.query, p);
    AcquiredMembers(x, w, r, p, s);
    PlannedMembers(x, w, r.table, r.query, p);
  }

  lemma AcquiredMembers(x: Reader, w: World, r: Request, p: SelectionPlan, s: Scope)
    requires Encodes(x.enc) && Coherent(x, w) && s.fingerprint == p.fingerprint && s.table == r.table && SafeRoot(p.fingerprint.filter)
    requires s == NewScope(x, w, r, p) || (exists id :: id in w.scopes && w.scopes[id] == s && InForce(s, w.now))
    ensures s.members == MemberIds(FieldsOf(w.tables, r.table), p.fingerprint, w.rows) && s.count == |s.members|
  {
    if s != NewScope(x, w, r, p) {
      var id :| id in w.scopes && w.scopes[id] == s && InForce(s, w.now);
      assert Fresh(x, w, w.scopes[id]);
    }
  }

  // ----- on stored values -----

  ghost predicate IndexedRows(x: Reader, fields: Fields, rows: map<string, Row>, table: string) {
    forall id | id in rows && rows[id].tableId == table ::
      && rows[id].queryValues == Projection(x.lib, rows[id].values, fields)
      && rows[id].searchText == SearchText(x.lib, rows[id].values, fields)
      && forall f | f in rows[id].values && f in fields :: Stored(x.lib, rows[id].values[f], fields[f].fieldType, fields[f].config)
  }

  /** Where the index is up to date, wanting a record by its index is wanting it by its values. */
  lemma WantedOnValues(x: Reader, t: TableState, table: string, query: SelectionQuery, row: Row)
    requires row.queryValues == Projection(x.lib, row.values, t.fields)
    requires row.searchText == SearchText(x.lib, row.values, t.fields) && '\n' !in Sought(x, query)
    requires forall f | f in row.values && f in t.fields :: Stored(x.lib, row.values[f], t.fields[f].fieldType, t.fields[f].config)
    requires forall node | InForceIs(t, query, Some(node)) :: NodeOk(x.lib, t.fields, node)
    ensures Wanted(x, t, table, query, row) <==> WantedValues(x, t, table, query, row)
  {
    StoredIsText(x.lib, t.fields, row);
    forall node | InForceIs(t, query, Some(node))
      ensures Holds(t.fields, Normal(x.lib, t.fields, node), row) <==> FilterMeets(x.lib, t.fields, node, row)
    {
      NormalOnValues(x.lib, t.fields, node, row);
    }
    if Sought(x, query) != "" {
      SearchMeans(x.lib, t.fields, row, Sought(x, query));
      StrposFinds(row.searchText, Sought(x, query));
    }
  }

  lemma PlannedAccepts(x: Reader, tables: map<string, TableState>, table: string, query: SelectionQuery)
    requires Planned(x, tables, table, query).Ok?
    ensures table in tables
    ensures forall node | InForceIs(tables[table], query, Some(node)) :: NodeOk(x.lib, tables[table].fields, node)
  {
    ChosenInForce(tables[table], query);
  }

  /** So over an up-to-date index a scope holds exactly the active records whose stored values satisfy the request. */
  lemma AcquiredOnValues(x: Reader, w: World, r: Request, id: string)
    requires Encodes(x.enc) && Coherent(x, w) && Acquired(x, w, r).Ok? && SafelyRooted(x, w.tables[r.table], r.query)
    requires IndexedRows(x, FieldsOf(w.tables, r.table), w.rows, r.table) && '\n' !in Sought(x, r.query)
    ensures id in Acquired(x, w, r).value.1.members <==>
            id in w.rows && WantedValues(x, w.tables[r.table], r.table, r.query, w.rows[id])
  {
    AcquiredScope(x, w, r);
    var t := w.tables[r.table];
    IndexedShaped(x, w, r.table);
    AcquiredMeans(x, w, r);
    PlannedAccepts(x, w.tables, r.table, r.query);
    if id in w.rows && w.rows[id].tableId == r.table {
      WantedOnValues(x, t, r.table, r.query, w.rows[id]);
    }
  }

  lemma IndexedShaped(x: Reader, w: World, table: string)
    requires IndexedRows(x, FieldsOf(w.tables, table), w.rows, table)
    ensures ShapedRows(FieldsOf(w.tables, table), w.rows, table)
  {
    forall id | id in w.rows && w.rows[id].tableId == table ensures ShapedRow(FieldsOf(w.tables, table), w.rows[id]) {
      IndexedIsShaped(x.lib, FieldsOf(w.tables, table), w.rows[id]);
    }
  }

  // ----- over runs -----

  /** After any legal run a live scope holds exactly the records its stored query wants now. */
  lemma LiveScopesHoldWanted(x: Reader, w: World, events: seq<Event>, u: World, id: string)
    requires Encodes(x.enc) && Settled(x) && Coherent(x, w) && Replans(x, w) && LegalRun(x, w, events) && u == Run(x, w, events)
    requires id in u.scopes && InForce(u.scopes[id], u.now) && SafeRoot(u.scopes[id].fingerprint.filter)
    requires ShapedRows(FieldsOf(u.tables, u.scopes[id].table), u.rows, u.scopes[id].table)
    ensures HoldsWanted(x, u, u.scopes[id].table, u.scopes[id].query, u.scopes[id].members)
  {
    RunCoherent(x, w, events);
    RunReplans(x, w, events);
    LiveHoldsWanted(x, u, u.scopes[id]);
  }

  lemma LiveHoldsWanted(x: Reader, u: World, s: Scope)
    requires Encodes(x.enc) && Fresh(x, u, s) && SafeRoot(s.fingerprint.filter)
    requires Agrees(Planned(x, u.tables, s.table, s.query), s) && ShapedRows(FieldsOf(u.tables, s.table), u.rows, s.table)
    ensures HoldsWanted(x, u, s.table, s.query, s.members)
  {
    PlannedMembers(x, u, s.table, s.query, Planned(x, u.tables, s.table, s.query).value);
  }
}
