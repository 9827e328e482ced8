/** What a selection query means in the current schema: the canonical filter and search, the fingerprint of the
    membership rule, and the field types it depends on. */
module SelectionPlans {
  import opened Results
  import opened Schema
  import opened Values
  import opened Filters
  import opened FilterSql
  import opened FilterMeaning
  import opened RecordWhere
  import opened FilterTexts
  import opened CanonicalFilter

  datatype View = View(deleted: bool, filter: Option<FilterNode>)

  datatype TableState = TableState(active: bool, fields: Fields, views: map<string, View>)

  datatype SelectionQuery = SelectionQuery(viewId: string, filter: Option<FilterNode>, filterPresent: bool, search: string)

  /** Library code: the JSON encoding of filter nodes, and search input trimmed and composed. */
  datatype Reader = Reader(lib: Library, enc: Encoding, compose: string -> string)

  /** The hashed identity of a membership rule; hashing keeps different rules apart. */
  datatype Fingerprint = Fingerprint(table: string, filter: Option<FilterNode>, search: string)

  datatype SelectionPlan = SelectionPlan(fingerprint: Fingerprint, schema: map<string, FieldType>)

  datatype PlanError = PlanNotFound | PlanInvalid

  /** The fields a filter looks at. */
  function RuleFields(node: FilterNode): set<string> {
    if node.kind == "rule" && node.fieldId != "" then {node.fieldId} + ChildFields(node.children)
    else ChildFields(node.children)
  }

  function ChildFields(nodes: seq<FilterNode>): set<string> {
    if nodes == [] then {} else ChildFields(nodes[..|nodes| - 1]) + RuleFields(nodes[|nodes| - 1])
  }

  /** The fields a rule depends on: those in the filter and, with a search, every active text field. */
  function References(fields: Fields, filter: Option<FilterNode>, search: string): set<string> {
    (match filter case None => {} case Some(node) => RuleFields(node))
    + if search == "" then {} else set f | f in fields && !fields[f].deleted && IsTextual(fields[f].fieldType)
  }

  function SchemaOf(fields: Fields, filter: Option<FilterNode>, search: string): map<string, FieldType> {
    map f | f in References(fields, filter, search) && f in fields :: fields[f].fieldType
  }

  /** The filter in force: the query's own, else the view's. */
  function Chosen(t: TableState, query: SelectionQuery): Option<FilterNode> {
    if query.filterPresent then query.filter
    else if query.viewId != "" && query.viewId in t.views then t.views[query.viewId].filter
    else None
  }

  predicate Resolvable(t: TableState, query: SelectionQuery) {
    t.active && (query.viewId != "" ==> query.viewId in t.views && !t.views[query.viewId].deleted)
  }

  function CanonicalOf(x: Reader, fields: Fields, filter: Option<FilterNode>): Option<FilterNode> {
    match filter
    case None => None
    case Some(node) => Some(Canonical(x.enc, Normal(x.lib, fields, node)))
  }

  function Planned(x: Reader, tables: map<string, TableState>, table: string, query: SelectionQuery): Result<SelectionPlan, PlanError> {
    if table !in tables || !Resolvable(tables[table], query) then Err(PlanNotFound)
    else
      var t := tables[table];
      var chosen := Chosen(t, query);
      if chosen.Some? && !Acceptable(x.lib, t.fields, chosen.value) then Err(PlanInvalid)
      else if |x.compose(query.search)| > 500 then Err(PlanInvalid)
      else
        var filter := CanonicalOf(x, t.fields, chosen);
        var search := x.lib.fold(x.compose(query.search));
        Ok(SelectionPlan(Fingerprint(table, filter, search), SchemaOf(t.fields, filter, search)))
  }

  /** The query kept with the scope: search composed but not folded, filter as planned. */
  function StoredQuery(x: Reader, query: SelectionQuery, plan: SelectionPlan): SelectionQuery {
    query.(search := x.compose(query.search), filter := if query.filterPresent then plan.fingerprint.filter else None)
  }

  // ----- membership -----

  function RuleQuery(f: Fingerprint): Query {
    Query(f.table, "active", f.filter, f.search)
  }

  predicate Member(fields: Fields, f: Fingerprint, row: Row) {
    match Where(fields, RuleQuery(f), []) case Ok(text) => Eval(row, text) == Yes case Err(_) => false
  }

  function MemberIds(fields: Fields, f: Fingerprint, rows: map<string, Row>): set<string> {
    set id | id in rows && Member(fields, f, rows[id])
  }

  /** Whether the database finds a record for a candidate: some record, be it the candidate or not, that satisfies "its
      identifier is the candidate's" joined with AND in front of the clause. */
  predicate Found(fields: Fields, f: Fingerprint, rows: map<string, Row>, id: string) {
    match Where(fields, RuleQuery(f), [])
    case Ok(text) => exists k | k in rows :: Eval(rows[k], Behind(if k == id then Yes else No, text)) == Yes
    case Err(_) => false
  }

  /** What a WHERE clause can see of a row. */
  predicate SameView(a: Row, b: Row) {
    a.tableId == b.tableId && a.deleted == b.deleted && a.queryValues == b.queryValues && a.searchText == b.searchText
  }

  lemma TestByView(a: Row, b: Row, test: Test)
    requires SameView(a, b)
    ensures EvalTest(a, test) == EvalTest(b, test)
  {
  }

  lemma {:induction false} ReadByView(a: Row, b: Row, text: Sql, r: Reading)
    requires SameView(a, b)
    ensures Read(a, text, r) == Read(b, text, r)
    decreases text, 0
  {
    if text != [] {
      match text[0]
      case Leaf(test) =>
        TestByView(a, b, test);
        ReadByView(a, b, text[1..], r.(current := And3(r.current, EvalTest(a, test))));
      case Paren(body) =>
        EvalByView(a, b, body);
        ReadByView(a, b, text[1..], r.(current := And3(r.current, Eval(a, body))));
      case AndWord => ReadByView(a, b, text[1..], r);
      case OrWord => ReadByView(a, b, text[1..], Reading(Or3(r.done, r.current), Yes));
    }
  }

  lemma {:induction false} EvalByView(a: Row, b: Row, text: Sql)
    requires SameView(a, b)
    ensures Eval(a, text) == Eval(b, text)
    decreases text, 1
  {
    ReadByView(a, b, text, Reading(No, Yes));
  }

  lemma MemberByView(fields: Fields, f: Fingerprint, a: Row, b: Row)
    requires SameView(a, b)
    ensures Member(fields, f, a) == Member(fields, f, b)
  {
    match Where(fields, RuleQuery(f), [])
    case Ok(text) => EvalByView(a, b, text);
    case Err(_) =>
  }

  /** Fields that agree on the types a filter looks at compile it to the same text. */
  lemma {:induction false} CompileByTypes(a: Fields, b: Fields, node: FilterNode)
    requires forall f | f in RuleFields(node) :: f in a && f in b && a[f].fieldType == b[f].fieldType
    requires ShapedRules(node)
    ensures Compile(a, node) == Compile(b, node)
    decreases node
  {
    if node.kind == "group" {
      CompileAllByTypes(a, b, node.children);
    }
  }

  /** Rules name a field; everything else is a group. Acceptance sees to it. */
  predicate ShapedRules(node: FilterNode) {
    if node.kind == "group" then AllShapedRules(node.children) else node.kind == "rule" && node.fieldId != ""
  }

  predicate AllShapedRules(nodes: seq<FilterNode>) {
    nodes == [] || (AllShapedRules(nodes[..|nodes| - 1]) && ShapedRules(nodes[|nodes| - 1]))
  }

  lemma {:induction false} CompileAllByTypes(a: Fields, b: Fields, nodes: seq<FilterNode>)
    requires forall f | f in ChildFields(nodes) :: f in a && f in b && a[f].fieldType == b[f].fieldType
    requires AllShapedRules(nodes)
    ensures CompileAll(a, nodes) == CompileAll(b, nodes)
    decreases nodes
  {
    if nodes != [] {
      CompileAllByTypes(a, b, nodes[..|nodes| - 1]);
      CompileByTypes(a, b, nodes[|nodes| - 1]);
    }
  }

  lemma {:induction false} AcceptedShape(lib: Library, fields: Fields, node: FilterNode)
    requires NodeOk(lib, fields, node)
    ensures ShapedRules(node) && RuleFields(node) <= fields.Keys
    decreases node
  {
    if node.kind == "group" {
      AllAcceptedShape(lib, fields, node.children);
    } else {
      assert ChildFields([]) == {};
    }
  }

  lemma {:induction false} AllAcceptedShape(lib: Library, fields: Fields, nodes: seq<FilterNode>)
    requires AllOk(lib, fields, nodes)
    ensures AllShapedRules(nodes) && ChildFields(nodes) <= fields.Keys
    decreases nodes
  {
    if nodes != [] {
      AllAcceptedShape(lib, fields, nodes[..|nodes| - 1]);
      AcceptedShape(lib, fields, nodes[|nodes| - 1]);
    }
  }

  /** A membership rule fits a schema: its filter is accepted, and the recorded types are the fields' types. */
  ghost predicate RuleFits(x: Reader, fields: Fields, f: Fingerprint, schema: map<string, FieldType>) {
    && (f.filter.Some? ==> NodeOk(x.lib, fields, f.filter.value))
    && schema == SchemaOf(fields, f.filter, f.search)
  }

  lemma PlannedFits(x: Reader, tables: map<string, TableState>, table: string, query: SelectionQuery)
    requires Encodes(x.enc) && Planned(x, tables, table, query).Ok?
    ensures var p := Planned(x, tables, table, query).value;
            table in tables && p.fingerprint.table == table && RuleFits(x, tables[table].fields, p.fingerprint, p.schema)
  {
    var t := tables[table];
    var chosen := Chosen(t, query);
    if chosen.Some? {
      NormalOk(x.lib, t.fields, chosen.value);
      CanonicalOk(x.enc, x.lib, t.fields, Normal(x.lib, t.fields, chosen.value));
    }
  }

  /** Membership depends on the schema only through the recorded types. */
  lemma MemberBySchema(x: Reader, a: Fields, b: Fields, f: Fingerprint, schema: map<string, FieldType>, row: Row)
    requires RuleFits(x, a, f, schema) && RuleFits(x, b, f, schema)
    ensures Member(a, f, row) == Member(b, f, row)
  {
    if f.filter.Some? {
      var node := f.filter.value;
      AcceptedShape(x.lib, a, node);
      AcceptedShape(x.lib, b, node);
      forall g | g in RuleFields(node) ensures a[g].fieldType == b[g].fieldType {
        assert g in References(a, f.filter, f.search) && g in References(b, f.filter, f.search);
        assert schema[g] == a[g].fieldType && schema[g] == b[g].fieldType;
      }
      CompileByTypes(a, b, node);
    }
  }

  /** With a safe root, records of other tables are never members. */
  lemma MemberOfTable(x: Reader, fields: Fields, f: Fingerprint, schema: map<string, FieldType>, row: Row)
    requires RuleFits(x, fields, f, schema) && SafeRoot(f.filter) && row.tableId != f.table
    ensures !Member(fields, f, row)
  {
    var q := RuleQuery(f);
    var bare := row.(queryValues := map[]);
    AroundMeans(x.lib, fields, q, row);
    if f.filter.Some? {
      SafeHasNoOr(x.lib, fields, f.filter.value, bare);
    }
    var before := [[Leaf(TableIs(q.table))]] + LifecycleParts(q.lifecycle).value;
    var filter := FilterParts(fields, q.filter).value;
    var parts := before + filter + SearchParts(q.search) + [];
    JoinMeans(row, parts);
    AllOfConcat(row, before + filter + SearchParts(q.search), []);
    AllOfConcat(row, before + filter, SearchParts(q.search));
    AllOfConcat(row, before, filter);
  }

  /** On rows with a well-shaped index, a safe rule's members are the active records the query describes. */
  lemma MemberMeans(x: Reader, fields: Fields, f: Fingerprint, schema: map<string, FieldType>, row: Row)
    requires RuleFits(x, fields, f, schema) && SafeRoot(f.filter) && ShapedRow(fields, row)
    ensures Member(fields, f, row) <==> Selected(fields, RuleQuery(f), row)
  {
    SafeWhereMeans(x.lib, fields, RuleQuery(f), [], row);
  }

  /** With a safe root a candidate is found exactly when it is a member itself. */
  lemma FoundMeans(x: Reader, fields: Fields, f: Fingerprint, schema: map<string, FieldType>, rows: map<string, Row>, id: string)
    requires RuleFits(x, fields, f, schema) && SafeRoot(f.filter)
    ensures Found(fields, f, rows, id) <==> id in rows && Member(fields, f, rows[id])
  {
    forall k | k in rows
      ensures var text := Where(fields, RuleQuery(f), []);
              text.Ok? && (Eval(rows[k], Behind(if k == id then Yes else No, text.value)) == Yes <==>
                           k == id && Member(fields, f, rows[k]))
    {
      SafeBehind(x.lib, fields, RuleQuery(f), rows[k], if k == id then Yes else No);
    }
  }

  /** A record on which a child of a root `or` other than the first holds, the last only if the search does. */
  ghost predicate LetsIn(fields: Fields, f: Fingerprint, c: seq<FilterNode>, row: Row)
    requires |c| >= 2
  {
    || (exists i | 1 <= i < |c| - 1 :: Holds(fields, c[i], row))
    || (Holds(fields, c[|c| - 1], row) && (f.search != "" ==> Occurs(f.search, row.searchText)))
  }

  /** With a root `or` of several children one such record anywhere in the store makes every candidate count as found. */
  lemma FoundLeaks(x: Reader, fields: Fields, f: Fingerprint, schema: map<string, FieldType>, rows: map<string, Row>, id: string)
    requires RuleFits(x, fields, f, schema) && !SafeRoot(f.filter) && forall k | k in rows :: ShapedRow(fields, rows[k])
    ensures var c := f.filter.value.children;
            Found(fields, f, rows, id) <==>
            (id in rows && rows[id].tableId == f.table && !rows[id].deleted && Holds(fields, c[0], rows[id]))
            || exists k | k in rows :: LetsIn(fields, f, c, rows[k])
  {
    var c := f.filter.value.children;
    forall k | k in rows
      ensures var text := Where(fields, RuleQuery(f), []);
              text.Ok? && (Eval(rows[k], Behind(if k == id then Yes else No, text.value)) == Yes <==>
                           (k == id && rows[k].tableId == f.table && !rows[k].deleted && Holds(fields, c[0], rows[k]))
                           || LetsIn(fields, f, c, rows[k]))
    {
      UnsafeBehind(x.lib, fields, RuleQuery(f), rows[k], if k == id then Yes else No);
    }
  }
}
