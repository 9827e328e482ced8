/** Coherence of selection scopes over whole runs: although a writer looks only at the records it changed, a scope that
    is neither invalidated nor expired holds exactly the records its rule selects now. */
module SelectionCoherence {
  import opened Results
  import opened Schema
  import opened Values
  import opened Orders
  import opened Filters
  import opened FilterSql
  import opened FilterMeaning
  import opened RecordWhere
  import opened FilterTexts
  import opened CanonicalFilter
  import opened SelectionPlans
  import opened SelectionScopes

  // ----- writers -----

  ghost predicate SameRow(a: map<string, Row>, b: map<string, Row>, id: string) {
    (id in a <==> id in b) && (id in a && id in b ==> SameView(a[id], b[id]))
  }

  predicate InTable(rows: map<string, Row>, id: string, table: string) {
    id in rows && rows[id].tableId == table
  }

  /** A writer on one table touches only that table's records, and reports every record whose view changed. */
  ghost predicate Reports(before: map<string, Row>, after: map<string, Row>, table: string, changed: set<string>) {
    forall id | !SameRow(before, after, id) ::
      id in changed && (id in before ==> InTable(before, id, table)) && (id in after ==> InTable(after, id, table))
  }

  // ----- events -----

  datatype Event =
    | Acquire(request: Request)
    | Write(table: string, state: TableState, rows: map<string, Row>, changed: set<string>)
    | Revoke(tables: set<string>)                  // the table, its base or its workspace is deleted
    | Reinstate(table: string)
    | NewTable(table: string, state: TableState)
    | Tick(elapsed: nat)

  function SetActive(tables: map<string, TableState>, which: set<string>, active: bool): map<string, TableState> {
    map t | t in tables :: if t in which then tables[t].(active := active) else tables[t]
  }

  function Revoked(scopes: map<string, Scope>, tables: set<string>): map<string, Scope> {
    map id | id in scopes :: if scopes[id].table in tables then scopes[id].(invalid := true) else scopes[id]
  }

  function Next(x: Reader, w: World, e: Event): World {
    match e
    case Acquire(r) => (match Acquired(x, w, r) case Ok(done) => done.0 case Err(_) => w)
    case Write(table, state, rows, changed) =>
      Invalidated(x, w.(tables := w.tables[table := state], rows := rows), table, changed)
    case Revoke(tables) => w.(tables := SetActive(w.tables, tables, false), scopes := Revoked(w.scopes, tables))
    case Reinstate(table) => w.(tables := SetActive(w.tables, {table}, true))
    case NewTable(table, state) => w.(tables := w.tables[table := state])
    case Tick(elapsed) => w.(now := w.now + elapsed)
  }

  /** What the surrounding transactions guarantee about an event. */
  ghost predicate Legal(w: World, e: Event) {
    match e
    case Acquire(r) => r.scopeId !in w.scopes
    case Write(table, _, rows, changed) => table in w.tables && Reports(w.rows, rows, table, changed)
    case NewTable(table, _) => table !in w.tables
    case _ => true
  }

  function Run(x: Reader, w: World, events: seq<Event>): World {
    if events == [] then w else Next(x, Run(x, w, events[..|events| - 1]), events[|events| - 1])
  }

  ghost predicate LegalRun(x: Reader, w: World, events: seq<Event>) {
    forall i | 0 <= i < |events| :: Legal(Run(x, w, events[..i]), events[i])
  }

  // ----- the invariant -----

  /** A live scope's rule fits the present schema, and its members are the rule's members now. */
  ghost predicate Fresh(x: Reader, w: World, s: Scope) {
    && s.table in w.tables && s.fingerprint.table == s.table
    && RuleFits(x, FieldsOf(w.tables, s.table), s.fingerprint, s.schema)
    && s.members == MemberIds(FieldsOf(w.tables, s.table), s.fingerprint, w.rows)
    && s.count == |s.members|
  }

  ghost predicate Coherent(x: Reader, w: World) {
    forall id | id in w.scopes && InForce(w.scopes[id], w.now) && SafeRoot(w.scopes[id].fingerprint.filter) ::
      Fresh(x, w, w.scopes[id])
  }

  lemma MemberEverywhere(fields: Fields, f: Fingerprint, a: map<string, Row>, b: map<string, Row>, id: string)
    requires SameRow(a, b, id)
    ensures id in MemberIds(fields, f, a) <==> id in MemberIds(fields, f, b)
  {
    if id in a {
      MemberByView(fields, f, a[id], b[id]);
    }
  }

  /** A checked scope of the written table: unchanged records by the invariant, changed ones by the check. */
  lemma WriteSameTable(x: Reader, w: World, after: World, s: Scope, changed: set<string>)
    requires Encodes(x.enc) && Fresh(x, w, s) && SafeRoot(s.fingerprint.filter)
    requires Reports(w.rows, after.rows, s.table, changed) && !Stale(x, after, s, changed)
    ensures Fresh(x, after, s)
  {
    PlannedFits(x, after.tables, s.table, s.query);
    var old_, new_ := FieldsOf(w.tables, s.table), FieldsOf(after.tables, s.table);
    forall id ensures id in s.members <==> id in MemberIds(new_, s.fingerprint, after.rows) {
      if id in changed {
        assert !((id in s.members) != Found(new_, s.fingerprint, after.rows, id));
        FoundMeans(x, new_, s.fingerprint, s.schema, after.rows, id);
      } else {
        assert SameRow(w.rows, after.rows, id);
        MemberEverywhere(old_, s.fingerprint, w.rows, after.rows, id);
        if id in after.rows {
          MemberBySchema(x, old_, new_, s.fingerprint, s.schema, after.rows[id]);
        }
      }
    }
  }

  /** A write on another table cannot touch the members of a rule with a safe root. */
  lemma WriteOtherTable(x: Reader, w: World, after: World, s: Scope, table: string, changed: set<string>)
    requires Fresh(x, w, s) && SafeRoot(s.fingerprint.filter) && table != s.table
    requires Reports(w.rows, after.rows, table, changed)
    requires s.table in after.tables && FieldsOf(after.tables, s.table) == FieldsOf(w.tables, s.table)
    ensures Fresh(x, after, s)
  {
    var fields := FieldsOf(w.tables, s.table);
    forall id ensures id in MemberIds(fields, s.fingerprint, w.rows) <==> id in MemberIds(fields, s.fingerprint, after.rows) {
      if SameRow(w.rows, after.rows, id) {
        MemberEverywhere(fields, s.fingerprint, w.rows, after.rows, id);
      } else {
        if id in w.rows { MemberOfTable(x, fields, s.fingerprint, s.schema, w.rows[id]); }
        if id in after.rows { MemberOfTable(x, fields, s.fingerprint, s.schema, after.rows[id]); }
      }
    }
  }

  lemma FreshByFields(x: Reader, w: World, after: World, s: Scope)
    requires Fresh(x, w, s) && after.rows == w.rows
    requires s.table in after.tables && FieldsOf(after.tables, s.table) == FieldsOf(w.tables, s.table)
    ensures Fresh(x, after, s)
  {
  }

  lemma WriteCoherent(x: Reader, w: World, e: Event)
    requires Encodes(x.enc) && Coherent(x, w) && e.Write? && Legal(w, e)
    ensures Coherent(x, Next(x, w, e))
  {
    var after := w.(tables := w.tables[e.table := e.state], rows := e.rows);
    var done := Next(x, w, e);
    forall id | id in done.scopes && InForce(done.scopes[id], done.now) && SafeRoot(done.scopes[id].fingerprint.filter)
      ensures Fresh(x, done, done.scopes[id])
    {
      var s := w.scopes[id];
      assert done.scopes[id] == s && InForce(s, w.now);
      assert Fresh(x, w, s);
      if s.table == e.table {
        WriteSameTable(x, w, after, s, e.changed);
      } else {
        WriteOtherTable(x, w, after, s, e.table, e.changed);
      }
      FreshByFields(x, after, done, s);
    }
  }

  lemma AcquireCoherent(x: Reader, w: World, r: Request)
    requires Encodes(x.enc) && Coherent(x, w) && r.scopeId !in w.scopes && Acquired(x, w, r).Ok?
    ensures Coherent(x, Acquired(x, w, r).value.0)
  {
    var plan := Planned(x, w.tables, r.table, r.query).value;
    if PreviousOf(w, r).None? {
      NewScopeFresh(x, w, r);
      AllocatedCoherent(x, w, r, plan);
    }
  }

  lemma AllocatedCoherent(x: Reader, w: World, r: Request, plan: SelectionPlan)
    requires Coherent(x, w) && r.scopeId !in w.scopes && Allocated(x, w, r, plan).Ok?
    requires Fresh(x, w, NewScope(x, w, r, plan))
    ensures Coherent(x, Allocated(x, w, r, plan).value.0)
  {
    SweptCoherent(x, w, r.scopeId, NewScope(x, w, r, plan));
  }

  lemma SweptCoherent(x: Reader, w: World, scopeId: string, scope: Scope)
    requires Coherent(x, w) && Fresh(x, w, scope)
    ensures Coherent(x, w.(scopes := Swept(w)[scopeId := scope]))
  {
    var done := w.(scopes := Swept(w)[scopeId := scope]);
    forall id | id in done.scopes && InForce(done.scopes[id], done.now) && SafeRoot(done.scopes[id].fingerprint.filter)
      ensures Fresh(x, done, done.scopes[id])
    {
      if id != scopeId {
        assert done.scopes[id] == w.scopes[id];
      }
      FreshByFields(x, w, done, done.scopes[id]);
    }
  }

  lemma NewScopeFresh(x: Reader, w: World, r: Request)
    requires Encodes(x.enc) && Planned(x, w.tables, r.table, r.query).Ok?
    ensures Fresh(x, w, NewScope(x, w, r, Planned(x, w.tables, r.table, r.query).value))
  {
    PlannedFits(x, w.tables, r.table, r.query);
  }

  lemma TablesCoherent(x: Reader, w: World, e: Event)
    requires Coherent(x, w) && Legal(w, e) && (e.Revoke? || e.Reinstate? || e.NewTable? || e.Tick?)
    ensures Coherent(x, Next(x, w, e))
  {
    var done := Next(x, w, e);
    forall id | id in done.scopes && InForce(done.scopes[id], done.now) && SafeRoot(done.scopes[id].fingerprint.filter)
      ensures Fresh(x, done, done.scopes[id])
    {
      assert done.scopes[id] == w.scopes[id] && InForce(w.scopes[id], w.now);
      FreshByFields(x, w, done, w.scopes[id]);
    }
  }

  lemma NextCoherent(x: Reader, w: World, e: Event)
    requires Encodes(x.enc) && Coherent(x, w) && Legal(w, e)
    ensures Coherent(x, Next(x, w, e))
  {
    match e
    case Acquire(r) => if Acquired(x, w, r).Ok? { AcquireCoherent(x, w, r); }
    case Write(_, _, _, _) => WriteCoherent(x, w, e);
    case _ => TablesCoherent(x, w, e);
  }

  /** Over every legal run the scopes stay coherent. */
  lemma {:induction false} RunCoherent(x: Reader, w: World, events: seq<Event>)
    requires Encodes(x.enc) && Coherent(x, w) && LegalRun(x, w, events)
    ensures Coherent(x, Run(x, w, events))
  {
    if events != [] {
      var n := |events| - 1;
      var front := events[..n];
      forall i | 0 <= i < n ensures Legal(Run(x, w, front[..i]), front[i]) {
        assert front[..i] == events[..i];
        assert Legal(Run(x, w, events[..i]), events[i]);
      }
      RunCoherent(x, w, front);
      assert Legal(Run(x, w, events[..n]), events[n]);
      NextCoherent(x, Run(x, w, front), events[n]);
    }
  }

  // ----- what coherence means -----

  ghost predicate ShapedRows(fields: Fields, rows: map<string, Row>, table: string) {
    forall id | id in rows && rows[id].tableId == table :: ShapedRow(fields, rows[id])
  }

  /** The active records a rule selects now. */
  ghost function SelectedNow(w: World, f: Fingerprint): set<string> {
    set id | id in w.rows && Selected(FieldsOf(w.tables, f.table), RuleQuery(f), w.rows[id])
  }

  /** Main result: after any run, a scope that is neither invalidated nor expired holds exactly the active records that
      its rule selects now. */
  lemma LiveScopesAreExact(x: Reader, w: World, events: seq<Event>, id: string)
    requires Encodes(x.enc) && Coherent(x, w) && LegalRun(x, w, events)
    requires var u := Run(x, w, events);
             && id in u.scopes && InForce(u.scopes[id], u.now) && SafeRoot(u.scopes[id].fingerprint.filter)
             && ShapedRows(FieldsOf(u.tables, u.scopes[id].table), u.rows, u.scopes[id].table)
    ensures var u := Run(x, w, events);
            u.scopes[id].members == SelectedNow(u, u.scopes[id].fingerprint)
  {
    var u := Run(x, w, events);
    var s := u.scopes[id];
    RunCoherent(x, w, events);
    assert Fresh(x, u, s);
    MembersAreSelected(x, u, s);
  }

  lemma MembersAreSelected(x: Reader, w: World, s: Scope)
    requires Fresh(x, w, s) && SafeRoot(s.fingerprint.filter) && ShapedRows(FieldsOf(w.tables, s.table), w.rows, s.table)
    ensures s.members == SelectedNow(w, s.fingerprint)
  {
    var fields := FieldsOf(w.tables, s.table);
    forall id | id in w.rows
      ensures Member(fields, s.fingerprint, w.rows[id]) <==> Selected(fields, RuleQuery(s.fingerprint), w.rows[id])
    {
      if w.rows[id].tableId == s.table {
        MemberMeans(x, fields, s.fingerprint, s.schema, w.rows[id]);
      } else {
        MemberOfTable(x, fields, s.fingerprint, s.schema, w.rows[id]);
      }
    }
  }
}
