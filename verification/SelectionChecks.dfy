/** Which scopes a write invalidates, said without the check itself. */
module SelectionChecks {
  import opened Results
  import opened Schema
  import opened Values
  import opened Orders
  import opened FilterTexts
  import opened FilterMeaning
  import opened RecordWhere
  import opened SelectionPlans
  import opened SelectionScopes
  import opened SelectionCoherence
  import opened SelectionReplan
  import opened SelectionMeaning

  // ----- exactly which scopes -----

  /** The stored query still means the rule and the schema the scope was taken for. */
  predicate StillPlans(x: Reader, w: World, s: Scope) {
    Agrees(Planned(x, w.tables, s.table, s.query), s)
  }

  /** A record that left or entered: a member the stored query does not want now, or a wanted one that is no member. */
  ghost predicate Crossed(x: Reader, w: World, s: Scope, id: string)
    requires s.table in w.tables
  {
    (id in s.members) != (id in w.rows && Wanted(x, w.tables[s.table], s.table, s.query, w.rows[id]))
  }

  lemma FoundIsWanted(x: Reader, w: World, s: Scope, id: string)
    requires Encodes(x.enc) && StillPlans(x, w, s) && SafeRoot(s.fingerprint.filter)
    requires ShapedRows(FieldsOf(w.tables, s.table), w.rows, s.table)
    ensures s.table in w.tables
    ensures Found(FieldsOf(w.tables, s.table), s.fingerprint, w.rows, id) <==>
            id in w.rows && Wanted(x, w.tables[s.table], s.table, s.query, w.rows[id])
  {
    var p := Planned(x, w.tables, s.table, s.query).value;
    PlannedFits(x, w.tables, s.table, s.query);
    FoundMeans(x, FieldsOf(w.tables, s.table), p.fingerprint, p.schema, w.rows, id);
    MembersWanted(x, w.tables, s.table, s.query, p, w.rows, id);
  }

  /** What a write does to one scope. */
  ghost predicate CheckedExactly(x: Reader, w: World, s: Scope, table: string, changed: set<string>, after: Scope) {
    if s.table != table || !InForce(s, w.now) then after == s
    else
      && after == s.(invalid := after.invalid)
      && (!StillPlans(x, w, s) ==> after.invalid)
      && (StillPlans(x, w, s) && s.table in w.tables ==> (after.invalid <==> exists id | id in changed :: Crossed(x, w, s, id)))
  }

  lemma CheckIsExact(x: Reader, w: World, s: Scope, table: string, changed: set<string>)
    requires Encodes(x.enc) && SafeRoot(s.fingerprint.filter) && ShapedRows(FieldsOf(w.tables, table), w.rows, table)
    ensures CheckedExactly(x, w, s, table, changed, Checked(x, w, s, table, changed))
  {
    if s.table == table && InForce(s, w.now) && StillPlans(x, w, s) {
      forall id ensures Found(FieldsOf(w.tables, table), s.fingerprint, w.rows, id) <==>
                        id in w.rows && Wanted(x, w.tables[table], table, s.query, w.rows[id])
      {
        FoundIsWanted(x, w, s, id);
      }
      MovedIsCrossed(x, w, s, changed);
    }
  }

  lemma MovedIsCrossed(x: Reader, w: World, s: Scope, changed: set<string>)
    requires s.table in w.tables
    requires forall id :: Found(FieldsOf(w.tables, s.table), s.fingerprint, w.rows, id) <==>
                          id in w.rows && Wanted(x, w.tables[s.table], s.table, s.query, w.rows[id])
    ensures Moved(FieldsOf(w.tables, s.table), w.rows, s, changed) <==> exists id | id in changed :: Crossed(x, w, s, id)
  {
    if id :| id in changed && (id in s.members) != Found(FieldsOf(w.tables, s.table), s.fingerprint, w.rows, id) {
      assert Crossed(x, w, s, id);
    }
    if id :| id in changed && Crossed(x, w, s, id) {
      assert (id in s.members) != Found(FieldsOf(w.tables, s.table), s.fingerprint, w.rows, id);
    }
  }

  /** Main result: after the check a scope with a safe root is invalid exactly when it was before, or it was in force on
      the written table and its stored query means something else now, or some changed record crossed over. Nothing else
      of any scope changes. */
  lemma InvalidationExact(x: Reader, w: World, table: string, changed: set<string>, id: string)
    requires Encodes(x.enc) && id in w.scopes && SafeRoot(w.scopes[id].fingerprint.filter)
    requires ShapedRows(FieldsOf(w.tables, table), w.rows, table)
    ensures var after := Invalidated(x, w, table, changed);
            && after.tables == w.tables && after.rows == w.rows && after.now == w.now && after.scopes.Keys == w.scopes.Keys
            && CheckedExactly(x, w, w.scopes[id], table, changed, after.scopes[id])
  {
    CheckIsExact(x, w, w.scopes[id], table, changed);
  }

  /** Scopes of other tables, and those no longer in force, are left alone whatever their root. */
  lemma OthersUntouched(x: Reader, w: World, table: string, changed: set<string>, id: string)
    requires id in w.scopes && (w.scopes[id].table != table || !InForce(w.scopes[id], w.now))
    ensures Invalidated(x, w, table, changed).scopes[id] == w.scopes[id]
  {
  }

  /** The world a writer leaves, before the check. */
  function LeftBehind(w: World, e: Event): World
    requires e.Write?
  {
    w.(tables := w.tables[e.table := e.state], rows := e.rows)
  }

  /** Main result: under a legal write that leaves the plan as it was, a scope survives exactly when its members are still
      the records its stored query wants. */
  lemma SurvivesExactly(x: Reader, w: World, e: Event, id: string)
    requires Encodes(x.enc) && e.Write? && Legal(w, e) && Coherent(x, w)
    requires id in w.scopes && InForce(w.scopes[id], w.now) && w.scopes[id].table == e.table
    requires SafeRoot(w.scopes[id].fingerprint.filter) && StillPlans(x, LeftBehind(w, e), w.scopes[id])
    requires ShapedRows(FieldsOf(LeftBehind(w, e).tables, e.table), e.rows, e.table)
    ensures Next(x, w, e).scopes[id] == w.scopes[id] <==>
            HoldsWanted(x, LeftBehind(w, e), e.table, w.scopes[id].query, w.scopes[id].members)
  {
    var s, after := w.scopes[id], LeftBehind(w, e);
    InvalidationExact(x, after, e.table, e.changed, id);
    assert CheckedExactly(x, after, s, e.table, e.changed, Next(x, w, e).scopes[id]);
    if Next(x, w, e).scopes[id] == s {
      WriteCoherent(x, w, e);
      assert Fresh(x, Next(x, w, e), s);
      FreshByFields(x, Next(x, w, e), after, s);
      LiveHoldsWanted(x, after, s);
    } else if HoldsWanted(x, after, e.table, s.query, s.members) {
      NoneCrossed(x, after, s);
    }
  }

  lemma NoneCrossed(x: Reader, w: World, s: Scope)
    requires HoldsWanted(x, w, s.table, s.query, s.members)
    ensures forall id :: !Crossed(x, w, s, id)
  {
  }
}
