/** How a request for a selection is answered: when there is a plan, what is stored, that asking twice is asking once, and
    what a client that shows its query again may rely on. */
module SelectionAnswers {
  import opened Results
  import opened Schema
  import opened Values
  import opened Orders
  import opened Filters
  import opened FilterTexts
  import opened RecordWhere
  import opened CanonicalFilter
  import opened SelectionPlans
  import opened SelectionScopes
  import opened SelectionCoherence
  import opened SelectionReplan
  import opened SelectionMeaning

  // ----- when there is a plan -----

  /** The query can be answered: its view is there, the filter in force is acceptable and the search is not too long. */
  ghost predicate Askable(x: Reader, t: TableState, query: SelectionQuery) {
    && t.active && (query.viewId == "" || (query.viewId in t.views && !t.views[query.viewId].deleted))
    && (forall node | InForceIs(t, query, Some(node)) :: Acceptable(x.lib, t.fields, node))
    && |x.compose(query.search)| <= 500
  }

  lemma PlannedExactly(x: Reader, tables: map<string, TableState>, table: string, query: SelectionQuery)
    ensures Planned(x, tables, table, query).Ok? <==> table in tables && Askable(x, tables[table], query)
  {
    if table in tables {
      ChosenInForce(tables[table], query);
    }
  }

  // ----- asking for a scope -----

  ghost predicate Unasked(w: World, actor: string, requestId: string) {
    forall id | id in w.scopes :: w.scopes[id].actor != actor || w.scopes[id].requestId != requestId
  }

  lemma UnaskedHasNone(w: World, r: Request)
    ensures Unasked(w, r.actor, r.requestId) <==> PreviousOf(w, r).None?
  {
    var existing := Existing(w, r.actor, r.requestId);
    SortedSetMembers(existing);
    if Unasked(w, r.actor, r.requestId) {
      assert existing == {};
    } else {
      var id :| id in w.scopes && w.scopes[id].actor == r.actor && w.scopes[id].requestId == r.requestId;
      assert id in existing && id in SortedSet(existing);
      assert SortedSet(existing)[0] in existing;
    }
  }

  /** What is left of a scope when another is taken: its members are reclaimed once it is invalid. */
  function Retained(s: Scope): Scope {
    if s.invalid then s.(members := {}) else s
  }

  /** A first request that is answered stores one scope, of the asking actor and valid for five minutes from now; scopes
      that have not expired stay, the invalid ones without their members. */
  lemma FirstAnswer(x: Reader, w: World, r: Request)
    requires Unasked(w, r.actor, r.requestId) && Acquired(x, w, r).Ok?
    ensures var u, s := Acquired(x, w, r).value.0, Acquired(x, w, r).value.1;
            && s.actor == r.actor && s.table == r.table && s.requestId == r.requestId
            && s.createdAt == w.now && s.expiresAt == w.now + 300_000_000 && !s.invalid
            && u == w.(scopes := u.scopes) && r.scopeId in u.scopes && u.scopes[r.scopeId] == s
            && forall id | id != r.scopeId ::
                 (id in u.scopes <==> id in w.scopes && w.now < w.scopes[id].expiresAt)
                 && (id in u.scopes ==> u.scopes[id] == Retained(w.scopes[id]))
  {
    UnaskedHasNone(w, r);
    var plan := Planned(x, w.tables, r.table, r.query).value;
    var s := Acquired(x, w, r).value.1;
    assert s == NewScope(x, w, r, plan) && Acquired(x, w, r).value.0 == w.(scopes := Swept(w)[r.scopeId := s]);
    SweptAre(w, r.scopeId, s);
  }

  lemma SweptAre(w: World, scopeId: string, s: Scope)
    ensures forall id | id != scopeId ::
              (id in Swept(w)[scopeId := s] <==> id in w.scopes && w.now < w.scopes[id].expiresAt)
              && (id in Swept(w)[scopeId := s] ==> Swept(w)[scopeId := s][id] == Retained(w.scopes[id]))
  {
  }

  lemma OnlyAsked(x: Reader, w: World, r: Request)
    requires Unasked(w, r.actor, r.requestId) && Acquired(x, w, r).Ok?
    ensures Existing(Acquired(x, w, r).value.0, r.actor, r.requestId) == {r.scopeId}
  {
    FirstAnswer(x, w, r);
    var u := Acquired(x, w, r).value.0;
    forall id ensures id in Existing(u, r.actor, r.requestId) <==> id == r.scopeId {
      if id != r.scopeId && id in u.scopes {
        assert u.scopes[id] == Retained(w.scopes[id]);
      }
    }
  }

  lemma PreviousIs(w: World, r: Request, id: string)
    requires Existing(w, r.actor, r.requestId) == {id}
    ensures id in w.scopes && PreviousOf(w, r) == Some(w.scopes[id])
  {
    assert id in Existing(w, r.actor, r.requestId);
    SortedSetMembers({id});
    assert id in SortedSet({id});
    assert SortedSet({id})[0] in {id};
  }

  /** Asking again, under the same request identity and before anything else happens, changes nothing and gets the same
      scope, whatever identifier a second scope would have had. */
  lemma AskAgain(x: Reader, w: World, r: Request, other: string)
    requires Unasked(w, r.actor, r.requestId) && Acquired(x, w, r).Ok?
    ensures Acquired(x, Acquired(x, w, r).value.0, r.(scopeId := other)) == Acquired(x, w, r)
  {
    var u, s := Acquired(x, w, r).value.0, Acquired(x, w, r).value.1;
    UnaskedHasNone(w, r);
    FirstAnswer(x, w, r);
    OnlyAsked(x, w, r);
    PreviousIs(u, r, r.scopeId);
    assert PreviousOf(u, r.(scopeId := other)) == Some(s);
  }

  /** The scopes that have not expired, all or those that still hold members. */
  function Unexpired(w: World): set<string> {
    set id | id in w.scopes && w.now < w.scopes[id].expiresAt
  }

  function Holding(w: World): set<string> {
    set id | id in Unexpired(w) && id in w.scopes && !w.scopes[id].invalid
  }

  function Taken(w: World, ids: set<string>, actor: string): set<string> {
    set id | id in ids && id in w.scopes && w.scopes[id].actor == actor
  }

  function About(w: World, ids: set<string>, table: string): set<string> {
    set id | id in ids && id in w.scopes && w.scopes[id].table == table
  }

  /** There is room for one more scope. */
  predicate Room(w: World, actor: string, table: string) {
    && |Taken(w, Holding(w), actor)| < 8 && |About(w, Holding(w), table)| < 4 && |Holding(w)| < 64
    && |Taken(w, Unexpired(w), actor)| < 64 && |Unexpired(w)| < 256
  }

  lemma LiveCountIs(w: World)
    ensures CountLive(Swept(w)) == |Holding(w)| && |Swept(w)| == |Unexpired(w)|
  {
    assert Swept(w).Keys == Unexpired(w);
    assert |Swept(w)| == |Swept(w).Keys|;
    assert (set id | id in Swept(w) && !Swept(w)[id].invalid) == Holding(w);
  }

  lemma ActorCountIs(w: World, actor: string)
    ensures CountActor(Swept(w), actor) == |Taken(w, Holding(w), actor)|
  {
    assert (set id | id in Swept(w) && Swept(w)[id].actor == actor && !Swept(w)[id].invalid) == Taken(w, Holding(w), actor);
  }

  lemma RequestCountIs(w: World, actor: string)
    ensures CountRequests(Swept(w), actor) == |Taken(w, Unexpired(w), actor)|
  {
    assert (set id | id in Swept(w) && Swept(w)[id].actor == actor) == Taken(w, Unexpired(w), actor);
  }

  lemma TableCountIs(w: World, table: string)
    ensures CountTable(Swept(w), table) == |About(w, Holding(w), table)|
  {
    assert (set id | id in Swept(w) && Swept(w)[id].table == table && !Swept(w)[id].invalid) == About(w, Holding(w), table);
  }

  lemma RoomIs(w: World, actor: string, table: string)
    ensures OverBudget(Swept(w), actor, table).None? <==> Room(w, actor, table)
  {
    LiveCountIs(w);
    ActorCountIs(w, actor);
    RequestCountIs(w, actor);
    TableCountIs(w, table);
  }

  /** The members that live scopes hold together. */
  function HeldTogether(w: World): nat {
    SumCounts(Swept(w), SortedSet(Swept(w).Keys))
  }

  /** Main result: a first request is answered exactly when its table is active, its query can be answered and is at most
      64 KiB long, there is room for a scope, and the wanted records are at most 100000, with all scopes together at most a
      million. */
  lemma FirstAnsweredWhen(x: Reader, w: World, r: Request, wanted: set<string>)
    requires Encodes(x.enc) && Unasked(w, r.actor, r.requestId) && HoldsWanted(x, w, r.table, r.query, wanted)
    requires SafelyRooted(x, w.tables[r.table], r.query) && ShapedRows(FieldsOf(w.tables, r.table), w.rows, r.table)
    ensures Acquired(x, w, r).Ok? <==>
            && Askable(x, w.tables[r.table], r.query) && r.bytes <= 65536 && Room(w, r.actor, r.table)
            && |wanted| <= 100000 && HeldTogether(w) + |wanted| <= 1000000
  {
    UnaskedHasNone(w, r);
    FirstIsAllocated(x, w, r);
    PlannedExactly(x, w.tables, r.table, r.query);
    if Planned(x, w.tables, r.table, r.query).Ok? {
      var p := Planned(x, w.tables, r.table, r.query).value;
      SafelyPlanned(x, w.tables, r.table, r.query, p);
      PlannedMembers(x, w, r.table, r.query, p);
      SameWanted(x, w, r.table, r.query, wanted, MemberIds(FieldsOf(w.tables, r.table), p.fingerprint, w.rows));
      AllocatedWhen(x, w, r, p);
    }
  }

  lemma FirstIsAllocated(x: Reader, w: World, r: Request)
    requires PreviousOf(w, r).None? && r.table in w.tables
    ensures Acquired(x, w, r).Ok? <==>
            && Planned(x, w.tables, r.table, r.query).Ok? && r.bytes <= 65536
            && Allocated(x, w, r, Planned(x, w.tables, r.table, r.query).value).Ok?
  {
    var outcome := Acquired(x, w, r);
    if Planned(x, w.tables, r.table, r.query).Ok? && r.bytes <= 65536 {
      assert outcome == Allocated(x, w, r, Planned(x, w.tables, r.table, r.query).value);
    }
  }

  lemma AllocatedWhen(x: Reader, w: World, r: Request, p: SelectionPlan)
    ensures var n := |MemberIds(FieldsOf(w.tables, r.table), p.fingerprint, w.rows)|;
            Allocated(x, w, r, p).Ok? <==> Room(w, r.actor, r.table) && n <= 100000 && HeldTogether(w) + n <= 1000000
  {
    RoomIs(w, r.actor, r.table);
  }

  lemma SameWanted(x: Reader, w: World, table: string, query: SelectionQuery, a: set<string>, b: set<string>)
    requires HoldsWanted(x, w, table, query, a) && HoldsWanted(x, w, table, query, b)
    ensures a == b
  {
    forall id ensures id in a <==> id in b {}
  }

  /** Both queries ask the same: of one view, with a filter of their own or without, for equivalent filters and one search. */
  ghost predicate SameQuestion(x: Reader, t: TableState, a: SelectionQuery, b: SelectionQuery) {
    && a.viewId == b.viewId && a.filterPresent == b.filterPresent && Sought(x, a) == Sought(x, b)
    && (a.filterPresent ==>
          (a.filter.None? && b.filter.None?)
          || (a.filter.Some? && b.filter.Some?
              && Equivalent(Normal(x.lib, t.fields, a.filter.value), Normal(x.lib, t.fields, b.filter.value))))
  }

  function CanonicalFor(x: Reader, tables: map<string, TableState>, table: string, query: SelectionQuery): Option<SelectionQuery> {
    match Planned(x, tables, table, query)
    case Ok(p) => Some(CanonicalRequest(x, StoredQuery(x, query, p), p))
    case Err(_) => None
  }

  lemma SameCanonicalRequest(x: Reader, tables: map<string, TableState>, table: string, a: SelectionQuery, b: SelectionQuery)
    requires Encodes(x.enc) && CanonicalFor(x, tables, table, a).Some? && CanonicalFor(x, tables, table, b).Some?
    ensures table in tables
    ensures CanonicalFor(x, tables, table, a) == CanonicalFor(x, tables, table, b) <==> SameQuestion(x, tables[table], a, b)
  {
    var fields := tables[table].fields;
    if a.filterPresent && b.filterPresent && a.filter.Some? && b.filter.Some? {
      SameCanonical(x.enc, Normal(x.lib, fields, a.filter.value), Normal(x.lib, fields, b.filter.value));
    }
  }

  lemma RepeatIs(x: Reader, u: World, again: Request, s: Scope)
    requires PreviousOf(u, again) == Some(s) && InForce(s, u.now) && again.bytes <= QUERY_BYTES
    requires Planned(x, u.tables, again.table, again.query).Ok?
    ensures Acquired(x, u, again) == Repeated(x, u, again, Planned(x, u.tables, again.table, again.query).value, s)
  {
  }

  /** A scope as its first request left it. */
  lemma FirstIs(x: Reader, w: World, r: Request)
    requires Unasked(w, r.actor, r.requestId) && Acquired(x, w, r).Ok?
    ensures var u, s := Acquired(x, w, r).value.0, Acquired(x, w, r).value.1;
            && u.tables == w.tables && u.rows == w.rows && u.now == w.now && InForce(s, u.now) && s.table == r.table
            && Planned(x, w.tables, r.table, r.query).Ok?
            && var p := Planned(x, w.tables, r.table, r.query).value;
               s.fingerprint == p.fingerprint && s.schema == p.schema && Some(s.request) == CanonicalFor(x, w.tables, r.table, r.query)
  {
    UnaskedHasNone(w, r);
  }

  lemma SamePlan(x: Reader, tables: map<string, TableState>, table: string, a: SelectionQuery, b: SelectionQuery)
    requires Encodes(x.enc) && Planned(x, tables, table, a).Ok? && Planned(x, tables, table, b).Ok?
    requires SameQuestion(x, tables[table], a, b)
    ensures Planned(x, tables, table, a) == Planned(x, tables, table, b)
  {
    var fields := tables[table].fields;
    if a.filterPresent && a.filter.Some? {
      SameCanonical(x.enc, Normal(x.lib, fields, a.filter.value), Normal(x.lib, fields, b.filter.value));
    }
  }

  lemma RepeatAnswers(x: Reader, u: World, again: Request, s: Scope, first: SelectionQuery)
    requires Encodes(x.enc) && Planned(x, u.tables, s.table, first).Ok? && Planned(x, u.tables, again.table, again.query).Ok?
    requires var p := Planned(x, u.tables, s.table, first).value;
             s.fingerprint == p.fingerprint && s.schema == p.schema && Some(s.request) == CanonicalFor(x, u.tables, s.table, first)
    ensures Repeated(x, u, again, Planned(x, u.tables, again.table, again.query).value, s) ==
            if again.table == s.table && SameQuestion(x, u.tables[s.table], first, again.query) then Ok((u, s)) else Err(KeyReused)
  {
    if again.table == s.table {
      SameCanonicalRequest(x, u.tables, s.table, first, again.query);
      if SameQuestion(x, u.tables[s.table], first, again.query) {
        SamePlan(x, u.tables, s.table, first, again.query);
      }
    }
  }

  /** A request identity stands for one question: asked again with another, or about another table, it is refused. */
  lemma OtherQuestion(x: Reader, w: World, r: Request, again: Request)
    requires Encodes(x.enc) && Unasked(w, r.actor, r.requestId) && Acquired(x, w, r).Ok?
    requires again.actor == r.actor && again.requestId == r.requestId && again.bytes <= QUERY_BYTES
    requires Planned(x, w.tables, again.table, again.query).Ok?
    ensures Acquired(x, Acquired(x, w, r).value.0, again) ==
            if again.table == r.table && SameQuestion(x, w.tables[r.table], r.query, again.query) then Acquired(x, w, r)
            else Err(KeyReused)
  {
    var u, s := Acquired(x, w, r).value.0, Acquired(x, w, r).value.1;
    FirstIs(x, w, r);
    OnlyAsked(x, w, r);
    PreviousIs(u, again, r.scopeId);
    FirstAnswer(x, w, r);
    RepeatIs(x, u, again, s);
    RepeatAnswers(x, u, again, s, r.query);
  }

  // ----- showing a scope -----

  /** Main result: a client that is shown a scope asked as the actor who took it, about its table, before it expired, and
      the scope holds exactly the records that the query the client showed wants now. */
  lemma ShownIsWanted(x: Reader, w: World, scopeId: string, actor: string, table: string, query: SelectionQuery)
    requires Encodes(x.enc) && Coherent(x, w) && scopeId in w.scopes
    requires Validates(x, w, w.scopes[scopeId], actor, table, query)
    requires SafelyRooted(x, w.tables[table], query) && ShapedRows(FieldsOf(w.tables, table), w.rows, table)
    ensures w.scopes[scopeId].actor == actor && w.scopes[scopeId].table == table
    ensures !w.scopes[scopeId].invalid && w.now < w.scopes[scopeId].expiresAt && w.tables[table].active
    ensures HoldsWanted(x, w, table, query, w.scopes[scopeId].members)
  {
    var s := w.scopes[scopeId];
    var p := Planned(x, w.tables, table, query).value;
    SafelyPlanned(x, w.tables, table, query, p);
    assert Fresh(x, w, s);
    PlannedMembers(x, w, table, query, p);
  }
}
