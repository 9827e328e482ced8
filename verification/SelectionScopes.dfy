/** Materialised selection scopes: acquired once, checked against the changed records after every write, and coherent
    with the live predicate for as long as they are neither invalidated nor expired. */
module SelectionScopes {
  import opened Results
  import opened Schema
  import opened Values
  import opened Orders
  import opened Filters
  import opened FilterSql
  import opened FilterMeaning
  import opened RecordWhere
  import opened CanonicalFilter
  import opened SelectionPlans

  const TTL: nat := 300_000_000
  const MEMBER_LIMIT: nat := 100_000
  const TOTAL_LIMIT: nat := 1_000_000
  const QUERY_BYTES: nat := 65_536

  datatype Scope = Scope(
    actor: string, table: string, requestId: string, request: SelectionQuery, query: SelectionQuery,
    fingerprint: Fingerprint, schema: map<string, FieldType>,
    members: set<string>, count: nat, createdAt: int, expiresAt: int, invalid: bool)

  datatype World = World(tables: map<string, TableState>, rows: map<string, Row>, scopes: map<string, Scope>, now: int)

  datatype Failure = NotFound | Invalid | Expired | KeyReused | Budget(path: string, limit: nat)

  predicate InForce(s: Scope, now: int) {
    !s.invalid && now < s.expiresAt
  }

  // ----- incremental invalidation -----

  function FieldsOf(tables: map<string, TableState>, table: string): Fields {
    if table in tables then tables[table].fields else map[]
  }

  /** Some changed record is a member without being found now, or the other way round. */
  predicate Moved(fields: Fields, rows: map<string, Row>, s: Scope, changed: set<string>) {
    exists id | id in changed :: (id in s.members) != Found(fields, s.fingerprint, rows, id)
  }

  /** The check a writer makes: only the stored query's plan and the changed records are looked at. */
  predicate Stale(x: Reader, w: World, s: Scope, changed: set<string>) {
    match Planned(x, w.tables, s.table, s.query)
    case Err(_) => true
    case Ok(p) =>
      p.fingerprint != s.fingerprint || p.schema != s.schema || Moved(FieldsOf(w.tables, s.table), w.rows, s, changed)
  }

  function Checked(x: Reader, w: World, s: Scope, table: string, changed: set<string>): Scope {
    if s.table == table && InForce(s, w.now) && Stale(x, w, s, changed) then s.(invalid := true) else s
  }

  function Invalidated(x: Reader, w: World, table: string, changed: set<string>): World {
    w.(scopes := CheckedAll(s => Checked(x, w, s, table, changed), w.scopes))
  }

  function CheckedAll(check: Scope -> Scope, scopes: map<string, Scope>): map<string, Scope> {
    map id | id in scopes :: check(scopes[id])
  }

  method CheckScope(x: Reader, w: World, s: Scope, table: string, changed: set<string>) returns (after: Scope)
    ensures after == Checked(x, w, s, table, changed)
  {
    if s.table != table || !InForce(s, w.now) {
      return s;
    }
    var plan := Planned(x, w.tables, table, s.query);
    var invalid := plan.Err? || plan.value.fingerprint != s.fingerprint || plan.value.schema != s.schema;
    if !invalid && changed != {} {
      invalid := Moved(FieldsOf(w.tables, table), w.rows, s, changed);
    }
    return if invalid then s.(invalid := true) else s;
  }

  /** The scopes after the first checks, `check` being what a check makes of one. */
  ghost predicate CheckedSoFar(check: Scope -> Scope, before: map<string, Scope>, done: seq<string>, after: map<string, Scope>) {
    after.Keys == before.Keys
    && forall id | id in before :: after[id] == if id in done then check(before[id]) else before[id]
  }

  lemma CheckedStep(check: Scope -> Scope, before: map<string, Scope>, ids: seq<string>, i: nat, after: map<string, Scope>)
    requires i < |ids| && ids[i] in before && CheckedSoFar(check, before, ids[..i], after)
    ensures CheckedSoFar(check, before, ids[..i + 1], after[ids[i] := check(before[ids[i]])])
  {
    assert ids[..i + 1] == ids[..i] + [ids[i]];
  }

  method InvalidateSelections(x: Reader, w: World, table: string, changed: set<string>) returns (after: World)
    ensures after == Invalidated(x, w, table, changed)
  {
    var ids := SortedSet(w.scopes.Keys);
    SortedSetMembers(w.scopes.Keys);
    ghost var check := (s: Scope) => Checked(x, w, s, table, changed);
    var scopes := w.scopes;
    var i := 0;
    while i < |ids|
      invariant 0 <= i <= |ids|
      invariant CheckedSoFar(check, w.scopes, ids[..i], scopes)
    {
      assert ids[i] in ids;
      CheckedStep(check, w.scopes, ids, i, scopes);
      var s := CheckScope(x, w, w.scopes[ids[i]], table, changed);
      scopes := scopes[ids[i] := s];
      i := i + 1;
    }
    assert ids[..i] == ids;
    CheckedIsAll(check, w.scopes, ids, scopes);
    return w.(scopes := scopes);
  }

  lemma CheckedIsAll(check: Scope -> Scope, before: map<string, Scope>, ids: seq<string>, after: map<string, Scope>)
    requires CheckedSoFar(check, before, ids, after) && forall id | id in before :: id in ids
    ensures after == CheckedAll(check, before)
  {
  }

  // ----- acquiring a scope -----

  function Existing(w: World, actor: string, requestId: string): set<string> {
    set id | id in w.scopes && w.scopes[id].actor == actor && w.scopes[id].requestId == requestId
  }

  /** Expired scopes go; invalid ones stay until expiry but give up their members. */
  function Swept(w: World): map<string, Scope> {
    map id | id in w.scopes && w.now < w.scopes[id].expiresAt ::
      if w.scopes[id].invalid then w.scopes[id].(members := {}) else w.scopes[id]
  }

  function CountActor(scopes: map<string, Scope>, actor: string): nat {
    |set id | id in scopes && scopes[id].actor == actor && !scopes[id].invalid|
  }

  function CountTable(scopes: map<string, Scope>, table: string): nat {
    |set id | id in scopes && scopes[id].table == table && !scopes[id].invalid|
  }

  function CountLive(scopes: map<string, Scope>): nat {
    |set id | id in scopes && !scopes[id].invalid|
  }

  function CountRequests(scopes: map<string, Scope>, actor: string): nat {
    |set id | id in scopes && scopes[id].actor == actor|
  }

  function SumCounts(scopes: map<string, Scope>, ids: seq<string>): nat {
    if ids == [] then 0
    else
      var id := ids[|ids| - 1];
      SumCounts(scopes, ids[..|ids| - 1]) + if id in scopes && !scopes[id].invalid then scopes[id].count else 0
  }

  function OverBudget(scopes: map<string, Scope>, actor: string, table: string): Option<nat> {
    if CountActor(scopes, actor) >= 8 then Some(8)
    else if CountTable(scopes, table) >= 4 then Some(4)
    else if CountLive(scopes) >= 64 then Some(64)
    else if CountRequests(scopes, actor) >= 64 then Some(64)
    else if |scopes| >= 256 then Some(256)
    else None
  }

  datatype Request = Request(scopeId: string, actor: string, table: string, requestId: string, query: SelectionQuery, bytes: nat)

  /** The request with everything that does not change its meaning normalised away; hashed to recognise repeats. */
  function CanonicalRequest(x: Reader, stored: SelectionQuery, plan: SelectionPlan): SelectionQuery {
    stored.(search := plan.fingerprint.search)
  }

  function NewScope(x: Reader, w: World, r: Request, plan: SelectionPlan): Scope {
    var stored := StoredQuery(x, r.query, plan);
    var members := MemberIds(FieldsOf(w.tables, r.table), plan.fingerprint, w.rows);
    Scope(r.actor, r.table, r.requestId, CanonicalRequest(x, stored, plan), stored, plan.fingerprint, plan.schema,
          members, |members|, w.now, w.now + TTL, false)
  }

  /** The outcome for a new request identity. */
  function Allocated(x: Reader, w: World, r: Request, plan: SelectionPlan): Result<(World, Scope), Failure> {
    var scopes := Swept(w);
    match OverBudget(scopes, r.actor, r.table)
    case Some(limit) => Err(Budget("/scopeBudget", limit))
    case None =>
      var scope := NewScope(x, w, r, plan);
      if scope.count > MEMBER_LIMIT then Err(Budget("/scopeMembers", MEMBER_LIMIT))
      else if SumCounts(scopes, SortedSet(scopes.Keys)) + scope.count > TOTAL_LIMIT then Err(Budget("/totalScopeMembers", TOTAL_LIMIT))
      else Ok((w.(scopes := scopes[r.scopeId := scope]), scope))
  }

  /** The outcome for a request identity that already has a scope. */
  function Repeated(x: Reader, w: World, r: Request, plan: SelectionPlan, s: Scope): Result<(World, Scope), Failure> {
    if s.table != r.table || s.request != CanonicalRequest(x, StoredQuery(x, r.query, plan), plan) then Err(KeyReused)
    else if s.fingerprint != plan.fingerprint || s.schema != plan.schema then Err(Expired)
    else Ok((w, s))
  }

  function PreviousOf(w: World, r: Request): Option<Scope> {
    var ids := SortedSet(Existing(w, r.actor, r.requestId));
    if ids != [] && ids[0] in w.scopes then Some(w.scopes[ids[0]]) else None
  }

  function Acquired(x: Reader, w: World, r: Request): Result<(World, Scope), Failure> {
    if r.table !in w.tables || !w.tables[r.table].active then Err(NotFound)
    else
      var previous := PreviousOf(w, r);
      if previous.Some? && !InForce(previous.value, w.now) then Err(Expired)
      else
        match Planned(x, w.tables, r.table, r.query)
        case Err(PlanNotFound) => Err(NotFound)
        case Err(PlanInvalid) => Err(Invalid)
        case Ok(plan) =>
          if r.bytes > QUERY_BYTES then Err(Budget("/query", QUERY_BYTES))
          else if previous.Some? then Repeated(x, w, r, plan, previous.value)
          else Allocated(x, w, r, plan)
  }

  // ----- reading a scope -----

  /** A selection as shown to the client. */
  datatype Shown = Shown(scope: Scope, excluded: seq<string>, selectedCount: int, membership: map<string, (bool, bool)>)

  function Picked(ids: seq<string>): set<string> {
    set id | id in ids
  }

  /** The exclusions must all be members, and are counted off. */
  method CheckExcluded(members: set<string>, excluded: seq<string>) returns (ok: bool)
    requires forall i, j | 0 <= i < j < |excluded| :: excluded[i] != excluded[j]
    ensures ok <==> Picked(excluded) <= members
    ensures ok ==> |members - Picked(excluded)| == |members| - |excluded|
  {
    ghost var seen: set<string> := {};
    var i := 0;
    while i < |excluded|
      invariant 0 <= i <= |excluded|
      invariant seen == Picked(excluded[..i]) && |seen| == i && seen <= members
    {
      assert excluded[..i + 1] == excluded[..i] + [excluded[i]];
      assert excluded[i] !in excluded[..i];
      if excluded[i] !in members {
        assert excluded[i] in Picked(excluded);
        return false;
      }
      seen := seen + {excluded[i]};
      i := i + 1;
    }
    assert excluded[..i] == excluded;
    ExcludedSize(members, seen);
    return true;
  }

  method ProbeMembership(members: set<string>, excluded: set<string>, probes: seq<string>) returns (membership: map<string, (bool, bool)>)
    ensures membership == map id | id in probes :: (id in members, id in members - excluded)
  {
    membership := map[];
    var k := 0;
    while k < |probes|
      invariant 0 <= k <= |probes|
      invariant membership == map id | id in probes[..k] :: (id in members, id in members - excluded)
    {
      assert probes[..k + 1] == probes[..k] + [probes[k]];
      var found := probes[k] in members;
      membership := membership[probes[k] := (found, found && probes[k] !in excluded)];
      k := k + 1;
    }
    assert probes[..k] == probes;
  }

  /** What is selected is the scope without the exclusions, all of which must belong to it. */
  method SelectionResult(s: Scope, excluded: seq<string>, probes: seq<string>) returns (result: Option<Shown>)
    requires forall i, j | 0 <= i < j < |excluded| :: excluded[i] != excluded[j]
    requires s.count == |s.members|
    ensures result.Some? <==> Picked(excluded) <= s.members
    ensures result.Some? ==>
              result.value == Shown(s, SortedSet(Picked(excluded)), |s.members - Picked(excluded)|,
                                    map id | id in probes :: (id in s.members, id in s.members - Picked(excluded)))
  {
    var ok := CheckExcluded(s.members, excluded);
    if !ok {
      return None;
    }
    var membership := ProbeMembership(s.members, Picked(excluded), probes);
    return Some(Shown(s, SortedSet(Picked(excluded)), s.count - |excluded|, membership));
  }

  lemma ExcludedSize(members: set<string>, excluded: set<string>)
    requires excluded <= members
    ensures |members - excluded| == |members| - |excluded|
  {
    assert members == (members - excluded) + excluded;
  }

  /** The checks every page and resolve repeats against the live schema. */
  predicate Validates(x: Reader, w: World, s: Scope, actor: string, table: string, query: SelectionQuery) {
    && table in w.tables && w.tables[table].active && s.actor == actor && s.table == table && InForce(s, w.now)
    && Agrees(Planned(x, w.tables, table, query), s) && Agrees(Planned(x, w.tables, table, s.query), s)
  }

  predicate Agrees(plan: Result<SelectionPlan, PlanError>, s: Scope) {
    plan.Ok? && plan.value.fingerprint == s.fingerprint && plan.value.schema == s.schema
  }
}
