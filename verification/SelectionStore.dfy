/** The store of selection scopes, updated in place. */
module SelectionStores {
  import opened Results
  import opened Schema
  import opened Values
  import opened Orders
  import opened SelectionPlans
  import opened SelectionScopes
  import opened SelectionCoherence

  method TotalMembers(scopes: map<string, Scope>) returns (total: nat)
    ensures total == SumCounts(scopes, SortedSet(scopes.Keys))
  {
    var ids := SortedSet(scopes.Keys);
    total := 0;
    var i := 0;
    while i < |ids|
      invariant 0 <= i <= |ids|
      invariant total == SumCounts(scopes, ids[..i])
    {
      assert ids[..i + 1][..i] == ids[..i];
      if ids[i] in scopes && !scopes[ids[i]].invalid {
        total := total + scopes[ids[i]].count;
      }
      i := i + 1;
    }
    assert ids[..i] == ids;
  }

  ghost predicate UniqueTyped(lib: Library, ids: seq<string>, limit: nat) {
    && |ids| <= limit && (forall i | 0 <= i < |ids| :: lib.recordId(ids[i]))
    && (forall i, j | 0 <= i < j < |ids| :: ids[i] != ids[j])
  }

  method CheckIds(lib: Library, ids: seq<string>, limit: nat) returns (ok: bool)
    ensures ok <==> UniqueTyped(lib, ids, limit)
  {
    if |ids| > limit {
      return false;
    }
    var seen: set<string> := {};
    var i := 0;
    while i < |ids|
      invariant 0 <= i <= |ids|
      invariant seen == set k | 0 <= k < i :: ids[k]
      invariant UniqueTyped(lib, ids[..i], limit)
    {
      if !lib.recordId(ids[i]) || ids[i] in seen {
        return false;
      }
      seen := seen + {ids[i]};
      i := i + 1;
    }
    assert ids[..i] == ids;
    return true;
  }

  /** Exclusions and probes are each a bounded list of different typed record identifiers. */
  method ValidateSelectionIds(lib: Library, excluded: seq<string>, probes: seq<string>) returns (ok: bool)
    ensures ok <==> UniqueTyped(lib, excluded, 5000) && UniqueTyped(lib, probes, 500)
  {
    ok := CheckIds(lib, excluded, 5000);
    if ok {
      ok := CheckIds(lib, probes, 500);
    }
  }

  class SelectionStore {
    const x: Reader
    var tables: map<string, TableState>
    var rows: map<string, Row>
    var scopes: map<string, Scope>
    var now: int

    function Contents(): World
      reads this
    {
      World(tables, rows, scopes, now)
    }

    constructor (x: Reader, w: World)
      ensures this.x == x && Contents() == w
    {
      this.x := x;
      tables, rows, scopes, now := w.tables, w.rows, w.scopes, w.now;
    }

    /** Takes a scope, or answers a repeated request with the scope it already has; a refusal changes nothing. */
    method AcquireSelection(r: Request) returns (result: Result<Scope, Failure>)
      modifies this`scopes
      ensures match Acquired(x, old(Contents()), r)
              case Ok(done) => Contents() == done.0 && result == Ok(done.1)
              case Err(e) => Contents() == old(Contents()) && result == Err(e)
    {
      if r.table !in tables || !tables[r.table].active {
        return Err(NotFound);
      }
      var previous := PreviousOf(Contents(), r);
      if previous.Some? && !InForce(previous.value, now) {
        return Err(Expired);
      }
      var plan := Planned(x, tables, r.table, r.query);
      if plan.Err? {
        return Err(if plan.error == PlanNotFound then NotFound else Invalid);
      }
      if r.bytes > QUERY_BYTES {
        return Err(Budget("/query", QUERY_BYTES));
      }
      if previous.Some? {
        var again := Repeated(x, Contents(), r, plan.value, previous.value);
        if again.Err? {
          return Err(again.error);
        }
        return Ok(previous.value);
      }
      result := Allocate(r, plan.value);
    }

    method Allocate(r: Request, plan: SelectionPlan) returns (result: Result<Scope, Failure>)
      modifies this`scopes
      ensures match Allocated(x, old(Contents()), r, plan)
              case Ok(done) => Contents() == done.0 && result == Ok(done.1)
              case Err(e) => Contents() == old(Contents()) && result == Err(e)
    {
      var kept := Swept(Contents());
      var full := OverBudget(kept, r.actor, r.table);
      if full.Some? {
        return Err(Budget("/scopeBudget", full.value));
      }
      var scope := NewScope(x, Contents(), r, plan);
      if scope.count > MEMBER_LIMIT {
        return Err(Budget("/scopeMembers", MEMBER_LIMIT));
      }
      var total := TotalMembers(kept);
      if total + scope.count > TOTAL_LIMIT {
        return Err(Budget("/totalScopeMembers", TOTAL_LIMIT));
      }
      scopes := kept[r.scopeId := scope];
      return Ok(scope);
    }

    /** The end of every writer's transaction. */
    method FinishWrite(table: string, state: TableState, after: map<string, Row>, changed: set<string>)
      modifies this
      ensures Contents() == Next(x, old(Contents()), Write(table, state, after, changed))
    {
      tables, rows := tables[table := state], after;
      var checked := SelectionScopes.InvalidateSelections(x, Contents(), table, changed);
      scopes := checked.scopes;
    }

    /** Shows a scope, provided the client's query and the stored one both still mean the rule it was taken for. */
    method ResolveSelection(scopeId: string, actor: string, table: string, query: SelectionQuery,
                            excluded: seq<string>, probes: seq<string>)
      returns (result: Result<Shown, Failure>)
      requires forall i, j | 0 <= i < j < |excluded| :: excluded[i] != excluded[j]
      requires forall id | id in scopes && InForce(scopes[id], now) :: scopes[id].count == |scopes[id].members|
      ensures result.Ok? <==>
                && scopeId in scopes && Validates(x, Contents(), scopes[scopeId], actor, table, query)
                && Picked(excluded) <= scopes[scopeId].members
      ensures result.Ok? ==>
                result.value == Shown(scopes[scopeId], SortedSet(Picked(excluded)), |scopes[scopeId].members - Picked(excluded)|,
                                      map id | id in probes ::
                                        (id in scopes[scopeId].members, id in scopes[scopeId].members - Picked(excluded)))
      ensures result.Err? ==>
                result.error == if table !in tables || !tables[table].active then NotFound
                                else if scopeId !in scopes || !Validates(x, Contents(), scopes[scopeId], actor, table, query) then Expired
                                else Invalid
    {
      if table !in tables || !tables[table].active {
        return Err(NotFound);
      }
      if scopeId !in scopes || !Validates(x, Contents(), scopes[scopeId], actor, table, query) {
        return Err(Expired);
      }
      var shown := SelectionScopes.SelectionResult(scopes[scopeId], excluded, probes);
      if shown.None? {
        return Err(Invalid);
      }
      return Ok(shown.value);
    }
  }
}
