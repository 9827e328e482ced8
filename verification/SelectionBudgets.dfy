/** The budgets of the scope store hold in every run: how many scopes an actor, a table and the whole store may have, and
    how many members. */
module SelectionBudgets {
  import opened Results
  import opened Orders
  import opened SelectionPlans
  import opened SelectionScopes
  import opened SelectionCoherence
  import SelectionReplan

  // ----- counting scopes -----

  type Kind = Scope -> bool

  /** The scopes of a kind. */
  function OfKind(scopes: map<string, Scope>, kind: Kind): set<string> {
    set id | id in scopes && kind(scopes[id])
  }

  function LiveOfActor(actor: string): Kind {
    (s: Scope) => s.actor == actor && !s.invalid
  }

  function LiveOfTable(table: string): Kind {
    (s: Scope) => s.table == table && !s.invalid
  }

  function AnyLive(): Kind {
    (s: Scope) => !s.invalid
  }

  function OfActor(actor: string): Kind {
    (s: Scope) => s.actor == actor
  }

  function Any(): Kind {
    (s: Scope) => true
  }

  /** Every scope of `after` is one of `before` that has at most lost its members or its validity. */
  ghost predicate Shrunk(before: map<string, Scope>, after: map<string, Scope>) {
    forall id | id in after ::
      && id in before && after[id] == before[id].(members := after[id].members, invalid := after[id].invalid)
      && (before[id].invalid ==> after[id].invalid)
  }

  /** A kind that losing members or validity does not let in. */
  ghost predicate Closed(kind: Kind) {
    forall s: Scope, members, invalid | (s.invalid ==> invalid) && kind(s.(members := members, invalid := invalid)) :: kind(s)
  }

  lemma ShrunkCounts(before: map<string, Scope>, after: map<string, Scope>, kind: Kind)
    requires Shrunk(before, after) && Closed(kind)
    ensures |OfKind(after, kind)| <= |OfKind(before, kind)|
  {
    forall id | id in OfKind(after, kind) ensures id in OfKind(before, kind) {
      assert kind(before[id].(members := after[id].members, invalid := after[id].invalid));
    }
    CardinalityMonotone(OfKind(after, kind), OfKind(before, kind));
  }

  lemma OneMoreCounts(scopes: map<string, Scope>, id: string, s: Scope, kind: Kind)
    requires id !in scopes
    ensures |OfKind(scopes[id := s], kind)| == |OfKind(scopes, kind)| + if kind(s) then 1 else 0
  {
    if kind(s) {
      assert OfKind(scopes[id := s], kind) == OfKind(scopes, kind) + {id};
    } else {
      assert OfKind(scopes[id := s], kind) == OfKind(scopes, kind);
    }
  }

  // ----- counting members -----

  function LiveCount(scopes: map<string, Scope>, id: string): nat {
    if id in scopes && !scopes[id].invalid then scopes[id].count else 0
  }

  function LiveCounts(scopes: map<string, Scope>, ids: seq<string>): nat {
    if ids == [] then 0 else LiveCounts(scopes, ids[1..]) + LiveCount(scopes, ids[0])
  }

  lemma {:induction false} CountsConcat(scopes: map<string, Scope>, a: seq<string>, b: seq<string>)
    ensures LiveCounts(scopes, a + b) == LiveCounts(scopes, a) + LiveCounts(scopes, b)
  {
    if a == [] {
      assert a + b == b;
    } else {
      assert (a + b)[1..] == a[1..] + b;
      CountsConcat(scopes, a[1..], b);
    }
  }

  lemma {:induction false} SumIsCounts(scopes: map<string, Scope>, ids: seq<string>)
    ensures SumCounts(scopes, ids) == LiveCounts(scopes, ids)
  {
    if ids != [] {
      var n := |ids| - 1;
      SumIsCounts(scopes, ids[..n]);
      assert ids == ids[..n] + [ids[n]];
      CountsConcat(scopes, ids[..n], [ids[n]]);
    }
  }

  /** Taking one identifier out of a list. */
  lemma TakenOut(scopes: map<string, Scope>, ids: seq<string>, id: string) returns (rest: seq<string>)
    requires id in ids && Distinct(ids)
    ensures LiveCounts(scopes, ids) == LiveCounts(scopes, rest) + LiveCount(scopes, id)
    ensures Distinct(rest) && forall k :: k in rest <==> k in ids && k != id
  {
    var i :| 0 <= i < |ids| && ids[i] == id;
    var a, b := ids[..i], ids[i + 1..];
    rest := a + b;
    assert ids == a + ([id] + b);
    CountsConcat(scopes, a, [id] + b);
    CountsConcat(scopes, [id], b);
    CountsConcat(scopes, a, b);
    RestOf(ids, i);
  }

  lemma RestOf(ids: seq<string>, i: nat)
    requires i < |ids| && Distinct(ids)
    ensures var rest := ids[..i] + ids[i + 1..]; Distinct(rest) && forall k :: k in rest <==> k in ids && k != ids[i]
  {
    var rest := ids[..i] + ids[i + 1..];
    forall k ensures k in rest <==> k in ids && k != ids[i] {
      if k in ids && k != ids[i] {
        var j :| 0 <= j < |ids| && ids[j] == k;
        assert j < i ==> rest[j] == k;
        assert j > i ==> rest[j - 1] == k;
      }
    }
  }

  /** The total does not depend on the order, and a part of it is no more than all of it. */
  lemma {:induction false} PartCounts(before: map<string, Scope>, after: map<string, Scope>, part: seq<string>, all: seq<string>)
    requires Distinct(part) && Distinct(all) && forall id | id in part && id in before :: id in all
    requires forall id | id in part :: LiveCount(after, id) <= LiveCount(before, id)
    ensures LiveCounts(after, part) <= LiveCounts(before, all)
  {
    if part != [] {
      if part[0] in all {
        var rest := TakenOut(before, all, part[0]);
        PartCounts(before, after, part[1..], rest);
      } else {
        PartCounts(before, after, part[1..], all);
      }
    }
  }

  // ----- the budgets -----

  ghost predicate CountsFit(scopes: map<string, Scope>) {
    && (forall actor :: |OfKind(scopes, LiveOfActor(actor))| <= 8)
    && (forall table :: |OfKind(scopes, LiveOfTable(table))| <= 4)
    && |OfKind(scopes, AnyLive())| <= 64
    && (forall actor :: |OfKind(scopes, OfActor(actor))| <= 64)
    && |OfKind(scopes, Any())| <= 256
  }

  ghost predicate MembersFit(scopes: map<string, Scope>) {
    && (forall id | id in scopes :: scopes[id].count <= MEMBER_LIMIT)
    && (forall ids | Distinct(ids) :: LiveCounts(scopes, ids) <= TOTAL_LIMIT)
  }

  ghost predicate WithinBudget(w: World) {
    CountsFit(w.scopes) && MembersFit(w.scopes)
  }

  lemma ShrunkFits(before: map<string, Scope>, after: map<string, Scope>)
    requires Shrunk(before, after) && CountsFit(before)
    ensures CountsFit(after)
  {
    forall actor ensures |OfKind(after, LiveOfActor(actor))| <= 8 { ShrunkCounts(before, after, LiveOfActor(actor)); }
    forall table ensures |OfKind(after, LiveOfTable(table))| <= 4 { ShrunkCounts(before, after, LiveOfTable(table)); }
    ShrunkCounts(before, after, AnyLive());
    forall actor ensures |OfKind(after, OfActor(actor))| <= 64 { ShrunkCounts(before, after, OfActor(actor)); }
    ShrunkCounts(before, after, Any());
  }

  lemma ShrunkMembers(before: map<string, Scope>, after: map<string, Scope>)
    requires Shrunk(before, after) && MembersFit(before)
    ensures MembersFit(after)
  {
    forall ids | Distinct(ids) ensures LiveCounts(after, ids) <= TOTAL_LIMIT {
      PartCounts(before, after, ids, ids);
    }
  }

  // ----- one event -----

  lemma SweptShrinks(w: World)
    ensures Shrunk(w.scopes, Swept(w))
  {
  }

  /** What the budget test found room for. */
  lemma RoomLeft(scopes: map<string, Scope>, actor: string, table: string)
    requires OverBudget(scopes, actor, table).None?
    ensures |OfKind(scopes, LiveOfActor(actor))| < 8 && |OfKind(scopes, LiveOfTable(table))| < 4
    ensures |OfKind(scopes, AnyLive())| < 64 && |OfKind(scopes, OfActor(actor))| < 64 && |OfKind(scopes, Any())| < 256
  {
    assert OfKind(scopes, LiveOfActor(actor)) == set id | id in scopes && scopes[id].actor == actor && !scopes[id].invalid;
    assert OfKind(scopes, LiveOfTable(table)) == set id | id in scopes && scopes[id].table == table && !scopes[id].invalid;
    assert OfKind(scopes, AnyLive()) == set id | id in scopes && !scopes[id].invalid;
    assert OfKind(scopes, OfActor(actor)) == set id | id in scopes && scopes[id].actor == actor;
    assert OfKind(scopes, Any()) == scopes.Keys;
    assert |scopes| == |scopes.Keys|;
  }

  lemma AddedFits(scopes: map<string, Scope>, id: string, s: Scope)
    requires CountsFit(scopes) && id !in scopes && OverBudget(scopes, s.actor, s.table).None?
    ensures CountsFit(scopes[id := s])
  {
    RoomLeft(scopes, s.actor, s.table);
    forall actor ensures |OfKind(scopes[id := s], LiveOfActor(actor))| <= 8 { OneMoreCounts(scopes, id, s, LiveOfActor(actor)); }
    forall table ensures |OfKind(scopes[id := s], LiveOfTable(table))| <= 4 { OneMoreCounts(scopes, id, s, LiveOfTable(table)); }
    OneMoreCounts(scopes, id, s, AnyLive());
    forall actor ensures |OfKind(scopes[id := s], OfActor(actor))| <= 64 { OneMoreCounts(scopes, id, s, OfActor(actor)); }
    OneMoreCounts(scopes, id, s, Any());
  }

  lemma AddedMembers(scopes: map<string, Scope>, id: string, s: Scope)
    requires MembersFit(scopes) && id !in scopes && s.count <= MEMBER_LIMIT
    requires SumCounts(scopes, SortedSet(scopes.Keys)) + s.count <= TOTAL_LIMIT
    ensures MembersFit(scopes[id := s])
  {
    var after := scopes[id := s];
    forall ids | Distinct(ids) ensures LiveCounts(after, ids) <= TOTAL_LIMIT {
      AddedTotal(scopes, id, s, ids);
    }
  }

  lemma AddedTotal(scopes: map<string, Scope>, id: string, s: Scope, ids: seq<string>)
    requires id !in scopes && Distinct(ids)
    ensures LiveCounts(scopes[id := s], ids) <= SumCounts(scopes, SortedSet(scopes.Keys)) + s.count
  {
    var after, all := scopes[id := s], SortedSet(scopes.Keys);
    SortedSetElements(scopes.Keys);
    SumIsCounts(scopes, all);
    if id in ids {
      var rest := TakenOut(after, ids, id);
      PartCounts(scopes, after, rest, all);
    } else {
      PartCounts(scopes, after, ids, all);
    }
  }

  lemma AcquireWithin(x: Reader, w: World, r: Request)
    requires WithinBudget(w) && r.scopeId !in w.scopes && Acquired(x, w, r).Ok?
    ensures WithinBudget(Acquired(x, w, r).value.0)
  {
    if PreviousOf(w, r).None? {
      var plan := Planned(x, w.tables, r.table, r.query).value;
      AllocatedWithin(x, w, r, plan);
    }
  }

  lemma AllocatedWithin(x: Reader, w: World, r: Request, plan: SelectionPlan)
    requires WithinBudget(w) && r.scopeId !in w.scopes && Allocated(x, w, r, plan).Ok?
    ensures WithinBudget(Allocated(x, w, r, plan).value.0)
  {
    var kept, scope := Swept(w), NewScope(x, w, r, plan);
    SweptShrinks(w);
    ShrunkFits(w.scopes, kept);
    ShrunkMembers(w.scopes, kept);
    AddedFits(kept, r.scopeId, scope);
    AddedMembers(kept, r.scopeId, scope);
  }

  lemma ShrinksWithin(w: World, after: World)
    requires WithinBudget(w) && Shrunk(w.scopes, after.scopes)
    ensures WithinBudget(after)
  {
    ShrunkFits(w.scopes, after.scopes);
    ShrunkMembers(w.scopes, after.scopes);
  }

  lemma NextShrinks(x: Reader, w: World, e: Event)
    requires !e.Acquire?
    ensures Shrunk(w.scopes, Next(x, w, e).scopes)
  {
  }

  lemma NextWithin(x: Reader, w: World, e: Event)
    requires WithinBudget(w) && Legal(w, e)
    ensures WithinBudget(Next(x, w, e))
  {
    if e.Acquire? {
      if Acquired(x, w, e.request).Ok? { AcquireWithin(x, w, e.request); }
    } else {
      NextShrinks(x, w, e);
      ShrinksWithin(w, Next(x, w, e));
    }
  }

  /** Over every legal run: at most 8 valid scopes per actor, 4 per table and 64 in all, 64 per actor and 256 in all
      counting the invalid ones, 100 000 members in one scope and 1 000 000 in all valid ones. */
  lemma {:induction false} RunWithinBudget(x: Reader, w: World, events: seq<Event>)
    requires WithinBudget(w) && LegalRun(x, w, events)
    ensures WithinBudget(Run(x, w, events))
  {
    if events != [] {
      var n := |events| - 1;
      SelectionReplan.LegalFront(x, w, events);
      RunWithinBudget(x, w, events[..n]);
      assert Legal(Run(x, w, events[..n]), events[n]);
      NextWithin(x, Run(x, w, events[..n]), events[n]);
    }
  }
}
