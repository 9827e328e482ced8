/** A query from request to pages: which request becomes which plan, and what its pages list, said of the request and of the
    values the records store. */
module QueryAnswers {
  import opened Results
  import opened Schema
  import opened Values
  import opened Orders
  import opened Filters
  import opened FilterSql
  import opened FilterMeaning
  import opened FilterValues
  import opened RecordWhere
  import opened SearchMeaning
  import opened SortTerms
  import opened SortMeaning
  import opened Keyset
  import opened Paging

  const DEFAULT_LIMIT: nat := 100
  const MAX_LIMIT: nat := 500

  // ----- the order of a listing -----

  /** How two rows compare by one specification. */
  datatype Side = First | Second | Even

  function Directed(spec: SortSpec, below: bool, above: bool): Side {
    if (if spec.direction == "desc" then above else below) then First else Second
  }

  /** Where an active option stands in its list. */
  function Place(field: Field, v: Value): Option<nat> {
    if v.Str? then IndexOf(ActiveList(field), v.text) else None
  }

  /** Empty cells where the specification puts them; options by their place in the list, retired ones last; other values by
      themselves, in the direction asked for. */
  function SideOf(field: Field, spec: SortSpec, u: Option<Value>, v: Option<Value>): Side {
    if u == v then Even
    else if u.None? then (if spec.nulls == "first" then First else Second)
    else if v.None? then (if spec.nulls == "first" then Second else First)
    else if field.fieldType == Select then
      var i, j := Place(field, u.value), Place(field, v.value);
      if i.Some? != j.Some? then (if i.Some? then First else Second)
      else if i.Some? && i != j then Directed(spec, i.value < j.value, j.value < i.value)
      else Directed(spec, KeyLess(u.value, v.value), KeyLess(v.value, u.value))
    else Directed(spec, KeyLess(u.value, v.value), KeyLess(v.value, u.value))
  }

  /** By the first specification that tells the rows apart, else by identifier. */
  predicate SpecsPut(fields: Fields, sort: seq<SortSpec>, idA: string, a: Row, idB: string, b: Row) {
    if sort == [] then StringLess(idA, idB)
    else
      var spec := sort[0];
      && spec.fieldId in fields
      && var field := fields[spec.fieldId];
         var side := SideOf(field, spec, ScalarAt(a, field.fieldType, spec.fieldId), ScalarAt(b, field.fieldType, spec.fieldId));
         side == First || (side == Even && SpecsPut(fields, sort[1..], idA, a, idB, b))
  }

  /** Without specifications the rows keep the order the user arranged, or the order in which they were made. */
  predicate Put(fields: Fields, sort: seq<SortSpec>, manual: bool, idA: string, a: Row, idB: string, b: Row) {
    if sort != [] then SpecsPut(fields, sort, idA, a, idB, b)
    else if manual then a.position < b.position || (a.position == b.position && StringLess(idA, idB))
    else a.createdAt < b.createdAt || (a.createdAt == b.createdAt && StringLess(idA, idB))
  }

  lemma {:induction false} FirstSpec(fields: Fields, sort: seq<SortSpec>)
    requires sort != [] && AllSpecTerms(fields, sort).Some?
    ensures sort[0].fieldId in fields && AllSpecTerms(fields, sort[1..]).Some?
    ensures AllSpecTerms(fields, sort).value ==
            SpecTerms(fields[sort[0].fieldId], sort[0]) + AllSpecTerms(fields, sort[1..]).value
  {
    if |sort| == 1 {
      assert sort[..0] == [] && sort[1..] == [];
    } else {
      var n := |sort| - 1;
      FirstSpec(fields, sort[..n]);
      assert sort[..n][1..] == sort[1..][..n - 1];
      assert sort[1..][n - 1] == sort[n];
    }
  }

  lemma OneSpec(field: Field, spec: SortSpec, rest: seq<Term>, idA: string, a: Row, idB: string, b: Row)
    ensures var side := SideOf(field, spec, ScalarAt(a, field.fieldType, spec.fieldId), ScalarAt(b, field.fieldType, spec.fieldId));
            RowBefore(SpecTerms(field, spec) + rest, idA, a, idB, b) <==>
            side == First || (side == Even && RowBefore(rest, idA, a, idB, b))
  {
    var u, v := ScalarAt(a, field.fieldType, spec.fieldId), ScalarAt(b, field.fieldType, spec.fieldId);
    if u.None? {
      NullsPlaced(field, spec, rest, idA, a, idB, b);
    } else if v.None? {
      NullsPlaced(field, spec, rest, idB, b, idA, a);
    } else if field.fieldType == Select {
      OptionsOrdered(field, spec, rest, idA, a, idB, b);
    } else {
      ValuesOrdered(field, spec, rest, idA, a, idB, b);
    }
  }

  lemma LastById(idA: string, a: Row, idB: string, b: Row)
    ensures RowBefore([ID_TERM], idA, a, idB, b) <==> StringLess(idA, idB)
  {
    assert [ID_TERM][1..] == [];
    StringLessTotal(idA, idB);
  }

  lemma {:induction false} SpecsMean(fields: Fields, sort: seq<SortSpec>, idA: string, a: Row, idB: string, b: Row)
    requires AllSpecTerms(fields, sort).Some?
    ensures RowBefore(AllSpecTerms(fields, sort).value + [ID_TERM], idA, a, idB, b) <==> SpecsPut(fields, sort, idA, a, idB, b)
  {
    if sort == [] {
      assert [] + [ID_TERM] == [ID_TERM];
      LastById(idA, a, idB, b);
    } else {
      FirstSpec(fields, sort);
      SpecsMean(fields, sort[1..], idA, a, idB, b);
      var field, rest := fields[sort[0].fieldId], AllSpecTerms(fields, sort[1..]).value;
      assert SpecTerms(field, sort[0]) + rest + [ID_TERM] == SpecTerms(field, sort[0]) + (rest + [ID_TERM]);
      OneSpec(field, sort[0], rest + [ID_TERM], idA, a, idB, b);
    }
  }

  lemma DefaultMeans(t: Term, idA: string, a: Row, idB: string, b: Row)
    ensures RowBefore([t] + [ID_TERM], idA, a, idB, b) ==
            var u, v := ExprAt(t.expr, idA, a), ExprAt(t.expr, idB, b);
            if u == v then StringLess(idA, idB) else KeyBefore(u, v, t.descending)
  {
    FirstTerm(t, [ID_TERM], idA, a, idB, b);
    LastById(idA, a, idB, b);
  }

  /** Main result: the ORDER BY list puts one row before another exactly when the sort asked for does. */
  lemma OrderMeans(fields: Fields, sort: seq<SortSpec>, manual: bool, idA: string, a: Row, idB: string, b: Row)
    requires SortList(fields, sort, manual).Some?
    ensures RowBefore(SortList(fields, sort, manual).value + [ID_TERM], idA, a, idB, b) <==>
            Put(fields, sort, manual, idA, a, idB, b)
  {
    if sort != [] {
      SpecsMean(fields, sort, idA, a, idB, b);
    } else {
      DefaultMeans(SortList(fields, sort, manual).value[0], idA, a, idB, b);
    }
  }

  // ----- from a request to a plan -----

  /** What is asked for; the filter and the sort are those in force, from the request or from the view. `manual` says that
      the view is arranged by hand. An empty lifecycle and a limit of 0 stand for the defaults. */
  datatype Asked = Asked(
    table: string, lifecycle: string, limit: nat, filter: Option<FilterNode>, sort: seq<SortSpec>, manual: bool, search: string)

  function LifecycleOf(ask: Asked): string {
    if ask.lifecycle == "" then "active" else ask.lifecycle
  }

  function LimitOf(ask: Asked): nat {
    if ask.limit == 0 then DEFAULT_LIMIT else ask.limit
  }

  function AllFilled(sort: seq<SortSpec>): (r: seq<SortSpec>)
    ensures |r| == |sort| && forall i | 0 <= i < |sort| :: r[i] == Filled(sort[i])
  {
    seq(|sort|, i requires 0 <= i < |sort| => Filled(sort[i]))
  }

  function NormalFilter(lib: Library, fields: Fields, filter: Option<FilterNode>): Option<FilterNode> {
    match filter case None => None case Some(node) => Some(Normal(lib, fields, node))
  }

  /** `compose` trims the search and composes its characters; the result is compared folded. */
  function PlanFor(lib: Library, compose: string -> string, fields: Fields, ask: Asked): Option<Plan> {
    if LifecycleOf(ask) !in ["active", "deleted", "all"] || !(1 <= LimitOf(ask) <= MAX_LIMIT)
       || (ask.filter.Some? && !Acceptable(lib, fields, ask.filter.value)) || !SortOk(lib, fields, ask.sort)
       || |compose(ask.search)| > 500
    then None
    else
      match SortList(fields, AllFilled(ask.sort), ask.manual)
      case None => None
      case Some(terms) =>
        Some(Plan(Query(ask.table, LifecycleOf(ask), NormalFilter(lib, fields, ask.filter), lib.fold(compose(ask.search))),
                  terms, LimitOf(ask)))
  }

  lemma {:induction false} SpecsHaveTerms(lib: Library, fields: Fields, sort: seq<SortSpec>)
    requires forall i | 0 <= i < |sort| :: SpecOk(lib, fields, sort[i])
    ensures AllSpecTerms(fields, AllFilled(sort)).Some?
  {
    if sort != [] {
      var front := sort[..|sort| - 1];
      SpecsHaveTerms(lib, fields, front);
      assert AllFilled(sort)[..|sort| - 1] == AllFilled(front);
      assert SpecOk(lib, fields, sort[|sort| - 1]);
    }
  }

  /** A request is refused for its lifecycle, limit, filter, sort or search, and for nothing else. */
  lemma PlannedWhen(lib: Library, compose: string -> string, fields: Fields, ask: Asked)
    ensures PlanFor(lib, compose, fields, ask).Some? <==>
            && ask.lifecycle in ["", "active", "deleted", "all"] && ask.limit <= 500
            && (ask.filter.Some? ==> Acceptable(lib, fields, ask.filter.value)) && SortOk(lib, fields, ask.sort)
            && |compose(ask.search)| <= 500
  {
    if SortOk(lib, fields, ask.sort) {
      SpecsHaveTerms(lib, fields, ask.sort);
    }
  }

  // ----- what the pages list -----

  /** The request wants the record, going by the values it stores. */
  ghost predicate Wants(lib: Library, compose: string -> string, fields: Fields, ask: Asked, row: Row) {
    && row.tableId == ask.table && InLifecycle(LifecycleOf(ask), row)
    && (ask.filter.Some? ==> FilterMeets(lib, fields, ask.filter.value, row))
    && (lib.fold(compose(ask.search)) != "" ==>
          exists f :: Searched(row.values, fields, f) && Occurs(lib.fold(compose(ask.search)), lib.fold(row.values[f].text)))
  }

  ghost predicate UpToDate(lib: Library, fields: Fields, row: Row) {
    && row.queryValues == Projection(lib, row.values, fields) && row.searchText == SearchText(lib, row.values, fields)
    && forall f | f in row.values && f in fields :: Stored(lib, row.values[f], fields[f].fieldType, fields[f].config)
  }

  lemma SelectedIsWanted(lib: Library, compose: string -> string, fields: Fields, ask: Asked, plan: Plan, row: Row)
    requires PlanFor(lib, compose, fields, ask) == Some(plan) && UpToDate(lib, fields, row)
    requires '\n' !in lib.fold(compose(ask.search))
    ensures Selected(fields, plan.query, row) <==> Wants(lib, compose, fields, ask, row)
  {
    StoredIsText(lib, fields, row);
    if ask.filter.Some? {
      NormalOnValues(lib, fields, ask.filter.value, row);
    }
    if plan.query.search != "" {
      SearchMeans(lib, fields, row, plan.query.search);
      StrposFinds(row.searchText, plan.query.search);
    }
  }

  lemma PlanIsValid(lib: Library, compose: string -> string, fields: Fields, ask: Asked, plan: Plan)
    requires PlanFor(lib, compose, fields, ask) == Some(plan)
    ensures ValidPlan(lib, fields, plan) && plan.limit == LimitOf(ask) && (SafeRoot(plan.query.filter) <==> SafeRoot(ask.filter))
    ensures SortList(fields, AllFilled(ask.sort), ask.manual) == Some(plan.terms)
  {
    SortListSorts(fields, AllFilled(ask.sort), ask.manual);
    if ask.filter.Some? {
      NormalOk(lib, fields, ask.filter.value);
    }
  }

  predicate InTurn(fields: Fields, t: Table, sort: seq<SortSpec>, manual: bool, a: string, b: string) {
    a in t && b in t && Put(fields, sort, manual, a, t[a], b, t[b])
  }

  /** The records of a listing: those the request wants, each once, in the order it asks for. */
  ghost predicate ListsWanted(lib: Library, compose: string -> string, fields: Fields, t: Table, ask: Asked, ids: seq<string>) {
    && (forall id :: id in ids <==> id in t && Wants(lib, compose, fields, ask, t[id]))
    && (forall i, j | 0 <= i < j < |ids| :: InTurn(fields, t, AllFilled(ask.sort), ask.manual, ids[i], ids[j]))
  }

  lemma AscendingInTurn(fields: Fields, t: Table, plan: Plan, sort: seq<SortSpec>, manual: bool, ids: seq<string>)
    requires SortList(fields, sort, manual) == Some(plan.terms) && Ascending(InOrder(t, plan), ids)
    ensures forall i, j | 0 <= i < j < |ids| :: InTurn(fields, t, sort, manual, ids[i], ids[j])
  {
    forall i, j | 0 <= i < j < |ids| ensures InTurn(fields, t, sort, manual, ids[i], ids[j]) {
      assert InOrder(t, plan)(ids[i], ids[j]);
      OrderMeans(fields, sort, manual, ids[i], t[ids[i]], ids[j], t[ids[j]]);
    }
  }

  lemma ListedIsWanted(lib: Library, compose: string -> string, fields: Fields, t: Table, ask: Asked, plan: Plan, ids: seq<string>)
    requires PlanFor(lib, compose, fields, ask) == Some(plan) && '\n' !in lib.fold(compose(ask.search))
    requires (forall id | id in t :: UpToDate(lib, fields, t[id])) && Elements(ids) == SelectedIds(fields, t, plan.query)
    ensures forall id :: id in ids <==> id in t && Wants(lib, compose, fields, ask, t[id])
  {
    forall id ensures id in ids <==> id in t && Wants(lib, compose, fields, ask, t[id]) {
      assert id in ids <==> id in Elements(ids);
      if id in t {
        SelectedIsWanted(lib, compose, fields, ask, plan, t[id]);
      }
    }
  }

  /** Main result: over records with an up-to-date index, following the pages of a request lists exactly the records it
      wants, each once, in the order it asks for, and ends. */
  lemma PagesListWanted(lib: Library, compose: string -> string, fields: Fields, t: Table, ask: Asked, fuel: nat)
    requires PlanFor(lib, compose, fields, ask).Some? && SafeRoot(ask.filter) && '\n' !in lib.fold(compose(ask.search))
    requires Usable(t) && forall id | id in t :: UpToDate(lib, fields, t[id])
    requires fuel > |t|
    ensures var listed := Follow(PagesOf(fields, t, PlanFor(lib, compose, fields, ask).value), None, fuel);
            listed.1 && ListsWanted(lib, compose, fields, t, ask, listed.0)
  {
    var plan := PlanFor(lib, compose, fields, ask).value;
    PlanIsValid(lib, compose, fields, ask, plan);
    forall id | id in t ensures ShapedRow(fields, t[id]) {
      IndexedIsShaped(lib, fields, t[id]);
    }
    FewSelected(fields, t, plan, fuel);
    PagingComplete(lib, fields, t, plan, fuel);
    var listed := Follow(PagesOf(fields, t, plan), None, fuel);
    ListedIsWanted(lib, compose, fields, t, ask, plan, listed.0);
    AscendingInTurn(fields, t, plan, AllFilled(ask.sort), ask.manual, listed.0);
  }

  lemma FewSelected(fields: Fields, t: Table, plan: Plan, fuel: nat)
    requires fuel > |t| && plan.limit >= 1
    ensures fuel * plan.limit >= |SelectedIds(fields, t, plan.query)|
  {
    CardinalityMonotone(SelectedIds(fields, t, plan.query), t.Keys);
    assert fuel * plan.limit >= fuel;
  }
}
