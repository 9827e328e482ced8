/** Keyset paging over unchanged data: following the positions from the first page returns every selected record once,
    in order, and ends; with a root `or` of several children it may never end. */
module Paging {
  import opened Results
  import opened Schema
  import opened Values
  import opened Orders
  import opened Filters
  import opened FilterSql
  import opened FilterMeaning
  import opened RecordWhere
  import opened SortTerms
  import opened Keyset

  type Table = map<string, Row>

  datatype Plan = Plan(query: Query, terms: seq<Term>, limit: nat)

  datatype Page = Page(items: seq<string>, hasMore: bool, next: Option<Position>)

  /** The conditions a page adds to the clause: after the cursor, if there is one. */
  function CursorParts(terms: seq<Term>, position: Option<Position>, id: string, row: Row): seq<Sql> {
    match position
    case None => []
    case Some(p) =>
      match KeysetFor(terms, p)
      case None => [[Leaf(Outside(No))]]
      case Some(chains) => [[Paren([Leaf(Outside(KeysetValue(chains, id, row)))])]]
  }

  predicate Matches(fields: Fields, plan: Plan, position: Option<Position>, id: string, row: Row) {
    match Where(fields, plan.query, CursorParts(plan.terms, position, id, row))
    case Ok(text) => Eval(row, text) == Yes
    case Err(_) => false
  }

  function MatchingIds(fields: Fields, t: Table, plan: Plan, position: Option<Position>): set<string> {
    set id | id in t && Matches(fields, plan, position, id, t[id])
  }

  /** ORDER BY the plan's terms, then the identifier. */
  function InOrder(t: Table, plan: Plan): (string, string) -> bool {
    (a, b) => a in t && b in t && RowBefore(plan.terms + [ID_TERM], a, t[a], b, t[b])
  }

  function Ordered(t: Table, plan: Plan, ids: set<string>): seq<string> {
    Sort(InOrder(t, plan), SortedSet(ids))
  }

  /** One page: at most `limit` records, and whether more were found. */
  function QueryPage(fields: Fields, t: Table, plan: Plan, position: Option<Position>): Page {
    PageOf(t, plan, Ordered(t, plan, MatchingIds(fields, t, plan, position)))
  }

  function PageOf(t: Table, plan: Plan, found: seq<string>): Page {
    if |found| > plan.limit then
      var items := found[..plan.limit];
      Page(items, true, if items == [] || items[|items| - 1] !in t then None
                        else Some(PositionOf(plan.terms, items[|items| - 1], t[items[|items| - 1]])))
    else Page(found, false, None)
  }

  // ----- the order -----

  ghost predicate Usable(t: Table) {
    forall id | id in t :: id != ""
  }

  lemma OrderTotal(t: Table, plan: Plan, ids: set<string>)
    requires SortsBy(plan.terms) && ids <= t.Keys
    ensures TotalOn(InOrder(t, plan), ids)
  {
    var terms := plan.terms + [ID_TERM];
    forall x | x in terms ensures TermFits(x) {
      assert x in plan.terms || x == ID_TERM;
    }
    forall a | a in ids ensures !InOrder(t, plan)(a, a) { RowIrreflexive(terms, a, t[a]); }
    forall a, b, c | a in ids && b in ids && c in ids && InOrder(t, plan)(a, b) && InOrder(t, plan)(b, c)
      ensures InOrder(t, plan)(a, c)
    {
      RowTrans(terms, a, t[a], b, t[b], c, t[c]);
    }
    forall a, b | a in ids && b in ids ensures InOrder(t, plan)(a, b) || a == b || InOrder(t, plan)(b, a) {
      if a != b { RowTotal(terms, a, t[a], b, t[b]); }
    }
  }

  lemma OrderedFacts(t: Table, plan: Plan, ids: set<string>)
    requires SortsBy(plan.terms) && ids <= t.Keys
    ensures Ascending(InOrder(t, plan), Ordered(t, plan, ids))
    ensures Elements(Ordered(t, plan, ids)) == ids
    ensures |Ordered(t, plan, ids)| == |ids|
  {
    SortedSetElements(ids);
    OrderTotal(t, plan, ids);
    SortAscending(InOrder(t, plan), SortedSet(ids));
  }

  // ----- following the pages -----

  type Pager = Option<Position> -> Page

  function PagesOf(fields: Fields, t: Table, plan: Plan): Pager {
    position => QueryPage(fields, t, plan, position)
  }

  /** The records of up to `fuel` pages from a position on, and whether the last of them was the end. */
  function Follow(pager: Pager, position: Option<Position>, fuel: nat): (seq<string>, bool)
    decreases fuel
  {
    if fuel == 0 then ([], false)
    else
      var page := pager(position);
      if !page.hasMore then (page.items, true)
      else
        var rest := Follow(pager, page.next, fuel - 1);
        (page.items + rest.0, rest.1)
  }

  /** The pager cuts `listing` into pages of `limit` records. */
  ghost predicate Cuts(pager: Pager, listing: Option<Position> -> seq<string>, genuine: Option<Position> -> bool, limit: nat) {
    forall p | genuine(p) ::
      if |listing(p)| <= limit then pager(p) == Page(listing(p), false, None)
      else
        && pager(p).hasMore && genuine(pager(p).next) && |pager(p).items| == limit
        && listing(p) == pager(p).items + listing(pager(p).next)
  }

  lemma {:induction false} FollowLists(pager: Pager, listing: Option<Position> -> seq<string>, genuine: Option<Position> -> bool,
                                       limit: nat, position: Option<Position>, fuel: nat)
    requires Cuts(pager, listing, genuine, limit) && genuine(position) && Enough(fuel, limit, |listing(position)|)
    ensures Follow(pager, position, fuel) == (listing(position), true)
    decreases fuel
  {
    if |listing(position)| > limit {
      FollowLists(pager, listing, genuine, limit, pager(position).next, fuel - 1);
    }
  }

  ghost predicate ShapedTable(fields: Fields, t: Table) {
    forall id | id in t :: ShapedRow(fields, t[id])
  }

  /** What a plan needs to page: an accepted query, a proper sort list, at least one record per page. */
  ghost predicate ValidPlan(lib: Library, fields: Fields, plan: Plan) {
    ValidQuery(lib, fields, plan.query) && SortsBy(plan.terms) && plan.limit >= 1
  }

  ghost predicate After(t: Table, plan: Plan, position: Option<Position>, id: string)
    requires id in t
  {
    position.Some? ==>
      position.value.recordId in t
      && position.value == PositionOf(plan.terms, position.value.recordId, t[position.value.recordId])
      && InOrder(t, plan)(position.value.recordId, id)
  }

  /** A position that a page over this table handed out. */
  ghost predicate Genuine(t: Table, plan: Plan, position: Option<Position>) {
    position.Some? ==>
      position.value.recordId in t
      && position.value == PositionOf(plan.terms, position.value.recordId, t[position.value.recordId])
  }

  lemma OutsideOne(row: Row, v: Truth)
    ensures AllOf(row, [[Paren([Leaf(Outside(v))])]]) == v && NoOr([Paren([Leaf(Outside(v))])])
  {
    OnePart(row, [Paren([Leaf(Outside(v))])]);
    OneParen(row, [Leaf(Outside(v))]);
    OneTest(row, Outside(v));
  }

  lemma CursorMeans(t: Table, plan: Plan, position: Option<Position>, id: string)
    requires SortsBy(plan.terms) && Usable(t) && id in t && Genuine(t, plan, position)
    ensures var extra := CursorParts(plan.terms, position, id, t[id]);
            && (forall p | p in extra :: NoOr(p))
            && (ExtraHolds(t[id], extra) <==> After(t, plan, position, id))
  {
    if position.Some? {
      var from_ := position.value.recordId;
      KeysetExact(plan.terms, from_, t[from_], id, t[id]);
      OutsideOne(t[id], KeysetValue(KeysetFor(plan.terms, position.value).value, id, t[id]));
    }
  }

  /** With a safe root a page reads exactly the selected records after its position. */
  lemma SafeMatches(lib: Library, fields: Fields, t: Table, plan: Plan, position: Option<Position>, id: string)
    requires ValidPlan(lib, fields, plan) && SafeRoot(plan.query.filter)
    requires Usable(t) && ShapedTable(fields, t) && id in t && Genuine(t, plan, position)
    ensures Matches(fields, plan, position, id, t[id]) <==>
            Selected(fields, plan.query, t[id]) && After(t, plan, position, id)
  {
    CursorMeans(t, plan, position, id);
    SafeWhereMeans(lib, fields, plan.query, CursorParts(plan.terms, position, id, t[id]), t[id]);
  }

  ghost function SelectedIds(fields: Fields, t: Table, q: Query): set<string> {
    set id | id in t && Selected(fields, q, t[id])
  }

  ghost function RemainingIds(fields: Fields, t: Table, plan: Plan, position: Option<Position>): set<string> {
    set id | id in t && Selected(fields, plan.query, t[id]) && After(t, plan, position, id)
  }

  lemma SafePage(lib: Library, fields: Fields, t: Table, plan: Plan, position: Option<Position>)
    requires ValidPlan(lib, fields, plan) && SafeRoot(plan.query.filter)
    requires Usable(t) && ShapedTable(fields, t) && Genuine(t, plan, position)
    ensures MatchingIds(fields, t, plan, position) == RemainingIds(fields, t, plan, position)
  {
    forall id | id in t
      ensures Matches(fields, plan, position, id, t[id]) <==>
              Selected(fields, plan.query, t[id]) && After(t, plan, position, id)
    {
      SafeMatches(lib, fields, t, plan, position, id);
    }
  }

  lemma AscendingTail<T(!new)>(less: (T, T) -> bool, s: seq<T>, n: nat)
    requires TotalOn(less, Elements(s)) && Ascending(less, s) && 1 <= n <= |s|
    ensures Elements(s[n..]) == set x | x in Elements(s) && less(s[n - 1], x)
    ensures Ascending(less, s[n..])
  {
    assert s[n - 1] in Elements(s);
    assert forall k | 0 <= k < n - 1 :: less(s[k], s[n - 1]);
    forall x ensures x in s[n..] <==> x in s && less(s[n - 1], x) {
      if x in s[n..] {
        var k :| 0 <= k < |s[n..]| && s[n..][k] == x;
        assert s[n + k] == x;
      }
      if x in s && less(s[n - 1], x) {
        var k :| 0 <= k < |s| && s[k] == x;
        assert x in Elements(s);
        assert !less(x, x) && !(less(s[n - 1], x) && less(x, s[n - 1]));
        assert k >= n;
        assert s[n..][k - n] == x;
      }
    }
  }

  /** The records after the last one of a page are the rest of the list. */
  lemma RestOfList(t: Table, plan: Plan, ids: set<string>, n: nat)
    requires SortsBy(plan.terms) && ids <= t.Keys && 1 <= n <= |ids|
    ensures |Ordered(t, plan, ids)| == |ids|
    ensures var l := Ordered(t, plan, ids);
            && l[n - 1] in ids
            && Ordered(t, plan, set id | id in ids && InOrder(t, plan)(l[n - 1], id)) == l[n..]
  {
    OrderedFacts(t, plan, ids);
    OrderTotal(t, plan, ids);
    var l := Ordered(t, plan, ids);
    AscendingTail(InOrder(t, plan), l, n);
    assert l[n - 1] in Elements(l);
    var later := set id | id in ids && InOrder(t, plan)(l[n - 1], id);
    OrderedFacts(t, plan, later);
    OrderTotal(t, plan, later);
    AscendingUnique(InOrder(t, plan), Ordered(t, plan, later), l[n..]);
  }

  lemma RemainingAfter(fields: Fields, t: Table, plan: Plan, position: Option<Position>, last: string)
    requires SortsBy(plan.terms) && Genuine(t, plan, position) && last in RemainingIds(fields, t, plan, position)
    ensures RemainingIds(fields, t, plan, Some(PositionOf(plan.terms, last, t[last]))) ==
            set id | id in RemainingIds(fields, t, plan, position) && InOrder(t, plan)(last, id)
  {
    OrderTotal(t, plan, t.Keys);
    var next := Some(PositionOf(plan.terms, last, t[last]));
    forall id | id in t && Selected(fields, plan.query, t[id]) && InOrder(t, plan)(last, id)
      ensures After(t, plan, position, id)
    {
      assert After(t, plan, position, last);
    }
  }

  /** A page of a query with a safe root takes the first records of what remains. */
  lemma PageCuts(lib: Library, fields: Fields, t: Table, plan: Plan, position: Option<Position>)
    requires ValidPlan(lib, fields, plan) && SafeRoot(plan.query.filter)
    requires Usable(t) && ShapedTable(fields, t) && Genuine(t, plan, position)
    ensures PageFits(fields, t, plan, position, QueryPage(fields, t, plan, position), Remaining(fields, t, plan, position))
  {
    SafePage(lib, fields, t, plan, position);
    OrderedFacts(t, plan, RemainingIds(fields, t, plan, position));
    if |Remaining(fields, t, plan, position)| > plan.limit {
      LongPageCuts(fields, t, plan, position);
    }
  }

  ghost predicate PageFits(fields: Fields, t: Table, plan: Plan, position: Option<Position>, page: Page, found: seq<string>) {
    if |found| <= plan.limit then page == Page(found, false, None)
    else
      && page.hasMore && Genuine(t, plan, page.next) && |page.items| == plan.limit
      && found == page.items + Remaining(fields, t, plan, page.next)
  }

  lemma LongPageCuts(fields: Fields, t: Table, plan: Plan, position: Option<Position>)
    requires SortsBy(plan.terms) && plan.limit >= 1 && Genuine(t, plan, position)
    requires MatchingIds(fields, t, plan, position) == RemainingIds(fields, t, plan, position)
    requires |RemainingIds(fields, t, plan, position)| > plan.limit
    ensures PageFits(fields, t, plan, position, QueryPage(fields, t, plan, position), Remaining(fields, t, plan, position))
  {
    var found, last := SplitList(t, plan, RemainingIds(fields, t, plan, position));
    FullPage(fields, t, plan, position, found);
    RemainingAfter(fields, t, plan, position, last);
    CutAt(fields, t, plan, position, found, QueryPage(fields, t, plan, position));
  }

  lemma CutAt(fields: Fields, t: Table, plan: Plan, position: Option<Position>, found: seq<string>, page: Page)
    requires 1 <= plan.limit < |found| && found[plan.limit - 1] in t
    requires var last := found[plan.limit - 1];
             page == Page(found[..plan.limit], true, Some(PositionOf(plan.terms, last, t[last])))
    requires Remaining(fields, t, plan, page.next) == found[plan.limit..]
    ensures PageFits(fields, t, plan, position, page, found)
  {
    assert found == found[..plan.limit] + found[plan.limit..];
  }

  ghost function Remaining(fields: Fields, t: Table, plan: Plan, position: Option<Position>): seq<string> {
    Ordered(t, plan, RemainingIds(fields, t, plan, position))
  }

  /** A list longer than a page, and the record that ends its first page. */
  lemma SplitList(t: Table, plan: Plan, ids: set<string>) returns (found: seq<string>, last: string)
    requires SortsBy(plan.terms) && ids <= t.Keys && 1 <= plan.limit < |ids|
    ensures found == Ordered(t, plan, ids) && |found| == |ids| && last == found[plan.limit - 1] && last in ids
    ensures Ordered(t, plan, set id | id in ids && InOrder(t, plan)(last, id)) == found[plan.limit..]
  {
    RestOfList(t, plan, ids, plan.limit);
    found := Ordered(t, plan, ids);
    last := found[plan.limit - 1];
  }

  lemma FullPage(fields: Fields, t: Table, plan: Plan, position: Option<Position>, found: seq<string>)
    requires found == Ordered(t, plan, MatchingIds(fields, t, plan, position))
    requires 1 <= plan.limit < |found| && found[plan.limit - 1] in t
    ensures QueryPage(fields, t, plan, position) ==
            Page(found[..plan.limit], true, Some(PositionOf(plan.terms, found[plan.limit - 1], t[found[plan.limit - 1]])))
  {
    assert found[..plan.limit][plan.limit - 1] == found[plan.limit - 1];
  }

  /** Following the positions lists what remains, completely and in order. */
  lemma FollowRemaining(lib: Library, fields: Fields, t: Table, plan: Plan, position: Option<Position>, fuel: nat)
    requires ValidPlan(lib, fields, plan) && SafeRoot(plan.query.filter)
    requires Usable(t) && ShapedTable(fields, t) && Genuine(t, plan, position)
    requires Enough(fuel, plan.limit, |Remaining(fields, t, plan, position)|)
    ensures Follow(PagesOf(fields, t, plan), position, fuel) == (Remaining(fields, t, plan, position), true)
  {
    var listing := p => Remaining(fields, t, plan, p);
    var genuine := p => Genuine(t, plan, p);
    forall p | Genuine(t, plan, p)
      ensures PageFits(fields, t, plan, p, QueryPage(fields, t, plan, p), Remaining(fields, t, plan, p))
    {
      PageCuts(lib, fields, t, plan, p);
    }
    assert Cuts(PagesOf(fields, t, plan), listing, genuine, plan.limit);
    FollowLists(PagesOf(fields, t, plan), listing, genuine, plan.limit, position, fuel);
  }

  /** So many pages have room for so many records. */
  predicate Enough(pages: nat, limit: nat, n: nat) {
    pages >= 1 && (n <= limit || Enough(pages - 1, limit, n - limit))
  }

  lemma {:induction false} EnoughPages(pages: nat, limit: nat, n: nat)
    requires pages >= 1 && pages * limit >= n && limit >= 1
    ensures Enough(pages, limit, n)
  {
    if n > limit {
      assert (pages - 1) * limit == pages * limit - limit;
      EnoughPages(pages - 1, limit, n - limit);
    }
  }

  /** From the first page on: every selected record once, in ORDER BY order, and an end after ceil(n / limit) pages. */
  lemma PagingComplete(lib: Library, fields: Fields, t: Table, plan: Plan, fuel: nat)
    requires ValidPlan(lib, fields, plan) && SafeRoot(plan.query.filter) && Usable(t) && ShapedTable(fields, t)
    requires fuel >= 1 && fuel * plan.limit >= |SelectedIds(fields, t, plan.query)|
    ensures var listed := Follow(PagesOf(fields, t, plan), None, fuel);
            && listed.1 && Elements(listed.0) == SelectedIds(fields, t, plan.query)
            && Ascending(InOrder(t, plan), listed.0) && |listed.0| == |SelectedIds(fields, t, plan.query)|
  {
    assert RemainingIds(fields, t, plan, None) == SelectedIds(fields, t, plan.query);
    OrderedFacts(t, plan, SelectedIds(fields, t, plan.query));
    EnoughPages(fuel, plan.limit, |SelectedIds(fields, t, plan.query)|);
    FollowRemaining(lib, fields, t, plan, None, fuel);
  }

  // ----- a root `or` of several children -----

  /** Matched by the clause whatever is appended to it: a child other than the last holds, the first only within the
      table and lifecycle. */
  ghost predicate Escapes(fields: Fields, q: Query, row: Row)
    requires !SafeRoot(q.filter)
  {
    var c := q.filter.value.children;
    || (row.tableId == q.table && InLifecycle(q.lifecycle, row) && Holds(fields, c[0], row))
    || (exists i | 1 <= i < |c| - 1 :: Holds(fields, c[i], row))
  }

  lemma EscapesAlways(lib: Library, fields: Fields, t: Table, plan: Plan, position: Option<Position>, id: string)
    requires ValidQuery(lib, fields, plan.query) && !SafeRoot(plan.query.filter)
    requires id in t && ShapedRow(fields, t[id]) && Escapes(fields, plan.query, t[id])
    ensures Matches(fields, plan, position, id, t[id])
  {
    CursorNoOr(plan.terms, position, id, t[id]);
    UnsafeWhereMeans(lib, fields, plan.query, CursorParts(plan.terms, position, id, t[id]), t[id]);
  }

  lemma CursorNoOr(terms: seq<Term>, position: Option<Position>, id: string, row: Row)
    ensures forall p | p in CursorParts(terms, position, id, row) :: NoOr(p)
  {
  }

  lemma {:induction false} FollowForever(pager: Pager, position: Option<Position>, fuel: nat)
    requires forall p :: pager(p).hasMore
    ensures !Follow(pager, position, fuel).1
    decreases fuel
  {
    if fuel > 0 {
      FollowForever(pager, pager(position).next, fuel - 1);
    }
  }

  /** When more records escape than fit on a page, every page has a successor: following them never ends. */
  lemma NeverEnds(lib: Library, fields: Fields, t: Table, plan: Plan, position: Option<Position>, escaped: set<string>, fuel: nat)
    requires ValidPlan(lib, fields, plan) && !SafeRoot(plan.query.filter) && ShapedTable(fields, t)
    requires escaped <= t.Keys && (forall id | id in escaped :: Escapes(fields, plan.query, t[id])) && |escaped| > plan.limit
    ensures !Follow(PagesOf(fields, t, plan), position, fuel).1
  {
    var pager := PagesOf(fields, t, plan);
    forall p ensures pager(p).hasMore {
      MoreFound(lib, fields, t, plan, p, escaped);
    }
    FollowForever(pager, position, fuel);
  }

  lemma MoreFound(lib: Library, fields: Fields, t: Table, plan: Plan, position: Option<Position>, escaped: set<string>)
    requires ValidPlan(lib, fields, plan) && !SafeRoot(plan.query.filter) && ShapedTable(fields, t)
    requires escaped <= t.Keys && (forall id | id in escaped :: Escapes(fields, plan.query, t[id])) && |escaped| > plan.limit
    ensures QueryPage(fields, t, plan, position).hasMore
  {
    forall id | id in escaped ensures id in MatchingIds(fields, t, plan, position) {
      EscapesAlways(lib, fields, t, plan, position, id);
    }
    CardinalityMonotone(escaped, MatchingIds(fields, t, plan, position));
    OrderedFacts(t, plan, MatchingIds(fields, t, plan, position));
  }

  // ----- exactly when paging is right -----

  ghost predicate ListsSelected(fields: Fields, t: Table, plan: Plan, fuel: nat) {
    Follow(PagesOf(fields, t, plan), None, fuel).1
    && Elements(Follow(PagesOf(fields, t, plan), None, fuel).0) == SelectedIds(fields, t, plan.query)
  }

  /** For every content of the tables and every page size, the pages end and list the selected records. */
  ghost predicate PagesRight(fields: Fields, q: Query, terms: seq<Term>) {
    forall t, limit: nat | Usable(t) && ShapedTable(fields, t) && limit >= 1 :: RightOn(fields, t, Plan(q, terms, limit))
  }

  ghost predicate RightOn(fields: Fields, t: Table, plan: Plan) {
    exists fuel :: ListsSelected(fields, t, plan, fuel)
  }

  ghost predicate ChildCanHold(fields: Fields, q: Query) {
    q.filter.Some? && exists row, i :: ShapedRow(fields, row) && 0 <= i < |q.filter.value.children|
                                       && Holds(fields, q.filter.value.children[i], row)
  }

  /** Paging is right exactly when the root is safe, or the filter cannot hold at all. */
  lemma PagingExact(lib: Library, fields: Fields, q: Query, terms: seq<Term>)
    requires ValidQuery(lib, fields, q) && SortsBy(terms)
    ensures PagesRight(fields, q, terms) <==> SafeRoot(q.filter) || !ChildCanHold(fields, q)
  {
    if SafeRoot(q.filter) || !ChildCanHold(fields, q) {
      forall t, limit: nat | Usable(t) && ShapedTable(fields, t) && limit >= 1
        ensures RightOn(fields, t, Plan(q, terms, limit))
      {
        if SafeRoot(q.filter) {
          SafePages(lib, fields, t, Plan(q, terms, limit));
        } else {
          EmptyPages(lib, fields, t, Plan(q, terms, limit));
        }
      }
    } else {
      var row, i :| ShapedRow(fields, row) && 0 <= i < |q.filter.value.children|
                    && Holds(fields, q.filter.value.children[i], row);
      if i == 0 {
        EndlessPages(lib, fields, q, terms, row);
      } else {
        WrongPage(lib, fields, q, terms, row, i);
      }
    }
  }

  /** So when some child of a root `or` is a rule, the guard alone decides. */
  lemma PagingRuleDecides(lib: Library, fields: Fields, q: Query, terms: seq<Term>)
    requires Lawful(lib) && ValidQuery(lib, fields, q) && SortsBy(terms)
    requires SafeRoot(q.filter)
             || exists i | 0 <= i < |q.filter.value.children| :: q.filter.value.children[i].kind == "rule"
    ensures PagesRight(fields, q, terms) <==> SafeRoot(q.filter)
  {
    PagingExact(lib, fields, q, terms);
    if !SafeRoot(q.filter) {
      var c := q.filter.value.children;
      var i :| 0 <= i < |c| && c[i].kind == "rule";
      AllOkAt(lib, fields, c, i);
      var row := RuleCanHold(lib, fields, c[i], q.table);
      assert ShapedRow(fields, row) && Holds(fields, c[i], row);
    }
  }

  lemma SafePages(lib: Library, fields: Fields, t: Table, plan: Plan)
    requires ValidPlan(lib, fields, plan) && SafeRoot(plan.query.filter) && Usable(t) && ShapedTable(fields, t)
    ensures RightOn(fields, t, plan)
  {
    var n := |SelectedIds(fields, t, plan.query)|;
    assert (n + 1) * plan.limit >= n;
    PagingComplete(lib, fields, t, plan, n + 1);
    assert ListsSelected(fields, t, plan, n + 1);
  }

  lemma EmptyPages(lib: Library, fields: Fields, t: Table, plan: Plan)
    requires ValidPlan(lib, fields, plan) && !SafeRoot(plan.query.filter) && ShapedTable(fields, t)
    requires !ChildCanHold(fields, plan.query)
    ensures RightOn(fields, t, plan)
  {
    var c := plan.query.filter.value.children;
    forall id | id in t ensures !Matches(fields, plan, None, id, t[id]) && !Selected(fields, plan.query, t[id]) {
      assert forall i | 0 <= i < |c| :: !Holds(fields, c[i], t[id]);
      UnsafeWhereMeans(lib, fields, plan.query, [], t[id]);
      HoldsSomewhere(fields, c, t[id]);
    }
    assert MatchingIds(fields, t, plan, None) == {};
    OrderedFacts(t, plan, {});
    assert ListsSelected(fields, t, plan, 1) by {
      assert Follow(PagesOf(fields, t, plan), None, 1) == ([], true);
      assert SelectedIds(fields, t, plan.query) == {};
    }
  }

  /** Two records on which the first child holds, one per page. */
  lemma EndlessPages(lib: Library, fields: Fields, q: Query, terms: seq<Term>, row: Row)
    requires ValidQuery(lib, fields, q) && SortsBy(terms) && !SafeRoot(q.filter)
    requires ShapedRow(fields, row) && Holds(fields, q.filter.value.children[0], row)
    ensures !PagesRight(fields, q, terms)
  {
    var within := row.(tableId := q.table, deleted := q.lifecycle == "deleted");
    HoldsByIndex(fields, q.filter.value.children[0], row, within);
    var t: Table := map["a" := within, "b" := within];
    var plan := Plan(q, terms, 1);
    assert Usable(t) && ShapedTable(fields, t);
    assert Escapes(fields, q, within);
    assert |{"a", "b"}| == 2;
    forall fuel ensures !ListsSelected(fields, t, plan, fuel) {
      NeverEnds(lib, fields, t, plan, None, {"a", "b"}, fuel);
    }
    assert !RightOn(fields, t, plan);
  }

  /** One record of another table on which a later child holds, its text holding the search. */
  lemma WrongPage(lib: Library, fields: Fields, q: Query, terms: seq<Term>, row: Row, i: nat)
    requires ValidQuery(lib, fields, q) && SortsBy(terms) && !SafeRoot(q.filter)
    requires ShapedRow(fields, row) && 1 <= i < |q.filter.value.children| && Holds(fields, q.filter.value.children[i], row)
    ensures !PagesRight(fields, q, terms)
  {
    var other := Leaked(q, row, i);
    var t: Table := map["a" := other];
    var plan := Plan(q, terms, 1);
    LeakedMatches(lib, fields, q, row, i);
    OnePageOnly(fields, t, plan, "a");
    assert Usable(t) && ShapedTable(fields, t);
    assert !RightOn(fields, t, plan);
  }

  /** A lone record that matches without being selected is listed all the same. */
  lemma OnePageOnly(fields: Fields, t: Table, plan: Plan, id: string)
    requires SortsBy(plan.terms) && plan.limit == 1 && t.Keys == {id}
    requires Matches(fields, plan, None, id, t[id]) && !Selected(fields, plan.query, t[id])
    ensures forall fuel :: !ListsSelected(fields, t, plan, fuel)
  {
    var found := Ordered(t, plan, {id});
    assert MatchingIds(fields, t, plan, None) == {id};
    OrderedFacts(t, plan, {id});
    assert QueryPage(fields, t, plan, None) == Page(found, false, None);
    assert id in Elements(found) && id !in SelectedIds(fields, t, plan.query);
    forall fuel ensures !ListsSelected(fields, t, plan, fuel) {
      assert fuel > 0 ==> Follow(PagesOf(fields, t, plan), None, fuel) == (found, true);
    }
  }

  // ----- the reader -----

  datatype QueryError = BadQuery(error: WhereError) | InvalidCursor

  /** Reads one record more than the page holds, to know whether there is more. */
  method QueryRecords(fields: Fields, t: Table, plan: Plan, position: Option<Position>) returns (result: Result<Page, QueryError>)
    ensures match Where(fields, plan.query, [])
            case Err(e) => result == Err(BadQuery(e))
            case Ok(_) =>
              if position.Some? && KeysetFor(plan.terms, position.value).None? then result == Err(InvalidCursor)
              else result == Ok(QueryPage(fields, t, plan, position))
  {
    var clause := BuildRecordWhere(fields, plan.query);
    if clause.Err? {
      return Err(BadQuery(clause.error));
    }
    if position.Some? {
      var keyset := BuildKeysetCondition(plan.terms, position.value);
      if keyset.None? {
        return Err(InvalidCursor);
      }
    }
    var page := LoadPage(t, plan, Ordered(t, plan, MatchingIds(fields, t, plan, position)));
    return Ok(page);
  }

  method LoadPage(t: Table, plan: Plan, found: seq<string>) returns (page: Page)
    ensures page == PageOf(t, plan, found)
  {
    var loaded: seq<string> := [];
    while |loaded| < |found| && |loaded| < plan.limit + 1
      invariant |loaded| <= |found| && |loaded| <= plan.limit + 1
      invariant loaded == found[..|loaded|]
      decreases |found| - |loaded|
    {
      loaded := loaded + [found[|loaded|]];
    }
    if |loaded| > plan.limit {
      loaded := loaded[..plan.limit];
      assert loaded == found[..plan.limit];
      var next := if loaded == [] || loaded[|loaded| - 1] !in t then None
                  else Some(PositionOf(plan.terms, loaded[|loaded| - 1], t[loaded[|loaded| - 1]]));
      return Page(loaded, true, next);
    }
    assert loaded == found;
    return Page(loaded, false, None);
  }
}
