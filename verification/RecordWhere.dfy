/** The WHERE clause of record queries: table, lifecycle, filter and search joined with AND. The filter's text is
    spliced in as it is, so a root `or` of several children escapes the conjunction. */
module RecordWhere {
  import opened Results
  import opened Schema
  import opened Values
  import opened Orders
  import opened Filters
  import opened FilterSql
  import opened FilterMeaning

  datatype WhereError = BadLifecycle | NotCompiled(error: CompileError)

  /** What a query asks for. */
  datatype Query = Query(table: string, lifecycle: string, filter: Option<FilterNode>, search: string)

  function LifecycleParts(lifecycle: string): Option<seq<Sql>> {
    match lifecycle
    case "active" => Some([[Leaf(Live)]])
    case "deleted" => Some([[Leaf(Dead)]])
    case "all" => Some([])
    case _ => None
  }

  function SearchParts(search: string): seq<Sql> {
    if search == "" then [] else [[Leaf(SearchHas(search))]]
  }

  function FilterParts(fields: Fields, filter: Option<FilterNode>): Result<seq<Sql>, CompileError> {
    match filter
    case None => Ok([])
    case Some(node) =>
      var text :- Compile(fields, node);
      Ok([text])
  }

  /** The clause, with the further conditions `extra` a caller appends (membership of a scope, a keyset). */
  function Where(fields: Fields, q: Query, extra: seq<Sql>): Result<Sql, WhereError> {
    match LifecycleParts(q.lifecycle)
    case None => Err(BadLifecycle)
    case Some(life) =>
      match FilterParts(fields, q.filter)
      case Err(e) => Err(NotCompiled(e))
      case Ok(filter) =>
        Ok(JoinTexts([[Leaf(TableIs(q.table))]] + life + filter + SearchParts(q.search) + extra, AndWord))
  }

  /** The same, part by part. */
  method BuildRecordWhere(fields: Fields, q: Query) returns (result: Result<Sql, WhereError>)
    ensures result == Where(fields, q, [])
  {
    var parts := [[Leaf(TableIs(q.table))]];
    var life := LifecycleParts(q.lifecycle);
    if life.None? { return Err(BadLifecycle); }
    parts := parts + life.value;
    if q.filter.Some? {
      var text := Compile(fields, q.filter.value);
      if text.Err? { return Err(NotCompiled(text.error)); }
      parts := parts + [text.value];
    }
    if q.search != "" {
      parts := parts + [[Leaf(SearchHas(q.search))]];
    }
    ghost var filter := FilterParts(fields, q.filter).value;
    assert parts == [[Leaf(TableIs(q.table))]] + life.value + filter + SearchParts(q.search) + [];
    return Ok(JoinTexts(parts, AndWord));
  }

  // ----- what is meant -----

  predicate InLifecycle(lifecycle: string, row: Row) {
    lifecycle == "all" || (lifecycle == "active" && !row.deleted) || (lifecycle == "deleted" && row.deleted)
  }

  ghost predicate Selected(fields: Fields, q: Query, row: Row) {
    && row.tableId == q.table && InLifecycle(q.lifecycle, row)
    && (q.filter.Some? ==> Holds(fields, q.filter.value, row))
    && (q.search != "" ==> Occurs(q.search, row.searchText))
  }

  ghost predicate ValidQuery(lib: Library, fields: Fields, q: Query) {
    && LifecycleParts(q.lifecycle).Some?
    && (q.filter.Some? ==> NodeOk(lib, fields, q.filter.value))
  }

  /** The guard: the root is not an `or` of two or more children. */
  predicate SafeRoot(filter: Option<FilterNode>) {
    filter.Some? ==>
      !(filter.value.kind == "group" && filter.value.operator == "or" && |filter.value.children| >= 2)
  }

  // ----- reading the clause -----

  lemma {:induction false} AllOfConcat(row: Row, a: seq<Sql>, b: seq<Sql>)
    ensures AllOf(row, a + b) == And3(AllOf(row, a), AllOf(row, b))
  {
    if b == [] {
      assert a + b == a;
    } else {
      assert (a + b)[..|a + b| - 1] == a + b[..|b| - 1];
      AllOfConcat(row, a, b[..|b| - 1]);
    }
  }

  lemma OnePart(row: Row, part: Sql)
    ensures AllOf(row, [part]) == Eval(row, part)
  {
    assert [part][..0] == [];
  }

  lemma AroundMeans(lib: Library, fields: Fields, q: Query, row: Row)
    requires ValidQuery(lib, fields, q)
    ensures var before := [[Leaf(TableIs(q.table))]] + LifecycleParts(q.lifecycle).value;
            && (forall p | p in before :: NoOr(p))
            && (AllOf(row, before) == Yes <==> row.tableId == q.table && InLifecycle(q.lifecycle, row))
    ensures (forall p | p in SearchParts(q.search) :: NoOr(p))
            && (AllOf(row, SearchParts(q.search)) == Yes <==> (q.search != "" ==> Occurs(q.search, row.searchText)))
  {
    var life := LifecycleParts(q.lifecycle).value;
    AllOfConcat(row, [[Leaf(TableIs(q.table))]], life);
    OnePart(row, [Leaf(TableIs(q.table))]);
    OneTest(row, TableIs(q.table));
    OnePart(row, [Leaf(Live)]);
    OneTest(row, Live);
    OnePart(row, [Leaf(Dead)]);
    OneTest(row, Dead);
    OnePart(row, [Leaf(SearchHas(q.search))]);
    OneTest(row, SearchHas(q.search));
    StrposFinds(row.searchText, q.search);
  }

  /** With a safe root, a compiled filter has no OR outside parentheses. */
  lemma SafeHasNoOr(lib: Library, fields: Fields, node: FilterNode, row: Row)
    requires NodeOk(lib, fields, node) && SafeRoot(Some(node)) && ShapedRow(fields, row)
    ensures Compile(fields, node).Ok? && NoOr(Compile(fields, node).value)
  {
    if node.kind == "group" {
      ChildrenMean(lib, fields, node.children, row);
      var parts := CompileAll(fields, node.children).value;
      JoinNoOr(parts, Joiner(node.operator));
    } else {
      RuleMeans(lib, fields, node, row);
    }
  }

  lemma {:induction false} JoinNoOr(parts: seq<Sql>, word: Token)
    requires forall p | p in parts :: NoOr(p)
    requires word == AndWord || |parts| <= 1
    ensures NoOr(JoinTexts(parts, word))
  {
    if |parts| >= 2 {
      JoinNoOr(parts[..|parts| - 1], word);
      assert parts[|parts| - 1] in parts;
    } else if |parts| == 1 {
      assert parts[0] in parts;
    }
  }

  ghost predicate ExtraHolds(row: Row, extra: seq<Sql>) {
    AllOf(row, extra) == Yes
  }

  /** With a safe root the clause selects exactly what the query means, and further conditions narrow it. */
  lemma SafeWhereMeans(lib: Library, fields: Fields, q: Query, extra: seq<Sql>, row: Row)
    requires ValidQuery(lib, fields, q) && SafeRoot(q.filter) && ShapedRow(fields, row)
    requires forall p | p in extra :: NoOr(p)
    ensures Where(fields, q, extra).Ok?
    ensures Eval(row, Where(fields, q, extra).value) == Yes <==> Selected(fields, q, row) && ExtraHolds(row, extra)
  {
    var before := [[Leaf(TableIs(q.table))]] + LifecycleParts(q.lifecycle).value;
    AroundMeans(lib, fields, q, row);
    if q.filter.Some? {
      FilterMeans(lib, fields, q.filter.value, row);
      SafeHasNoOr(lib, fields, q.filter.value, row);
      OnePart(row, Compile(fields, q.filter.value).value);
    }
    var filter := FilterParts(fields, q.filter).value;
    var search := SearchParts(q.search);
    JoinMeans(row, before + filter + search + extra);
    AllOfConcat(row, before + filter + search, extra);
    AllOfConcat(row, before + filter, search);
    AllOfConcat(row, before, filter);
  }

  // ----- a root `or` of several children -----

  lemma {:induction false} JoinSplit(a: seq<Sql>, b: seq<Sql>, word: Token)
    requires a != [] && b != []
    ensures JoinTexts(a + b, word) == JoinTexts(a, word) + [word] + JoinTexts(b, word)
  {
    var front := b[..|b| - 1];
    assert (a + b)[..|a + b| - 1] == a + front;
    if |b| == 1 {
      assert a + front == a;
    } else {
      JoinSplit(a, front, word);
      assert JoinTexts(a + b, word) == JoinTexts(a + front, word) + [word] + b[|b| - 1];
      assert JoinTexts(b, word) == JoinTexts(front, word) + [word] + b[|b| - 1];
    }
  }

  /** The value of the spliced text: the first child alone is tied to what comes before, the last alone to what comes
      after, and those in between to nothing. */
  function Spliced(row: Row, before: seq<Sql>, children: seq<Sql>, after: seq<Sql>): Truth
    requires |children| >= 2
  {
    var n := |children| - 1;
    Or3(Or3(And3(AllOf(row, before), Eval(row, children[0])), AnyOf(row, children[1..n])),
        And3(Eval(row, children[n]), AllOf(row, after)))
  }

  lemma SplicedBefore(row: Row, before: seq<Sql>, children: seq<Sql>)
    requires before != [] && |children| >= 2
    requires (forall p | p in before :: NoOr(p)) && (forall p | p in children :: NoOr(p))
    ensures var n := |children| - 1;
            Read(row, JoinTexts(before + [JoinTexts(children, OrWord)], AndWord), Reading(No, Yes)) ==
            Reading(Or3(And3(AllOf(row, before), Eval(row, children[0])), AnyOf(row, children[1..n])), Eval(row, children[n]))
  {
    var middle := JoinTexts(children, OrWord);
    var start := Reading(No, Yes);
    JoinSplit(before, [middle], AndWord);
    var front := JoinTexts(before, AndWord);
    ReadConcat(row, front + [AndWord], middle, start);
    ReadConcat(row, front, [AndWord], start);
    ReadAnd(row, before, start);
    ReadWord(row, AndWord, Read(row, front, start));
    ReadOr(row, children, Read(row, front, start));
  }

  lemma SplicedMeans(row: Row, before: seq<Sql>, children: seq<Sql>, after: seq<Sql>)
    requires before != [] && |children| >= 2
    requires (forall p | p in before :: NoOr(p)) && (forall p | p in children :: NoOr(p)) && (forall p | p in after :: NoOr(p))
    ensures Eval(row, JoinTexts(before + [JoinTexts(children, OrWord)] + after, AndWord)) == Spliced(row, before, children, after)
  {
    var start := Reading(No, Yes);
    var upto := before + [JoinTexts(children, OrWord)];
    SplicedBefore(row, before, children);
    if after == [] {
      assert upto + after == upto;
    } else {
      JoinSplit(upto, after, AndWord);
      var front := JoinTexts(upto, AndWord);
      ReadConcat(row, front + [AndWord], JoinTexts(after, AndWord), start);
      ReadConcat(row, front, [AndWord], start);
      ReadWord(row, AndWord, Read(row, front, start));
      ReadAnd(row, after, Read(row, front, start));
    }
  }

  lemma {:induction false} CompileAllAt(fields: Fields, nodes: seq<FilterNode>, i: nat)
    requires CompileAll(fields, nodes).Ok? && i < |nodes|
    ensures Compile(fields, nodes[i]).Ok? && CompileAll(fields, nodes).value[i] == [Paren(Compile(fields, nodes[i]).value)]
  {
    if i < |nodes| - 1 {
      CompileAllAt(fields, nodes[..|nodes| - 1], i);
    }
  }

  lemma {:induction false} AnyOfYes(row: Row, parts: seq<Sql>)
    ensures AnyOf(row, parts) == Yes <==> exists i | 0 <= i < |parts| :: Eval(row, parts[i]) == Yes
  {
    if parts != [] {
      var front := parts[..|parts| - 1];
      AnyOfYes(row, front);
      if i :| 0 <= i < |front| && Eval(row, front[i]) == Yes {
        assert Eval(row, parts[i]) == Yes;
      }
      if i :| 0 <= i < |parts| && Eval(row, parts[i]) == Yes {
        assert i < |front| ==> Eval(row, front[i]) == Yes;
      }
    }
  }

  lemma {:induction false} AllOkAt(lib: Library, fields: Fields, nodes: seq<FilterNode>, i: nat)
    requires AllOk(lib, fields, nodes) && i < |nodes|
    ensures NodeOk(lib, fields, nodes[i])
  {
    if i < |nodes| - 1 {
      AllOkAt(lib, fields, nodes[..|nodes| - 1], i);
    }
  }

  lemma ChildMeans(lib: Library, fields: Fields, nodes: seq<FilterNode>, i: nat, row: Row)
    requires AllOk(lib, fields, nodes) && i < |nodes| && ShapedRow(fields, row) && CompileAll(fields, nodes).Ok?
    ensures Eval(row, CompileAll(fields, nodes).value[i]) == Yes <==> Holds(fields, nodes[i], row)
  {
    AllOkAt(lib, fields, nodes, i);
    CompileAllAt(fields, nodes, i);
    FilterMeans(lib, fields, nodes[i], row);
    OneParen(row, Compile(fields, nodes[i]).value);
  }

  /** What the clause selects when the root is an `or` of children `c`. */
  ghost predicate Leaks(fields: Fields, q: Query, extra: seq<Sql>, c: seq<FilterNode>, row: Row)
    requires |c| >= 2
  {
    || (row.tableId == q.table && InLifecycle(q.lifecycle, row) && Holds(fields, c[0], row))
    || (exists i | 1 <= i < |c| - 1 :: Holds(fields, c[i], row))
    || (Holds(fields, c[|c| - 1], row) && (q.search != "" ==> Occurs(q.search, row.searchText)) && ExtraHolds(row, extra))
  }

  /** With a root `or` of several children the clause selects by another condition: only the first child is confined to
      the table and lifecycle, only the last to the search and to whatever the caller appends. */
  lemma UnsafeWhereMeans(lib: Library, fields: Fields, q: Query, extra: seq<Sql>, row: Row)
    requires ValidQuery(lib, fields, q) && !SafeRoot(q.filter) && ShapedRow(fields, row)
    requires forall p | p in extra :: NoOr(p)
    ensures Where(fields, q, extra).Ok?
    ensures Eval(row, Where(fields, q, extra).value) == Yes <==> Leaks(fields, q, extra, q.filter.value.children, row)
  {
    var parts := UnsafeValue(lib, fields, q, extra, row);
    SplicedLeaks(lib, fields, q.filter.value.children, parts, row);
    AroundMeans(lib, fields, q, row);
    AllOfConcat(row, SearchParts(q.search), extra);
  }

  lemma UnsafeValue(lib: Library, fields: Fields, q: Query, extra: seq<Sql>, row: Row) returns (parts: seq<Sql>)
    requires ValidQuery(lib, fields, q) && !SafeRoot(q.filter) && ShapedRow(fields, row)
    requires forall p | p in extra :: NoOr(p)
    ensures CompileAll(fields, q.filter.value.children) == Ok(parts) && |parts| >= 2
    ensures Where(fields, q, extra).Ok?
    ensures Eval(row, Where(fields, q, extra).value) ==
            Spliced(row, [[Leaf(TableIs(q.table))]] + LifecycleParts(q.lifecycle).value, parts, SearchParts(q.search) + extra)
  {
    ChildrenMean(lib, fields, q.filter.value.children, row);
    parts := CompileAll(fields, q.filter.value.children).value;
    WhereIsSpliced(fields, q, extra, parts);
    AroundMeans(lib, fields, q, row);
    SplicedMeans(row, [[Leaf(TableIs(q.table))]] + LifecycleParts(q.lifecycle).value, parts, SearchParts(q.search) + extra);
  }

  lemma WhereIsSpliced(fields: Fields, q: Query, extra: seq<Sql>, parts: seq<Sql>)
    requires LifecycleParts(q.lifecycle).Some? && !SafeRoot(q.filter)
    requires CompileAll(fields, q.filter.value.children) == Ok(parts)
    ensures Where(fields, q, extra) ==
            Ok(JoinTexts([[Leaf(TableIs(q.table))]] + LifecycleParts(q.lifecycle).value + [JoinTexts(parts, OrWord)]
                         + (SearchParts(q.search) + extra), AndWord))
  {
    var upto := [[Leaf(TableIs(q.table))]] + LifecycleParts(q.lifecycle).value + [JoinTexts(parts, OrWord)];
    assert Compile(fields, q.filter.value) == Ok(JoinTexts(parts, OrWord));
    assert upto + SearchParts(q.search) + extra == upto + (SearchParts(q.search) + extra);
  }

  lemma SplicedLeaks(lib: Library, fields: Fields, c: seq<FilterNode>, parts: seq<Sql>, row: Row)
    requires |c| >= 2 && AllOk(lib, fields, c) && CompileAll(fields, c) == Ok(parts) && ShapedRow(fields, row)
    ensures Eval(row, parts[0]) == Yes <==> Holds(fields, c[0], row)
    ensures Eval(row, parts[|c| - 1]) == Yes <==> Holds(fields, c[|c| - 1], row)
    ensures AnyOf(row, parts[1..|c| - 1]) == Yes <==> exists i | 1 <= i < |c| - 1 :: Holds(fields, c[i], row)
  {
    var n := |c| - 1;
    forall i | 0 <= i < |c| ensures Eval(row, parts[i]) == Yes <==> Holds(fields, c[i], row) {
      ChildMeans(lib, fields, c, i, row);
    }
    var middle := parts[1..n];
    AnyOfYes(row, middle);
    if i :| 0 <= i < |middle| && Eval(row, middle[i]) == Yes {
      assert middle[i] == parts[i + 1];
      assert Holds(fields, c[i + 1], row);
    }
    if i :| 1 <= i < n && Holds(fields, c[i], row) {
      assert middle[i - 1] == parts[i];
    }
  }

  // ----- the clause after another condition -----

  /** The clause behind a further condition, joined with AND in front of it. */
  function Behind(v: Truth, text: Sql): Sql {
    [Leaf(Outside(v)), AndWord] + text
  }

  lemma BehindJoin(v: Truth, parts: seq<Sql>)
    requires parts != []
    ensures Behind(v, JoinTexts(parts, AndWord)) == JoinTexts([[Leaf(Outside(v))]] + parts, AndWord)
  {
    JoinSplit([[Leaf(Outside(v))]], parts, AndWord);
    assert [Leaf(Outside(v))] + [AndWord] == [Leaf(Outside(v)), AndWord];
  }

  lemma OutsideValue(row: Row, v: Truth)
    ensures AllOf(row, [[Leaf(Outside(v))]]) == v
  {
    OnePart(row, [Leaf(Outside(v))]);
    OneTest(row, Outside(v));
  }

  /** With a safe root the condition narrows the clause. */
  lemma SafeBehind(lib: Library, fields: Fields, q: Query, row: Row, v: Truth)
    requires ValidQuery(lib, fields, q) && SafeRoot(q.filter)
    ensures Where(fields, q, []).Ok?
    ensures Eval(row, Behind(v, Where(fields, q, []).value)) == And3(v, Eval(row, Where(fields, q, []).value))
  {
    var before := [[Leaf(TableIs(q.table))]] + LifecycleParts(q.lifecycle).value;
    AroundMeans(lib, fields, q, row);
    if q.filter.Some? {
      SafeHasNoOr(lib, fields, q.filter.value, row.(queryValues := map[]));
    }
    var parts := before + FilterParts(fields, q.filter).value + SearchParts(q.search) + [];
    BehindJoin(v, parts);
    JoinMeans(row, parts);
    JoinMeans(row, [[Leaf(Outside(v))]] + parts);
    AllOfConcat(row, [[Leaf(Outside(v))]], parts);
    OutsideValue(row, v);
  }

  /** What is selected behind a condition of value `v` when the root is an `or` of children `c`. */
  ghost predicate LeaksBehind(fields: Fields, q: Query, c: seq<FilterNode>, row: Row, v: Truth)
    requires |c| >= 2
  {
    || (v == Yes && row.tableId == q.table && InLifecycle(q.lifecycle, row) && Holds(fields, c[0], row))
    || (exists i | 1 <= i < |c| - 1 :: Holds(fields, c[i], row))
    || (Holds(fields, c[|c| - 1], row) && (q.search != "" ==> Occurs(q.search, row.searchText)))
  }

  /** With a root `or` of several children it narrows the first child alone. */
  lemma UnsafeBehind(lib: Library, fields: Fields, q: Query, row: Row, v: Truth)
    requires ValidQuery(lib, fields, q) && !SafeRoot(q.filter) && ShapedRow(fields, row)
    ensures Where(fields, q, []).Ok?
    ensures Eval(row, Behind(v, Where(fields, q, []).value)) == Yes <==> LeaksBehind(fields, q, q.filter.value.children, row, v)
  {
    var parts, around, after := UnsafeBehindValue(lib, fields, q, row, v);
    SplicedHolds(lib, fields, q.filter.value.children, parts, row, around, after);
    LeaksBehindIs(fields, q, q.filter.value.children, row, v, around, after);
  }

  lemma LeaksBehindIs(fields: Fields, q: Query, c: seq<FilterNode>, row: Row, v: Truth, around: Truth, after: Truth)
    requires |c| >= 2
    requires around == Yes <==> v == Yes && row.tableId == q.table && InLifecycle(q.lifecycle, row)
    requires after == Yes <==> (q.search != "" ==> Occurs(q.search, row.searchText))
    ensures LeaksBehind(fields, q, c, row, v) <==>
            (around == Yes && Holds(fields, c[0], row)) || (exists i | 1 <= i < |c| - 1 :: Holds(fields, c[i], row))
            || (Holds(fields, c[|c| - 1], row) && after == Yes)
  {
  }

  /** When a spliced `or` is TRUE, its surroundings having the values `around` and `after`. */
  lemma SplicedHolds(lib: Library, fields: Fields, c: seq<FilterNode>, parts: seq<Sql>, row: Row, around: Truth, after: Truth)
    requires |c| >= 2 && AllOk(lib, fields, c) && CompileAll(fields, c) == Ok(parts) && ShapedRow(fields, row)
    ensures var n := |c| - 1;
            Or3(Or3(And3(around, Eval(row, parts[0])), AnyOf(row, parts[1..n])), And3(Eval(row, parts[n]), after)) == Yes <==>
            (around == Yes && Holds(fields, c[0], row)) || (exists i | 1 <= i < n :: Holds(fields, c[i], row))
            || (Holds(fields, c[n], row) && after == Yes)
  {
    SplicedLeaks(lib, fields, c, parts, row);
  }

  lemma UnsafeBehindValue(lib: Library, fields: Fields, q: Query, row: Row, v: Truth)
    returns (parts: seq<Sql>, around: Truth, after: Truth)
    requires ValidQuery(lib, fields, q) && !SafeRoot(q.filter) && ShapedRow(fields, row)
    ensures CompileAll(fields, q.filter.value.children) == Ok(parts) && |parts| >= 2
    ensures around == Yes <==> v == Yes && row.tableId == q.table && InLifecycle(q.lifecycle, row)
    ensures after == Yes <==> (q.search != "" ==> Occurs(q.search, row.searchText))
    ensures Where(fields, q, []).Ok?
    ensures var n := |parts| - 1;
            Eval(row, Behind(v, Where(fields, q, []).value)) ==
            Or3(Or3(And3(around, Eval(row, parts[0])), AnyOf(row, parts[1..n])), And3(Eval(row, parts[n]), after))
  {
    var before := [[Leaf(TableIs(q.table))]] + LifecycleParts(q.lifecycle).value;
    ChildrenMean(lib, fields, q.filter.value.children, row);
    parts := CompileAll(fields, q.filter.value.children).value;
    AroundMeans(lib, fields, q, row);
    around, after := And3(v, AllOf(row, before)), AllOf(row, SearchParts(q.search));
    BehindSpliced(fields, q, before, parts, row, v);
  }

  lemma BehindSpliced(fields: Fields, q: Query, before: seq<Sql>, parts: seq<Sql>, row: Row, v: Truth)
    requires LifecycleParts(q.lifecycle).Some? && !SafeRoot(q.filter) && |parts| >= 2
    requires before == [[Leaf(TableIs(q.table))]] + LifecycleParts(q.lifecycle).value
    requires CompileAll(fields, q.filter.value.children) == Ok(parts)
    requires (forall p | p in before :: NoOr(p)) && (forall p | p in parts :: NoOr(p))
             && (forall p | p in SearchParts(q.search) :: NoOr(p))
    ensures Where(fields, q, []).Ok?
    ensures Eval(row, Behind(v, Where(fields, q, []).value)) ==
            Or3(Or3(And3(And3(v, AllOf(row, before)), Eval(row, parts[0])), AnyOf(row, parts[1..|parts| - 1])),
                And3(Eval(row, parts[|parts| - 1]), AllOf(row, SearchParts(q.search))))
  {
    var outside, text, after := [[Leaf(Outside(v))]], JoinTexts(parts, OrWord), SearchParts(q.search);
    WhereIsSpliced(fields, q, [], parts);
    assert SearchParts(q.search) + [] == after;
    BehindJoin(v, before + [text] + after);
    assert outside + (before + [text] + after) == (outside + before) + [text] + after;
    SplicedMeans(row, outside + before, parts, after);
    AllOfConcat(row, outside, before);
    OutsideValue(row, v);
  }

  // ----- exactly when the clause is faithful -----

  /** The clause selects exactly what the query means, whatever the records of whatever table. */
  ghost predicate Faithful(fields: Fields, q: Query) {
    Where(fields, q, []).Ok? &&
    forall row | ShapedRow(fields, row) :: Eval(row, Where(fields, q, []).value) == Yes <==> Selected(fields, q, row)
  }

  /** The first child of a root `or` that escapes something: without a search only the first is confined to all the
      query asks for, with a search not even that one. */
  function FirstLoose(q: Query): nat {
    if q.search == "" then 1 else 0
  }

  ghost predicate LooseChildCanHold(fields: Fields, q: Query) {
    q.filter.Some? && exists row, i :: ShapedRow(fields, row) && FirstLoose(q) <= i < |q.filter.value.children|
                                       && Holds(fields, q.filter.value.children[i], row)
  }

  lemma {:induction false} HoldsSomewhere(fields: Fields, nodes: seq<FilterNode>, row: Row)
    ensures SomeHolds(fields, nodes, row) <==> exists i | 0 <= i < |nodes| :: Holds(fields, nodes[i], row)
  {
    if nodes != [] {
      var front := nodes[..|nodes| - 1];
      HoldsSomewhere(fields, front, row);
      if i :| 0 <= i < |front| && Holds(fields, front[i], row) {
        assert Holds(fields, nodes[i], row);
      }
      if i :| 0 <= i < |nodes| && Holds(fields, nodes[i], row) {
        assert i < |front| ==> Holds(fields, front[i], row);
      }
    }
  }

  /** Filters look at the index only. */
  lemma {:induction false} HoldsByIndex(fields: Fields, node: FilterNode, a: Row, b: Row)
    requires a.queryValues == b.queryValues
    ensures Holds(fields, node, a) == Holds(fields, node, b)
    decreases node
  {
    if node.kind == "group" {
      AllHoldByIndex(fields, node.children, a, b);
    }
  }

  lemma {:induction false} AllHoldByIndex(fields: Fields, nodes: seq<FilterNode>, a: Row, b: Row)
    requires a.queryValues == b.queryValues
    ensures EachHolds(fields, nodes, a) == EachHolds(fields, nodes, b)
    ensures SomeHolds(fields, nodes, a) == SomeHolds(fields, nodes, b)
    decreases nodes
  {
    if nodes != [] {
      AllHoldByIndex(fields, nodes[..|nodes| - 1], a, b);
      HoldsByIndex(fields, nodes[|nodes| - 1], a, b);
    }
  }

  /** The clause is faithful exactly when the root is safe or none of its loose children can hold. */
  lemma WhereExact(lib: Library, fields: Fields, q: Query)
    requires ValidQuery(lib, fields, q)
    ensures Faithful(fields, q) <==> SafeRoot(q.filter) || !LooseChildCanHold(fields, q)
  {
    if SafeRoot(q.filter) {
      SafeIsFaithful(lib, fields, q);
    } else if !LooseChildCanHold(fields, q) {
      TightIsFaithful(lib, fields, q);
    } else {
      var row, i :| ShapedRow(fields, row) && FirstLoose(q) <= i < |q.filter.value.children|
                    && Holds(fields, q.filter.value.children[i], row);
      LooseChildLeaks(lib, fields, q, row, i);
    }
  }

  lemma SafeIsFaithful(lib: Library, fields: Fields, q: Query)
    requires ValidQuery(lib, fields, q) && SafeRoot(q.filter)
    ensures Faithful(fields, q)
  {
    var empty := Row(q.table, 0, map[], map[], "", 0.0, 0, false);
    SafeWhereMeans(lib, fields, q, [], empty);
    forall row | ShapedRow(fields, row)
      ensures Eval(row, Where(fields, q, []).value) == Yes <==> Selected(fields, q, row)
    {
      SafeWhereMeans(lib, fields, q, [], row);
    }
  }

  lemma TightIsFaithful(lib: Library, fields: Fields, q: Query)
    requires ValidQuery(lib, fields, q) && !SafeRoot(q.filter) && !LooseChildCanHold(fields, q)
    ensures Faithful(fields, q)
  {
    var c := q.filter.value.children;
    var empty := Row(q.table, 0, map[], map[], "", 0.0, 0, false);
    UnsafeWhereMeans(lib, fields, q, [], empty);
    forall row | ShapedRow(fields, row)
      ensures Eval(row, Where(fields, q, []).value) == Yes <==> Selected(fields, q, row)
    {
      UnsafeWhereMeans(lib, fields, q, [], row);
      HoldsSomewhere(fields, c, row);
      assert forall i | FirstLoose(q) <= i < |c| :: !Holds(fields, c[i], row);
    }
  }

  /** A row that a loose child lets in: of another table and with the search in its text for a later child, of the
      right table and lifecycle but without the search for the first. */
  function Leaked(q: Query, row: Row, i: nat): Row {
    if i == 0 then row.(tableId := q.table, deleted := q.lifecycle == "deleted", searchText := "")
    else row.(tableId := q.table + "x", searchText := q.search)
  }

  /** It is selected although it is not meant. */
  lemma LooseChildLeaks(lib: Library, fields: Fields, q: Query, row: Row, i: nat)
    requires ValidQuery(lib, fields, q) && !SafeRoot(q.filter)
    requires ShapedRow(fields, row) && FirstLoose(q) <= i < |q.filter.value.children|
    requires Holds(fields, q.filter.value.children[i], row)
    ensures !Faithful(fields, q)
  {
    var other := Leaked(q, row, i);
    LeakedMatches(lib, fields, q, row, i);
    assert ShapedRow(fields, other);
  }

  lemma LeakedMatches(lib: Library, fields: Fields, q: Query, row: Row, i: nat)
    requires ValidQuery(lib, fields, q) && !SafeRoot(q.filter)
    requires ShapedRow(fields, row) && FirstLoose(q) <= i < |q.filter.value.children|
    requires Holds(fields, q.filter.value.children[i], row)
    ensures var other := Leaked(q, row, i);
            && ShapedRow(fields, other) && !Selected(fields, q, other)
            && Where(fields, q, []).Ok? && Eval(other, Where(fields, q, []).value) == Yes
  {
    var c, other := q.filter.value.children, Leaked(q, row, i);
    HoldsByIndex(fields, c[i], row, other);
    UnsafeWhereMeans(lib, fields, q, [], other);
    SelfOccurs(q.search);
    assert Leaks(fields, q, [], c, other);
  }

  lemma SelfOccurs(s: string)
    ensures Occurs(s, s) && (s != "" ==> !Occurs(s, ""))
  {
    assert s == "" + s + "";
  }

  // ----- a rule can always hold -----

  /** A cell on which a rule holds; None where an absent cell does. */
  function Witness(t: FieldType, op: string, v: Value): Option<Value> {
    match op
    case "isNotEmpty" =>
      (match t case Number => Some(Num(0.0)) case MultiSelect => Some(List([Null])) case Location => Some(Obj(map[]))
       case Attachment => Some(Obj(map[])) case _ => Some(Str("x")))
    case "is" => Some(v)
    case "contains" => Some(v)
    case "startsWith" => Some(v)
    case "endsWith" => Some(v)
    case "includes" => Some(List([v]))
    case "greaterOrEqual" => Some(v)
    case "lessOrEqual" => Some(v)
    case "greaterThan" => if v.Num? then Some(Num(v.number + 1.0)) else if v.Str? then Some(Str(v.text + "x")) else None
    case "lessThan" => if v.Num? then Some(Num(v.number - 1.0)) else Some(Str(""))
    case _ => None
  }

  lemma {:induction false} LessThanLonger(s: string)
    ensures StringLess(s, s + "x")
  {
    if s != [] {
      assert (s + "x")[1..] == s[1..] + "x";
      LessThanLonger(s[1..]);
    }
  }

  lemma TextWitness(s: string)
    ensures Occurs(s, s) && (exists rest :: s == s + rest) && (exists front :: s == front + s)
  {
    assert s == "" + s + "";
    assert s == s + "";
    assert s == "" + s;
  }

  lemma AllowedOperators(t: FieldType, op: string)
    requires Allowed(t, op)
    ensures EmptyOperator(op) || op == "is" || op == "isNot" || op == "includes" || op == "excludes"
            || (IsTextual(t) && (op == "contains" || op == "notContains" || op == "startsWith" || op == "endsWith"))
            || ((t == Number || t == Date)
                && (op == "greaterThan" || op == "greaterOrEqual" || op == "lessThan" || op == "lessOrEqual"))
  {
  }

  lemma WitnessHolds(lib: Library, field: Field, op: string, v: Value)
    requires Lawful(lib) && Allowed(field.fieldType, op) && op != "" && (EmptyOperator(op) || ValueFits(lib, field, v))
    ensures WitnessFits(field.fieldType, op, v)
  {
    AllowedOperators(field.fieldType, op);
    if EmptyOperator(op) {
      EmptyWitness(field, op, v);
    } else if op == "is" || op == "isNot" || op == "includes" || op == "excludes" {
      SameWitness(lib, field, op, v);
    } else if op == "contains" || op == "notContains" || op == "startsWith" || op == "endsWith" {
      OccursWitness(lib, field, op, v);
    } else {
      OrderWitness(lib, field, op, v);
    }
  }

  ghost predicate WitnessFits(t: FieldType, op: string, v: Value) {
    var w := Witness(t, op, v);
    (w.Some? ==> w.value != Null && Shaped(t, w.value)) && RuleHolds(t, op, w, v)
  }

  lemma SameWitness(lib: Library, field: Field, op: string, v: Value)
    requires Allowed(field.fieldType, op) && ValueFits(lib, field, v)
    requires op == "is" || op == "isNot" || op == "includes" || op == "excludes"
    ensures WitnessFits(field.fieldType, op, v)
  {
  }

  lemma OrderWitness(lib: Library, field: Field, op: string, v: Value)
    requires Lawful(lib) && (field.fieldType == Number || field.fieldType == Date) && ValueFits(lib, field, v)
    requires op == "greaterThan" || op == "greaterOrEqual" || op == "lessThan" || op == "lessOrEqual"
    ensures WitnessFits(field.fieldType, op, v)
  {
    if op == "greaterThan" || op == "lessThan" {
      StrictWitness(lib, field, op, v);
    } else {
      LooseWitness(lib, field, op, v);
    }
  }

  lemma LooseWitness(lib: Library, field: Field, op: string, v: Value)
    requires (field.fieldType == Number || field.fieldType == Date) && ValueFits(lib, field, v)
    requires op == "greaterOrEqual" || op == "lessOrEqual"
    ensures WitnessFits(field.fieldType, op, v)
  {
  }

  lemma StrictWitness(lib: Library, field: Field, op: string, v: Value)
    requires Lawful(lib) && (field.fieldType == Number || field.fieldType == Date) && ValueFits(lib, field, v)
    requires op == "greaterThan" || op == "lessThan"
    ensures WitnessFits(field.fieldType, op, v)
  {
    if v.Str? {
      LessThanLonger(v.text);
    }
  }

  lemma EmptyWitness(field: Field, op: string, v: Value)
    requires EmptyOperator(op) && Allowed(field.fieldType, op)
    ensures WitnessFits(field.fieldType, op, v)
  {
  }

  lemma OccursWitness(lib: Library, field: Field, op: string, v: Value)
    requires op == "contains" || op == "notContains" || op == "startsWith" || op == "endsWith"
    requires IsTextual(field.fieldType) && ValueFits(lib, field, v)
    ensures WitnessFits(field.fieldType, op, v)
  {
    TextWitness(v.text);
  }

  lemma RuleParts(lib: Library, fields: Fields, node: FilterNode)
    requires node.kind == "rule" && NodeOk(lib, fields, node)
    ensures node.fieldId in fields && Allowed(fields[node.fieldId].fieldType, node.operator) && node.operator != ""
    ensures EmptyOperator(node.operator) || (node.value.Some? && ValueFits(lib, fields[node.fieldId], node.value.value))
  {
  }

  /** A row with one index entry. */
  function OneCell(table: string, f: string, w: Option<Value>): Row {
    Row(table, 0, map[], if w.Some? then map[f := w.value] else map[], "", 0.0, 0, false)
  }

  lemma OneCellIs(fields: Fields, table: string, f: string, w: Option<Value>)
    requires f in fields && (w.Some? ==> w.value != Null && Shaped(fields[f].fieldType, w.value))
    ensures ShapedRow(fields, OneCell(table, f, w)) && Cell(OneCell(table, f, w), f) == w
  {
  }

  /** Every accepted rule holds on some row of the table. */
  lemma RuleCanHold(lib: Library, fields: Fields, node: FilterNode, table: string) returns (row: Row)
    requires Lawful(lib) && node.kind == "rule" && NodeOk(lib, fields, node)
    ensures row.tableId == table && ShapedRow(fields, row) && Holds(fields, node, row)
  {
    RuleParts(lib, fields, node);
    var f, v := node.fieldId, if node.value.Some? then node.value.value else Null;
    var w := Witness(fields[f].fieldType, node.operator, v);
    WitnessHolds(lib, fields[f], node.operator, v);
    row := OneCell(table, f, w);
    OneCellIs(fields, table, f, w);
    RuleIsHeld(fields, node, row, w, v);
  }

  lemma RuleIsHeld(fields: Fields, node: FilterNode, row: Row, w: Option<Value>, v: Value)
    requires node.kind == "rule" && node.fieldId in fields && Cell(row, node.fieldId) == w
    requires v == if node.value.Some? then node.value.value else Null
    requires RuleHolds(fields[node.fieldId].fieldType, node.operator, w, v)
    ensures Holds(fields, node, row)
  {
  }

  /** So when some loose child of a root `or` is a rule, the guard alone decides. */
  lemma RuleDecides(lib: Library, fields: Fields, q: Query)
    requires Lawful(lib) && ValidQuery(lib, fields, q)
    requires SafeRoot(q.filter)
             || exists i | FirstLoose(q) <= i < |q.filter.value.children| :: q.filter.value.children[i].kind == "rule"
    ensures Faithful(fields, q) <==> SafeRoot(q.filter)
  {
    WhereExact(lib, fields, q);
    if !SafeRoot(q.filter) {
      var c := q.filter.value.children;
      var i :| FirstLoose(q) <= i < |c| && c[i].kind == "rule";
      AllOkAt(lib, fields, c, i);
      var row := RuleCanHold(lib, fields, c[i], q.table);
      assert ShapedRow(fields, row) && Holds(fields, c[i], row);
    }
  }
}
