/** The compiled SQL of an accepted filter selects exactly the rows the filter describes, and the splice of that SQL
    into the WHERE clause does so exactly when the root is not an `or` of several children. */
module FilterMeaning {
  import opened Results
  import opened Schema
  import opened Values
  import opened Orders
  import opened Filters
  import opened FilterSql

  /** Indexed cells have the shape of their fields. */
  ghost predicate ShapedRow(fields: Fields, row: Row) {
    forall f | f in row.queryValues && f in fields :: Shaped(fields[f].fieldType, row.queryValues[f])
  }

  /** A row whose index is the projection of valid cells is shaped. */
  lemma IndexedIsShaped(lib: Library, fields: Fields, row: Row)
    requires row.queryValues == Projection(lib, row.values, fields)
    requires forall f | f in row.values && f in fields :: Stored(lib, row.values[f], fields[f].fieldType, fields[f].config)
    ensures ShapedRow(fields, row)
  {
    forall f | f in row.queryValues && f in fields ensures Shaped(fields[f].fieldType, row.queryValues[f]) {
      ProjectionShaped(lib, row.values, fields, f);
    }
  }

  // ----- text search -----

  lemma {:induction false} StrposFinds(hay: string, needle: string)
    ensures Strpos(hay, needle) > 0 <==> Occurs(needle, hay)
  {
    if needle <= hay {
      assert hay == "" + needle + hay[|needle|..];
    } else if hay != "" {
      StrposFinds(hay[1..], needle);
      OccursLater(needle, hay);
    }
  }

  /** What does not stand at the beginning stands behind it. */
  lemma OccursLater(needle: string, hay: string)
    requires hay != "" && !(needle <= hay)
    ensures Occurs(needle, hay) <==> Occurs(needle, hay[1..])
  {
    if Occurs(needle, hay[1..]) {
      var front, rest :| hay[1..] == front + needle + rest;
      assert hay == ([hay[0]] + front) + needle + rest;
    }
    if Occurs(needle, hay) {
      var front, rest :| hay == front + needle + rest;
      assert front == "" ==> needle + rest == hay;
      assert hay[1..] == front[1..] + needle + rest;
    }
  }

  lemma EndsIsRight(text: string, given: string)
    ensures Right(text, |given|) == given <==> exists front :: text == front + given
  {
    if |given| <= |text| {
      assert text == text[..|text| - |given|] + text[|text| - |given|..];
    }
  }

  lemma StartsIsPrefix(text: string, given: string)
    ensures given <= text <==> exists rest :: text == given + rest
  {
    if given <= text {
      assert text == given + text[|given|..];
    }
  }

  // ----- rules -----

  lemma CellIsScalar(row: Row, t: FieldType, f: string)
    requires f in row.queryValues ==> Shaped(t, row.queryValues[f])
    requires t != MultiSelect && t != Location && t != Attachment
    ensures ScalarAt(row, t, f) == Cell(row, f)
  {
  }

  lemma EmptyMeans(row: Row, t: FieldType, f: string)
    requires f in row.queryValues ==> Shaped(t, row.queryValues[f])
    ensures EmptyTest(row, t, f) != Unknown
    ensures EmptyTest(row, t, f) == Yes <==> NothingThere(t, Cell(row, f))
  {
  }

  ghost predicate CellContains(cell: Option<Value>, v: Value) {
    cell.Some? && cell.value.Str? && v.Str? && Occurs(v.text, cell.value.text)
  }

  lemma ContainsMeans(row: Row, t: FieldType, f: string, v: Value)
    requires IsTextual(t) && v.Str? && (f in row.queryValues ==> Shaped(t, row.queryValues[f]))
    ensures EvalTest(row, Contains(t, f, v)) == Yes <==> CellContains(Cell(row, f), v)
    ensures EvalTest(row, Misses(t, f, v)) == Yes <==> !CellContains(Cell(row, f), v)
  {
    CellIsScalar(row, t, f);
    if Cell(row, f).Some? {
      StrposFinds(Cell(row, f).value.text, v.text);
    }
  }

  lemma StartMeans(row: Row, t: FieldType, f: string, v: Value)
    requires IsTextual(t) && v.Str? && (f in row.queryValues ==> Shaped(t, row.queryValues[f]))
    ensures EvalTest(row, Starts(t, f, v)) == Yes <==> RuleHolds(t, "startsWith", Cell(row, f), v)
  {
    CellIsScalar(row, t, f);
    if Cell(row, f).Some? {
      StartsIsPrefix(Cell(row, f).value.text, v.text);
    }
  }

  lemma EndMeans(row: Row, t: FieldType, f: string, v: Value)
    requires IsTextual(t) && v.Str? && (f in row.queryValues ==> Shaped(t, row.queryValues[f]))
    ensures EvalTest(row, Ends(t, f, v)) == Yes <==> RuleHolds(t, "endsWith", Cell(row, f), v)
  {
    CellIsScalar(row, t, f);
    if Cell(row, f).Some? {
      EndsIsRight(Cell(row, f).value.text, v.text);
    }
  }

  lemma OrderTestMeans(row: Row, op: string, t: FieldType, f: string, v: Value, test: Test)
    requires t != MultiSelect && t != Location && t != Attachment && (f in row.queryValues ==> Shaped(t, row.queryValues[f]))
    requires || (op == "is" && test == Same(t, f, v)) || (op == "isNot" && test == FilterSql.Distinct(t, f, v))
             || (op == "greaterThan" && test == Above(t, f, v, false)) || (op == "greaterOrEqual" && test == Above(t, f, v, true))
             || (op == "lessThan" && test == Below(t, f, v, false)) || (op == "lessOrEqual" && test == Below(t, f, v, true))
    ensures EvalTest(row, test) == Yes <==> RuleHolds(t, op, Cell(row, f), v)
  {
    CellIsScalar(row, t, f);
  }

  lemma ItemTestMeans(row: Row, op: string, f: string, v: Value, test: Test)
    requires v.Str? && (f in row.queryValues ==> Shaped(MultiSelect, row.queryValues[f]))
    requires (op == "includes" && test == HasItem(f, v)) || (op == "excludes" && test == LacksItem(f, v))
    ensures EvalTest(row, test) == Yes <==> RuleHolds(MultiSelect, op, Cell(row, f), v)
  {
  }

  lemma OneTest(row: Row, test: Test)
    ensures Eval(row, [Leaf(test)]) == EvalTest(row, test)
  {
    assert [Leaf(test)][1..] == [];
    assert Read(row, [Leaf(test)], Reading(No, Yes)) == Reading(No, And3(Yes, EvalTest(row, test)));
  }

  /** A rule compiles to a single test. */
  lemma RuleTest(lib: Library, fields: Fields, node: FilterNode) returns (test: Test)
    requires node.kind != "group" && RuleOk(lib, fields, node)
    ensures CompileRule(fields, node) == Ok([Leaf(test)])
  {
    test := CompileRule(fields, node).value[0].test;
  }

  lemma RuleMeans(lib: Library, fields: Fields, node: FilterNode, row: Row)
    requires node.kind != "group" && RuleOk(lib, fields, node) && ShapedRow(fields, row)
    ensures CompileRule(fields, node).Ok? && NoOr(CompileRule(fields, node).value)
    ensures Eval(row, CompileRule(fields, node).value) == Yes <==> Holds(fields, node, row)
  {
    var t, f, op := fields[node.fieldId].fieldType, node.fieldId, node.operator;
    var test := RuleTest(lib, fields, node);
    OneTest(row, test);
    assert f in row.queryValues ==> Shaped(t, row.queryValues[f]);
    if EmptyOperator(op) {
      EmptyMeans(row, t, f);
    } else if t == MultiSelect {
      ItemTestMeans(row, op, f, node.value.value, test);
    } else if op == "contains" || op == "notContains" {
      ContainsMeans(row, t, f, node.value.value);
    } else if op == "startsWith" {
      StartMeans(row, t, f, node.value.value);
    } else if op == "endsWith" {
      EndMeans(row, t, f, node.value.value);
    } else {
      OrderTestMeans(row, op, t, f, node.value.value, test);
    }
  }

  // ----- whole filters -----

  lemma {:induction false} AnyOfHead(row: Row, parts: seq<Sql>)
    requires |parts| >= 1
    ensures AnyOf(row, parts) == Or3(Eval(row, parts[0]), AnyOf(row, parts[1..]))
  {
    if |parts| >= 2 {
      var n := |parts| - 1;
      AnyOfHead(row, parts[..n]);
      assert parts[1..][..n - 1] == parts[..n][1..];
    } else {
      assert parts[..0] == [] && parts[1..] == [];
    }
  }

  /** Joined texts mean the conjunction or disjunction of their parts. */
  lemma JoinMeans(row: Row, parts: seq<Sql>)
    requires |parts| >= 1 && forall p | p in parts :: NoOr(p)
    ensures Eval(row, JoinTexts(parts, AndWord)) == AllOf(row, parts)
    ensures Eval(row, JoinTexts(parts, OrWord)) == AnyOf(row, parts)
  {
    ReadAnd(row, parts, Reading(No, Yes));
    ReadOr(row, parts, Reading(No, Yes));
    var n := |parts| - 1;
    if n >= 1 {
      AnyOfHead(row, parts[..n]);
      assert parts[..n][1..] == parts[1..n];
    } else {
      assert parts[..0] == [];
    }
  }

  lemma OneParen(row: Row, body: Sql)
    ensures Eval(row, [Paren(body)]) == Eval(row, body)
  {
    assert [Paren(body)][1..] == [];
    assert Read(row, [Paren(body)], Reading(No, Yes)) == Reading(No, And3(Yes, Eval(row, body)));
  }

  /** Children keep their parentheses, so none has an OR outside them. */
  lemma {:induction false} ChildrenMean(lib: Library, fields: Fields, nodes: seq<FilterNode>, row: Row)
    requires AllOk(lib, fields, nodes) && ShapedRow(fields, row)
    ensures CompileAll(fields, nodes).Ok? && forall p | p in CompileAll(fields, nodes).value :: NoOr(p)
    ensures AllOf(row, CompileAll(fields, nodes).value) == Yes <==> EachHolds(fields, nodes, row)
    ensures AnyOf(row, CompileAll(fields, nodes).value) == Yes <==> SomeHolds(fields, nodes, row)
    decreases nodes
  {
    if nodes != [] {
      var front, last := nodes[..|nodes| - 1], nodes[|nodes| - 1];
      ChildrenMean(lib, fields, front, row);
      FilterMeans(lib, fields, last, row);
      var before := CompileAll(fields, front).value;
      var body := Compile(fields, last).value;
      OneParen(row, body);
      var parts := before + [[Paren(body)]];
      assert CompileAll(fields, nodes) == Ok(parts);
      assert parts[..|parts| - 1] == before;
    }
  }

  /** Every accepted filter compiles, and its three-valued SQL is TRUE exactly on the rows it describes. */
  lemma {:induction false} FilterMeans(lib: Library, fields: Fields, node: FilterNode, row: Row)
    requires NodeOk(lib, fields, node) && ShapedRow(fields, row)
    ensures Compile(fields, node).Ok?
    ensures Eval(row, Compile(fields, node).value) == Yes <==> Holds(fields, node, row)
    decreases node
  {
    if node.kind == "group" {
      ChildrenMean(lib, fields, node.children, row);
      JoinMeans(row, CompileAll(fields, node.children).value);
    } else {
      RuleMeans(lib, fields, node, row);
    }
  }

  // ----- the normal form is accepted again -----

  lemma {:induction false} NormalOk(lib: Library, fields: Fields, node: FilterNode)
    requires NodeOk(lib, fields, node)
    ensures NodeOk(lib, fields, Normal(lib, fields, node))
    ensures Size(Normal(lib, fields, node)) == Size(node) && Height(Normal(lib, fields, node)) == Height(node)
    decreases node
  {
    if node.kind == "group" {
      NormalAllOk(lib, fields, node.children);
    }
  }

  lemma {:induction false} NormalAllOk(lib: Library, fields: Fields, nodes: seq<FilterNode>)
    requires AllOk(lib, fields, nodes)
    ensures AllOk(lib, fields, NormalAll(lib, fields, nodes))
    ensures SizeAll(NormalAll(lib, fields, nodes)) == SizeAll(nodes) && HeightAll(NormalAll(lib, fields, nodes)) == HeightAll(nodes)
    decreases nodes
  {
    if nodes != [] {
      NormalAllOk(lib, fields, nodes[..|nodes| - 1]);
      NormalOk(lib, fields, nodes[|nodes| - 1]);
      var r := NormalAll(lib, fields, nodes);
      assert r[..|r| - 1] == NormalAll(lib, fields, nodes[..|nodes| - 1]);
    }
  }

  /** Whatever validation accepts, its normal form compiles and selects what it describes. */
  lemma AcceptedCompiles(lib: Library, fields: Fields, node: FilterNode, row: Row)
    requires Acceptable(lib, fields, node) && ShapedRow(fields, row)
    ensures Acceptable(lib, fields, Normal(lib, fields, node))
    ensures Compile(fields, Normal(lib, fields, node)).Ok?
    ensures Eval(row, Compile(fields, Normal(lib, fields, node)).value) == Yes <==>
            Holds(fields, Normal(lib, fields, node), row)
  {
    NormalOk(lib, fields, node);
    FilterMeans(lib, fields, Normal(lib, fields, node), row);
  }

  // ----- complements -----

  function Opposite(op: string): string {
    match op
    case "is" => "isNot" case "isNot" => "is"
    case "contains" => "notContains" case "notContains" => "contains"
    case "includes" => "excludes" case "excludes" => "includes"
    case "isEmpty" => "isNotEmpty" case "isNotEmpty" => "isEmpty"
    case _ => ""
  }

  /** Opposite operators split the rows: on every row exactly one of the two compiled rules is TRUE, missing and null
      cells included. */
  lemma OppositesComplement(lib: Library, fields: Fields, node: FilterNode, row: Row)
    requires node.kind == "rule" && NodeOk(lib, fields, node) && ShapedRow(fields, row) && Opposite(node.operator) != ""
    ensures var other := node.(operator := Opposite(node.operator));
            && NodeOk(lib, fields, other)
            && Compile(fields, node).Ok? && Compile(fields, other).Ok?
            && (Eval(row, Compile(fields, other).value) == Yes <==> Eval(row, Compile(fields, node).value) != Yes)
  {
    OppositeAccepted(lib, fields, node);
    FilterMeans(lib, fields, node, row);
    FilterMeans(lib, fields, node.(operator := Opposite(node.operator)), row);
    OppositeHolds(fields, node, row);
  }

  lemma OppositeAccepted(lib: Library, fields: Fields, node: FilterNode)
    requires node.kind == "rule" && NodeOk(lib, fields, node) && Opposite(node.operator) != ""
    ensures NodeOk(lib, fields, node.(operator := Opposite(node.operator)))
  {
  }

  lemma OppositeHolds(fields: Fields, node: FilterNode, row: Row)
    requires node.kind == "rule" && node.fieldId in fields && Opposite(node.operator) != ""
    ensures Holds(fields, node.(operator := Opposite(node.operator)), row) <==> !Holds(fields, node, row)
  {
    var given := if node.value.Some? then node.value.value else Null;
    OppositeRule(fields[node.fieldId].fieldType, node.operator, Cell(row, node.fieldId), given);
  }

  lemma OppositeRule(t: FieldType, op: string, cell: Option<Value>, given: Value)
    requires Opposite(op) != ""
    ensures RuleHolds(t, Opposite(op), cell, given) <==> !RuleHolds(t, op, cell, given)
  {
  }
}
