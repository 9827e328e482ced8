/** The SQL a filter compiles to, as text: words, and tests and parentheses between them. What such a text means is
    fixed by SQL's precedence (AND binds tighter than OR) and its three-valued logic. */
module FilterSql {
  import opened Results
  import opened Schema
  import opened Values
  import opened Orders
  import opened Filters

  // ----- three-valued logic -----

  datatype Truth = Yes | No | Unknown

  function And3(a: Truth, b: Truth): Truth {
    if a == No || b == No then No else if a == Yes && b == Yes then Yes else Unknown
  }

  function Or3(a: Truth, b: Truth): Truth {
    if a == Yes || b == Yes then Yes else if a == No && b == No then No else Unknown
  }

  function Not3(a: Truth): Truth {
    match a case Yes => No case No => Yes case Unknown => Unknown
  }

  /** COALESCE(a, FALSE) */
  function OrFalse(a: Truth): Truth {
    if a == Unknown then No else a
  }

  function Known(b: bool): Truth {
    if b then Yes else No
  }

  // ----- texts -----

  datatype Test =
    | TableIs(table: string)
    | Live
    | Dead
    | SearchHas(needle: string)
    | Outside(value: Truth)   // a condition on more than the row, with its value for the row at hand
    | IsEmpty(t: FieldType, f: string)
    | IsFilled(t: FieldType, f: string)
    | HasItem(f: string, item: Value)
    | LacksItem(f: string, item: Value)
    | Same(t: FieldType, f: string, v: Value)
    | Distinct(t: FieldType, f: string, v: Value)
    | Contains(t: FieldType, f: string, v: Value)
    | Misses(t: FieldType, f: string, v: Value)
    | Starts(t: FieldType, f: string, v: Value)
    | Ends(t: FieldType, f: string, v: Value)
    | Above(t: FieldType, f: string, v: Value, orEqual: bool)
    | Below(t: FieldType, f: string, v: Value, orEqual: bool)

  datatype Token = Leaf(test: Test) | Paren(body: Sql) | AndWord | OrWord

  type Sql = seq<Token>

  /** strings.Join with the word between the parts. */
  function JoinTexts(parts: seq<Sql>, word: Token): Sql {
    if parts == [] then [] else if |parts| == 1 then parts[0]
    else JoinTexts(parts[..|parts| - 1], word) + [word] + parts[|parts| - 1]
  }

  /** A text read up to some point: the disjuncts that are complete, and the conjunction under way. */
  datatype Reading = Reading(done: Truth, current: Truth)

  function Read(row: Row, text: Sql, r: Reading): Reading
    decreases text, 0
  {
    if text == [] then r
    else
      match text[0]
      case Leaf(test) => Read(row, text[1..], r.(current := And3(r.current, EvalTest(row, test))))
      case Paren(body) => Read(row, text[1..], r.(current := And3(r.current, Eval(row, body))))
      case AndWord => Read(row, text[1..], r)
      case OrWord => Read(row, text[1..], Reading(Or3(r.done, r.current), Yes))
  }

  function Total(r: Reading): Truth {
    Or3(r.done, r.current)
  }

  function Eval(row: Row, text: Sql): Truth
    decreases text, 1
  {
    Total(Read(row, text, Reading(No, Yes)))
  }

  // ----- single tests -----

  /** query_values -> field; a missing key is SQL NULL, a stored null is not. */
  function JsonAt(row: Row, f: string): Option<Value> {
    Lookup(row.queryValues, f)
  }

  /** query_values ->> field, cast to the field's SQL type. Values of another shape would make the cast fail; the
      index holds none. */
  function ScalarAt(row: Row, t: FieldType, f: string): Option<Value> {
    match JsonAt(row, f)
    case None => None
    case Some(v) =>
      if t == Number then (if v.Num? then Some(v) else None)
      else if t == Checkbox then (if v.Bool? then Some(v) else None)
      else if v.Str? then Some(v) else None
  }

  function Equals(a: Option<Value>, v: Value): Truth {
    match a case None => Unknown case Some(u) => Known(u == v)
  }

  /** a IS NOT DISTINCT FROM v */
  function SameAs(a: Option<Value>, v: Value): Truth {
    Known(a == Some(v))
  }

  predicate ValueLess(a: Value, b: Value) {
    if a.Num? && b.Num? then a.number < b.number
    else a.Str? && b.Str? && StringLess(a.text, b.text)
  }

  function Strpos(hay: string, needle: string): nat {
    if needle <= hay then 1
    else if hay == "" then 0
    else
      var rest := Strpos(hay[1..], needle);
      if rest == 0 then 0 else rest + 1
  }

  /** right(s, n) */
  function Right(s: string, n: nat): string {
    if n >= |s| then s else s[|s| - n..]
  }

  function TextTest(a: Option<Value>, v: Value, test: (string, string) -> bool): Truth {
    match a
    case None => Unknown
    case Some(u) => if u.Str? && v.Str? then Known(test(u.text, v.text)) else Unknown
  }

  /** The ? operator on an array: some element is this string. */
  function HasElement(a: Option<Value>, item: Value): Truth {
    match a case None => Unknown case Some(v) => Known(v.List? && item.Str? && item in v.items)
  }

  function EmptyTest(row: Row, t: FieldType, f: string): Truth {
    var json := JsonAt(row, f);
    match t
    case Text => Or3(Known(ScalarAt(row, t, f).None?), Equals(ScalarAt(row, t, f), Str("")))
    case LongText => Or3(Known(ScalarAt(row, t, f).None?), Equals(ScalarAt(row, t, f), Str("")))
    case MultiSelect => Or3(Or3(Known(json.None?), Equals(json, Null)), Equals(json, List([])))
    case _ => Or3(Known(json.None?), Equals(json, Null))
  }

  function Compare(a: Option<Value>, v: Value, less: bool, orEqual: bool): Truth {
    match a
    case None => Unknown
    case Some(u) => Known((if less then ValueLess(u, v) else ValueLess(v, u)) || (orEqual && u == v))
  }

  function EvalTest(row: Row, test: Test): Truth {
    match test
    case TableIs(table) => Known(row.tableId == table)
    case Live => Known(!row.deleted)
    case Dead => Known(row.deleted)
    case SearchHas(needle) => Known(Strpos(row.searchText, needle) > 0)
    case Outside(value) => value
    case IsEmpty(t, f) => EmptyTest(row, t, f)
    case IsFilled(t, f) => Not3(EmptyTest(row, t, f))
    case HasItem(f, item) => OrFalse(HasElement(JsonAt(row, f), item))
    case LacksItem(f, item) => Not3(OrFalse(HasElement(JsonAt(row, f), item)))
    case Same(t, f, v) => SameAs(ScalarAt(row, t, f), v)
    case Distinct(t, f, v) => Not3(SameAs(ScalarAt(row, t, f), v))
    case Contains(t, f, v) => OrFalse(TextTest(ScalarAt(row, t, f), v, (a, b) => Strpos(a, b) > 0))
    case Misses(t, f, v) => Not3(OrFalse(TextTest(ScalarAt(row, t, f), v, (a, b) => Strpos(a, b) > 0)))
    case Starts(t, f, v) => OrFalse(TextTest(ScalarAt(row, t, f), v, (a, b) => b <= a))
    case Ends(t, f, v) => OrFalse(TextTest(ScalarAt(row, t, f), v, (a, b) => Right(a, |b|) == b))
    case Above(t, f, v, orEqual) => Compare(ScalarAt(row, t, f), v, false, orEqual)
    case Below(t, f, v, orEqual) => Compare(ScalarAt(row, t, f), v, true, orEqual)
  }

  // ----- compilation -----

  datatype CompileError = MissingField(fieldId: string) | BadValue | UnsupportedOperator(operator: string)

  function CompileRule(fields: Fields, node: FilterNode): Result<Sql, CompileError> {
    if node.fieldId !in fields then Err(MissingField(node.fieldId))
    else
      var t, f := fields[node.fieldId].fieldType, node.fieldId;
      if node.operator == "isEmpty" then Ok([Leaf(IsEmpty(t, f))])
      else if node.operator == "isNotEmpty" then Ok([Leaf(IsFilled(t, f))])
      else if node.value.None? then Err(BadValue)
      else
        var v := node.value.value;
        if (t == MultiSelect || t == Attachment) && node.operator == "includes" then Ok([Leaf(HasItem(f, v))])
        else if (t == MultiSelect || t == Attachment) && node.operator == "excludes" then Ok([Leaf(LacksItem(f, v))])
        else if node.operator == "is" then Ok([Leaf(Same(t, f, v))])
        else if node.operator == "isNot" then Ok([Leaf(Distinct(t, f, v))])
        else if node.operator == "contains" then Ok([Leaf(Contains(t, f, v))])
        else if node.operator == "notContains" then Ok([Leaf(Misses(t, f, v))])
        else if node.operator == "startsWith" then Ok([Leaf(Starts(t, f, v))])
        else if node.operator == "endsWith" then Ok([Leaf(Ends(t, f, v))])
        else if node.operator == "greaterThan" then Ok([Leaf(Above(t, f, v, false))])
        else if node.operator == "greaterOrEqual" then Ok([Leaf(Above(t, f, v, true))])
        else if node.operator == "lessThan" then Ok([Leaf(Below(t, f, v, false))])
        else if node.operator == "lessOrEqual" then Ok([Leaf(Below(t, f, v, true))])
        else Err(UnsupportedOperator(node.operator))
  }

  function Joiner(operator: string): Token {
    if operator == "or" then OrWord else AndWord
  }

  function Compile(fields: Fields, node: FilterNode): Result<Sql, CompileError> {
    if node.kind == "group" then
      var parts :- CompileAll(fields, node.children);
      Ok(JoinTexts(parts, Joiner(node.operator)))
    else CompileRule(fields, node)
  }

  /** The children's texts, each in parentheses. */
  function CompileAll(fields: Fields, nodes: seq<FilterNode>): (r: Result<seq<Sql>, CompileError>)
    ensures r.Ok? ==> |r.value| == |nodes|
  {
    if nodes == [] then Ok([])
    else
      var before :- CompileAll(fields, nodes[..|nodes| - 1]);
      var last :- Compile(fields, nodes[|nodes| - 1]);
      Ok(before + [[Paren(last)]])
  }

  // ----- what a filter means -----

  /** The cell a rule looks at; null and absent both count as no cell. */
  function Cell(row: Row, f: string): Option<Value> {
    if f in row.queryValues && row.queryValues[f] != Null then Some(row.queryValues[f]) else None
  }

  ghost predicate Occurs(needle: string, hay: string) {
    exists front, rest :: hay == front + needle + rest
  }

  ghost predicate TextHolds(op: string, text: string, given: string) {
    match op
    case "contains" => Occurs(given, text)
    case "startsWith" => exists rest :: text == given + rest
    case "endsWith" => exists front :: text == front + given
    case _ => false
  }

  predicate NothingThere(t: FieldType, cell: Option<Value>) {
    cell.None? || (t in {Text, LongText} && cell.value == Str("")) || (t == MultiSelect && cell.value == List([]))
  }

  ghost predicate RuleHolds(t: FieldType, op: string, cell: Option<Value>, given: Value) {
    match op
    case "isEmpty" => NothingThere(t, cell)
    case "isNotEmpty" => !NothingThere(t, cell)
    case "is" => cell == Some(given)
    case "isNot" => cell != Some(given)
    case "includes" => cell.Some? && cell.value.List? && given in cell.value.items
    case "excludes" => !(cell.Some? && cell.value.List? && given in cell.value.items)
    case "notContains" => !(cell.Some? && cell.value.Str? && given.Str? && TextHolds("contains", cell.value.text, given.text))
    case "greaterThan" => cell.Some? && ValueLess(given, cell.value)
    case "greaterOrEqual" => cell.Some? && (ValueLess(given, cell.value) || cell.value == given)
    case "lessThan" => cell.Some? && ValueLess(cell.value, given)
    case "lessOrEqual" => cell.Some? && (ValueLess(cell.value, given) || cell.value == given)
    case _ => cell.Some? && cell.value.Str? && given.Str? && TextHolds(op, cell.value.text, given.text)
  }

  /** Two-valued meaning of a whole filter on a row. */
  ghost predicate Holds(fields: Fields, node: FilterNode, row: Row) {
    if node.kind == "group" then
      if node.operator == "or" then SomeHolds(fields, node.children, row) else EachHolds(fields, node.children, row)
    else
      node.fieldId in fields
      && RuleHolds(fields[node.fieldId].fieldType, node.operator, Cell(row, node.fieldId),
                   if node.value.Some? then node.value.value else Null)
  }

  ghost predicate EachHolds(fields: Fields, nodes: seq<FilterNode>, row: Row) {
    nodes == [] || (EachHolds(fields, nodes[..|nodes| - 1], row) && Holds(fields, nodes[|nodes| - 1], row))
  }

  ghost predicate SomeHolds(fields: Fields, nodes: seq<FilterNode>, row: Row) {
    nodes != [] && (SomeHolds(fields, nodes[..|nodes| - 1], row) || Holds(fields, nodes[|nodes| - 1], row))
  }

  // ----- reading joined texts -----

  lemma {:induction false} ReadConcat(row: Row, a: Sql, b: Sql, r: Reading)
    ensures Read(row, a + b, r) == Read(row, b, Read(row, a, r))
  {
    if a == [] {
      assert a + b == b;
    } else {
      assert (a + b)[0] == a[0] && (a + b)[1..] == a[1..] + b;
      match a[0]
      case Leaf(test) => ReadConcat(row, a[1..], b, r.(current := And3(r.current, EvalTest(row, test))));
      case Paren(body) => ReadConcat(row, a[1..], b, r.(current := And3(r.current, Eval(row, body))));
      case AndWord => ReadConcat(row, a[1..], b, r);
      case OrWord => ReadConcat(row, a[1..], b, Reading(Or3(r.done, r.current), Yes));
    }
  }

  /** No OR outside parentheses. */
  predicate NoOr(text: Sql) {
    OrWord !in text
  }

  /** A text without OR only extends the conjunction under way. */
  lemma {:induction false} ReadNoOr(row: Row, text: Sql, r: Reading)
    requires NoOr(text)
    ensures Read(row, text, r) == r.(current := And3(r.current, Eval(row, text)))
  {
    if text != [] {
      var rest, start := text[1..], Reading(No, Yes);
      assert text[0] in text && NoOr(rest);
      match text[0]
      case Leaf(test) =>
        ReadNoOr(row, rest, r.(current := And3(r.current, EvalTest(row, test))));
        ReadNoOr(row, rest, start.(current := And3(start.current, EvalTest(row, test))));
      case Paren(body) =>
        ReadNoOr(row, rest, r.(current := And3(r.current, Eval(row, body))));
        ReadNoOr(row, rest, start.(current := And3(start.current, Eval(row, body))));
      case AndWord =>
        ReadNoOr(row, rest, r);
        ReadNoOr(row, rest, start);
    }
  }

  function AllOf(row: Row, parts: seq<Sql>): Truth {
    if parts == [] then Yes else And3(AllOf(row, parts[..|parts| - 1]), Eval(row, parts[|parts| - 1]))
  }

  function AnyOf(row: Row, parts: seq<Sql>): Truth {
    if parts == [] then No else Or3(AnyOf(row, parts[..|parts| - 1]), Eval(row, parts[|parts| - 1]))
  }

  lemma ReadWord(row: Row, word: Token, r: Reading)
    requires word == AndWord || word == OrWord
    ensures Read(row, [word], r) == if word == AndWord then r else Reading(Total(r), Yes)
  {
    assert [word][1..] == [];
  }

  /** Joining with AND texts that have no OR outside parentheses: the conjunction of the parts. */
  lemma {:induction false} ReadAnd(row: Row, parts: seq<Sql>, r: Reading)
    requires forall p | p in parts :: NoOr(p)
    ensures Read(row, JoinTexts(parts, AndWord), r) == r.(current := And3(r.current, AllOf(row, parts)))
  {
    if |parts| >= 1 {
      var n := |parts| - 1;
      var last := parts[n];
      assert last in parts;
      if n == 0 {
        assert AllOf(row, parts[..0]) == Yes;
        ReadNoOr(row, last, r);
      } else {
        var front := JoinTexts(parts[..n], AndWord);
        ReadAnd(row, parts[..n], r);
        ReadConcat(row, front + [AndWord], last, r);
        ReadConcat(row, front, [AndWord], r);
        ReadWord(row, AndWord, Read(row, front, r));
        ReadNoOr(row, last, Read(row, front, r));
      }
    }
  }

  /** Joining with OR texts that have none outside parentheses: all but the last part are complete disjuncts, the
      first of them together with whatever conjunction was under way. */
  lemma {:induction false} ReadOr(row: Row, parts: seq<Sql>, r: Reading)
    requires |parts| >= 1 && forall p | p in parts :: NoOr(p)
    ensures Read(row, JoinTexts(parts, OrWord), r) ==
            if |parts| == 1 then r.(current := And3(r.current, Eval(row, parts[0])))
            else Reading(Or3(Or3(r.done, And3(r.current, Eval(row, parts[0]))), AnyOf(row, parts[1..|parts| - 1])),
                         Eval(row, parts[|parts| - 1]))
  {
    var n := |parts| - 1;
    var last := parts[n];
    assert last in parts;
    if n == 0 {
      ReadNoOr(row, last, r);
    } else {
      var front := JoinTexts(parts[..n], OrWord);
      ReadOr(row, parts[..n], r);
      ReadConcat(row, front + [OrWord], last, r);
      ReadConcat(row, front, [OrWord], r);
      ReadWord(row, OrWord, Read(row, front, r));
      ReadNoOr(row, last, Reading(Total(Read(row, front, r)), Yes));
      if n >= 2 {
        assert parts[1..n][..n - 2] == parts[..n][1..n - 1];
      }
    }
  }
}
