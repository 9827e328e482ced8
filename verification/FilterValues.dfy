/** What an accepted filter asks of the values a record stores, said of the filter as it was submitted: text is compared
    folded on both sides, everything else as given. */
module FilterValues {
  import opened Results
  import opened Schema
  import opened Values
  import opened Orders
  import opened Filters
  import opened FilterSql
  import opened FilterMeaning
  import opened RecordWhere

  /** What a record holds in a field; a stored null is nothing. */
  function HeldAt(row: Row, f: string): Option<Value> {
    if f in row.values && row.values[f] != Null then Some(row.values[f]) else None
  }

  function Folded(lib: Library, v: Option<Value>): string {
    if v.Some? && v.value.Str? then lib.fold(v.value.text) else ""
  }

  ghost predicate Blank(lib: Library, t: FieldType, held: Option<Value>) {
    match t
    case Text => held.None? || Folded(lib, held) == ""
    case LongText => held.None? || Folded(lib, held) == ""
    case MultiSelect => held.None? || held == Some(List([]))
    case _ => held.None?
  }

  ghost predicate SameContent(lib: Library, t: FieldType, held: Option<Value>, given: Value) {
    if IsTextual(t) then held.Some? && Folded(lib, held) == Folded(lib, Some(given)) else held == Some(given)
  }

  predicate Before(a: Value, b: Value) {
    (a.Num? && b.Num? && a.number < b.number) || (a.Str? && b.Str? && StringLess(a.text, b.text))
  }

  /** One rule on one stored value. */
  ghost predicate Meets(lib: Library, t: FieldType, op: string, held: Option<Value>, given: Value) {
    var text, asked := Folded(lib, held), Folded(lib, Some(given));
    match op
    case "isEmpty" => Blank(lib, t, held)
    case "isNotEmpty" => !Blank(lib, t, held)
    case "is" => SameContent(lib, t, held, given)
    case "isNot" => !SameContent(lib, t, held, given)
    case "contains" => held.Some? && Occurs(asked, text)
    case "notContains" => !(held.Some? && Occurs(asked, text))
    case "startsWith" => held.Some? && asked <= text
    case "endsWith" => held.Some? && |asked| <= |text| && text[|text| - |asked|..] == asked
    case "includes" => held.Some? && held.value.List? && given in held.value.items
    case "excludes" => !(held.Some? && held.value.List? && given in held.value.items)
    case "greaterThan" => held.Some? && Before(given, held.value)
    case "greaterOrEqual" => held.Some? && (Before(given, held.value) || given == held.value)
    case "lessThan" => held.Some? && Before(held.value, given)
    case "lessOrEqual" => held.Some? && (Before(held.value, given) || given == held.value)
    case _ => false
  }

  /** A whole filter on a record's stored values. */
  ghost predicate FilterMeets(lib: Library, fields: Fields, node: FilterNode, row: Row) {
    if node.kind == "group" then
      if node.operator == "or" then exists i | 0 <= i < |node.children| :: FilterMeets(lib, fields, node.children[i], row)
      else forall i | 0 <= i < |node.children| :: FilterMeets(lib, fields, node.children[i], row)
    else
      node.fieldId in fields
      && Meets(lib, fields[node.fieldId].fieldType, node.operator, HeldAt(row, node.fieldId),
               if node.value.Some? then node.value.value else Null)
  }

  // ----- what the index shows of a stored value -----

  function Shown(lib: Library, t: FieldType, held: Option<Value>): Option<Value> {
    match held case None => None case Some(v) => Some(ProjectedValue(lib, t, v))
  }

  lemma CellShows(lib: Library, fields: Fields, row: Row, f: string)
    requires row.queryValues == Projection(lib, row.values, fields) && f in fields && !fields[f].deleted
    ensures Cell(row, f) == Shown(lib, fields[f].fieldType, HeldAt(row, f))
  {
  }

  /** Values of textual fields are texts. */
  ghost predicate TextsAreTexts(t: FieldType, held: Option<Value>) {
    held.Some? ==> held.value != Null && (IsTextual(t) ==> held.value.Str?)
  }

  lemma EmptyMeets(lib: Library, t: FieldType, op: string, held: Option<Value>)
    requires EmptyOperator(op) && Allowed(t, op) && TextsAreTexts(t, held)
    ensures RuleHolds(t, op, Shown(lib, t, held), Null) <==> Meets(lib, t, op, held, Null)
  {
  }

  lemma SameMeets(lib: Library, t: FieldType, op: string, held: Option<Value>, given: Value)
    requires (op == "is" || op == "isNot") && TextsAreTexts(t, held) && t != Location
    requires IsTextual(t) ==> given.Str?
    ensures RuleHolds(t, op, Shown(lib, t, held), NormalValue(lib, t, given)) <==> Meets(lib, t, op, held, given)
  {
  }

  lemma ItemMeets(lib: Library, op: string, held: Option<Value>, given: Value)
    requires op == "includes" || op == "excludes"
    ensures RuleHolds(MultiSelect, op, Shown(lib, MultiSelect, held), NormalValue(lib, MultiSelect, given)) <==>
            Meets(lib, MultiSelect, op, held, given)
  {
  }

  lemma OrderMeets(lib: Library, t: FieldType, op: string, held: Option<Value>, given: Value)
    requires op == "greaterThan" || op == "greaterOrEqual" || op == "lessThan" || op == "lessOrEqual"
    requires t == Number || t == Date
    ensures RuleHolds(t, op, Shown(lib, t, held), NormalValue(lib, t, given)) <==> Meets(lib, t, op, held, given)
  {
  }

  lemma TextMeets(lib: Library, t: FieldType, op: string, held: Option<Value>, given: Value)
    requires op == "contains" || op == "notContains" || op == "startsWith" || op == "endsWith"
    requires IsTextual(t) && given.Str? && TextsAreTexts(t, held)
    ensures RuleHolds(t, op, Shown(lib, t, held), NormalValue(lib, t, given)) <==> Meets(lib, t, op, held, given)
  {
    if op == "startsWith" {
      StartMeets(lib, t, held, given);
    } else if op == "endsWith" {
      EndMeets(lib, t, held, given);
    } else {
      ContainsMeets(lib, t, op, held, given);
    }
  }

  lemma ContainsMeets(lib: Library, t: FieldType, op: string, held: Option<Value>, given: Value)
    requires op == "contains" || op == "notContains"
    requires IsTextual(t) && given.Str? && TextsAreTexts(t, held)
    ensures RuleHolds(t, op, Shown(lib, t, held), NormalValue(lib, t, given)) <==> Meets(lib, t, op, held, given)
  {
  }

  lemma StartMeets(lib: Library, t: FieldType, held: Option<Value>, given: Value)
    requires IsTextual(t) && given.Str? && TextsAreTexts(t, held)
    ensures RuleHolds(t, "startsWith", Shown(lib, t, held), NormalValue(lib, t, given)) <==> Meets(lib, t, "startsWith", held, given)
  {
    StartsIsPrefix(Folded(lib, held), lib.fold(given.text));
  }

  lemma EndMeets(lib: Library, t: FieldType, held: Option<Value>, given: Value)
    requires IsTextual(t) && given.Str? && TextsAreTexts(t, held)
    ensures RuleHolds(t, "endsWith", Shown(lib, t, held), NormalValue(lib, t, given)) <==> Meets(lib, t, "endsWith", held, given)
  {
    EndIsSuffix(Folded(lib, held), lib.fold(given.text));
  }

  lemma EndIsSuffix(text: string, asked: string)
    ensures (|asked| <= |text| && text[|text| - |asked|..] == asked) <==> exists front :: text == front + asked
  {
    if |asked| <= |text| && text[|text| - |asked|..] == asked {
      assert text == text[..|text| - |asked|] + asked;
    }
  }

  /** Which operators a rule may use, operator by operator. */
  lemma OperatorsOffered(t: FieldType, op: string)
    ensures Allowed(t, op) <==>
            || (EmptyOperator(op) && t != Checkbox)
            || ((op == "is" || op == "isNot") && t != MultiSelect && t != Location && t != Attachment)
            || ((op == "includes" || op == "excludes") && t == MultiSelect)
            || ((op == "contains" || op == "notContains" || op == "startsWith" || op == "endsWith") && IsTextual(t))
            || ((op == "greaterThan" || op == "greaterOrEqual" || op == "lessThan" || op == "lessOrEqual") && (t == Number || t == Date))
  {
  }

  lemma GivenMeets(lib: Library, t: FieldType, op: string, held: Option<Value>, given: Value)
    requires Allowed(t, op) && !EmptyOperator(op) && TextsAreTexts(t, held) && (IsTextual(t) ==> given.Str?)
    ensures RuleHolds(t, op, Shown(lib, t, held), NormalValue(lib, t, given)) <==> Meets(lib, t, op, held, given)
  {
    OperatorsOffered(t, op);
    if op == "includes" || op == "excludes" {
      ItemMeets(lib, op, held, given);
    } else if op == "is" || op == "isNot" {
      SameMeets(lib, t, op, held, given);
    } else if op == "contains" || op == "notContains" || op == "startsWith" || op == "endsWith" {
      TextMeets(lib, t, op, held, given);
    } else {
      OrderMeets(lib, t, op, held, given);
    }
  }

  lemma GivenFits(lib: Library, field: Field, v: Value)
    requires ValueFits(lib, field, v)
    ensures IsTextual(field.fieldType) ==> v.Str?
  {
  }

  /** One rule: on the index after normalisation as on the stored value as submitted. */
  lemma RuleOnValues(lib: Library, fields: Fields, node: FilterNode, row: Row)
    requires node.kind == "rule" && NodeOk(lib, fields, node)
    requires row.queryValues == Projection(lib, row.values, fields) && TextRow(fields, row)
    ensures Holds(fields, Normal(lib, fields, node), row) <==> FilterMeets(lib, fields, node, row)
  {
    RuleParts(lib, fields, node);
    var t, op, held := fields[node.fieldId].fieldType, node.operator, HeldAt(row, node.fieldId);
    RuleActive(lib, fields, node);
    CellShows(lib, fields, row, node.fieldId);
    if EmptyOperator(op) {
      EmptyMeets(lib, t, op, held);
    } else {
      GivenFits(lib, fields[node.fieldId], node.value.value);
      GivenMeets(lib, t, op, held, node.value.value);
    }
  }

  lemma RuleActive(lib: Library, fields: Fields, node: FilterNode)
    requires node.kind == "rule" && NodeOk(lib, fields, node)
    ensures node.fieldId in fields && !fields[node.fieldId].deleted
    ensures EmptyOperator(node.operator) ==> node.value.None?
  {
  }

  /** Text fields hold texts. */
  ghost predicate TextRow(fields: Fields, row: Row) {
    forall f | f in fields :: TextsAreTexts(fields[f].fieldType, HeldAt(row, f))
  }

  lemma StoredIsText(lib: Library, fields: Fields, row: Row)
    requires forall f | f in row.values && f in fields :: Stored(lib, row.values[f], fields[f].fieldType, fields[f].config)
    ensures TextRow(fields, row)
  {
  }

  // ----- whole filters -----

  lemma {:induction false} NormalAt(lib: Library, fields: Fields, nodes: seq<FilterNode>, i: nat)
    requires i < |nodes|
    ensures NormalAll(lib, fields, nodes)[i] == Normal(lib, fields, nodes[i])
  {
    if i < |nodes| - 1 {
      NormalAt(lib, fields, nodes[..|nodes| - 1], i);
    }
  }

  lemma {:induction false} EachIsAll(fields: Fields, nodes: seq<FilterNode>, row: Row)
    ensures EachHolds(fields, nodes, row) <==> forall i | 0 <= i < |nodes| :: Holds(fields, nodes[i], row)
  {
    if nodes != [] {
      var front := nodes[..|nodes| - 1];
      EachIsAll(fields, front, row);
      if EachHolds(fields, nodes, row) {
        forall i | 0 <= i < |nodes| ensures Holds(fields, nodes[i], row) {
          assert i < |front| ==> nodes[i] == front[i];
        }
      }
      if forall i | 0 <= i < |nodes| :: Holds(fields, nodes[i], row) {
        forall i | 0 <= i < |front| ensures Holds(fields, front[i], row) {
          assert front[i] == nodes[i];
        }
      }
    }
  }

  /** An accepted filter, normalised, holds on the index exactly when the filter as submitted holds of the values. */
  lemma {:induction false} NormalOnValues(lib: Library, fields: Fields, node: FilterNode, row: Row)
    requires NodeOk(lib, fields, node)
    requires row.queryValues == Projection(lib, row.values, fields) && TextRow(fields, row)
    ensures Holds(fields, Normal(lib, fields, node), row) <==> FilterMeets(lib, fields, node, row)
    decreases node
  {
    if node.kind == "group" {
      var normal := NormalAll(lib, fields, node.children);
      forall i | 0 <= i < |node.children|
        ensures Holds(fields, normal[i], row) <==> FilterMeets(lib, fields, node.children[i], row)
      {
        AllOkAt(lib, fields, node.children, i);
        NormalAt(lib, fields, node.children, i);
        NormalOnValues(lib, fields, node.children[i], row);
      }
      EachIsAll(fields, normal, row);
      HoldsSomewhere(fields, normal, row);
      GroupMeets(lib, fields, node, normal, row);
    } else {
      RuleOnValues(lib, fields, node, row);
    }
  }

  lemma GroupMeets(lib: Library, fields: Fields, node: FilterNode, normal: seq<FilterNode>, row: Row)
    requires node.kind == "group" && |normal| == |node.children|
    requires forall i | 0 <= i < |normal| :: Holds(fields, normal[i], row) <==> FilterMeets(lib, fields, node.children[i], row)
    requires EachHolds(fields, normal, row) <==> forall i | 0 <= i < |normal| :: Holds(fields, normal[i], row)
    requires SomeHolds(fields, normal, row) <==> exists i | 0 <= i < |normal| :: Holds(fields, normal[i], row)
    ensures Holds(fields, node.(children := normal), row) <==> FilterMeets(lib, fields, node, row)
  {
  }

  /** Main result: whatever validation accepts compiles to a condition that is TRUE of a record with an up-to-date index
      exactly when the filter as submitted holds of the values the record stores. */
  lemma SubmittedFilterMeans(lib: Library, fields: Fields, node: FilterNode, row: Row)
    requires Acceptable(lib, fields, node) && row.queryValues == Projection(lib, row.values, fields)
    requires forall f | f in row.values && f in fields :: Stored(lib, row.values[f], fields[f].fieldType, fields[f].config)
    ensures Compile(fields, Normal(lib, fields, node)).Ok?
    ensures Eval(row, Compile(fields, Normal(lib, fields, node)).value) == Yes <==> FilterMeets(lib, fields, node, row)
  {
    IndexedIsShaped(lib, fields, row);
    AcceptedCompiles(lib, fields, node, row);
    StoredIsText(lib, fields, row);
    NormalOnValues(lib, fields, node, row);
  }
}
