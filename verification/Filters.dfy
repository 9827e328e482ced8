/** Filter trees: what is accepted, the normal form that acceptance produces, and what a filter means. */
module Filters {
  import opened Results
  import opened Schema
  import opened Values
  import opened Orders

  const MAX_DEPTH: nat := 8
  const MAX_NODES: nat := 100

  /** A group (`and`, `or`) or a rule on one field; the value is absent when the request carried none. */
  datatype FilterNode = FilterNode(
    kind: string, operator: string, children: seq<FilterNode>, fieldId: string, value: Option<Value>)

  // ----- acceptance -----

  predicate EmptyOperator(op: string) {
    op == "isEmpty" || op == "isNotEmpty"
  }

  predicate TextOperator(op: string) {
    op in ["is", "isNot", "contains", "notContains", "startsWith", "endsWith"]
  }

  predicate OrderOperator(op: string) {
    op in ["is", "isNot", "greaterThan", "greaterOrEqual", "lessThan", "lessOrEqual"]
  }

  predicate Allowed(t: FieldType, op: string) {
    match t
    case Text => TextOperator(op) || EmptyOperator(op)
    case LongText => TextOperator(op) || EmptyOperator(op)
    case Url => TextOperator(op) || EmptyOperator(op)
    case Number => OrderOperator(op) || EmptyOperator(op)
    case Date => OrderOperator(op) || EmptyOperator(op)
    case Checkbox => op == "is" || op == "isNot"
    case Select => op == "is" || op == "isNot" || EmptyOperator(op)
    case MultiSelect => op == "includes" || op == "excludes" || EmptyOperator(op)
    case Location => EmptyOperator(op)
    case Attachment => EmptyOperator(op)
  }

  predicate ValueFits(lib: Library, field: Field, v: Value) {
    match field.fieldType
    case Text => v.Str?
    case LongText => v.Str?
    case Url => v.Str?
    case Number => v.Num?
    case Checkbox => v.Bool?
    case Date => v.Str? && lib.validDate(v.text)
    case Select => v.Str? && lib.optionId(v.text) && KnownOption(ConfigOf(field), v.text)
    case MultiSelect => v.Str? && lib.optionId(v.text) && KnownOption(ConfigOf(field), v.text)
    case Location => false
    case Attachment => false
  }

  predicate RuleOk(lib: Library, fields: Fields, node: FilterNode) {
    && node.children == [] && node.fieldId != "" && node.operator != ""
    && lib.fieldId(node.fieldId) && node.fieldId in fields && !fields[node.fieldId].deleted
    && Allowed(fields[node.fieldId].fieldType, node.operator)
    && if EmptyOperator(node.operator) then node.value.None?
       else node.value.Some? && ValueFits(lib, fields[node.fieldId], node.value.value)
  }

  predicate GroupOk(node: FilterNode) {
    && (node.operator == "and" || node.operator == "or") && node.children != []
    && node.fieldId == "" && node.value.None?
  }

  predicate NodeOk(lib: Library, fields: Fields, node: FilterNode) {
    if node.kind == "group" then GroupOk(node) && AllOk(lib, fields, node.children)
    else node.kind == "rule" && RuleOk(lib, fields, node)
  }

  predicate AllOk(lib: Library, fields: Fields, nodes: seq<FilterNode>) {
    nodes == [] || (AllOk(lib, fields, nodes[..|nodes| - 1]) && NodeOk(lib, fields, nodes[|nodes| - 1]))
  }

  function Size(node: FilterNode): (n: nat)
    ensures n >= 1
  {
    1 + SizeAll(node.children)
  }

  function SizeAll(nodes: seq<FilterNode>): nat {
    if nodes == [] then 0 else SizeAll(nodes[..|nodes| - 1]) + Size(nodes[|nodes| - 1])
  }

  function Height(node: FilterNode): (n: nat)
    ensures n >= 1
  {
    1 + HeightAll(node.children)
  }

  function HeightAll(nodes: seq<FilterNode>): nat {
    if nodes == [] then 0
    else
      var before, last := HeightAll(nodes[..|nodes| - 1]), Height(nodes[|nodes| - 1]);
      if before >= last then before else last
  }

  predicate Acceptable(lib: Library, fields: Fields, node: FilterNode) {
    NodeOk(lib, fields, node) && Height(node) <= MAX_DEPTH && Size(node) <= MAX_NODES
  }

  /** The stored form of a rule's value: text is folded as the index folds it. */
  function NormalValue(lib: Library, t: FieldType, v: Value): Value {
    if IsTextual(t) && v.Str? then Str(lib.fold(v.text)) else v
  }

  function Normal(lib: Library, fields: Fields, node: FilterNode): FilterNode {
    if node.kind == "group" then node.(children := NormalAll(lib, fields, node.children))
    else if node.value.Some? && node.fieldId in fields then
      node.(value := Some(NormalValue(lib, fields[node.fieldId].fieldType, node.value.value)))
    else node
  }

  function NormalAll(lib: Library, fields: Fields, nodes: seq<FilterNode>): (r: seq<FilterNode>)
    ensures |r| == |nodes|
  {
    if nodes == [] then []
    else NormalAll(lib, fields, nodes[..|nodes| - 1]) + [Normal(lib, fields, nodes[|nodes| - 1])]
  }

  // ----- the walk -----

  /** What a walk from `depth` with `count` nodes already seen accepts. */
  predicate Fits(lib: Library, fields: Fields, node: FilterNode, depth: nat, count: nat) {
    NodeOk(lib, fields, node) && depth + Height(node) <= MAX_DEPTH + 1 && count + Size(node) <= MAX_NODES
  }

  predicate AllFit(lib: Library, fields: Fields, nodes: seq<FilterNode>, depth: nat, count: nat) {
    AllOk(lib, fields, nodes) && depth + HeightAll(nodes) <= MAX_DEPTH + 1 && count + SizeAll(nodes) <= MAX_NODES
  }

  lemma FitsByKind(lib: Library, fields: Fields, node: FilterNode, depth: nat, count: nat)
    requires depth <= MAX_DEPTH && count < MAX_NODES
    ensures node.kind == "group" ==>
              (Fits(lib, fields, node, depth, count) <==> GroupOk(node) && AllFit(lib, fields, node.children, depth + 1, count + 1))
    ensures node.kind == "rule" ==> (Fits(lib, fields, node, depth, count) <==> RuleOk(lib, fields, node))
    ensures node.kind != "group" && node.kind != "rule" ==> !Fits(lib, fields, node, depth, count)
    ensures Size(node) == 1 + SizeAll(node.children)
  {
    assert HeightAll([]) == 0 && SizeAll([]) == 0;
  }

  method Walk(lib: Library, fields: Fields, node: FilterNode, depth: nat, count: nat)
    returns (normal: FilterNode, count': nat, ok: bool)
    ensures ok <==> Fits(lib, fields, node, depth, count)
    ensures ok ==> normal == Normal(lib, fields, node) && count' == count + Size(node)
    decreases node, 0
  {
    normal, count', ok := node, count + 1, false;
    if depth > MAX_DEPTH || count' > MAX_NODES {
      return;
    }
    FitsByKind(lib, fields, node, depth, count);
    if node.kind == "group" {
      var children, total, fine := WalkAll(lib, fields, node.children, depth + 1, count');
      normal, count' := node.(children := children), total;
      ok := fine && GroupOk(node);
    } else if node.kind == "rule" {
      ok := RuleOk(lib, fields, node);
      if ok && node.value.Some? {
        normal := node.(value := Some(NormalValue(lib, fields[node.fieldId].fieldType, node.value.value)));
      }
    }
  }

  method WalkAll(lib: Library, fields: Fields, nodes: seq<FilterNode>, depth: nat, count: nat)
    returns (normal: seq<FilterNode>, count': nat, ok: bool)
    requires depth <= MAX_DEPTH + 1
    requires count <= MAX_NODES
    ensures ok <==> AllFit(lib, fields, nodes, depth, count)
    ensures ok ==> normal == NormalAll(lib, fields, nodes) && count' == count + SizeAll(nodes)
    decreases nodes, 1
  {
    normal, count', ok := [], count, true;
    var index := 0;
    while index < |nodes|
      invariant 0 <= index <= |nodes|
      invariant ok <==> AllFit(lib, fields, nodes[..index], depth, count)
      invariant ok ==> normal == NormalAll(lib, fields, nodes[..index]) && count' == count + SizeAll(nodes[..index])
      invariant !ok ==> !AllFit(lib, fields, nodes, depth, count)
    {
      assert nodes[..index + 1][..index] == nodes[..index];
      var child, total, fine := Walk(lib, fields, nodes[index], depth, count');
      if !(ok && fine) {
        FitsPrefix(lib, fields, nodes, depth, count, index + 1);
      }
      normal, count', ok := normal + [child], total, ok && fine;
      index := index + 1;
    }
    assert nodes[..index] == nodes;
  }

  lemma {:induction false} FitsPrefix(lib: Library, fields: Fields, nodes: seq<FilterNode>, depth: nat, count: nat, n: nat)
    requires n <= |nodes|
    ensures AllFit(lib, fields, nodes, depth, count) ==> AllFit(lib, fields, nodes[..n], depth, count)
  {
    if n < |nodes| {
      FitsPrefix(lib, fields, nodes[..|nodes| - 1], depth, count, n);
      assert nodes[..|nodes| - 1][..n] == nodes[..n];
    } else {
      assert nodes[..n] == nodes;
    }
  }

  method ValidateFilter(lib: Library, fields: Fields, filter: Option<FilterNode>) returns (result: Result<Option<FilterNode>, ()>)
    ensures result.Ok? <==> filter.None? || Acceptable(lib, fields, filter.value)
    ensures result.Ok? ==> result.value == match filter case None => None case Some(node) => Some(Normal(lib, fields, node))
  {
    if filter.None? {
      return Ok(None);
    }
    var normal, _, ok := Walk(lib, fields, filter.value, 1, 0);
    return if ok then Ok(Some(normal)) else Err(());
  }
}
