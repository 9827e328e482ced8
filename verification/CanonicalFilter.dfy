/** The canonical form of a selection's filter: at every depth the children are sorted by their encoding and repeats
    are dropped. Two filters share it exactly when they differ only in the order and repetition of children. */
module CanonicalFilter {
  import opened Results
  import opened Schema
  import opened Values
  import opened Orders
  import opened Filters
  import opened FilterSql
  import opened FilterMeaning
  import opened FilterTexts

  function ByCode(enc: Encoding): (FilterNode, FilterNode) -> bool {
    (a, b) => CodeLess(enc(a), enc(b))
  }

  /** Neighbours with the same encoding collapse into the first of them. */
  function Compact(enc: Encoding, nodes: seq<FilterNode>): (r: seq<FilterNode>)
    ensures |r| <= |nodes| && (nodes != [] ==> r != [])
  {
    if nodes == [] then []
    else
      var front, last := Compact(enc, nodes[..|nodes| - 1]), nodes[|nodes| - 1];
      if front != [] && enc(front[|front| - 1]) == enc(last) then front else front + [last]
  }

  function Canonical(enc: Encoding, node: FilterNode): FilterNode {
    node.(children := Compact(enc, Sort(ByCode(enc), CanonicalAll(enc, node.children))))
  }

  function CanonicalAll(enc: Encoding, nodes: seq<FilterNode>): (r: seq<FilterNode>)
    ensures |r| == |nodes|
  {
    if nodes == [] then []
    else CanonicalAll(enc, nodes[..|nodes| - 1]) + [Canonical(enc, nodes[|nodes| - 1])]
  }

  // ----- the algorithm -----

  method CanonicalSelectionFilter(enc: Encoding, node: FilterNode) returns (result: FilterNode)
    requires Encodes(enc)
    ensures result == Canonical(enc, node)
    decreases node
  {
    var children: seq<FilterNode> := [];
    var i := 0;
    while i < |node.children|
      invariant 0 <= i <= |node.children|
      invariant children == CanonicalAll(enc, node.children[..i])
    {
      assert node.children[..i + 1][..i] == node.children[..i];
      var child := CanonicalSelectionFilter(enc, node.children[i]);
      children := children + [child];
      i := i + 1;
    }
    assert node.children[..i] == node.children;
    var sorted := Sort(ByCode(enc), children);
    var slice := new FilterNode[|sorted|](k requires 0 <= k < |sorted| => sorted[k]);
    assert slice[..] == sorted;
    var kept := CompactInPlace(enc, slice);
    result := node.(children := slice[..kept]);
  }

  /** The kept nodes are moved to the front of the slice they are read from. */
  method CompactInPlace(enc: Encoding, a: array<FilterNode>) returns (n: nat)
    requires forall node :: enc(node) != []
    modifies a
    ensures n <= a.Length && a[..n] == Compact(enc, old(a[..]))
  {
    ghost var given := a[..];
    n := 0;
    var previous: Code := [];
    var i := 0;
    while i < a.Length
      invariant 0 <= n <= i <= a.Length
      invariant a[..n] == Compact(enc, given[..i])
      invariant previous == if n == 0 then [] else enc(a[n - 1])
      invariant a[i..] == given[i..]
    {
      assert given[..i + 1][..i] == given[..i] && a[i] == given[i];
      if enc(a[i]) != previous {
        previous := enc(a[i]);
        a[n] := a[i];
        assert a[..n + 1] == a[..n] + [given[i]];
        n := n + 1;
      }
      assert a[i + 1..] == given[i + 1..];
      i := i + 1;
    }
    assert given[..i] == given;
  }

  // ----- equivalence -----

  /** Equal up to the order and repetition of children, at every depth. */
  ghost predicate Equivalent(a: FilterNode, b: FilterNode)
    decreases a, b
  {
    && a.kind == b.kind && a.operator == b.operator && a.fieldId == b.fieldId && a.value == b.value
    && (forall x | x in a.children :: exists y | y in b.children :: Equivalent(x, y))
    && (forall y | y in b.children :: exists x | x in a.children :: Equivalent(x, y))
  }

  lemma CodeOrder(enc: Encoding, s: set<FilterNode>)
    requires Encodes(enc)
    ensures TotalOn(ByCode(enc), s)
  {
    forall a, b | a in s && b in s ensures ByCode(enc)(a, b) || a == b || ByCode(enc)(b, a) {
      CodeLessTotal(enc(a), enc(b));
    }
    forall a | a in s ensures !ByCode(enc)(a, a) { CodeLessTotal(enc(a), enc(a)); }
    forall a, b, c | a in s && b in s && c in s && ByCode(enc)(a, b) && ByCode(enc)(b, c) ensures ByCode(enc)(a, c) {
      CodeLessTrans(enc(a), enc(b), enc(c));
    }
  }

  lemma CompactElements(enc: Encoding, nodes: seq<FilterNode>)
    requires Encodes(enc)
    ensures forall x :: x in Compact(enc, nodes) <==> x in nodes
    ensures nodes != [] ==> Compact(enc, nodes)[|Compact(enc, nodes)| - 1] == nodes[|nodes| - 1]
  {
    if nodes != [] {
      CompactLast(enc, nodes);
    }
    forall x ensures x in Compact(enc, nodes) <==> x in nodes {
      CompactMember(enc, nodes, x);
    }
  }

  lemma CompactLast(enc: Encoding, nodes: seq<FilterNode>)
    requires Encodes(enc) && nodes != []
    ensures Compact(enc, nodes)[|Compact(enc, nodes)| - 1] == nodes[|nodes| - 1]
  {
  }

  lemma {:induction false} CompactMember(enc: Encoding, nodes: seq<FilterNode>, x: FilterNode)
    requires Encodes(enc)
    ensures x in Compact(enc, nodes) <==> x in nodes
  {
    if nodes != [] {
      var front, last := nodes[..|nodes| - 1], nodes[|nodes| - 1];
      CompactMember(enc, front, x);
      CompactLast(enc, nodes);
      LastOrFront(nodes, x);
      LastIn(Compact(enc, nodes));
    }
  }

  lemma LastOrFront(nodes: seq<FilterNode>, x: FilterNode)
    requires nodes != []
    ensures x in nodes <==> x in nodes[..|nodes| - 1] || x == nodes[|nodes| - 1]
  {
    assert nodes == nodes[..|nodes| - 1] + [nodes[|nodes| - 1]];
  }

  lemma LastIn(nodes: seq<FilterNode>)
    requires nodes != []
    ensures nodes[|nodes| - 1] in nodes
  {
  }

  /** Compacting a sorted list leaves every element once, in ascending order. */
  lemma {:induction false} CompactAscending(enc: Encoding, nodes: seq<FilterNode>)
    requires Encodes(enc) && Sorted(ByCode(enc), nodes)
    ensures Ascending(ByCode(enc), Compact(enc, nodes))
  {
    if nodes != [] {
      var front, last := nodes[..|nodes| - 1], nodes[|nodes| - 1];
      CompactAscending(enc, front);
      CompactElements(enc, front);
      var kept := Compact(enc, front);
      if Compact(enc, nodes) != kept {
        forall i | 0 <= i < |kept| ensures ByCode(enc)(kept[i], last) {
          LastIsLargest(enc, nodes, kept, i);
        }
      }
    }
  }

  lemma LastIsLargest(enc: Encoding, nodes: seq<FilterNode>, kept: seq<FilterNode>, i: nat)
    requires Encodes(enc) && nodes != [] && Sorted(ByCode(enc), nodes) && Ascending(ByCode(enc), kept)
    requires forall x | x in kept :: x in nodes[..|nodes| - 1]
    requires i < |kept| && kept[|kept| - 1] != nodes[|nodes| - 1]
    ensures ByCode(enc)(kept[i], nodes[|nodes| - 1])
  {
    var last, top := nodes[|nodes| - 1], kept[|kept| - 1];
    assert top in kept;
    var j :| 0 <= j < |nodes| - 1 && nodes[j] == top;
    assert !ByCode(enc)(last, top);
    CodeLessTotal(enc(top), enc(last));
    assert ByCode(enc)(top, last);
    if i < |kept| - 1 {
      CodeLessTrans(enc(kept[i]), enc(top), enc(last));
    }
  }

  /** The canonical forms of a node's children. */
  function ChildForms(enc: Encoding, node: FilterNode): set<FilterNode> {
    Forms(node.children, c => Canonical(enc, c))
  }

  /** The children of a canonical node: the canonical children, each once, ascending. */
  lemma CanonicalChildren(enc: Encoding, node: FilterNode)
    requires Encodes(enc)
    ensures Ascending(ByCode(enc), Canonical(enc, node).children)
    ensures Elements(Canonical(enc, node).children) == ChildForms(enc, node)
    ensures SameHead(node, Canonical(enc, node))
  {
    SortedForms(enc, CanonicalAll(enc, node.children));
    CanonicalAllElements(enc, node.children);
  }

  lemma SortedForms(enc: Encoding, all: seq<FilterNode>)
    requires Encodes(enc)
    ensures Ascending(ByCode(enc), Compact(enc, Sort(ByCode(enc), all)))
    ensures Elements(Compact(enc, Sort(ByCode(enc), all))) == Elements(all)
  {
    var sorted := Sort(ByCode(enc), all);
    CodeOrder(enc, Elements(all));
    SortSorted(ByCode(enc), all);
    SameElements(sorted, all);
    CompactAscending(enc, sorted);
    CompactElements(enc, sorted);
  }

  lemma {:induction false} CanonicalAllElements(enc: Encoding, nodes: seq<FilterNode>)
    ensures Elements(CanonicalAll(enc, nodes)) == Forms(nodes, c => Canonical(enc, c))
  {
    var form := c => Canonical(enc, c);
    if nodes != [] {
      var front, last := nodes[..|nodes| - 1], nodes[|nodes| - 1];
      CanonicalAllElements(enc, front);
      MoreForms(form, nodes);
      ElementsMore(CanonicalAll(enc, front), form(last));
    } else {
      assert Elements<FilterNode>([]) == {};
    }
  }

  lemma ElementsMore(nodes: seq<FilterNode>, last: FilterNode)
    ensures Elements(nodes + [last]) == Elements(nodes) + {last}
  {
  }

  lemma MoreForms(form: FilterNode -> FilterNode, nodes: seq<FilterNode>)
    requires nodes != []
    ensures Forms(nodes, form) == Forms(nodes[..|nodes| - 1], form) + {form(nodes[|nodes| - 1])}
  {
    forall x ensures x in nodes <==> x in nodes[..|nodes| - 1] || x == nodes[|nodes| - 1] {
      LastOrFront(nodes, x);
    }
  }

  predicate SameHead(a: FilterNode, b: FilterNode) {
    a.kind == b.kind && a.operator == b.operator && a.fieldId == b.fieldId && a.value == b.value
  }

  lemma SameForms(enc: Encoding, a: FilterNode, b: FilterNode)
    requires Encodes(enc)
    ensures Canonical(enc, a) == Canonical(enc, b) <==> SameHead(a, b) && ChildForms(enc, a) == ChildForms(enc, b)
  {
    CanonicalChildren(enc, a);
    CanonicalChildren(enc, b);
    if SameHead(a, b) && ChildForms(enc, a) == ChildForms(enc, b) {
      CodeOrder(enc, ChildForms(enc, a));
      AscendingUnique(ByCode(enc), Canonical(enc, a).children, Canonical(enc, b).children);
      SameNode(Canonical(enc, a), Canonical(enc, b));
    }
  }

  lemma SameNode(a: FilterNode, b: FilterNode)
    requires SameHead(a, b) && a.children == b.children
    ensures a == b
  {
  }

  /** Two filters have the same canonical form exactly when they are equivalent. */
  lemma {:induction false} SameCanonical(enc: Encoding, a: FilterNode, b: FilterNode)
    requires Encodes(enc)
    ensures Canonical(enc, a) == Canonical(enc, b) <==> Equivalent(a, b)
    decreases a, b
  {
    forall x, y | x in a.children && y in b.children
      ensures Canonical(enc, x) == Canonical(enc, y) <==> Equivalent(x, y)
    {
      SameCanonical(enc, x, y);
    }
    SameForms(enc, a, b);
    var form := c => Canonical(enc, c);
    EquivalentForms(a, b, form);
    assert ChildForms(enc, a) == Forms(a.children, form) && ChildForms(enc, b) == Forms(b.children, form);
  }

  function Forms(nodes: seq<FilterNode>, form: FilterNode -> FilterNode): set<FilterNode> {
    set c | c in nodes :: form(c)
  }

  ghost predicate Paired(a: seq<FilterNode>, b: seq<FilterNode>, form: FilterNode -> FilterNode) {
    forall x, y | x in a && y in b :: form(x) == form(y) <==> Equivalent(x, y)
  }

  ghost predicate Covers(a: seq<FilterNode>, b: seq<FilterNode>) {
    forall x | x in a :: exists y | y in b :: Equivalent(x, y)
  }

  ghost predicate CoveredBy(a: seq<FilterNode>, b: seq<FilterNode>) {
    forall y | y in b :: exists x | x in a :: Equivalent(x, y)
  }

  lemma EquivalentForms(a: FilterNode, b: FilterNode, form: FilterNode -> FilterNode)
    requires Paired(a.children, b.children, form)
    ensures Equivalent(a, b) <==> SameHead(a, b) && Forms(a.children, form) == Forms(b.children, form)
  {
    assert Equivalent(a, b) <==> SameHead(a, b) && Covers(a.children, b.children) && CoveredBy(a.children, b.children);
    CoverForms(a.children, b.children, form);
  }

  lemma CoverForms(a: seq<FilterNode>, b: seq<FilterNode>, form: FilterNode -> FilterNode)
    requires Paired(a, b, form)
    ensures Covers(a, b) && CoveredBy(a, b) <==> Forms(a, form) == Forms(b, form)
  {
    if Covers(a, b) && CoveredBy(a, b) {
      forall x ensures x in Forms(a, form) <==> x in Forms(b, form) {
        if x in Forms(a, form) { FormCrosses(a, b, form, x); }
        if x in Forms(b, form) { FormCrossesBack(a, b, form, x); }
      }
    } else if Forms(a, form) == Forms(b, form) {
      SameFormsCover(a, b, form);
    }
  }

  lemma FormCrosses(a: seq<FilterNode>, b: seq<FilterNode>, form: FilterNode -> FilterNode, x: FilterNode)
    requires Paired(a, b, form) && x in Forms(a, form)
    requires Covers(a, b)
    ensures x in Forms(b, form)
  {
    var c :| c in a && form(c) == x;
    var d :| d in b && Equivalent(c, d);
    assert form(d) == x;
  }

  lemma FormCrossesBack(a: seq<FilterNode>, b: seq<FilterNode>, form: FilterNode -> FilterNode, x: FilterNode)
    requires Paired(a, b, form) && x in Forms(b, form)
    requires CoveredBy(a, b)
    ensures x in Forms(a, form)
  {
    var d :| d in b && form(d) == x;
    var c :| c in a && Equivalent(c, d);
    assert form(c) == x;
  }

  lemma SameFormsCover(a: seq<FilterNode>, b: seq<FilterNode>, form: FilterNode -> FilterNode)
    requires Paired(a, b, form) && Forms(a, form) == Forms(b, form)
    ensures Covers(a, b) && CoveredBy(a, b)
  {
    forall c | c in a ensures exists d | d in b :: Equivalent(c, d) {
      assert form(c) in Forms(b, form);
    }
    forall d | d in b ensures exists c | c in a :: Equivalent(c, d) {
      assert form(d) in Forms(a, form);
    }
  }

  // ----- the canonical form is a normal form, and means the same -----

  /** Canonicalising again changes nothing. */
  lemma {:induction false} CanonicalIdempotent(enc: Encoding, a: FilterNode)
    requires Encodes(enc)
    ensures Canonical(enc, Canonical(enc, a)) == Canonical(enc, a)
    decreases a
  {
    forall c | c in a.children ensures Canonical(enc, Canonical(enc, c)) == Canonical(enc, c) {
      CanonicalIdempotent(enc, c);
    }
    var d := Canonical(enc, a);
    CanonicalChildren(enc, a);
    FormsOfForms(a.children, d.children, c => Canonical(enc, c));
    SameForms(enc, d, a);
  }

  lemma FormsOfForms(a: seq<FilterNode>, d: seq<FilterNode>, form: FilterNode -> FilterNode)
    requires Elements(d) == set c | c in a :: form(c)
    requires forall c | c in a :: form(form(c)) == form(c)
    ensures (set y | y in d :: form(y)) == (set c | c in a :: form(c))
  {
    forall y | y in d ensures form(y) == y {
      assert y in Elements(d);
    }
    var s, t := set y | y in d :: form(y), set c | c in a :: form(c);
    forall x ensures x in s <==> x in t {
      assert x in Elements(d) <==> x in d;
    }
  }

  lemma {:induction false} EachHoldsAt(fields: Fields, nodes: seq<FilterNode>, row: Row)
    ensures EachHolds(fields, nodes, row) <==> forall n | n in nodes :: Holds(fields, n, row)
    ensures SomeHolds(fields, nodes, row) <==> exists n | n in nodes :: Holds(fields, n, row)
  {
    if nodes != [] {
      var front, last := nodes[..|nodes| - 1], nodes[|nodes| - 1];
      EachHoldsAt(fields, front, row);
      assert nodes == front + [last];
      assert last in nodes && forall n | n in front :: n in nodes;
    }
  }

  /** The canonical form selects the same rows as the filter it was made from. */
  lemma {:induction false} CanonicalHolds(enc: Encoding, fields: Fields, node: FilterNode, row: Row)
    requires Encodes(enc)
    ensures Holds(fields, Canonical(enc, node), row) <==> Holds(fields, node, row)
    decreases node
  {
    CanonicalChildren(enc, node);
    if node.kind == "group" {
      forall c | c in node.children ensures Holds(fields, Canonical(enc, c), row) <==> Holds(fields, c, row) {
        CanonicalHolds(enc, fields, c, row);
      }
      var d := Canonical(enc, node);
      EachHoldsAt(fields, node.children, row);
      EachHoldsAt(fields, d.children, row);
      FormsHold(fields, node.children, d.children, c => Canonical(enc, c), row);
    }
  }

  lemma FormsHold(fields: Fields, a: seq<FilterNode>, d: seq<FilterNode>, form: FilterNode -> FilterNode, row: Row)
    requires Elements(d) == set c | c in a :: form(c)
    requires forall c | c in a :: Holds(fields, form(c), row) <==> Holds(fields, c, row)
    ensures (forall n | n in a :: Holds(fields, n, row)) <==> (forall n | n in d :: Holds(fields, n, row))
    ensures (exists n | n in a :: Holds(fields, n, row)) <==> (exists n | n in d :: Holds(fields, n, row))
  {
    forall n | n in a ensures form(n) in d && (Holds(fields, form(n), row) <==> Holds(fields, n, row)) {
      assert form(n) in Elements(d);
    }
    forall n | n in d ensures exists c | c in a :: form(c) == n {
      assert n in Elements(d);
    }
  }

  /** Equivalent filters select the same rows. */
  lemma EquivalentHolds(enc: Encoding, fields: Fields, a: FilterNode, b: FilterNode, row: Row)
    requires Encodes(enc) && Equivalent(a, b)
    ensures Holds(fields, a, row) <==> Holds(fields, b, row)
  {
    SameCanonical(enc, a, b);
    CanonicalHolds(enc, fields, a, row);
    CanonicalHolds(enc, fields, b, row);
  }

  lemma {:induction false} AllOkElements(lib: Library, fields: Fields, nodes: seq<FilterNode>)
    ensures AllOk(lib, fields, nodes) <==> forall n | n in nodes :: NodeOk(lib, fields, n)
  {
    if nodes != [] {
      var front, last := nodes[..|nodes| - 1], nodes[|nodes| - 1];
      AllOkElements(lib, fields, front);
      assert nodes == front + [last];
      assert last in nodes && forall n | n in front :: n in nodes;
    }
  }

  lemma NoElements(nodes: seq<FilterNode>)
    requires Elements(nodes) == {}
    ensures nodes == []
  {
    if |nodes| > 0 {
      var n := nodes[|nodes| - 1];
      assert nodes == nodes[..|nodes| - 1] + [n];
      ElementsMore(nodes[..|nodes| - 1], n);
      assert false;
    }
  }

  /** And is accepted again. */
  lemma {:induction false} CanonicalOk(enc: Encoding, lib: Library, fields: Fields, node: FilterNode)
    requires Encodes(enc) && NodeOk(lib, fields, node)
    ensures NodeOk(lib, fields, Canonical(enc, node))
    decreases node
  {
    var d := Canonical(enc, node);
    CanonicalChildren(enc, node);
    if node.kind == "group" {
      AllOkElements(lib, fields, node.children);
      forall n | n in d.children ensures NodeOk(lib, fields, n) {
        assert n in Elements(d.children);
        var c :| c in node.children && Canonical(enc, c) == n;
        CanonicalOk(enc, lib, fields, c);
      }
      AllOkElements(lib, fields, d.children);
      assert node.children[0] in node.children;
      assert Canonical(enc, node.children[0]) in Elements(d.children);
    } else {
      assert ChildForms(enc, node) == {};
      NoElements(d.children);
    }
  }
}
