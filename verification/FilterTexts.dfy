/** The text a filter node is encoded to. Nodes are sorted and told apart by it; a number counts as one letter, so that
    texts can tell any two nodes apart. */
module FilterTexts {
  import opened Results
  import opened Schema
  import opened Orders
  import opened Filters

  datatype Letter = Sign(c: char) | Numeral(x: real)

  type Code = seq<Letter>

  predicate LetterLess(a: Letter, b: Letter) {
    if a.Sign? then (if b.Sign? then a.c < b.c else true) else b.Numeral? && a.x < b.x
  }

  /** Lexicographic order. */
  predicate CodeLess(a: Code, b: Code) {
    if b == [] then false
    else if a == [] then true
    else LetterLess(a[0], b[0]) || (a[0] == b[0] && CodeLess(a[1..], b[1..]))
  }

  lemma {:induction false} CodeLessTrans(a: Code, b: Code, c: Code)
    requires CodeLess(a, b) && CodeLess(b, c)
    ensures CodeLess(a, c)
  {
    if a != [] && a[0] == b[0] && b[0] == c[0] {
      CodeLessTrans(a[1..], b[1..], c[1..]);
    }
  }

  lemma {:induction false} CodeLessTotal(a: Code, b: Code)
    ensures !CodeLess(a, a)
    ensures CodeLess(a, b) || a == b || CodeLess(b, a)
  {
    if a != [] {
      CodeLessTotal(a[1..], if b == [] then [] else b[1..]);
      if b != [] && a[0] == b[0] && a[1..] == b[1..] {
        assert a == [a[0]] + a[1..] && b == [b[0]] + b[1..];
      }
    }
  }

  type Encoding = FilterNode -> Code

  /** The text of a node is never empty and tells any two nodes apart. */
  ghost predicate Encodes(enc: Encoding) {
    (forall a, b :: enc(a) == enc(b) ==> a == b) && (forall a :: enc(a) != [])
  }

  // ----- such an encoding exists -----

  function Signs(s: string): Code {
    seq(|s|, i requires 0 <= i < |s| => Sign(s[i]))
  }

  function WriteString(s: string): Code {
    [Numeral(|s| as real)] + Signs(s)
  }

  function WriteValue(v: Value): Code
    decreases v, 1, 0
  {
    match v
    case Null => [Sign('n')]
    case Str(text) => [Sign('s')] + WriteString(text)
    case Num(number) => [Sign('d'), Numeral(number)]
    case Bool(flag) => [Sign(if flag then 't' else 'f')]
    case List(items) => [Sign('l'), Numeral(|items| as real)] + WriteValues(items)
    case Obj(members) =>
      var keys := KeysOf(v);
      [Sign('o'), Numeral(|keys| as real)] + WriteMembers(v, keys)
  }

  function WriteValues(items: seq<Value>): Code
    decreases items, 0, 0
  {
    if items == [] then [] else WriteValue(items[0]) + WriteValues(items[1..])
  }

  /** The member names of an object, in order. */
  function KeysOf(v: Value): (keys: seq<string>)
    requires v.Obj?
    ensures forall k :: k in keys <==> k in v.members
  {
    SortedSetMembers(v.members.Keys);
    SortedSet(v.members.Keys)
  }

  function WriteMembers(v: Value, keys: seq<string>): Code
    requires v.Obj? && forall k | k in keys :: k in v.members
    decreases v, 0, |keys|
  {
    if keys == [] then [] else WriteString(keys[0]) + WriteValue(v.members[keys[0]]) + WriteMembers(v, keys[1..])
  }

  function WriteOption(value: Option<Value>): Code {
    match value case None => [Sign('-')] case Some(v) => [Sign('+')] + WriteValue(v)
  }

  function WriteNode(node: FilterNode): Code
    decreases node, 1
  {
    WriteString(node.kind) + WriteString(node.operator) + WriteString(node.fieldId)
    + WriteOption(node.value)
    + [Numeral(|node.children| as real)] + WriteNodes(node.children)
  }

  function WriteNodes(nodes: seq<FilterNode>): Code
    decreases nodes, 0
  {
    if nodes == [] then [] else WriteNode(nodes[0]) + WriteNodes(nodes[1..])
  }

  // ----- reading it back -----

  lemma Cut(a: Code, x: Code, b: Code, y: Code)
    requires a + x == b + y && |a| == |b|
    ensures a == b && x == y
  {
    assert a == (a + x)[..|a|] && b == (b + y)[..|b|];
    assert x == (a + x)[|a|..] && y == (b + y)[|b|..];
  }

  lemma Regroup(a: Code, b: Code, c: Code)
    ensures (a + b) + c == a + (b + c)
  {
  }

  lemma StringApart(s: string, x: Code, t: string, y: Code)
    requires WriteString(s) + x == WriteString(t) + y
    ensures s == t && x == y
  {
    assert (WriteString(s) + x)[0] == Numeral(|s| as real) && (WriteString(t) + y)[0] == Numeral(|t| as real);
    Cut(WriteString(s), x, WriteString(t), y);
    Cut([Numeral(|s| as real)], Signs(s), [Numeral(|t| as real)], Signs(t));
    forall i | 0 <= i < |s| ensures s[i] == t[i] {
      assert Signs(s)[i] == Signs(t)[i];
    }
  }

  /** The first letter says what kind of value follows. */
  function Mark(v: Value): char {
    match v
    case Null => 'n' case Str(_) => 's' case Num(_) => 'd' case Bool(flag) => if flag then 't' else 'f'
    case List(_) => 'l' case Obj(_) => 'o'
  }

  function Body(v: Value): Code {
    match v
    case Null => [] case Bool(_) => []
    case Str(text) => WriteString(text)
    case Num(number) => [Numeral(number)]
    case List(items) => [Numeral(|items| as real)] + WriteValues(items)
    case Obj(members) => [Numeral(|KeysOf(v)| as real)] + WriteMembers(v, KeysOf(v))
  }

  lemma MarkedBody(v: Value)
    ensures WriteValue(v) == [Sign(Mark(v))] + Body(v)
  {
  }

  lemma {:induction false} ValueApart(v: Value, x: Code, w: Value, y: Code)
    requires WriteValue(v) + x == WriteValue(w) + y
    ensures v == w && x == y
    decreases v, 2, 0
  {
    MarkedBody(v);
    MarkedBody(w);
    Regroup([Sign(Mark(v))], Body(v), x);
    Regroup([Sign(Mark(w))], Body(w), y);
    Cut([Sign(Mark(v))], Body(v) + x, [Sign(Mark(w))], Body(w) + y);
    assert Sign(Mark(v)) == [Sign(Mark(v))][0] && Sign(Mark(w)) == [Sign(Mark(w))][0];
    match v {
      case Null => Cut([], x, [], y);
      case Bool(_) => Cut([], x, [], y);
      case Str(text) => StringApart(text, x, w.text, y);
      case Num(number) =>
        Cut([Numeral(number)], x, [Numeral(w.number)], y);
        assert [Numeral(number)][0] == [Numeral(w.number)][0];
      case List(items) => ListApart(v, x, w, y);
      case Obj(members) => ObjectApart(v, x, w, y);
    }
  }

  lemma {:induction false} ListApart(v: Value, x: Code, w: Value, y: Code)
    requires v.List? && w.List? && Body(v) + x == Body(w) + y
    ensures v == w && x == y
    decreases v, 0, 0
  {
    var m, n := [Numeral(|v.items| as real)], [Numeral(|w.items| as real)];
    Regroup(m, WriteValues(v.items), x);
    Regroup(n, WriteValues(w.items), y);
    Cut(m, WriteValues(v.items) + x, n, WriteValues(w.items) + y);
    assert m[0] == n[0];
    ValuesApart(v.items, x, w.items, y);
  }

  lemma {:induction false} ValuesApart(v: seq<Value>, x: Code, w: seq<Value>, y: Code)
    requires |v| == |w| && WriteValues(v) + x == WriteValues(w) + y
    ensures v == w && x == y
    decreases v, 0, 0
  {
    if v == [] {
      Cut([], x, [], y);
    } else {
      Regroup(WriteValue(v[0]), WriteValues(v[1..]), x);
      Regroup(WriteValue(w[0]), WriteValues(w[1..]), y);
      ValueApart(v[0], WriteValues(v[1..]) + x, w[0], WriteValues(w[1..]) + y);
      ValuesApart(v[1..], x, w[1..], y);
      assert v == [v[0]] + v[1..] && w == [w[0]] + w[1..];
    }
  }

  lemma {:induction false} ObjectApart(v: Value, x: Code, w: Value, y: Code)
    requires v.Obj? && w.Obj? && Body(v) + x == Body(w) + y
    ensures v == w && x == y
    decreases v, 1, 0
  {
    var j, k := KeysOf(v), KeysOf(w);
    var m, n := [Numeral(|j| as real)], [Numeral(|k| as real)];
    Regroup(m, WriteMembers(v, j), x);
    Regroup(n, WriteMembers(w, k), y);
    Cut(m, WriteMembers(v, j) + x, n, WriteMembers(w, k) + y);
    assert m[0] == n[0];
    MembersApart(v, j, x, w, k, y);
    SameMembers(v, w, j);
  }

  lemma SameMembers(v: Value, w: Value, keys: seq<string>)
    requires v.Obj? && w.Obj?
    requires forall k :: (k in keys <==> k in v.members) && (k in keys <==> k in w.members)
    requires forall k | k in keys :: v.members[k] == w.members[k]
    ensures v == w
  {
    assert v.members == w.members;
  }

  lemma {:induction false} MembersApart(v: Value, j: seq<string>, x: Code, w: Value, k: seq<string>, y: Code)
    requires v.Obj? && w.Obj? && |j| == |k|
    requires (forall s | s in j :: s in v.members) && (forall s | s in k :: s in w.members)
    requires WriteMembers(v, j) + x == WriteMembers(w, k) + y
    ensures j == k && x == y && forall s | s in j :: v.members[s] == w.members[s]
    decreases v, 0, |j|
  {
    if j == [] {
      Cut([], x, [], y);
    } else {
      var p, q := v.members[j[0]], w.members[k[0]];
      var r, t := WriteMembers(v, j[1..]), WriteMembers(w, k[1..]);
      Regroup(WriteString(j[0]) + WriteValue(p), r, x);
      Regroup(WriteString(k[0]) + WriteValue(q), t, y);
      Regroup(WriteString(j[0]), WriteValue(p), r + x);
      Regroup(WriteString(k[0]), WriteValue(q), t + y);
      StringApart(j[0], WriteValue(p) + (r + x), k[0], WriteValue(q) + (t + y));
      ValueApart(p, r + x, q, t + y);
      MembersApart(v, j[1..], x, w, k[1..], y);
      assert j == [j[0]] + j[1..] && k == [k[0]] + k[1..];
    }
  }

  lemma OptionApart(v: Option<Value>, x: Code, w: Option<Value>, y: Code)
    requires WriteOption(v) + x == WriteOption(w) + y
    ensures v == w && x == y
  {
    assert (WriteOption(v) + x)[0] == WriteOption(v)[0] && (WriteOption(w) + y)[0] == WriteOption(w)[0];
    if v.Some? {
      Regroup([Sign('+')], WriteValue(v.value), x);
      Regroup([Sign('+')], WriteValue(w.value), y);
      Cut([Sign('+')], WriteValue(v.value) + x, [Sign('+')], WriteValue(w.value) + y);
      ValueApart(v.value, x, w.value, y);
    } else {
      Cut([Sign('-')], x, [Sign('-')], y);
    }
  }

  /** What follows the head of a node. */
  function Rest(node: FilterNode): Code {
    [Numeral(|node.children| as real)] + WriteNodes(node.children)
  }

  lemma NodeParts(node: FilterNode, x: Code)
    ensures WriteNode(node) + x ==
            WriteString(node.kind) + (WriteString(node.operator) + (WriteString(node.fieldId) + (WriteOption(node.value) + (Rest(node) + x))))
  {
  }

  lemma {:induction false} NodeApart(a: FilterNode, x: Code, b: FilterNode, y: Code)
    requires WriteNode(a) + x == WriteNode(b) + y
    ensures a == b && x == y
    decreases a, 1
  {
    NodeParts(a, x);
    NodeParts(b, y);
    var v, w := WriteOption(a.value) + (Rest(a) + x), WriteOption(b.value) + (Rest(b) + y);
    StringApart(a.kind, WriteString(a.operator) + (WriteString(a.fieldId) + v),
                b.kind, WriteString(b.operator) + (WriteString(b.fieldId) + w));
    StringApart(a.operator, WriteString(a.fieldId) + v, b.operator, WriteString(b.fieldId) + w);
    StringApart(a.fieldId, v, b.fieldId, w);
    OptionApart(a.value, Rest(a) + x, b.value, Rest(b) + y);
    var m, n := [Numeral(|a.children| as real)], [Numeral(|b.children| as real)];
    Regroup(m, WriteNodes(a.children), x);
    Regroup(n, WriteNodes(b.children), y);
    Cut(m, WriteNodes(a.children) + x, n, WriteNodes(b.children) + y);
    assert m[0] == n[0];
    NodesApart(a.children, x, b.children, y);
  }

  lemma {:induction false} NodesApart(a: seq<FilterNode>, x: Code, b: seq<FilterNode>, y: Code)
    requires |a| == |b| && WriteNodes(a) + x == WriteNodes(b) + y
    ensures a == b && x == y
    decreases a, 0
  {
    if a == [] {
      Cut([], x, [], y);
    } else {
      Regroup(WriteNode(a[0]), WriteNodes(a[1..]), x);
      Regroup(WriteNode(b[0]), WriteNodes(b[1..]), y);
      NodeApart(a[0], WriteNodes(a[1..]) + x, b[0], WriteNodes(b[1..]) + y);
      NodesApart(a[1..], x, b[1..], y);
      assert a == [a[0]] + a[1..] && b == [b[0]] + b[1..];
    }
  }

  /** So there is an encoding that meets the demand. */
  lemma WriteNodeEncodes()
    ensures Encodes(node => WriteNode(node))
  {
    forall a, b | WriteNode(a) == WriteNode(b) ensures a == b {
      NodeApart(a, [], b, []);
    }
  }
}
