/** Sort terms: the ORDER BY list a query's sort turns into, and the strict total order it puts on the rows. */
module SortTerms {
  import opened Results
  import opened Schema
  import opened Values
  import opened Orders
  import opened FilterSql

  datatype SortSpec = SortSpec(fieldId: string, direction: string, nulls: string)

  /** A scalar expression over a row and its identifier. */
  datatype Expr =
    | Base(t: FieldType, f: string)
    | NullFlag(t: FieldType, f: string, nullsFirst: bool)
    | Lifecycle(f: string, active: seq<string>)
    | Rank(f: string, active: seq<string>)
    | CreatedAt
    | ManualPosition
    | RecordId

  datatype KeyKind = IntegerKey | NumberKey | BooleanKey | TextKey | TimestampKey

  datatype Term = Term(expr: Expr, descending: bool, kind: KeyKind)

  const ID_TERM := Term(RecordId, false, TextKey)

  function IndexOf(ids: seq<string>, id: string): Option<nat> {
    if ids == [] then None
    else if ids[0] == id then Some(0)
    else match IndexOf(ids[1..], id) case None => None case Some(k) => Some(k + 1)
  }

  /** None is SQL NULL. Options that are no longer active share one rank. */
  function ExprAt(e: Expr, id: string, row: Row): Option<Value> {
    match e
    case Base(t, f) => ScalarAt(row, t, f)
    case NullFlag(t, f, nullsFirst) => Some(Num(if ScalarAt(row, t, f).None? == nullsFirst then 0.0 else 1.0))
    case Lifecycle(f, active) =>
      Some(Num(match ScalarAt(row, Select, f)
               case Some(v) => if v.Str? && IndexOf(active, v.text).Some? then 0.0 else 1.0
               case None => 1.0))
    case Rank(f, active) =>
      Some(Num(match ScalarAt(row, Select, f)
               case Some(v) => (match IndexOf(active, if v.Str? then v.text else "") case Some(k) => k as real case None => 0.0)
               case None => 0.0))
    case CreatedAt => Some(Num(row.createdAt as real))
    case ManualPosition => Some(Num(row.position))
    case RecordId => Some(Str(id))
  }

  // ----- accepting a sort -----

  predicate SpecOk(lib: Library, fields: Fields, spec: SortSpec) {
    && Writable(lib, fields, spec.fieldId)
    && fields[spec.fieldId].fieldType !in {MultiSelect, Location, Attachment}
    && (spec.direction == "asc" || spec.direction == "desc")
    && (spec.nulls == "" || spec.nulls == "first" || spec.nulls == "last")
  }

  predicate SortOk(lib: Library, fields: Fields, specs: seq<SortSpec>) {
    && |specs| <= 10
    && (forall i | 0 <= i < |specs| :: SpecOk(lib, fields, specs[i]))
    && (forall i, j | 0 <= i < j < |specs| :: specs[i].fieldId != specs[j].fieldId)
  }

  function Filled(spec: SortSpec): SortSpec {
    if spec.nulls == "" then spec.(nulls := "last") else spec
  }

  /** Checks the specs and fills in the null placement where it was left out. */
  method NormalizeSort(lib: Library, fields: Fields, specs: array<SortSpec>) returns (ok: bool)
    modifies specs
    ensures ok <==> SortOk(lib, fields, old(specs[..]))
    ensures ok ==> forall i | 0 <= i < specs.Length :: specs[i] == Filled(old(specs[i]))
  {
    if specs.Length > 10 {
      return false;
    }
    ghost var given := specs[..];
    var seen: set<string> := {};
    ok := true;
    var index := 0;
    while index < specs.Length
      invariant 0 <= index <= specs.Length
      invariant forall i | index <= i < specs.Length :: specs[i] == given[i]
      invariant ok ==> forall i | 0 <= i < index :: specs[i] == Filled(given[i]) && SpecOk(lib, fields, given[i])
      invariant ok ==> forall i, j | 0 <= i < j < index :: given[i].fieldId != given[j].fieldId
      invariant ok ==> seen == set i | 0 <= i < index :: given[i].fieldId
      invariant !ok ==> !SortOk(lib, fields, given)
    {
      var spec := specs[index];
      if spec.fieldId in seen {
        ok := false;
      } else {
        seen := seen + {spec.fieldId};
        if !SpecOk(lib, fields, spec) {
          ok := false;
        } else if spec.nulls == "" {
          specs[index] := spec.(nulls := "last");
        }
      }
      index := index + 1;
    }
  }

  // ----- building the list -----

  function KindOf(t: FieldType): KeyKind {
    if t == Number then NumberKey else if t == Checkbox then BooleanKey else TextKey
  }

  function ActiveList(field: Field): seq<string> {
    var options := ConfigOf(field).options;
    seq(|options|, i requires 0 <= i < |options| => options[i].id)
  }

  function SpecTerms(field: Field, spec: SortSpec): seq<Term> {
    var descending := spec.direction == "desc";
    var flag := NullFlag(field.fieldType, spec.fieldId, spec.nulls == "first");
    if field.fieldType == Select then
      [Term(flag, false, IntegerKey),
       Term(Lifecycle(spec.fieldId, ActiveList(field)), false, IntegerKey),
       Term(Rank(spec.fieldId, ActiveList(field)), descending, IntegerKey),
       Term(Base(Select, spec.fieldId), descending, TextKey)]
    else
      [Term(flag, false, IntegerKey),
       Term(Base(field.fieldType, spec.fieldId), descending, KindOf(field.fieldType))]
  }

  function AllSpecTerms(fields: Fields, sort: seq<SortSpec>): Option<seq<Term>> {
    if sort == [] then Some([])
    else
      match AllSpecTerms(fields, sort[..|sort| - 1])
      case None => None
      case Some(front) =>
        var spec := sort[|sort| - 1];
        if spec.fieldId in fields then Some(front + SpecTerms(fields[spec.fieldId], spec)) else None
  }

  function SortList(fields: Fields, sort: seq<SortSpec>, manual: bool): Option<seq<Term>> {
    if sort != [] then AllSpecTerms(fields, sort)
    else if manual then Some([Term(ManualPosition, false, NumberKey)])
    else Some([Term(CreatedAt, false, TimestampKey)])
  }

  lemma {:induction false} AllSpecFails(fields: Fields, sort: seq<SortSpec>, n: nat)
    requires n <= |sort| && AllSpecTerms(fields, sort[..n]).None?
    ensures AllSpecTerms(fields, sort).None?
  {
    if n == |sort| {
      assert sort[..n] == sort;
    } else {
      assert sort[..|sort| - 1][..n] == sort[..n];
      AllSpecFails(fields, sort[..|sort| - 1], n);
    }
  }

  method BuildSortTerms(fields: Fields, sort: seq<SortSpec>, manual: bool) returns (result: Option<seq<Term>>)
    ensures result == SortList(fields, sort, manual)
  {
    if |sort| == 0 {
      return Some(if manual then [Term(ManualPosition, false, NumberKey)] else [Term(CreatedAt, false, TimestampKey)]);
    }
    var terms: seq<Term> := [];
    var i := 0;
    while i < |sort|
      invariant 0 <= i <= |sort|
      invariant AllSpecTerms(fields, sort[..i]) == Some(terms)
    {
      assert sort[..i + 1][..i] == sort[..i];
      if sort[i].fieldId !in fields {
        AllSpecFails(fields, sort, i + 1);
        return None;
      }
      terms := terms + SpecTerms(fields[sort[i].fieldId], sort[i]);
      i := i + 1;
    }
    assert sort[..i] == sort;
    return Some(terms);
  }

  // ----- the order -----

  predicate KeyLess(a: Value, b: Value) {
    (a.Num? && b.Num? && a.number < b.number)
    || (a.Str? && b.Str? && StringLess(a.text, b.text))
    || (a.Bool? && b.Bool? && !a.flag && b.flag)
  }

  /** Ascending lists NULL last, descending lists it first. */
  predicate KeyBefore(a: Option<Value>, b: Option<Value>, descending: bool) {
    if descending then b.Some? && (a.None? || KeyLess(b.value, a.value))
    else a.Some? && (b.None? || KeyLess(a.value, b.value))
  }

  /** ORDER BY terms, then record identifier. */
  predicate RowBefore(terms: seq<Term>, idA: string, a: Row, idB: string, b: Row) {
    if terms == [] then false
    else
      var u, v := ExprAt(terms[0].expr, idA, a), ExprAt(terms[0].expr, idB, b);
      if u == v then RowBefore(terms[1..], idA, a, idB, b) else KeyBefore(u, v, terms[0].descending)
  }

  /** Values of one kind, which is what makes them comparable. */
  predicate OfKind(kind: KeyKind, v: Value) {
    match kind
    case IntegerKey => v.Num?
    case NumberKey => v.Num?
    case TimestampKey => v.Num?
    case BooleanKey => v.Bool?
    case TextKey => v.Str?
  }

  predicate TermFits(term: Term) {
    match term.expr
    case Base(t, _) => term.kind == KindOf(t)
    case NullFlag(_, _, _) => term.kind == IntegerKey
    case Lifecycle(_, _) => term.kind == IntegerKey
    case Rank(_, _) => term.kind == IntegerKey
    case CreatedAt => term.kind == TimestampKey
    case ManualPosition => term.kind == NumberKey
    case RecordId => term.kind == TextKey
  }

  lemma KeyFits(term: Term, id: string, row: Row)
    requires TermFits(term)
    ensures ExprAt(term.expr, id, row).Some? ==> OfKind(term.kind, ExprAt(term.expr, id, row).value)
  {
  }

  lemma {:induction false} SpecsFit(fields: Fields, sort: seq<SortSpec>)
    requires AllSpecTerms(fields, sort).Some?
    ensures forall t | t in AllSpecTerms(fields, sort).value :: TermFits(t)
  {
    if sort != [] {
      SpecsFit(fields, sort[..|sort| - 1]);
    }
  }

  lemma KeyOrder(kind: KeyKind, a: Option<Value>, b: Option<Value>, descending: bool)
    requires (a.Some? ==> OfKind(kind, a.value)) && (b.Some? ==> OfKind(kind, b.value))
    ensures !KeyBefore(a, a, descending)
    ensures a != b ==> (KeyBefore(a, b, descending) <==> !KeyBefore(b, a, descending))
  {
    if a.Some? && a.value.Str? { StringLessTotal(a.value.text, a.value.text); }
    if a.Some? && b.Some? && a.value.Str? {
      StringLessTotal(a.value.text, b.value.text);
      if StringLess(a.value.text, b.value.text) && StringLess(b.value.text, a.value.text) {
        StringLessTrans(a.value.text, b.value.text, a.value.text);
      }
    }
  }

  lemma KeyTrans(kind: KeyKind, a: Option<Value>, b: Option<Value>, c: Option<Value>, descending: bool)
    requires a.Some? ==> OfKind(kind, a.value)
    requires b.Some? ==> OfKind(kind, b.value)
    requires c.Some? ==> OfKind(kind, c.value)
    requires KeyBefore(a, b, descending) && KeyBefore(b, c, descending)
    ensures KeyBefore(a, c, descending)
  {
    if a.Some? && b.Some? && c.Some? && a.value.Str? {
      if descending { StringLessTrans(c.value.text, b.value.text, a.value.text); }
      else { StringLessTrans(a.value.text, b.value.text, c.value.text); }
    }
  }

  lemma {:induction false} RowTrans(terms: seq<Term>, idA: string, a: Row, idB: string, b: Row, idC: string, c: Row)
    requires forall t | t in terms :: TermFits(t)
    requires RowBefore(terms, idA, a, idB, b) && RowBefore(terms, idB, b, idC, c)
    ensures RowBefore(terms, idA, a, idC, c)
  {
    var t := terms[0];
    assert t in terms;
    var u, v, w := ExprAt(t.expr, idA, a), ExprAt(t.expr, idB, b), ExprAt(t.expr, idC, c);
    KeyFits(t, idA, a);
    KeyFits(t, idB, b);
    KeyFits(t, idC, c);
    KeyOrder(t.kind, u, v, t.descending);
    KeyOrder(t.kind, v, w, t.descending);
    if u == v && v == w {
      RowTrans(terms[1..], idA, a, idB, b, idC, c);
    } else if u != v && v != w {
      KeyTrans(t.kind, u, v, w, t.descending);
      KeyOrder(t.kind, u, u, t.descending);
    }
  }

  lemma {:induction false} RowIrreflexive(terms: seq<Term>, id: string, a: Row)
    ensures !RowBefore(terms, id, a, id, a)
  {
    if terms != [] {
      RowIrreflexive(terms[1..], id, a);
    }
  }

  /** With the identifier as last term, any two different records are ordered one way or the other. */
  lemma {:induction false} RowTotal(terms: seq<Term>, idA: string, a: Row, idB: string, b: Row)
    requires forall t | t in terms :: TermFits(t)
    requires terms != [] && terms[|terms| - 1] == ID_TERM && idA != idB
    ensures RowBefore(terms, idA, a, idB, b) || RowBefore(terms, idB, b, idA, a)
  {
    var t := terms[0];
    assert t in terms;
    var u, v := ExprAt(t.expr, idA, a), ExprAt(t.expr, idB, b);
    KeyFits(t, idA, a);
    KeyFits(t, idB, b);
    KeyOrder(t.kind, u, v, t.descending);
    if u == v {
      assert |terms| > 1;
      RowTotal(terms[1..], idA, a, idB, b);
    }
  }
}
