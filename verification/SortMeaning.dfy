/** What one sort specification puts first, read off the cells: null placement before everything, then for select fields
    active options in option order and retired ones after them, for the other fields the values themselves. */
module SortMeaning {
  import opened Results
  import opened Schema
  import opened Values
  import opened Orders
  import opened FilterSql
  import opened SortTerms

  /** The first term decides, or passes on. */
  lemma FirstTerm(t: Term, rest: seq<Term>, idA: string, a: Row, idB: string, b: Row)
    ensures RowBefore([t] + rest, idA, a, idB, b) ==
            var u, v := ExprAt(t.expr, idA, a), ExprAt(t.expr, idB, b);
            if u == v then RowBefore(rest, idA, a, idB, b) else KeyBefore(u, v, t.descending)
  {
    assert ([t] + rest)[1..] == rest;
  }

  /** Empty cells go where the specification says, whatever the direction; two empty cells leave the decision to the
      following specifications. */
  lemma NullsPlaced(field: Field, spec: SortSpec, rest: seq<Term>, idA: string, a: Row, idB: string, b: Row)
    requires ScalarAt(a, field.fieldType, spec.fieldId).None?
    ensures ScalarAt(b, field.fieldType, spec.fieldId).Some? ==>
              (RowBefore(SpecTerms(field, spec) + rest, idA, a, idB, b) <==> spec.nulls == "first")
              && (RowBefore(SpecTerms(field, spec) + rest, idB, b, idA, a) <==> spec.nulls != "first")
    ensures ScalarAt(b, field.fieldType, spec.fieldId).None? ==>
              RowBefore(SpecTerms(field, spec) + rest, idA, a, idB, b) == RowBefore(rest, idA, a, idB, b)
  {
    var terms := SpecTerms(field, spec);
    assert terms + rest == [terms[0]] + (terms[1..] + rest);
    FirstTerm(terms[0], terms[1..] + rest, idA, a, idB, b);
    FirstTerm(terms[0], terms[1..] + rest, idB, b, idA, a);
    if ScalarAt(b, field.fieldType, spec.fieldId).None? {
      BothNull(field, spec, rest, idA, a, idB, b);
    }
  }

  lemma BothNull(field: Field, spec: SortSpec, rest: seq<Term>, idA: string, a: Row, idB: string, b: Row)
    requires ScalarAt(a, field.fieldType, spec.fieldId).None? && ScalarAt(b, field.fieldType, spec.fieldId).None?
    ensures RowBefore(SpecTerms(field, spec) + rest, idA, a, idB, b) == RowBefore(rest, idA, a, idB, b)
  {
    var terms := SpecTerms(field, spec);
    forall t | t in terms ensures ExprAt(t.expr, idA, a) == ExprAt(t.expr, idB, b) {}
    SkipEqual(terms, rest, idA, a, idB, b);
  }

  lemma {:induction false} SkipEqual(terms: seq<Term>, rest: seq<Term>, idA: string, a: Row, idB: string, b: Row)
    requires forall t | t in terms :: ExprAt(t.expr, idA, a) == ExprAt(t.expr, idB, b)
    ensures RowBefore(terms + rest, idA, a, idB, b) == RowBefore(rest, idA, a, idB, b)
  {
    if terms == [] {
      assert terms + rest == rest;
    } else {
      assert terms[0] in terms;
      assert (terms + rest)[1..] == terms[1..] + rest;
      SkipEqual(terms[1..], rest, idA, a, idB, b);
    }
  }

  /** Filled cells of a field that is not a select: by value, ascending or descending. */
  lemma ValuesOrdered(field: Field, spec: SortSpec, rest: seq<Term>, idA: string, a: Row, idB: string, b: Row)
    requires field.fieldType != Select
    requires ScalarAt(a, field.fieldType, spec.fieldId).Some? && ScalarAt(b, field.fieldType, spec.fieldId).Some?
    ensures var u, v := ScalarAt(a, field.fieldType, spec.fieldId).value, ScalarAt(b, field.fieldType, spec.fieldId).value;
            RowBefore(SpecTerms(field, spec) + rest, idA, a, idB, b) ==
            if u == v then RowBefore(rest, idA, a, idB, b)
            else if spec.direction == "desc" then KeyLess(v, u) else KeyLess(u, v)
  {
    var terms := SpecTerms(field, spec);
    assert terms + rest == [terms[0]] + ([terms[1]] + rest);
    FirstTerm(terms[0], [terms[1]] + rest, idA, a, idB, b);
    FirstTerm(terms[1], rest, idA, a, idB, b);
  }

  /** Filled cells of a select field: active options before retired ones, whatever the direction; active ones by their
      place in the option list, retired ones by identifier. */
  lemma OptionsOrdered(field: Field, spec: SortSpec, rest: seq<Term>, idA: string, a: Row, idB: string, b: Row)
    requires field.fieldType == Select
    requires ScalarAt(a, Select, spec.fieldId).Some? && ScalarAt(b, Select, spec.fieldId).Some?
    ensures var u, v := ScalarAt(a, Select, spec.fieldId).value, ScalarAt(b, Select, spec.fieldId).value;
            var i, j := IndexOf(ActiveList(field), u.text), IndexOf(ActiveList(field), v.text);
            RowBefore(SpecTerms(field, spec) + rest, idA, a, idB, b) ==
            if u == v then RowBefore(rest, idA, a, idB, b)
            else if i.Some? != j.Some? then i.Some?
            else if i.Some? && i != j then (if spec.direction == "desc" then i.value > j.value else i.value < j.value)
            else if spec.direction == "desc" then StringLess(v.text, u.text) else StringLess(u.text, v.text)
  {
    var terms := SpecTerms(field, spec);
    var flag, life, rank, base := terms[0], terms[1], terms[2], terms[3];
    assert terms + rest == [flag] + ([life] + ([rank] + ([base] + rest)));
    FirstTerm(flag, [life] + ([rank] + ([base] + rest)), idA, a, idB, b);
    FirstTerm(life, [rank] + ([base] + rest), idA, a, idB, b);
    FirstTerm(rank, [base] + rest, idA, a, idB, b);
    FirstTerm(base, rest, idA, a, idB, b);
  }

  /** An option's place in the list is where it stands. */
  lemma {:induction false} IndexIsPlace(ids: seq<string>, id: string)
    ensures IndexOf(ids, id).Some? <==> id in ids
    ensures IndexOf(ids, id).Some? ==>
              IndexOf(ids, id).value < |ids| && ids[IndexOf(ids, id).value] == id
              && forall k | 0 <= k < IndexOf(ids, id).value :: ids[k] != id
  {
    if ids != [] && ids[0] != id {
      IndexIsPlace(ids[1..], id);
      assert ids == [ids[0]] + ids[1..];
    }
  }
}
