/** The keyset condition: an OR of chains, one per sort term, that is TRUE exactly on the rows after a cursor. */
module Keyset {
  import opened Results
  import opened Schema
  import opened Values
  import opened Orders
  import opened FilterSql
  import opened SortTerms

  /** Where a page ended: the sort values of its last record, and that record. */
  datatype Position = Position(values: seq<Option<Value>>, recordId: string)

  datatype KeyTest =
    | SameKey(expr: Expr, v: Option<Value>)
    | PastKey(expr: Expr, v: Option<Value>, descending: bool)

  type Chain = seq<KeyTest>

  /** A cursor's value must be of the term's kind; whole numbers for the flags and ranks. */
  function Coerce(v: Option<Value>, kind: KeyKind): Option<Option<Value>> {
    match v
    case None => Some(None)
    case Some(x) =>
      match kind
      case IntegerKey => if x.Num? && x.number == x.number.Floor as real then Some(v) else None
      case NumberKey => if x.Num? then Some(v) else None
      case BooleanKey => if x.Bool? then Some(v) else None
      case TextKey => if x.Str? then Some(v) else None
      case TimestampKey => if x.Num? then Some(v) else None
  }

  /** Equality on the first `n` terms. */
  function Prefix(terms: seq<Term>, values: seq<Option<Value>>, n: nat): Chain
    requires n <= |terms| && n <= |values|
  {
    if n == 0 then [] else Prefix(terms, values, n - 1) + [SameKey(terms[n - 1].expr, values[n - 1])]
  }

  function ChainAt(terms: seq<Term>, values: seq<Option<Value>>, n: nat): Chain
    requires n < |terms| == |values|
  {
    Prefix(terms, values, n) + [PastKey(terms[n].expr, values[n], terms[n].descending)]
  }

  function Chains(terms: seq<Term>, values: seq<Option<Value>>, n: nat): seq<Chain>
    requires n <= |terms| == |values|
  {
    if n == 0 then [] else Chains(terms, values, n - 1) + [ChainAt(terms, values, n - 1)]
  }

  predicate Accepted(terms: seq<Term>, position: Position) {
    && |position.values| == |terms| && position.recordId != ""
    && forall i | 0 <= i < |terms| :: Coerce(position.values[i], terms[i].kind).Some?
  }

  /** The conditions for a cursor, or None when it does not fit the terms. */
  function KeysetFor(terms: seq<Term>, position: Position): Option<seq<Chain>> {
    if Accepted(terms, position) then
      Some(Chains(terms + [ID_TERM], position.values + [Some(Str(position.recordId))], |terms| + 1))
    else None
  }

  method BuildKeysetCondition(terms: seq<Term>, position: Position) returns (result: Option<seq<Chain>>)
    ensures result == KeysetFor(terms, position)
  {
    if |position.values| != |terms| || position.recordId == "" {
      return None;
    }
    var allTerms := terms + [ID_TERM];
    var values := position.values + [Some(Str(position.recordId))];
    var index := 0;
    while index < |values|
      invariant 0 <= index <= |values|
      invariant forall i | 0 <= i < index && i < |terms| :: Coerce(position.values[i], terms[i].kind).Some?
    {
      if Coerce(values[index], allTerms[index].kind).None? {
        assert index < |terms|;
        return None;
      }
      index := index + 1;
    }
    var branches: seq<Chain> := [];
    var current := 0;
    while current < |allTerms|
      invariant 0 <= current <= |allTerms|
      invariant branches == Chains(allTerms, values, current)
    {
      var parts: Chain := [];
      var previous := 0;
      while previous < current
        invariant 0 <= previous <= current
        invariant parts == Prefix(allTerms, values, previous)
      {
        parts := parts + [SameKey(allTerms[previous].expr, values[previous])];
        previous := previous + 1;
      }
      parts := parts + [PastKey(allTerms[current].expr, values[current], allTerms[current].descending)];
      branches := branches + [parts];
      current := current + 1;
    }
    return Some(branches);
  }

  // ----- evaluation -----

  /** expr > v, or expr < v when descending; unknown next to NULL. */
  function Past(u: Option<Value>, v: Option<Value>, descending: bool): Truth {
    if u.None? || v.None? then Unknown
    else Known(if descending then KeyLess(u.value, v.value) else KeyLess(v.value, u.value))
  }

  function TestKey(test: KeyTest, id: string, row: Row): Truth {
    match test
    case SameKey(e, v) => Known(ExprAt(e, id, row) == v)
    case PastKey(e, v, descending) => Past(ExprAt(e, id, row), v, descending)
  }

  function ChainValue(chain: Chain, id: string, row: Row): Truth {
    if chain == [] then Yes else And3(ChainValue(chain[..|chain| - 1], id, row), TestKey(chain[|chain| - 1], id, row))
  }

  function KeysetValue(chains: seq<Chain>, id: string, row: Row): Truth {
    if chains == [] then No else Or3(KeysetValue(chains[..|chains| - 1], id, row), ChainValue(chains[|chains| - 1], id, row))
  }

  // ----- what the order means, position by position -----

  /** The sort values a row yields. */
  function KeysOf(terms: seq<Term>, id: string, row: Row): seq<Option<Value>> {
    seq(|terms|, i requires 0 <= i < |terms| => ExprAt(terms[i].expr, id, row))
  }

  ghost predicate Agree(terms: seq<Term>, n: nat, idA: string, a: Row, idB: string, b: Row) {
    forall i | 0 <= i < n && i < |terms| :: ExprAt(terms[i].expr, idA, a) == ExprAt(terms[i].expr, idB, b)
  }

  /** Rows that agree on all earlier terms are both NULL or both not NULL in this one: what the null flag is for. */
  ghost predicate Guarded(terms: seq<Term>) {
    forall i, idA, a, idB, b | 0 <= i < |terms| && Agree(terms, i, idA, a, idB, b) ::
      ExprAt(terms[i].expr, idA, a).None? <==> ExprAt(terms[i].expr, idB, b).None?
  }

  lemma {:induction false} BeforeAt(terms: seq<Term>, idA: string, a: Row, idB: string, b: Row)
    ensures RowBefore(terms, idA, a, idB, b) <==> exists k | 0 <= k < |terms| :: DecidesAt(terms, k, idA, a, idB, b)
  {
    if terms != [] {
      var rest := terms[1..];
      BeforeAt(rest, idA, a, idB, b);
      if ExprAt(terms[0].expr, idA, a) == ExprAt(terms[0].expr, idB, b) {
        forall k | 0 <= k < |rest| ensures DecidesAt(rest, k, idA, a, idB, b) <==> DecidesAt(terms, k + 1, idA, a, idB, b) {
          AgreeShift(terms, k, idA, a, idB, b);
          assert rest[k] == terms[k + 1];
        }
        forall k | 0 <= k < |terms| && DecidesAt(terms, k, idA, a, idB, b) ensures k > 0 && DecidesAt(rest, k - 1, idA, a, idB, b) {
          assert k > 0 && DecidesAt(terms, (k - 1) + 1, idA, a, idB, b);
        }
        forall k | 0 <= k < |rest| && DecidesAt(rest, k, idA, a, idB, b) ensures DecidesAt(terms, k + 1, idA, a, idB, b) {}
      } else {
        assert Agree(terms, 0, idA, a, idB, b);
        assert DecidesAt(terms, 0, idA, a, idB, b) <==> RowBefore(terms, idA, a, idB, b);
        if k :| 0 <= k < |terms| && DecidesAt(terms, k, idA, a, idB, b) {
          assert k == 0;
        }
      }
    }
  }

  /** The rows agree before term `k` and are ordered by it. */
  ghost predicate DecidesAt(terms: seq<Term>, k: nat, idA: string, a: Row, idB: string, b: Row)
    requires k < |terms|
  {
    && Agree(terms, k, idA, a, idB, b)
    && ExprAt(terms[k].expr, idA, a) != ExprAt(terms[k].expr, idB, b)
    && KeyBefore(ExprAt(terms[k].expr, idA, a), ExprAt(terms[k].expr, idB, b), terms[k].descending)
  }

  lemma AgreeShift(terms: seq<Term>, k: nat, idA: string, a: Row, idB: string, b: Row)
    requires terms != [] && ExprAt(terms[0].expr, idA, a) == ExprAt(terms[0].expr, idB, b) && k < |terms[1..]|
    ensures Agree(terms[1..], k, idA, a, idB, b) <==> Agree(terms, k + 1, idA, a, idB, b)
  {
    var rest := terms[1..];
    if Agree(rest, k, idA, a, idB, b) {
      forall i | 0 <= i < k + 1 && i < |terms| ensures ExprAt(terms[i].expr, idA, a) == ExprAt(terms[i].expr, idB, b) {
        if i > 0 { assert terms[i] == rest[i - 1]; }
      }
    }
    if Agree(terms, k + 1, idA, a, idB, b) {
      forall i | 0 <= i < k && i < |rest| ensures ExprAt(rest[i].expr, idA, a) == ExprAt(rest[i].expr, idB, b) {
        assert rest[i] == terms[i + 1];
      }
    }
  }

  lemma {:induction false} PrefixValue(terms: seq<Term>, n: nat, idA: string, a: Row, idB: string, b: Row)
    requires n <= |terms|
    ensures ChainValue(Prefix(terms, KeysOf(terms, idA, a), n), idB, b) == Known(Agree(terms, n, idA, a, idB, b))
  {
    if n > 0 {
      PrefixValue(terms, n - 1, idA, a, idB, b);
      var values := KeysOf(terms, idA, a);
      var all := Prefix(terms, values, n);
      assert all[..|all| - 1] == Prefix(terms, values, n - 1);
    }
  }

  /** A chain is TRUE exactly when the rows agree before its term and differ there in the right direction. */
  lemma ChainMeans(terms: seq<Term>, n: nat, idA: string, a: Row, idB: string, b: Row)
    requires n < |terms| && Guarded(terms)
    ensures ChainValue(ChainAt(terms, KeysOf(terms, idA, a), n), idB, b) == Yes <==>
            DecidesAt(terms, n, idA, a, idB, b)
  {
    var values := KeysOf(terms, idA, a);
    var all := ChainAt(terms, values, n);
    PrefixValue(terms, n, idA, a, idB, b);
    assert all[..|all| - 1] == Prefix(terms, values, n);
    KeyLessIrreflexive(ExprAt(terms[n].expr, idA, a));
  }

  lemma KeyLessIrreflexive(v: Option<Value>)
    ensures v.Some? ==> !KeyLess(v.value, v.value)
  {
    if v.Some? && v.value.Str? { StringLessTotal(v.value.text, v.value.text); }
  }

  /** One of the first terms decides. */
  ghost predicate Decided(terms: seq<Term>, n: nat, idA: string, a: Row, idB: string, b: Row)
    requires n <= |terms|
  {
    exists k | 0 <= k < n :: DecidesAt(terms, k, idA, a, idB, b)
  }

  lemma DecidedMore(terms: seq<Term>, n: nat, idA: string, a: Row, idB: string, b: Row)
    requires 0 < n <= |terms|
    ensures Decided(terms, n, idA, a, idB, b) <==>
            Decided(terms, n - 1, idA, a, idB, b) || DecidesAt(terms, n - 1, idA, a, idB, b)
  {
  }

  lemma {:induction false} ChainsMean(terms: seq<Term>, n: nat, idA: string, a: Row, idB: string, b: Row)
    requires n <= |terms| && Guarded(terms)
    ensures KeysetValue(Chains(terms, KeysOf(terms, idA, a), n), idB, b) == Yes <==>
            Decided(terms, n, idA, a, idB, b)
  {
    if n > 0 {
      ChainsMean(terms, n - 1, idA, a, idB, b);
      ChainMeans(terms, n - 1, idA, a, idB, b);
      DecidedMore(terms, n, idA, a, idB, b);
      KeysetMore(Chains(terms, KeysOf(terms, idA, a), n - 1), ChainAt(terms, KeysOf(terms, idA, a), n - 1), idB, b);
    }
  }

  lemma KeysetMore(chains: seq<Chain>, chain: Chain, id: string, row: Row)
    ensures KeysetValue(chains + [chain], id, row) == Or3(KeysetValue(chains, id, row), ChainValue(chain, id, row))
  {
    assert (chains + [chain])[..|chains|] == chains;
  }

  function PositionOf(terms: seq<Term>, id: string, row: Row): Position {
    Position(KeysOf(terms, id, row), id)
  }

  lemma KeysOfAll(terms: seq<Term>, id: string, row: Row)
    ensures KeysOf(terms + [ID_TERM], id, row) == KeysOf(terms, id, row) + [Some(Str(id))]
  {
  }

  /** The OR of AND-chains is TRUE exactly on the rows after the cursor's row in ORDER BY order, NULL keys included,
      and a cursor taken from a row is always accepted. */
  lemma KeysetExact(terms: seq<Term>, idA: string, a: Row, idB: string, b: Row)
    requires Guarded(terms + [ID_TERM]) && idA != "" && (forall t | t in terms :: TermFits(t))
    requires forall t | t in terms && t.kind == IntegerKey :: !t.expr.Base?
    ensures KeysetFor(terms, PositionOf(terms, idA, a)).Some?
    ensures KeysetValue(KeysetFor(terms, PositionOf(terms, idA, a)).value, idB, b) == Yes <==>
            RowBefore(terms + [ID_TERM], idA, a, idB, b)
  {
    var all := terms + [ID_TERM];
    KeysOfAll(terms, idA, a);
    ChainsMean(all, |all|, idA, a, idB, b);
    BeforeAt(all, idA, a, idB, b);
    OwnPositionAccepted(terms, idA, a);
  }

  lemma OwnPositionAccepted(terms: seq<Term>, id: string, row: Row)
    requires id != "" && (forall t | t in terms :: TermFits(t))
    requires forall t | t in terms && t.kind == IntegerKey :: !t.expr.Base?
    ensures Accepted(terms, PositionOf(terms, id, row))
  {
    forall i | 0 <= i < |terms| ensures Coerce(KeysOf(terms, id, row)[i], terms[i].kind).Some? {
      assert terms[i] in terms;
      KeyFits(terms[i], id, row);
    }
  }

  // ----- every built list is guarded -----

  /** Each nullable term comes after the null flag of the same field. */
  ghost predicate Flagged(terms: seq<Term>) {
    forall i | 0 <= i < |terms| && terms[i].expr.Base? :: FlaggedAt(terms, i, terms[i].expr.t, terms[i].expr.f)
  }

  ghost predicate FlaggedAt(terms: seq<Term>, i: nat, t: FieldType, f: string) {
    exists j | 0 <= j < i && j < |terms| :: terms[j].expr.NullFlag? && terms[j].expr.t == t && terms[j].expr.f == f
  }

  lemma FlaggedIsGuarded(terms: seq<Term>)
    requires Flagged(terms)
    ensures Guarded(terms)
  {
    forall i, idA, a, idB, b | 0 <= i < |terms| && Agree(terms, i, idA, a, idB, b)
      ensures ExprAt(terms[i].expr, idA, a).None? <==> ExprAt(terms[i].expr, idB, b).None?
    {
      if terms[i].expr.Base? {
        assert FlaggedAt(terms, i, terms[i].expr.t, terms[i].expr.f);
        var j :| 0 <= j < i && j < |terms| && terms[j].expr.NullFlag?
                 && terms[j].expr.t == terms[i].expr.t && terms[j].expr.f == terms[i].expr.f;
        assert ExprAt(terms[j].expr, idA, a) == ExprAt(terms[j].expr, idB, b);
      }
    }
  }

  lemma FlaggedConcat(a: seq<Term>, b: seq<Term>)
    requires Flagged(a) && Flagged(b)
    ensures Flagged(a + b)
  {
    var c := a + b;
    forall i | 0 <= i < |c| && c[i].expr.Base? ensures FlaggedAt(c, i, c[i].expr.t, c[i].expr.f) {
      if i < |a| {
        assert FlaggedAt(a, i, a[i].expr.t, a[i].expr.f);
        var j :| 0 <= j < i && j < |a| && a[j].expr.NullFlag? && a[j].expr.t == a[i].expr.t && a[j].expr.f == a[i].expr.f;
        assert c[j] == a[j];
      } else {
        var k := i - |a|;
        assert FlaggedAt(b, k, b[k].expr.t, b[k].expr.f);
        var j :| 0 <= j < k && j < |b| && b[j].expr.NullFlag? && b[j].expr.t == b[k].expr.t && b[j].expr.f == b[k].expr.f;
        assert c[|a| + j] == b[j];
      }
    }
  }

  lemma SpecFlagged(field: Field, spec: SortSpec)
    ensures Flagged(SpecTerms(field, spec))
  {
    var terms := SpecTerms(field, spec);
    assert terms[0].expr == NullFlag(field.fieldType, spec.fieldId, spec.nulls == "first");
    forall i | 0 <= i < |terms| && terms[i].expr.Base? ensures FlaggedAt(terms, i, terms[i].expr.t, terms[i].expr.f) {
      assert terms[0].expr.NullFlag? && 0 < i;
    }
  }

  lemma {:induction false} SpecsFlagged(fields: Fields, sort: seq<SortSpec>)
    requires AllSpecTerms(fields, sort).Some?
    ensures Flagged(AllSpecTerms(fields, sort).value)
  {
    if sort != [] {
      SpecsFlagged(fields, sort[..|sort| - 1]);
      var spec := sort[|sort| - 1];
      SpecFlagged(fields[spec.fieldId], spec);
      FlaggedConcat(AllSpecTerms(fields, sort[..|sort| - 1]).value, SpecTerms(fields[spec.fieldId], spec));
    }
  }

  /** A list a query is ordered by. */
  ghost predicate SortsBy(terms: seq<Term>) {
    && Guarded(terms + [ID_TERM])
    && (forall t | t in terms :: TermFits(t))
    && (forall t | t in terms && t.kind == IntegerKey :: !t.expr.Base?)
  }

  lemma SortListSorts(fields: Fields, sort: seq<SortSpec>, manual: bool)
    requires SortList(fields, sort, manual).Some?
    ensures SortsBy(SortList(fields, sort, manual).value)
  {
    var terms := SortList(fields, sort, manual).value;
    if sort != [] {
      SpecsFlagged(fields, sort);
      SpecsFit(fields, sort);
    }
    FlaggedConcat(terms, [ID_TERM]);
    FlaggedIsGuarded(terms + [ID_TERM]);
  }
}
