/** What searching the index finds: the search text is the folded texts of a record's active text fields joined by line
    breaks, so a search without line break finds a record exactly when one of those texts contains it. */
module SearchMeaning {
  import opened Results
  import opened Schema
  import opened Values
  import opened Orders
  import opened Filters
  import opened FilterSql
  import opened FilterMeaning

  const BREAK: string := "\n"

  lemma OccursIn(needle: string, front: string, hay: string, rest: string)
    requires Occurs(needle, hay)
    ensures Occurs(needle, front + hay + rest)
  {
    var f, r :| hay == f + needle + r;
    assert front + hay + rest == (front + f) + needle + (r + rest);
  }

  /** A match that avoids the separator lies on one side of it. */
  lemma OccursBeside(needle: string, left: string, right: string)
    requires '\n' !in needle && needle != ""
    ensures Occurs(needle, left + BREAK + right) <==> Occurs(needle, left) || Occurs(needle, right)
  {
    var all := left + BREAK + right;
    if Occurs(needle, left) {
      OccursIn(needle, "", left, BREAK + right);
      assert "" + left + (BREAK + right) == all;
    }
    if Occurs(needle, right) {
      OccursIn(needle, left + BREAK, right, "");
      assert left + BREAK + right + "" == all;
    }
    if Occurs(needle, all) {
      var f, r :| all == f + needle + r;
      MatchSide(needle, left, right, f, r);
    }
  }

  lemma MatchSide(needle: string, left: string, right: string, f: string, r: string)
    requires '\n' !in needle && needle != "" && left + BREAK + right == f + needle + r
    ensures Occurs(needle, left) || Occurs(needle, right)
  {
    var all := left + BREAK + right;
    assert all[|left|] == '\n';
    forall k | |f| <= k < |f| + |needle| ensures all[k] != '\n' {
      assert all[k] == needle[k - |f|] && needle[k - |f|] in needle;
    }
    if |f| + |needle| <= |left| {
      assert left == all[..|left|];
      assert left == f + needle + all[|f| + |needle|..|left|];
    } else {
      assert right == all[|left| + 1..];
      assert right == all[|left| + 1..|f|] + needle + r;
    }
  }

  lemma {:induction false} JoinOccurs(needle: string, parts: seq<string>)
    requires '\n' !in needle && needle != ""
    ensures Occurs(needle, Join(parts)) <==> exists p | p in parts :: Occurs(needle, p)
  {
    if parts == [] {
      assert !Occurs(needle, "");
    } else if |parts| >= 2 {
      var front, last := parts[..|parts| - 1], parts[|parts| - 1];
      assert parts == front + [last];
      JoinOccurs(needle, front);
      OccursBeside(needle, Join(front), last);
      assert last in parts && forall p | p in front :: p in parts;
    } else {
      assert parts[0] in parts;
    }
  }

  lemma {:induction false} PartsAre(lib: Library, values: Cells, fields: Fields, ids: seq<string>, p: string)
    ensures p in JoinParts(lib, values, fields, ids) <==>
            exists f | f in ids :: Searched(values, fields, f) && lib.fold(values[f].text) == p
  {
    if ids != [] {
      var front, last := ids[..|ids| - 1], ids[|ids| - 1];
      assert ids == front + [last];
      PartsAre(lib, values, fields, front, p);
      assert last in ids && forall f | f in front :: f in ids;
    }
  }

  /** The search condition is TRUE exactly when the folded text of some active text field contains the search. */
  lemma SearchMeans(lib: Library, fields: Fields, row: Row, needle: string)
    requires row.searchText == SearchText(lib, row.values, fields) && '\n' !in needle && needle != ""
    ensures EvalTest(row, SearchHas(needle)) == Yes <==>
            exists f :: Searched(row.values, fields, f) && Occurs(needle, lib.fold(row.values[f].text))
  {
    var ids := SortedSet(row.values.Keys);
    var parts := JoinParts(lib, row.values, fields, ids);
    SortedSetMembers(row.values.Keys);
    StrposFinds(row.searchText, needle);
    JoinOccurs(needle, parts);
    if p :| p in parts && Occurs(needle, p) {
      PartsAre(lib, row.values, fields, ids, p);
    }
    if f :| Searched(row.values, fields, f) && Occurs(needle, lib.fold(row.values[f].text)) {
      PartsAre(lib, row.values, fields, ids, lib.fold(row.values[f].text));
      assert f in ids;
    }
  }

  lemma LongerOccursNot(needle: string, hay: string)
    requires |needle| > |hay|
    ensures !Occurs(needle, hay)
  {
  }

  lemma JoinTwo(x: string, y: string)
    ensures Join([x, y]) == x + "\n" + y
  {
    assert [x, y][..1] == [x];
  }

  /** A search with a line break matches across any two neighbouring fields that end and begin like it, although
      neither of them contains it. */
  lemma BreakCrosses(lib: Library, fields: Fields, row: Row, x: string, y: string)
    requires row.searchText == SearchText(lib, row.values, fields)
    requires JoinParts(lib, row.values, fields, SortedSet(row.values.Keys)) == [x, y]
    ensures EvalTest(row, SearchHas(x + "\n" + y)) == Yes
    ensures !Occurs(x + "\n" + y, x) && !Occurs(x + "\n" + y, y)
  {
    var needle := x + "\n" + y;
    JoinTwo(x, y);
    StrposFinds(row.searchText, needle);
    assert row.searchText == "" + needle + "";
    LongerOccursNot(needle, x);
    LongerOccursNot(needle, y);
  }

  // ----- exactly when searching is right -----

  /** The search finds the record exactly when one of its searched texts contains the needle. */
  ghost predicate SearchRight(lib: Library, fields: Fields, row: Row, needle: string) {
    EvalTest(row, SearchHas(needle)) == Yes <==>
    exists f :: Searched(row.values, fields, f) && Occurs(needle, lib.fold(row.values[f].text))
  }

  ghost predicate SearchesRight(lib: Library, needle: string) {
    forall fields: Fields, row: Row | row.searchText == SearchText(lib, row.values, fields) :: SearchRight(lib, fields, row, needle)
  }

  /** What comes before and after a line break of a folded text is folded as well. */
  ghost predicate FoldedAround(lib: Library, needle: string) {
    forall i | 0 <= i < |needle| && needle[i] == '\n' ::
      lib.fold(needle[..i]) == needle[..i] && lib.fold(needle[i + 1..]) == needle[i + 1..]
  }

  function TextField(id: string): Field {
    Field(id, "t", LongText, Plain, false, false, 1)
  }

  function TwoTexts(lib: Library, x: string, y: string): (Fields, Row) {
    var fields := map["a" := TextField("a"), "b" := TextField("b")];
    var values := map["a" := Str(x), "b" := Str(y)];
    (fields, Row("t", 1, values, map[], SearchText(lib, values, fields), 0.0, 0, false))
  }

  lemma TwoKeys()
    ensures SortedSet({"a", "b"}) == ["a", "b"]
  {
    var s := SortedSet({"a", "b"});
    SortedSetElements({"a", "b"});
    assert |s| == |{"a", "b"}| == 2;
    assert s[0] in {"a", "b"} && s[1] in {"a", "b"} && s[0] != s[1];
    assert StringLess(s[0], s[1]);
    assert !StringLess("b", "a");
  }

  lemma TwoParts(lib: Library, x: string, y: string)
    requires lib.fold(x) == x && lib.fold(y) == y
    ensures var (fields, row) := TwoTexts(lib, x, y);
            JoinParts(lib, row.values, fields, SortedSet(row.values.Keys)) == [x, y]
  {
    var (fields, row) := TwoTexts(lib, x, y);
    TwoKeys();
    assert row.values.Keys == {"a", "b"};
    PartAdded(lib, row.values, fields, [], "a");
    PartAdded(lib, row.values, fields, ["a"], "b");
    assert [] + ["a"] == ["a"] && ["a"] + ["b"] == ["a", "b"] && [x] + [y] == [x, y];
  }

  lemma PartAdded(lib: Library, values: Cells, fields: Fields, ids: seq<string>, id: string)
    requires Searched(values, fields, id)
    ensures JoinParts(lib, values, fields, ids + [id]) == JoinParts(lib, values, fields, ids) + [lib.fold(values[id].text)]
  {
    assert (ids + [id])[..|ids|] == ids;
  }

  /** A folded search is right on every record exactly when it has no line break. */
  lemma SearchExact(lib: Library, needle: string)
    requires needle != "" && FoldedAround(lib, needle)
    ensures SearchesRight(lib, needle) <==> '\n' !in needle
  {
    if '\n' in needle {
      AnyBreakMisleads(lib, needle);
    } else {
      NoBreakIsRight(lib, needle);
    }
  }

  lemma AnyBreakMisleads(lib: Library, needle: string)
    requires '\n' in needle && FoldedAround(lib, needle)
    ensures !SearchesRight(lib, needle)
  {
    var i :| 0 <= i < |needle| && needle[i] == '\n';
    BreakMisleads(lib, needle[..i], needle[i + 1..]);
    assert needle == needle[..i] + "\n" + needle[i + 1..];
  }

  lemma NoBreakIsRight(lib: Library, needle: string)
    requires '\n' !in needle && needle != ""
    ensures SearchesRight(lib, needle)
  {
    forall fields: Fields, row: Row | row.searchText == SearchText(lib, row.values, fields)
      ensures SearchRight(lib, fields, row, needle)
    {
      SearchMeans(lib, fields, row, needle);
    }
  }

  lemma BreakMisleads(lib: Library, x: string, y: string)
    requires lib.fold(x) == x && lib.fold(y) == y
    ensures !SearchesRight(lib, x + "\n" + y)
  {
    var (fields, row) := TwoTexts(lib, x, y);
    TwoParts(lib, x, y);
    BreakCrosses(lib, fields, row, x, y);
    assert !SearchRight(lib, fields, row, x + "\n" + y);
  }

  /** What a text rule asks of the stored value itself: both sides folded. */
  lemma ContainsOnValues(lib: Library, fields: Fields, node: FilterNode, row: Row)
    requires row.queryValues == Projection(lib, row.values, fields)
    requires Acceptable(lib, fields, node) && node.kind == "rule" && node.operator == "contains" && ShapedRow(fields, row)
    requires node.fieldId in row.values && row.values[node.fieldId].Str?
    ensures Compile(fields, Normal(lib, fields, node)).Ok?
    ensures Eval(row, Compile(fields, Normal(lib, fields, node)).value) == Yes <==>
            Occurs(lib.fold(node.value.value.text), lib.fold(row.values[node.fieldId].text))
  {
    AcceptedCompiles(lib, fields, node, row);
    ContainsIsTextual(lib, fields, node);
    FoldedRule(lib, fields, node, row);
  }

  lemma ContainsIsTextual(lib: Library, fields: Fields, node: FilterNode)
    requires NodeOk(lib, fields, node) && node.kind == "rule" && node.operator == "contains"
    ensures node.fieldId in fields && IsTextual(fields[node.fieldId].fieldType) && !fields[node.fieldId].deleted
    ensures node.value.Some? && node.value.value.Str?
  {
  }

  lemma FoldedRule(lib: Library, fields: Fields, node: FilterNode, row: Row)
    requires row.queryValues == Projection(lib, row.values, fields) && node.kind == "rule" && node.operator == "contains"
    requires node.fieldId in fields && IsTextual(fields[node.fieldId].fieldType) && !fields[node.fieldId].deleted
    requires node.value.Some? && node.value.value.Str? && node.fieldId in row.values && row.values[node.fieldId].Str?
    ensures Holds(fields, Normal(lib, fields, node), row) <==>
            Occurs(lib.fold(node.value.value.text), lib.fold(row.values[node.fieldId].text))
  {
    assert Cell(row, node.fieldId) == Some(Str(lib.fold(row.values[node.fieldId].text)));
  }
}
