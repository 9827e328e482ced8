/** Where a conversion goes wrong: the index of a record whose value comes out unchanged is not rebuilt, and a plan made
    from an outdated field can commit. Each with the exact condition. */
module ConversionIndex {
  import opened Results
  import opened Schema
  import opened Values
  import opened Orders
  import opened ChoiceOptions
  import opened Conversion
  import opened FieldConversion
  import opened ConversionTyped
  import opened Mutations

  // ----- search text -----

  function Length(parts: seq<string>): nat {
    if parts == [] then 0 else Length(parts[..|parts| - 1]) + |parts[|parts| - 1]|
  }

  lemma {:induction false} JoinLength(parts: seq<string>)
    ensures |Join(parts)| == Length(parts) + if parts == [] then 0 else |parts| - 1
  {
    if |parts| >= 2 {
      JoinLength(parts[..|parts| - 1]);
    } else if |parts| == 1 {
      assert parts[..0] == [];
    }
  }

  /** Fields that differ at most in the type and configuration of `f`. */
  ghost predicate SameButType(a: Fields, b: Fields, f: string) {
    && a.Keys == b.Keys && f in a && !a[f].deleted && !b[f].deleted
    && forall g | g in a && g != f :: a[g].fieldType == b[g].fieldType && a[g].deleted == b[g].deleted
  }

  lemma {:induction false} OnePartMore(lib: Library, values: Cells, a: Fields, b: Fields, ids: seq<string>, f: string)
    requires SameButType(a, b, f) && IsTextual(a[f].fieldType) && !IsTextual(b[f].fieldType)
    requires f in values && values[f].Str? && Distinct(ids)
    ensures var more, less := JoinParts(lib, values, a, ids), JoinParts(lib, values, b, ids);
            if f in ids then |more| == |less| + 1 && Length(more) == Length(less) + |lib.fold(values[f].text)|
            else more == less
  {
    if ids != [] {
      var n := |ids| - 1;
      var front, last := ids[..n], ids[n];
      assert ids == front + [last];
      OnePartMore(lib, values, a, b, front, f);
      PartsStep(lib, values, a, ids);
      PartsStep(lib, values, b, ids);
    }
  }

  lemma PartsStep(lib: Library, values: Cells, fields: Fields, ids: seq<string>)
    requires ids != []
    ensures var n := |ids| - 1;
            var before, all := JoinParts(lib, values, fields, ids[..n]), JoinParts(lib, values, fields, ids);
            if Searched(values, fields, ids[n]) then
              |all| == |before| + 1 && Length(all) == Length(before) + |lib.fold(values[ids[n]].text)|
            else all == before
  {
    var n := |ids| - 1;
    if Searched(values, fields, ids[n]) {
      var before, all := JoinParts(lib, values, fields, ids[..n]), JoinParts(lib, values, fields, ids);
      assert all[..|all| - 1] == before;
    }
  }

  lemma SearchDiffers(lib: Library, values: Cells, a: Fields, b: Fields, f: string)
    requires SameButType(a, b, f) && IsTextual(a[f].fieldType) && !IsTextual(b[f].fieldType)
    requires f in values && values[f].Str? && lib.fold(values[f].text) != ""
    ensures SearchText(lib, values, a) != SearchText(lib, values, b)
  {
    var ids := SortedSet(values.Keys);
    SortedSetElements(values.Keys);
    OnePartMore(lib, values, a, b, ids, f);
    JoinLength(JoinParts(lib, values, a, ids));
    JoinLength(JoinParts(lib, values, b, ids));
  }

  lemma {:induction false} SameParts(lib: Library, values: Cells, a: Fields, b: Fields, ids: seq<string>, f: string)
    requires SameButType(a, b, f)
    requires IsTextual(a[f].fieldType) == IsTextual(b[f].fieldType) || f !in values || !values[f].Str?
    ensures JoinParts(lib, values, a, ids) == JoinParts(lib, values, b, ids)
  {
    if ids != [] {
      SameParts(lib, values, a, b, ids[..|ids| - 1], f);
    }
  }

  // ----- an untouched record -----

  /** The one text whose coming and going the index does not show: an empty one that folds to itself, in a record
      without other searched text. */
  ghost predicate Unnoticed(lib: Library, fields: Fields, f: string, row: Row) {
    OldValue(row, f) == Str("") && lib.fold("") == "" && forall g | g != f :: !Searched(row.values, fields, g)
  }

  /** The cell's text is searched under one of the two types only. */
  predicate Crosses(a: Fields, b: Fields, f: string, row: Row)
    requires f in a && f in b
  {
    OldValue(row, f).Str? && IsTextual(a[f].fieldType) != IsTextual(b[f].fieldType)
  }

  /** A record left as it was keeps a correct index exactly when its text is searched under both types or under
      neither, or makes no difference. */
  lemma UntouchedIndex(lib: Library, a: Fields, b: Fields, f: string, row: Row)
    requires SameButType(a, b, f) && RowIndexed(lib, a, row) && a[f].fieldType != Location && b[f].fieldType != Location
    ensures RowIndexed(lib, b, row) <==> !Crosses(a, b, f, row) || Unnoticed(lib, a, f, row)
  {
    if !Crosses(a, b, f, row) {
      SameIndexed(lib, a, b, f, row.values);
    } else {
      var text := OldValue(row, f).text;
      if text == "" && lib.fold("") == "" {
        EmptyIndex(lib, a, b, f, row);
      } else {
        TextIndexDiffers(lib, a, b, f, row);
      }
    }
  }

  lemma EmptyIndex(lib: Library, a: Fields, b: Fields, f: string, row: Row)
    requires SameButType(a, b, f) && RowIndexed(lib, a, row) && a[f].fieldType != Location && b[f].fieldType != Location
    requires Crosses(a, b, f, row) && OldValue(row, f) == Str("") && lib.fold("") == ""
    ensures RowIndexed(lib, b, row) <==> Unnoticed(lib, a, f, row)
  {
    EmptyProjection(lib, a, b, f, row.values);
    if IsTextual(a[f].fieldType) {
      EmptySearch(lib, a, b, f, row.values);
    } else {
      EmptySearch(lib, b, a, f, row.values);
    }
    forall g | g != f ensures Searched(row.values, a, g) == Searched(row.values, b, g) {}
  }

  lemma EmptyProjection(lib: Library, a: Fields, b: Fields, f: string, values: Cells)
    requires SameButType(a, b, f) && a[f].fieldType != Location && b[f].fieldType != Location
    requires f in values && values[f] == Str("") && lib.fold("") == ""
    ensures Projection(lib, values, a) == Projection(lib, values, b)
  {
    forall id | id in values && id in a && !a[id].deleted
      ensures ProjectedValue(lib, a[id].fieldType, values[id]) == ProjectedValue(lib, b[id].fieldType, values[id])
    {
    }
  }

  /** An empty part shows in the joined text only as a line break to its neighbours. */
  lemma EmptySearch(lib: Library, a: Fields, b: Fields, f: string, values: Cells)
    requires SameButType(a, b, f) && IsTextual(a[f].fieldType) && !IsTextual(b[f].fieldType)
    requires f in values && values[f] == Str("") && lib.fold("") == ""
    ensures SearchText(lib, values, a) == SearchText(lib, values, b) <==> forall g | g != f :: !Searched(values, b, g)
  {
    var ids := SortedSet(values.Keys);
    SortedSetElements(values.Keys);
    var more, less := JoinParts(lib, values, a, ids), JoinParts(lib, values, b, ids);
    OnePartMore(lib, values, a, b, ids, f);
    JoinLength(more);
    JoinLength(less);
    PartsEmpty(lib, values, b, ids);
    assert !Searched(values, b, f);
    if less == [] {
      assert |more| == 1 && |Join(more)| == 0;
      assert Join(more) == "" && Join(less) == "";
    }
  }

  lemma {:induction false} PartsEmpty(lib: Library, values: Cells, fields: Fields, ids: seq<string>)
    ensures JoinParts(lib, values, fields, ids) == [] <==> forall g | g in ids :: !Searched(values, fields, g)
  {
    if ids != [] {
      var front, last := ids[..|ids| - 1], ids[|ids| - 1];
      assert ids == front + [last];
      PartsEmpty(lib, values, fields, front);
      PartsStep(lib, values, fields, ids);
      assert forall g :: g in ids <==> g in front || g == last;
    }
  }

  lemma SameIndexed(lib: Library, a: Fields, b: Fields, f: string, values: Cells)
    requires SameButType(a, b, f) && a[f].fieldType != Location && b[f].fieldType != Location
    requires IsTextual(a[f].fieldType) == IsTextual(b[f].fieldType) || f !in values || !values[f].Str?
    ensures Projection(lib, values, a) == Projection(lib, values, b) && SearchText(lib, values, a) == SearchText(lib, values, b)
  {
    SameParts(lib, values, a, b, SortedSet(values.Keys), f);
    SameProjection(lib, a, b, f, values);
  }

  lemma SameProjection(lib: Library, a: Fields, b: Fields, f: string, values: Cells)
    requires SameButType(a, b, f) && a[f].fieldType != Location && b[f].fieldType != Location
    requires IsTextual(a[f].fieldType) == IsTextual(b[f].fieldType) || f !in values || !values[f].Str?
    ensures Projection(lib, values, a) == Projection(lib, values, b)
  {
    forall id | id in values && id in a && !a[id].deleted
      ensures ProjectedValue(lib, a[id].fieldType, values[id]) == ProjectedValue(lib, b[id].fieldType, values[id])
    {
    }
  }

  lemma TextIndexDiffers(lib: Library, a: Fields, b: Fields, f: string, row: Row)
    requires SameButType(a, b, f) && Crosses(a, b, f, row) && RowIndexed(lib, a, row)
    requires OldValue(row, f).text != "" || lib.fold("") != ""
    requires a[f].fieldType != Location && b[f].fieldType != Location
    ensures !RowIndexed(lib, b, row)
  {
    var text := OldValue(row, f).text;
    if lib.fold(text) == "" {
      assert Projection(lib, row.values, a)[f] != Projection(lib, row.values, b)[f];
    } else if IsTextual(a[f].fieldType) {
      SearchDiffers(lib, row.values, a, b, f);
    } else {
      SearchDiffers(lib, row.values, b, a, f);
    }
  }

  /** The conversion leaves a record alone although its cell has a value. */
  predicate Skipped(lib: Library, r: Request, nameToId: map<string, string>, row: Row) {
    OldValue(row, r.fieldId) != Null && FinalOf(lib, r, nameToId, OldValue(row, r.fieldId)) == Some(OldValue(row, r.fieldId))
  }

  /** After a conversion the index of a record is right exactly when the record was rewritten, or its text is searched
      under both types or under neither, or makes no difference. So a date field turned into text leaves its dates
      unsearchable, and a text field turned into dates leaves them searchable. */
  lemma IndexAfterConversion(lib: Library, a: Fields, r: Request, b: Fields, nameToId: map<string, string>, row: Row)
    requires SameButType(a, b, r.fieldId) && RowIndexed(lib, a, row)
    requires a[r.fieldId].fieldType != Location && b[r.fieldId].fieldType != Location
    ensures RowIndexed(lib, b, ConvertedRow(lib, b, r, nameToId, row)) <==>
            !(Skipped(lib, r, nameToId, row) && Crosses(a, b, r.fieldId, row)) || Unnoticed(lib, a, r.fieldId, row)
  {
    var v := OldValue(row, r.fieldId);
    if v == Null || Skipped(lib, r, nameToId, row) {
      LeftAlone(lib, b, r, nameToId, row);
      UntouchedIndex(lib, a, b, r.fieldId, row);
    } else {
      RewrittenIndexed(lib, b, r, nameToId, row);
    }
  }

  lemma LeftAlone(lib: Library, fields: Fields, r: Request, nameToId: map<string, string>, row: Row)
    requires OldValue(row, r.fieldId) == Null || Skipped(lib, r, nameToId, row)
    ensures ConvertedRow(lib, fields, r, nameToId, row) == row
  {
  }

  lemma RewrittenIndexed(lib: Library, fields: Fields, r: Request, nameToId: map<string, string>, row: Row)
    requires OldValue(row, r.fieldId) != Null && !Skipped(lib, r, nameToId, row)
    ensures RowIndexed(lib, fields, ConvertedRow(lib, fields, r, nameToId, row))
  {
    RowWithIndexed(lib, fields, r.fieldId, row, FinalOf(lib, r, nameToId, OldValue(row, r.fieldId)));
  }

  lemma RowWithIndexed(lib: Library, fields: Fields, f: string, row: Row, final: Option<Value>)
    requires final != Some(OldValue(row, f))
    ensures RowIndexed(lib, fields, RowWith(lib, fields, f, row, final))
  {
  }

  // ----- the log across a conversion -----

  lemma RewrittenDiffers(lib: Library, fields: Fields, r: Request, nameToId: map<string, string>, row: Row)
    ensures ConvertedRow(lib, fields, r, nameToId, row).values == row.values <==>
            OldValue(row, r.fieldId) == Null || Skipped(lib, r, nameToId, row)
  {
    var v, f := OldValue(row, r.fieldId), r.fieldId;
    if v == Null || Skipped(lib, r, nameToId, row) {
      LeftAlone(lib, fields, r, nameToId, row);
    } else {
      var final := FinalOf(lib, r, nameToId, v);
      assert final.None? ==> f !in row.values - {f};
      assert final.Some? ==> row.values[f := final.value][f] == final.value != row.values[f];
    }
  }

  /** A conversion rewrites values and logs only a schema change. So the log leads across it, forward and back, exactly
      when every record it scanned had no value or comes out with the value it had. */
  lemma ConversionTraced(lib: Library, s: State, table: string, r: Request, order: seq<string>, now: int, built: Built)
    requires r.fieldId in s.fields && Converted(lib, s, table, r, order, now).Ok?
    requires ConvertedConfig(lib, r.seen, r.target, NamesOf(lib, r, s.rows, order), s.nextOption) == Some(built)
    ensures Traced(s, Converted(lib, s, table, r, order, now).value.0) <==>
            forall id | id in order && id in s.rows ::
              OldValue(s.rows[id], r.fieldId) == Null || Skipped(lib, r, built.nameToId, s.rows[id])
  {
    var t, tally, b := ConvertedParts(lib, s, table, r, order, now);
    assert OnlySchema(s.log, t.log);
    RewritesAreUntraced(s, t);
    forall id | id in s.rows
      ensures t.rows[id].values == s.rows[id].values <==>
              (id in order ==> OldValue(s.rows[id], r.fieldId) == Null || Skipped(lib, r, built.nameToId, s.rows[id]))
    {
      RewrittenDiffers(lib, t.fields, r, built.nameToId, s.rows[id]);
    }
  }

  // ----- plans from an outdated field -----

  /** Fields of equal identifier and revision are equal: every change of a field raises its revision. */
  ghost predicate RevisionsTell(seen: Field, current: Field) {
    seen.revision == current.revision ==> seen == current
  }

  /** A committed conversion was planned from the current field exactly when the request expected the revision the
      preview was made from. */
  lemma ConversionGuarded(lib: Library, s: State, table: string, r: Request, order: seq<string>, now: int)
    requires Converted(lib, s, table, r, order, now).Ok? && RevisionsTell(r.seen, s.fields[r.fieldId])
    ensures s.fields[r.fieldId] == r.seen <==> r.expectedRevision == r.seen.revision
    ensures s.fields[r.fieldId].revision == r.expectedRevision
  {
  }

  /** An expected revision ahead of the preview's lets an outdated plan commit: the option added in between is lost, and
      the record that holds it is left with an unknown one. */
  lemma ConversionStale(lib: Library, seen: Field, current: Field, row: Row, known: string, added: string)
    requires known != added && lib.optionId(added) && !seen.deleted && !seen.primary
    requires seen.fieldType == Select && seen.config == Choices(SelectConfig([SelectOption(known, "A", "blue")], []))
    requires current == seen.(revision := seen.revision + 1,
                              config := Choices(SelectConfig([SelectOption(known, "A", "blue"), SelectOption(added, "B", "red")], [])))
    requires row.tableId == seen.tableId && row.values == map["f" := Str(added)]
    ensures Stored(lib, Str(added), Select, current.config)
    ensures LeavesUnknown(lib, State(map["f" := current], map["r" := row], [], 0, 0), seen.tableId,
                          StaleRequest(seen, current), ["r"])
    ensures Offered(seen, StaleRequest(seen, current))
  {
    var s := State(map["f" := current], map["r" := row], [], 0, 0);
    var r := StaleRequest(seen, current);
    KnownAdded(current.config.select, added);
    StaleTally(lib, r, s.rows);
    SingleFinal(lib, r, Str(added));
    StaleIsOffered(seen, current);
    UnknownElement(lib, seen, known, added);
    StaleLeaves(lib, s, r, row, seen.tableId, Str(added), List([Str(added)]));
  }

  /** The service offers this conversion of the field it read. */
  predicate Offered(seen: Field, r: Request) {
    r.mode in ModesFor(seen.fieldType, r.target)
  }

  lemma StaleIsOffered(seen: Field, current: Field)
    requires seen.fieldType == Select
    ensures Offered(seen, StaleRequest(seen, current))
  {
  }

  lemma KnownAdded(c: SelectConfig, id: string)
    requires |c.options| == 2 && c.options[1].id == id
    ensures KnownOption(c, id)
  {
    assert c.options[1] in c.options;
  }

  lemma SingleFinal(lib: Library, r: Request, v: Value)
    requires r.target == MultiSelect && r.mode == "singleElement" && r.seen.fieldType == Select && v.Str?
    ensures FinalOf(lib, r, map[], v) == Some(List([v]))
  {
  }

  function StaleRequest(seen: Field, current: Field): Request {
    Request("f", seen, MultiSelect, "singleElement", current.revision, Digest(1, 0, 0, 0, []))
  }

  /** The conversion commits and leaves a cell that its own field does not know. */
  ghost predicate LeavesUnknown(lib: Library, s: State, table: string, r: Request, order: seq<string>) {
    && Converted(lib, s, table, r, order, 0).Ok?
    && var t := Converted(lib, s, table, r, order, 0).value.0;
       r.fieldId in t.fields && exists id | id in t.rows && r.fieldId in t.rows[id].values ::
         !Stored(lib, t.rows[id].values[r.fieldId], r.target, t.fields[r.fieldId].config)
  }

  lemma UnknownElement(lib: Library, seen: Field, known: string, id: string)
    requires seen.config == Choices(SelectConfig([SelectOption(known, "A", "blue")], [])) && known != id
    ensures !Stored(lib, List([Str(id)]), MultiSelect, seen.config)
  {
    var c := seen.config.select;
    assert ActiveIds(c) == {known} && DeletedIds(c) == {};
    assert [Str(id)][0] == Str(id);
  }

  lemma StaleLeaves(lib: Library, s: State, r: Request, row: Row, table: string, v: Value, w: Value)
    requires r.fieldId == "f" && r.target == MultiSelect && r.seen.fieldType == Select && r.seen.config.Choices?
    requires s.rows == map["r" := row] && row.values == map["f" := v] && v != Null && v != w
    requires FieldCheck(s, table, r).None?
    requires TallyOf(lib, r, s.rows, ["r"]) == Tally(1, 0, 0, 0, map[]) && r.digest == Digest(1, 0, 0, 0, [])
    requires FinalOf(lib, r, map[], v) == Some(w) && !Stored(lib, w, MultiSelect, r.seen.config)
    ensures LeavesUnknown(lib, s, table, r, ["r"])
  {
    var tally := Tally(1, 0, 0, 0, map[]);
    assert tally.distinct.Keys == {};
    ConvertedIs(lib, s, table, r, ["r"], tally, Built(r.seen.config, map[], s.nextOption));
    var t := Converted(lib, s, table, r, ["r"], 0).value.0;
    assert "r" in ["r"];
    assert t.rows["r"] == ConvertedRow(lib, t.fields, r, map[], row);
    assert t.rows["r"].values["f"] == w;
  }

  lemma ConvertedIs(lib: Library, s: State, table: string, r: Request, order: seq<string>, tally: Tally, built: Built)
    requires FieldCheck(s, table, r).None? && TallyOf(lib, r, s.rows, order) == tally && DigestOf(tally) == r.digest
    requires ConvertedConfig(lib, r.seen, r.target, SortedNames(tally.distinct), s.nextOption) == Some(built)
    ensures Converted(lib, s, table, r, order, 0).Ok?
    ensures var t := Converted(lib, s, table, r, order, 0).value.0;
            && t.fields == s.fields[r.fieldId := NewField(s.fields[r.fieldId], r, built.config)]
            && t.rows == ConvertedRows(lib, t.fields, r, built.nameToId, s.rows, order)
  {
  }

  lemma StaleTally(lib: Library, r: Request, rows: map<string, Row>)
    requires r.fieldId == "f" && r.target == MultiSelect && r.mode == "singleElement" && r.seen.fieldType == Select
    requires "r" in rows && "f" in rows["r"].values && rows["r"].values["f"].Str?
    ensures TallyOf(lib, r, rows, ["r"]) == Tally(1, 0, 0, 0, map[])
  {
    var values := ValuesOf(rows, "f", ["r"]);
    assert values == [rows["r"].values["f"]];
    assert values[..0] == [];
    assert AddAll(lib, ContextOf(r.seen, r.target), r.mode, values[..0]) == Start();
  }
}
