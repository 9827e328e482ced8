/** What a committed conversion makes of the cells, stated for each pair of types on offer, and what its counts say. */
module ConversionCells {
  import opened Results
  import opened Schema
  import opened Values
  import opened Orders
  import opened ChoiceOptions
  import opened Conversion
  import opened FieldConversion
  import opened ConversionTyped
  import opened ConversionMeaning
  import opened Mutations

  // ----- what each pair of types promises -----

  predicate IsText(t: FieldType) {
    t == Text || t == LongText
  }

  /** The text as it is, if it fits. */
  function Carried(v: Value, limit: nat): Outcome {
    if v.Str? && |v.text| <= limit then Kept(v) else Lost
  }

  /** A date, URL, number or flag read from a text: what the text is without the blanks around it. */
  function Read(lib: Library, target: FieldType, text: string): Outcome {
    if text == "" then Nothing
    else if target == Date then (if lib.validDate(text) then Kept(Str(text)) else Lost)
    else if target == Url then (if lib.validUrl(text) && |text| <= 2048 then Kept(Str(text)) else Lost)
    else if target == Number then (if lib.parseNumber(text).Some? then Kept(Num(lib.parseNumber(text).value)) else Lost)
    else if lib.lower(text) == "true" || lib.lower(text) == "1" || lib.lower(text) == "yes" then Kept(Bool(true))
    else if lib.lower(text) == "false" || lib.lower(text) == "0" || lib.lower(text) == "no" then Kept(Bool(false))
    else Lost
  }

  /** The option's name, wherever in the configuration it stands. */
  ghost predicate Named(c: SelectConfig, id: string, name: string) {
    || (exists o | o in c.options :: o.id == id && o.name == name)
    || (exists o | o in c.deletedOptions :: o.id == id && o.name == name)
  }

  ghost predicate AllNamed(c: SelectConfig, items: seq<Value>, names: seq<string>) {
    |names| == |items| && forall i | 0 <= i < |items| :: items[i].Str? && Named(c, items[i].text, names[i])
  }

  function Glued(names: seq<string>): string {
    if |names| == 0 then "" else if |names| == 1 then names[0] else names[0] + ", " + Glued(names[1..])
  }

  /** How a value is written. */
  function Written(lib: Library, v: Value): string {
    match v case Str(text) => text case Num(x) => lib.formatNumber(x) case Bool(flag) => (if flag then "true" else "false") case _ => ""
  }

  /** The option named like a value is written, unless that is blank or no name. */
  function OptionFor(lib: Library, text: string): Outcome {
    if lib.trim(text) == "" then Nothing
    else if lib.optionName(text).Some? then Kept(Str(lib.optionName(text).value))
    else Lost
  }

  /** The outcome a value of one type promises in another. */
  ghost predicate Means(lib: Library, field: Field, target: FieldType, mode: string, v: Value, o: Outcome) {
    if IsChoice(target) && !IsChoice(field.fieldType) then o == OptionFor(lib, Written(lib, v))
    else match field.fieldType
    case Text => if IsText(target) then o == Carried(v, 10000) else v.Str? && o == Read(lib, target, lib.trim(v.text))
    case LongText => if IsText(target) then o == Carried(v, 10000) else v.Str? && o == Read(lib, target, lib.trim(v.text))
    case Url => o == Kept(v)
    case Date => o == Kept(v)
    case Number =>
      v.Num? && (if target == Checkbox then FlagMeans(mode, v.number, o) else o == Kept(Str(lib.formatNumber(v.number))))
    case Checkbox =>
      v.Bool? && o == Kept(if target == Number then (if v.flag then Num(1.0) else Num(0.0))
                           else if v.flag then Str("true") else Str("false"))
    case Select =>
      v.Str? && (if target == MultiSelect then o == Kept(List([v])) else NameMeans(field, v.text, o))
    case MultiSelect =>
      v.List? && (if target == Select then FirstMeans(v.items, o) else NamesMean(field, target, v.items, o))
    case _ => false
  }

  /** Zero is false and one is true; other numbers are true or, in the strict mode, lost. */
  predicate FlagMeans(mode: string, x: real, o: Outcome) {
    if x == 0.0 then o == Kept(Bool(false))
    else if x == 1.0 || mode != "zeroOne" then o == Kept(Bool(true))
    else o == Lost
  }

  ghost predicate NameMeans(field: Field, id: string, o: Outcome) {
    field.config.Choices? && exists name :: Named(field.config.select, id, name) && o == Kept(Str(name))
  }

  predicate FirstMeans(items: seq<Value>, o: Outcome) {
    if |items| == 0 then o == Nothing else if |items| == 1 then o == Kept(items[0]) else o == Lossy(items[0])
  }

  /** The names in order, with a comma and a blank between them, if that fits. */
  ghost predicate NamesMean(field: Field, target: FieldType, items: seq<Value>, o: Outcome) {
    && field.config.Choices?
    && exists names ::
         && AllNamed(field.config.select, items, names)
         && o == if names == [] then Nothing
                 else if |Glued(names)| <= (if target == LongText then 100000 else 10000) then Kept(Str(Glued(names)))
                 else Lost
  }

  // ----- one value -----

  lemma PreserveIs(lib: Library, c: Context, v: Value)
    requires v.Str?
    ensures ConvertValue(lib, c, "preserve", v) == Kept(v)
  {
  }

  lemma DropOverlongIs(lib: Library, c: Context, v: Value)
    requires v.Str?
    ensures ConvertValue(lib, c, "dropOverlong", v) == if |v.text| <= TextLimit(c.target) then Kept(v) else Lost
  {
  }

  lemma NumericIs(lib: Library, c: Context, v: Value)
    requires v.Bool?
    ensures ConvertValue(lib, c, "numeric", v) == Kept(Num(if v.flag then 1.0 else 0.0))
  {
  }

  lemma NonzeroIs(lib: Library, c: Context, v: Value)
    requires v.Num?
    ensures ConvertValue(lib, c, "nonzero", v) == Kept(Bool(v.number != 0.0))
  {
  }

  lemma ZeroOneIs(lib: Library, c: Context, v: Value)
    requires v.Num?
    ensures ConvertValue(lib, c, "zeroOne", v) ==
            if v.number == 0.0 || v.number == 1.0 then Kept(Bool(v.number == 1.0)) else Lost
  {
  }

  lemma FirstIs(lib: Library, c: Context, v: Value)
    requires v.List?
    ensures ConvertValue(lib, c, "firstOption", v) ==
            if v.items == [] then Nothing else if |v.items| > 1 then Lossy(v.items[0]) else Kept(v.items[0])
  {
  }

  lemma JoinIs(lib: Library, c: Context, v: Value, names: seq<string>)
    requires v.List? && ListedNames(c.optionNames, v.items) == Some(names)
    ensures ConvertValue(lib, c, "joinNames", v) ==
            if v.items == [] then Nothing
            else if |JoinNames(names)| <= TextLimit(c.target) then Kept(Str(JoinNames(names))) else Lost
  {
  }

  lemma DistinctIs(lib: Library, c: Context, v: Value)
    requires v != Null
    ensures ConvertValue(lib, c, "distinctOptions", v) == DistinctOption(lib, v)
  {
  }

  lemma NullIs(lib: Library, c: Context, mode: string)
    ensures ConvertValue(lib, c, mode, Null) == Nothing
  {
  }

  /** Joining from the front is joining from the back. */
  lemma {:induction false} GluedLast(names: seq<string>)
    requires |names| >= 2
    ensures Glued(names) == Glued(names[..|names| - 1]) + ", " + names[|names| - 1]
  {
    var front := names[..|names| - 1];
    if |names| == 2 {
      assert Glued(names[1..]) == names[1];
    } else {
      GluedLast(names[1..]);
      assert names[1..][..|names| - 2] == front[1..];
      GluedAssoc(names[0], Glued(front[1..]), names[|names| - 1]);
    }
  }

  lemma GluedAssoc(a: string, b: string, c: string)
    ensures a + ", " + (b + ", " + c) == a + ", " + b + ", " + c
  {
  }

  lemma {:induction false} GluedJoins(names: seq<string>)
    ensures Glued(names) == JoinNames(names)
  {
    if |names| >= 2 {
      GluedJoins(names[..|names| - 1]);
      GluedLast(names);
    }
  }

  lemma HasName(c: SelectConfig, id: string)
    requires KnownOption(c, id)
    ensures exists name :: Named(c, id, name)
  {
    if o :| o in c.options && o.id == id {
      assert Named(c, id, o.name);
    } else {
      var o :| o in c.deletedOptions && o.id == id;
      assert Named(c, id, o.name);
    }
  }

  /** Known options are listed by their names. */
  lemma {:induction false} ListsNames(c: SelectConfig, items: seq<Value>) returns (names: seq<string>)
    requires DistinctIds(c) && forall i | 0 <= i < |items| :: items[i].Str? && KnownOption(c, items[i].text)
    ensures AllNamed(c, items, names) && ListedNames(OptionNames(c), items) == Some(names)
  {
    if items == [] {
      names := [];
    } else {
      var front := ListsNames(c, items[..|items| - 1]);
      var id := items[|items| - 1].text;
      HasName(c, id);
      var name :| Named(c, id, name);
      NameOfOption(c, id, name);
      names := front + [name];
    }
  }

  lemma SelectMeans(lib: Library, field: Field, target: FieldType, v: Value)
    requires field.config.Choices? && DistinctIds(field.config.select) && v.Str? && KnownOption(field.config.select, v.text)
    requires IsChoice(field.fieldType)
    ensures NameMeans(field, v.text, ConvertValue(lib, ContextOf(field, target), "optionName", v))
  {
    HasName(field.config.select, v.text);
    var name :| Named(field.config.select, v.text, name);
    ShowsItsOption(lib, field, target, v.text, name);
  }

  lemma ListMeans(lib: Library, field: Field, target: FieldType, v: Value)
    requires field.config.Choices? && DistinctIds(field.config.select) && IsChoice(field.fieldType)
    requires v.List? && forall i | 0 <= i < |v.items| :: v.items[i].Str? && KnownOption(field.config.select, v.items[i].text)
    ensures NamesMean(field, target, v.items, ConvertValue(lib, ContextOf(field, target), "joinNames", v))
  {
    var names := ListsNames(field.config.select, v.items);
    JoinIs(lib, ContextOf(field, target), v, names);
    GluedJoins(names);
  }

  lemma ReadIs(lib: Library, target: FieldType, text: string)
    requires target in [Number, Checkbox, Date, Url]
    ensures ParseText(lib, target, Str(text)) == Read(lib, target, lib.trim(text))
  {
  }

  // ----- one value, by the type it had -----

  /** A conversion on offer, of a filled cell whose value is valid for the type it had. */
  ghost predicate Offered(lib: Library, field: Field, target: FieldType, mode: string, v: Value) {
    && mode in ModesFor(field.fieldType, target)
    && v != Null && Stored(lib, v, field.fieldType, field.config)
    && (IsChoice(field.fieldType) ==> field.config.Choices? && DistinctIds(field.config.select))
  }

  lemma TextToText(lib: Library, field: Field, target: FieldType, mode: string, v: Value)
    requires Offered(lib, field, target, mode, v) && IsText(field.fieldType) && IsText(target)
    ensures Means(lib, field, target, mode, v, ConvertValue(lib, ContextOf(field, target), mode, v))
  {
    if target == Text {
      assert mode == "dropOverlong";
      DropOverlongIs(lib, ContextOf(field, target), v);
    } else {
      assert mode == "preserve";
      PreserveIs(lib, ContextOf(field, target), v);
    }
  }

  lemma TextToOther(lib: Library, field: Field, target: FieldType, mode: string, v: Value)
    requires Offered(lib, field, target, mode, v) && IsText(field.fieldType) && !IsText(target) && !IsChoice(target)
    ensures Means(lib, field, target, mode, v, ConvertValue(lib, ContextOf(field, target), mode, v))
  {
    assert mode == "parse";
    ParseIs(lib, ContextOf(field, target), v);
    ReadIs(lib, target, v.text);
  }

  lemma UrlToText(lib: Library, field: Field, target: FieldType, mode: string, v: Value)
    requires Offered(lib, field, target, mode, v) && field.fieldType == Url && !IsChoice(target)
    ensures Means(lib, field, target, mode, v, ConvertValue(lib, ContextOf(field, target), mode, v))
  {
    assert mode == "preserve";
    PreserveIs(lib, ContextOf(field, target), v);
  }

  lemma ScalarToText(lib: Library, field: Field, target: FieldType, mode: string, v: Value)
    requires Offered(lib, field, target, mode, v) && field.fieldType in [Date, Number, Checkbox] && IsText(target)
    ensures Means(lib, field, target, mode, v, ConvertValue(lib, ContextOf(field, target), mode, v))
  {
    assert mode == "format";
    FormatIs(lib, ContextOf(field, target), v);
  }

  lemma NumberToFlag(lib: Library, field: Field, target: FieldType, mode: string, v: Value)
    requires Offered(lib, field, target, mode, v) && field.fieldType == Number && target == Checkbox
    ensures Means(lib, field, target, mode, v, ConvertValue(lib, ContextOf(field, target), mode, v))
  {
    NonzeroIs(lib, ContextOf(field, target), v);
    ZeroOneIs(lib, ContextOf(field, target), v);
  }

  lemma FlagToNumber(lib: Library, field: Field, target: FieldType, mode: string, v: Value)
    requires Offered(lib, field, target, mode, v) && field.fieldType == Checkbox && target == Number
    ensures Means(lib, field, target, mode, v, ConvertValue(lib, ContextOf(field, target), mode, v))
  {
    assert mode == "numeric";
    NumericIs(lib, ContextOf(field, target), v);
  }

  lemma SelectToOther(lib: Library, field: Field, target: FieldType, mode: string, v: Value)
    requires Offered(lib, field, target, mode, v) && field.fieldType == Select
    ensures Means(lib, field, target, mode, v, ConvertValue(lib, ContextOf(field, target), mode, v))
  {
    if target == MultiSelect {
      assert mode == "singleElement";
      SingleIs(lib, ContextOf(field, target), v);
    } else {
      assert mode == "optionName";
      SelectMeans(lib, field, target, v);
    }
  }

  lemma ListToOther(lib: Library, field: Field, target: FieldType, mode: string, v: Value)
    requires Offered(lib, field, target, mode, v) && field.fieldType == MultiSelect
    ensures Means(lib, field, target, mode, v, ConvertValue(lib, ContextOf(field, target), mode, v))
  {
    if target == Select {
      assert mode == "firstOption";
      FirstIs(lib, ContextOf(field, target), v);
    } else {
      assert mode == "joinNames";
      ListMeans(lib, field, target, v);
    }
  }

  lemma ToNewOption(lib: Library, field: Field, target: FieldType, mode: string, v: Value)
    requires Offered(lib, field, target, mode, v) && IsChoice(target) && !IsChoice(field.fieldType)
    ensures Means(lib, field, target, mode, v, ConvertValue(lib, ContextOf(field, target), mode, v))
  {
    assert mode == "distinctOptions";
    DistinctIs(lib, ContextOf(field, target), v);
  }

  /** Every conversion on offer keeps the promise of its pair of types. */
  lemma ConvertMeans(lib: Library, field: Field, target: FieldType, mode: string, v: Value)
    requires Offered(lib, field, target, mode, v)
    ensures Means(lib, field, target, mode, v, ConvertValue(lib, ContextOf(field, target), mode, v))
  {
    if IsChoice(target) && !IsChoice(field.fieldType) {
      ToNewOption(lib, field, target, mode, v);
      return;
    }
    match field.fieldType
    case Text => if IsText(target) { TextToText(lib, field, target, mode, v); } else { TextToOther(lib, field, target, mode, v); }
    case LongText => if IsText(target) { TextToText(lib, field, target, mode, v); } else { TextToOther(lib, field, target, mode, v); }
    case Url => UrlToText(lib, field, target, mode, v);
    case Date => ScalarToText(lib, field, target, mode, v);
    case Number =>
      if target == Checkbox { NumberToFlag(lib, field, target, mode, v); } else { ScalarToText(lib, field, target, mode, v); }
    case Checkbox =>
      if target == Number { FlagToNumber(lib, field, target, mode, v); } else { ScalarToText(lib, field, target, mode, v); }
    case Select => SelectToOther(lib, field, target, mode, v);
    case MultiSelect => ListToOther(lib, field, target, mode, v);
    case _ =>
  }

  /** The promise leaves no choice. */
  lemma MeansOnce(lib: Library, field: Field, target: FieldType, mode: string, v: Value, a: Outcome, b: Outcome)
    requires IsChoice(field.fieldType) ==> field.config.Choices? && DistinctIds(field.config.select)
    requires Means(lib, field, target, mode, v, a) && Means(lib, field, target, mode, v, b)
    ensures a == b
  {
    if field.fieldType == Select && target != MultiSelect {
      var x: string :| Named(field.config.select, v.text, x) && a == Kept(Str(x));
      var y: string :| Named(field.config.select, v.text, y) && b == Kept(Str(y));
      NameOfOption(field.config.select, v.text, x);
      NameOfOption(field.config.select, v.text, y);
    } else if field.fieldType == MultiSelect && target != Select {
      NamesMeanOnce(field, target, v.items, a, b);
    }
  }

  lemma NamesMeanOnce(field: Field, target: FieldType, items: seq<Value>, a: Outcome, b: Outcome)
    requires field.config.Choices? && DistinctIds(field.config.select)
    requires NamesMean(field, target, items, a) && NamesMean(field, target, items, b)
    ensures a == b
  {
    var limit := if target == LongText then 100000 else 10000;
    var x :| AllNamed(field.config.select, items, x)
             && a == if x == [] then Nothing else if |Glued(x)| <= limit then Kept(Str(Glued(x))) else Lost;
    var y :| AllNamed(field.config.select, items, y)
             && b == if y == [] then Nothing else if |Glued(y)| <= limit then Kept(Str(Glued(y))) else Lost;
    forall i | 0 <= i < |items| ensures x[i] == y[i] {
      NameOfOption(field.config.select, items[i].text, x[i]);
      NameOfOption(field.config.select, items[i].text, y[i]);
    }
    assert x == y;
  }

  // ----- the cells of a committed conversion -----

  /** One conversion: where it started, what was asked for, and where it ended. */
  datatype Commit = Commit(
    lib: Library, before: State, table: string, request: Request, order: seq<string>, now: int, after: State, tally: Tally)

  function Scan(x: Commit): seq<Value> {
    ValuesOf(x.before.rows, x.request.fieldId, x.order)
  }

  function Old(x: Commit, id: string): Value
    requires id in x.before.rows
  {
    OldValue(x.before.rows[id], x.request.fieldId)
  }

  /** It was on offer and committed, and the values were valid for the type the field had. */
  ghost predicate Commits(x: Commit) {
    && Lawful(x.lib) && x.request.mode in ModesFor(x.request.seen.fieldType, x.request.target)
    && (IsChoice(x.request.seen.fieldType) ==>
          x.request.seen.config.Choices? && DistinctIds(x.request.seen.config.select))
    && (forall v | v in Scan(x) :: Stored(x.lib, v, x.request.seen.fieldType, x.request.seen.config))
    && Converted(x.lib, x.before, x.table, x.request, x.order, x.now) == Ok((x.after, x.tally))
  }

  /** The record's cell is now `cell`; nothing else it holds has changed. */
  ghost predicate Turned(x: Commit, id: string, cell: Option<Value>)
    requires id in x.before.rows
  {
    && id in x.after.rows && Lookup(x.after.rows[id].values, x.request.fieldId) == cell
    && (forall g | g != x.request.fieldId :: Lookup(x.after.rows[id].values, g) == Lookup(x.before.rows[id].values, g))
    && x.after.rows[id] == x.before.rows[id].(values := x.after.rows[id].values, queryValues := x.after.rows[id].queryValues,
                                              searchText := x.after.rows[id].searchText)
  }

  ghost predicate Stayed(x: Commit, id: string)
    requires id in x.before.rows
  {
    id in x.after.rows && x.after.rows[id] == x.before.rows[id]
  }

  lemma CommitParts(x: Commit) returns (built: Built)
    requires Commits(x)
    ensures ConvertedConfig(x.lib, x.request.seen, x.request.target, NamesOf(x.lib, x.request, x.before.rows, x.order),
                            x.before.nextOption) == Some(built)
    ensures x.request.fieldId in x.after.fields && x.after.fields[x.request.fieldId].config == built.config
    ensures x.after.rows == ConvertedRows(x.lib, x.after.fields, x.request, built.nameToId, x.before.rows, x.order)
    ensures x.tally == AddAll(x.lib, ContextOf(x.request.seen, x.request.target), x.request.mode, Scan(x))
  {
    assert x.request.fieldId in x.before.fields;
    var t, tally;
    t, tally, built := ConvertedParts(x.lib, x.before, x.table, x.request, x.order, x.now);
  }

  lemma RowTurns(lib: Library, fields: Fields, r: Request, nameToId: map<string, string>, row: Row, after: Row)
    requires after == ConvertedRow(lib, fields, r, nameToId, row) && OldValue(row, r.fieldId) != Null
    ensures Lookup(after.values, r.fieldId) == FinalOf(lib, r, nameToId, OldValue(row, r.fieldId))
    ensures forall g | g != r.fieldId :: Lookup(after.values, g) == Lookup(row.values, g)
    ensures after == row.(values := after.values, queryValues := after.queryValues, searchText := after.searchText)
  {
    CellReplaced(row.values, r.fieldId, FinalOf(lib, r, nameToId, OldValue(row, r.fieldId)));
  }

  lemma ScannedOffer(x: Commit, id: string)
    requires Commits(x) && id in x.before.rows && id in x.order
    ensures Old(x, id) in Scan(x)
    ensures Old(x, id) != Null ==> Offered(x.lib, x.request.seen, x.request.target, x.request.mode, Old(x, id))
  {
    Scans(x.before.rows, x.request.fieldId, x.order, id);
  }

  /** A scanned cell becomes what its value converts to, or the cell of the option that value names. */
  lemma CellTurns(x: Commit, id: string, built: Built)
    requires Commits(x) && id in x.before.rows && id in x.order && Old(x, id) != Null
    requires x.after.rows == ConvertedRows(x.lib, x.after.fields, x.request, built.nameToId, x.before.rows, x.order)
    ensures Turned(x, id, FinalOf(x.lib, x.request, built.nameToId, Old(x, id)))
  {
    RowTurns(x.lib, x.after.fields, x.request, built.nameToId, x.before.rows[id], x.after.rows[id]);
  }

  lemma NotScanned(x: Commit, id: string)
    requires Commits(x) && id in x.before.rows && (id !in x.order || Old(x, id) == Null)
    ensures Stayed(x, id)
  {
    var built := CommitParts(x);
    assert x.after.rows[id] == if id in x.order then ConvertedRow(x.lib, x.after.fields, x.request, built.nameToId, x.before.rows[id])
                               else x.before.rows[id];
  }

  lemma RowStays(lib: Library, fields: Fields, r: Request, nameToId: map<string, string>, row: Row)
    requires !OptionTarget(ContextOf(r.seen, r.target)) && ConvertedOf(lib, r, OldValue(row, r.fieldId)) == Some(OldValue(row, r.fieldId))
    ensures ConvertedRow(lib, fields, r, nameToId, row) == row
  {
  }

  /** A record whose value comes out the same stays as it is. */
  lemma RecordStays(x: Commit, id: string)
    requires Commits(x) && id in x.before.rows && id in x.order && !OptionTarget(ContextOf(x.request.seen, x.request.target))
    requires ConvertedOf(x.lib, x.request, Old(x, id)) == Some(Old(x, id))
    ensures Stayed(x, id)
  {
    var built := CommitParts(x);
    var row := x.before.rows[id];
    assert Old(x, id) == OldValue(row, x.request.fieldId);
    RowStays(x.lib, x.after.fields, x.request, built.nameToId, row);
  }

  // ----- the whole conversion -----

  datatype Verdict = IsKept | IsLossy | IsLost | IsEmpty

  function Judged(o: Outcome): Verdict {
    match o case Kept(_) => IsKept case Lossy(_) => IsLossy case Lost => IsLost case Nothing => IsEmpty
  }

  function CountOf(outcomes: seq<Outcome>, k: Verdict): nat {
    if outcomes == [] then 0
    else CountOf(outcomes[..|outcomes| - 1], k) + if Judged(outcomes[|outcomes| - 1]) == k then 1 else 0
  }

  /** The counts are those of the outcomes. */
  ghost predicate Tallied(t: Tally, outcomes: seq<Outcome>) {
    && t.ok == CountOf(outcomes, IsKept) && t.lossy == CountOf(outcomes, IsLossy)
    && t.lost == CountOf(outcomes, IsLost) && t.empty == CountOf(outcomes, IsEmpty)
  }

  function OutcomesOf(lib: Library, c: Context, mode: string, values: seq<Value>): (r: seq<Outcome>)
    ensures |r| == |values|
  {
    if values == [] then []
    else OutcomesOf(lib, c, mode, values[..|values| - 1]) + [ConvertValue(lib, c, mode, values[|values| - 1])]
  }

  lemma {:induction false} OutcomeAt(lib: Library, c: Context, mode: string, values: seq<Value>, i: nat)
    requires i < |values|
    ensures OutcomesOf(lib, c, mode, values)[i] == ConvertValue(lib, c, mode, values[i])
  {
    if i < |values| - 1 {
      OutcomeAt(lib, c, mode, values[..|values| - 1], i);
    }
  }

  lemma CountMore(outcomes: seq<Outcome>, o: Outcome, k: Verdict)
    ensures CountOf(outcomes + [o], k) == CountOf(outcomes, k) + if Judged(o) == k then 1 else 0
  {
    assert (outcomes + [o])[..|outcomes|] == outcomes;
  }

  lemma AddedJudged(lib: Library, c: Context, mode: string, t: Tally, v: Value)
    ensures var a, k := Added(lib, c, mode, t, v), Judged(ConvertValue(lib, c, mode, v));
            && a.ok == t.ok + (if k == IsKept then 1 else 0) && a.lossy == t.lossy + (if k == IsLossy then 1 else 0)
            && a.lost == t.lost + (if k == IsLost then 1 else 0) && a.empty == t.empty + (if k == IsEmpty then 1 else 0)
  {
  }

  lemma {:induction false} TallyCounts(lib: Library, c: Context, mode: string, values: seq<Value>)
    ensures Tallied(AddAll(lib, c, mode, values), OutcomesOf(lib, c, mode, values))
  {
    if values != [] {
      var front, v := values[..|values| - 1], values[|values| - 1];
      TallyCounts(lib, c, mode, front);
      AddedJudged(lib, c, mode, AddAll(lib, c, mode, front), v);
      forall k ensures CountOf(OutcomesOf(lib, c, mode, values), k) ==
                       CountOf(OutcomesOf(lib, c, mode, front), k) + if Judged(ConvertValue(lib, c, mode, v)) == k then 1 else 0
      {
        CountMore(OutcomesOf(lib, c, mode, front), ConvertValue(lib, c, mode, v), k);
      }
    }
  }

  /** The cell points at the one option of the field that is named like this. */
  ghost predicate PointsTo(x: Commit, id: string, name: string, i: nat) {
    && id in x.after.rows && x.request.fieldId in x.after.fields
    && PointsAt(x.lib, x.request.target, x.after.fields[x.request.fieldId].config,
                Lookup(x.after.rows[id].values, x.request.fieldId), name, i)
  }

  /** The record shows the outcome: by the value itself or, in a new select field, by pointing at the option. */
  ghost predicate Shows(x: Commit, id: string, o: Outcome)
    requires id in x.before.rows
  {
    if ConvertedTo(o).Some? && OptionTarget(ContextOf(x.request.seen, x.request.target)) then
      && id in x.after.rows && Turned(x, id, Lookup(x.after.rows[id].values, x.request.fieldId))
      && exists name, i: nat :: o == Kept(Str(name)) && PointsTo(x, id, name, i)
    else Turned(x, id, ConvertedTo(o))
  }

  /** The outcome is the promised one, and the record shows it. */
  ghost predicate Delivered(x: Commit, id: string, o: Outcome) {
    if id !in x.before.rows then o == Nothing
    else if Old(x, id) == Null then o == Nothing && Stayed(x, id)
    else Means(x.lib, x.request.seen, x.request.target, x.request.mode, Old(x, id), o) && Shows(x, id, o)
  }

  function OutcomeOf(x: Commit, v: Value): Outcome {
    ConvertValue(x.lib, ContextOf(x.request.seen, x.request.target), x.request.mode, v)
  }

  lemma FinalPlain(x: Commit, nameToId: map<string, string>, v: Value)
    requires OutcomeOf(x, v).Lost? || OutcomeOf(x, v).Nothing? || !OptionTarget(ContextOf(x.request.seen, x.request.target))
    ensures FinalOf(x.lib, x.request, nameToId, v) == ConvertedTo(OutcomeOf(x, v))
  {
  }

  lemma NamedOutcome(x: Commit, v: Value)
    requires OptionTarget(ContextOf(x.request.seen, x.request.target)) && ConvertedTo(OutcomeOf(x, v)).Some?
    requires Means(x.lib, x.request.seen, x.request.target, x.request.mode, v, OutcomeOf(x, v))
    ensures x.lib.optionName(Written(x.lib, v)).Some?
    ensures OutcomeOf(x, v) == Kept(Str(x.lib.optionName(Written(x.lib, v)).value))
    ensures ConvertedOf(x.lib, x.request, v) == Some(Str(x.lib.optionName(Written(x.lib, v)).value))
  {
  }

  lemma ShowsOption(x: Commit, id: string, built: Built, name: string)
    requires Commits(x) && id in x.before.rows && id in x.order && Old(x, id) != Null
    requires ConvertedConfig(x.lib, x.request.seen, x.request.target, NamesOf(x.lib, x.request, x.before.rows, x.order),
                             x.before.nextOption) == Some(built)
    requires x.request.fieldId in x.after.fields && x.after.fields[x.request.fieldId].config == built.config
    requires OptionTarget(ContextOf(x.request.seen, x.request.target))
    requires ConvertedOf(x.lib, x.request, Old(x, id)) == Some(Str(name))
    requires Turned(x, id, FinalOf(x.lib, x.request, built.nameToId, Old(x, id)))
    ensures id in x.after.rows && exists i: nat :: PointsTo(x, id, name, i)
  {
    ScannedOffer(x, id);
    var i := PointsAtName(x.lib, x.request, x.before.rows, x.order, x.before.nextOption, built, Old(x, id), name);
    assert PointsTo(x, id, name, i);
  }

  lemma TurnedItself(x: Commit, id: string, cell: Option<Value>)
    requires id in x.before.rows && Turned(x, id, cell)
    ensures id in x.after.rows && Turned(x, id, Lookup(x.after.rows[id].values, x.request.fieldId))
  {
  }

  lemma ShowsAt(x: Commit, id: string)
    requires Commits(x) && id in x.before.rows && id in x.order && Old(x, id) != Null
    requires Means(x.lib, x.request.seen, x.request.target, x.request.mode, Old(x, id), OutcomeOf(x, Old(x, id)))
    ensures Shows(x, id, OutcomeOf(x, Old(x, id)))
  {
    var v := Old(x, id);
    var built := CommitParts(x);
    CellTurns(x, id, built);
    if ConvertedTo(OutcomeOf(x, v)).Some? && OptionTarget(ContextOf(x.request.seen, x.request.target)) {
      NamedOutcome(x, v);
      ShowsOption(x, id, built, x.lib.optionName(Written(x.lib, v)).value);
      TurnedItself(x, id, FinalOf(x.lib, x.request, built.nameToId, v));
    } else {
      FinalPlain(x, built.nameToId, v);
    }
  }

  lemma DeliveredAt(x: Commit, i: nat)
    requires Commits(x) && i < |x.order|
    ensures Delivered(x, x.order[i], OutcomeOf(x, Scan(x)[i]))
  {
    var id := x.order[i];
    NullIs(x.lib, ContextOf(x.request.seen, x.request.target), x.request.mode);
    if id in x.before.rows {
      if Old(x, id) == Null {
        NotScanned(x, id);
      } else {
        ScannedOffer(x, id);
        ConvertMeans(x.lib, x.request.seen, x.request.target, x.request.mode, Old(x, id));
        ShowsAt(x, id);
      }
    }
  }

  /** Main result: a committed conversion gives every scanned record the outcome its pair of types promises, the counts
      are those of these outcomes, and records not scanned stay as they are. */
  lemma ConversionDelivers(x: Commit) returns (outcomes: seq<Outcome>)
    requires Commits(x)
    ensures |outcomes| == |x.order| && forall i | 0 <= i < |x.order| :: Delivered(x, x.order[i], outcomes[i])
    ensures Tallied(x.tally, outcomes)
    ensures forall id | id in x.before.rows && id !in x.order :: Stayed(x, id)
  {
    var c := ContextOf(x.request.seen, x.request.target);
    outcomes := OutcomesOf(x.lib, c, x.request.mode, Scan(x));
    forall i | 0 <= i < |x.order| ensures Delivered(x, x.order[i], outcomes[i]) {
      OutcomeAt(x.lib, c, x.request.mode, Scan(x), i);
      DeliveredAt(x, i);
    }
    TallyCounts(x.lib, c, x.request.mode, Scan(x));
    var built := CommitParts(x);
    forall id | id in x.before.rows && id !in x.order ensures Stayed(x, id) {
      NotScanned(x, id);
    }
  }

  // ----- texts, dates and URLs -----

  /** Into a text field that holds at least what the field held. */
  predicate Widens(source: FieldType, target: FieldType) {
    (source == Text && target == LongText) || ((source == Url || source == Date) && IsText(target))
  }

  lemma OutcomeMeans(x: Commit, v: Value)
    requires Commits(x) && v in Scan(x) && v != Null
    ensures Means(x.lib, x.request.seen, x.request.target, x.request.mode, v, OutcomeOf(x, v))
    ensures Stored(x.lib, v, x.request.seen.fieldType, x.request.seen.config)
  {
    ConvertMeans(x.lib, x.request.seen, x.request.target, x.request.mode, v);
  }

  lemma SameOutcome(x: Commit, id: string)
    requires Commits(x) && id in x.before.rows && !OptionTarget(ContextOf(x.request.seen, x.request.target))
    requires id !in x.order || Old(x, id) == Null || OutcomeOf(x, Old(x, id)) == Kept(Old(x, id))
    ensures Stayed(x, id)
  {
    if id !in x.order || Old(x, id) == Null {
      NotScanned(x, id);
    } else {
      RecordStays(x, id);
    }
  }

  lemma WidensToText(source: FieldType, target: FieldType, field: Field)
    requires Widens(source, target) && field.fieldType == source
    ensures !OptionTarget(ContextOf(field, target))
  {
  }

  lemma WidenedMeans(lib: Library, field: Field, target: FieldType, mode: string, v: Value, o: Outcome)
    requires Widens(field.fieldType, target) && Means(lib, field, target, mode, v, o)
    requires v != Null && Stored(lib, v, field.fieldType, field.config)
    ensures o == Kept(v)
  {
  }

  lemma WidenedOutcome(x: Commit, v: Value)
    requires Commits(x) && Widens(x.request.seen.fieldType, x.request.target) && v in Scan(x)
    ensures OutcomeOf(x, v) == if v == Null then Nothing else Kept(v)
  {
    if v == Null {
      NullIs(x.lib, ContextOf(x.request.seen, x.request.target), x.request.mode);
    } else {
      OutcomeMeans(x, v);
      WidenedMeans(x.lib, x.request.seen, x.request.target, x.request.mode, v, OutcomeOf(x, v));
    }
  }

  lemma WidenedStays(x: Commit, id: string)
    requires Commits(x) && Widens(x.request.seen.fieldType, x.request.target) && id in x.before.rows
    ensures Stayed(x, id)
  {
    WidensToText(x.request.seen.fieldType, x.request.target, x.request.seen);
    if id in x.order {
      ScannedOffer(x, id);
      WidenedOutcome(x, Old(x, id));
    }
    SameOutcome(x, id);
  }

  lemma {:induction false} CountsNone(outcomes: seq<Outcome>, k: Verdict)
    requires forall o | o in outcomes :: Judged(o) != k
    ensures CountOf(outcomes, k) == 0
  {
    if outcomes != [] {
      assert forall o :: o in outcomes[..|outcomes| - 1] ==> o in outcomes;
      CountsNone(outcomes[..|outcomes| - 1], k);
    }
  }

  lemma WidenedJudged(x: Commit, i: nat)
    requires Commits(x) && Widens(x.request.seen.fieldType, x.request.target) && i < |Scan(x)|
    ensures var o := OutcomesOf(x.lib, ContextOf(x.request.seen, x.request.target), x.request.mode, Scan(x))[i];
            Judged(o) != IsLost && Judged(o) != IsLossy
  {
    OutcomeAt(x.lib, ContextOf(x.request.seen, x.request.target), x.request.mode, Scan(x), i);
    WidenedOutcome(x, Scan(x)[i]);
  }

  lemma WidenedCounts(x: Commit)
    requires Commits(x) && Widens(x.request.seen.fieldType, x.request.target)
    ensures x.tally.lost == x.tally.lossy == 0
  {
    var c := ContextOf(x.request.seen, x.request.target);
    var outcomes := OutcomesOf(x.lib, c, x.request.mode, Scan(x));
    forall i | 0 <= i < |outcomes| ensures Judged(outcomes[i]) != IsLost && Judged(outcomes[i]) != IsLossy {
      WidenedJudged(x, i);
    }
    CountsNone(outcomes, IsLost);
    CountsNone(outcomes, IsLossy);
    TalliedOf(x);
  }

  lemma TalliedOf(x: Commit)
    requires Commits(x)
    ensures Tallied(x.tally, OutcomesOf(x.lib, ContextOf(x.request.seen, x.request.target), x.request.mode, Scan(x)))
  {
    var built := CommitParts(x);
    TallyCounts(x.lib, ContextOf(x.request.seen, x.request.target), x.request.mode, Scan(x));
  }

  lemma SameRecords(x: Commit)
    requires Commits(x)
    ensures x.after.rows.Keys == x.before.rows.Keys
  {
    var built := CommitParts(x);
  }

  lemma AllStayed(x: Commit)
    requires x.after.rows.Keys == x.before.rows.Keys && forall id | id in x.before.rows :: Stayed(x, id)
    ensures x.after.rows == x.before.rows
  {
    forall id | id in x.before.rows ensures x.after.rows[id] == x.before.rows[id] {
      assert Stayed(x, id);
    }
  }

  /** Text into long text, a URL or a date into text: every record stays as it is and no value counts as lost. */
  lemma WidenedStay(x: Commit)
    requires Commits(x) && Widens(x.request.seen.fieldType, x.request.target)
    ensures x.after.rows == x.before.rows && x.tally.lost == x.tally.lossy == 0
  {
    SameRecords(x);
    forall id | id in x.before.rows ensures Stayed(x, id) {
      WidenedStays(x, id);
    }
    AllStayed(x);
    WidenedCounts(x);
  }

  lemma OverlongMeans(lib: Library, field: Field, mode: string, v: Value, o: Outcome)
    requires field.fieldType == LongText && Means(lib, field, Text, mode, v, o)
    requires v != Null && Stored(lib, v, field.fieldType, field.config)
    ensures v.Str? && o == if |v.text| <= 10000 then Kept(v) else Lost
    ensures !OptionTarget(ContextOf(field, Text))
  {
  }

  lemma OverlongOutcome(x: Commit, v: Value)
    requires Commits(x) && x.request.seen.fieldType == LongText && x.request.target == Text && v in Scan(x) && v != Null
    ensures v.Str? && OutcomeOf(x, v) == if |v.text| <= 10000 then Kept(v) else Lost
    ensures !OptionTarget(ContextOf(x.request.seen, x.request.target))
  {
    OutcomeMeans(x, v);
    OverlongMeans(x.lib, x.request.seen, x.request.mode, v, OutcomeOf(x, v));
  }

  lemma FinalLost(x: Commit, nameToId: map<string, string>, v: Value)
    requires OutcomeOf(x, v) == Lost
    ensures FinalOf(x.lib, x.request, nameToId, v) == None
  {
  }

  lemma LostCell(x: Commit, id: string)
    requires Commits(x) && id in x.before.rows && id in x.order && Old(x, id) != Null && OutcomeOf(x, Old(x, id)) == Lost
    ensures Turned(x, id, None)
  {
    var built := CommitParts(x);
    CellTurns(x, id, built);
    FinalLost(x, built.nameToId, Old(x, id));
  }

  /** Long text into text: exactly the texts of at most 10000 characters stay; the others are lost. */
  lemma OverlongIsDropped(x: Commit, id: string)
    requires Commits(x) && x.request.seen.fieldType == LongText && x.request.target == Text
    requires id in x.before.rows && id in x.order && Old(x, id) != Null
    ensures Old(x, id).Str?
    ensures if |Old(x, id).text| <= 10000 then Stayed(x, id) else Turned(x, id, None)
  {
    ScannedOffer(x, id);
    OverlongOutcome(x, Old(x, id));
    if |Old(x, id).text| <= 10000 {
      SameOutcome(x, id);
    } else {
      LostCell(x, id);
    }
  }

  lemma ReadMeans(lib: Library, field: Field, target: FieldType, mode: string, v: Value, o: Outcome)
    requires IsText(field.fieldType) && target in [Date, Url] && Means(lib, field, target, mode, v, o)
    requires v.Str? && Stored(lib, v, target, Plain) && lib.trim(v.text) == v.text && (lib.validDate(v.text) ==> v.text != "")
    ensures o == Kept(v) && !OptionTarget(ContextOf(field, target))
  {
  }

  lemma ReadBack(y: Commit, id: string)
    requires Commits(y) && IsText(y.request.seen.fieldType) && y.request.target in [Date, Url]
    requires id in y.before.rows && id in y.order && Old(y, id).Str? && Stored(y.lib, Old(y, id), y.request.target, Plain)
    requires y.lib.trim(Old(y, id).text) == Old(y, id).text
    ensures Stayed(y, id)
  {
    ScannedOffer(y, id);
    OutcomeMeans(y, Old(y, id));
    ReadMeans(y.lib, y.request.seen, y.request.target, y.request.mode, Old(y, id), OutcomeOf(y, Old(y, id)));
    SameOutcome(y, id);
  }

  lemma DateOrUrl(lib: Library, v: Value, t: FieldType, config: Config)
    requires t in [Date, Url] && Stored(lib, v, t, config) && v != Null
    ensures v.Str? && Stored(lib, v, t, Plain)
  {
  }

  lemma WrittenStays(x: Commit, id: string)
    requires Commits(x) && x.request.seen.fieldType in [Date, Url] && IsText(x.request.target)
    requires id in x.before.rows && id in x.order && Old(x, id) != Null
    ensures Stayed(x, id) && Old(x, id).Str? && Stored(x.lib, Old(x, id), x.request.seen.fieldType, Plain)
  {
    WidenedStays(x, id);
    ScannedOffer(x, id);
    DateOrUrl(x.lib, Old(x, id), x.request.seen.fieldType, x.request.seen.config);
  }

  /** A date or URL turned into text and back, with no blanks around it, is the same again, and so is its record. */
  lemma WrittenComesBack(x: Commit, y: Commit, id: string)
    requires Commits(x) && Commits(y) && y.before.rows == x.after.rows && y.request.fieldId == x.request.fieldId
    requires x.request.seen.fieldType in [Date, Url] && IsText(x.request.target)
    requires IsText(y.request.seen.fieldType) && y.request.target == x.request.seen.fieldType
    requires x.lib == y.lib && id in x.before.rows && id in x.order && id in y.order && Old(x, id) != Null
    requires Old(x, id).Str? ==> x.lib.trim(Old(x, id).text) == Old(x, id).text
    ensures id in y.after.rows && y.after.rows[id] == x.before.rows[id]
  {
    WrittenStays(x, id);
    ReadBack(y, id);
  }

  // ----- when a conversion commits -----

  /** The field is there, active, not the primary one, and at the expected revision. */
  predicate Convertible(s: State, table: string, r: Request) {
    && r.fieldId in s.fields && s.fields[r.fieldId].tableId == table && s.fields[r.fieldId].revision == r.expectedRevision
    && !s.fields[r.fieldId].deleted && !s.fields[r.fieldId].primary
  }

  /** The scan finds what the preview promised: as many values of each outcome, and the same names. */
  predicate AsPreviewed(t: Tally, d: Digest) {
    t.ok == d.ok && t.lossy == d.lossy && t.lost == d.lost && t.empty == d.empty && SortedSet(t.distinct.Keys) == d.distincts
  }

  /** A conversion commits exactly when the field can be converted, the scan confirms the preview, and a new option list
      would have at most 500 options. */
  lemma ConvertsWhen(lib: Library, s: State, table: string, r: Request, order: seq<string>, now: int)
    ensures Converted(lib, s, table, r, order, now).Ok? <==>
            && Convertible(s, table, r) && AsPreviewed(TallyOf(lib, r, s.rows, order), r.digest)
            && (OptionTarget(ContextOf(r.seen, r.target)) ==> |r.digest.distincts| <= 500)
  {
    assert |SortedNames(TallyOf(lib, r, s.rows, order).distinct)| == |SortedSet(TallyOf(lib, r, s.rows, order).distinct.Keys)|;
  }

  /** The field gets the new type and one revision more, which the log says; no other field changes. */
  lemma FieldAfter(x: Commit)
    requires Commits(x)
    ensures var f := x.request.fieldId;
            && f in x.before.fields && f in x.after.fields && x.after.fields[f].fieldType == x.request.target
            && x.after.fields[f].revision == x.before.fields[f].revision + 1
            && x.after.fields[f] == x.before.fields[f].(fieldType := x.request.target, config := x.after.fields[f].config,
                                                        revision := x.after.fields[f].revision)
            && x.after.fields == x.before.fields[f := x.after.fields[f]]
            && x.after.log == x.before.log + [Change(|x.before.log| + 1, x.table, SchemaChanged, f, x.after.fields[f].revision, [], x.now)]
  {
  }
}
