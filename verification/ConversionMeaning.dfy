/** What conversion means for the person who owns the data: which values survive a round trip, which name a cell of a
    former select field shows, and which option a cell of a new select field points at. */
module ConversionMeaning {
  import opened Results
  import opened Schema
  import opened Values
  import opened Orders
  import opened ChoiceOptions
  import opened Conversion
  import opened FieldConversion
  import opened ConversionTyped
  import opened Mutations

  // ----- there and back -----

  /** A select value goes into a multi-select cell and comes back unchanged. */
  lemma SelectComesBack(lib: Library, there: Context, back: Context, v: Value)
    requires v.Str?
    ensures var list := ConvertValue(lib, there, "singleElement", v);
            list.Kept? && ConvertValue(lib, back, "firstOption", list.value) == Kept(v)
  {
  }

  /** A multi-select value keeps its first option; it is counted as kept exactly when going back would restore it. */
  lemma FirstOptionExact(lib: Library, there: Context, back: Context, v: Value)
    requires v.List? && v.items != [] && v.items[0].Str?
    ensures ConvertedTo(ConvertValue(lib, there, "firstOption", v)) == Some(v.items[0])
    ensures ConvertValue(lib, there, "firstOption", v).Kept? <==>
            ConvertValue(lib, back, "singleElement", v.items[0]) == Kept(v)
  {
    assert |v.items| == 1 ==> v.items == [v.items[0]];
  }

  /** A checkbox becomes a number that both ways back turn into the same checkbox. */
  lemma FlagComesBack(lib: Library, there: Context, back: Context, mode: string, v: Value)
    requires v.Bool? && mode in ["nonzero", "zeroOne"]
    ensures var n := ConvertValue(lib, there, "numeric", v);
            n.Kept? && ConvertValue(lib, back, mode, n.value) == Kept(v)
  {
  }

  /** The strict way from number to checkbox keeps exactly the numbers the way back restores. */
  lemma ZeroOneExact(lib: Library, there: Context, back: Context, v: Value)
    requires v.Num?
    ensures var flag := ConvertValue(lib, there, "zeroOne", v);
            flag.Lost? || (flag.Kept? && ConvertValue(lib, back, "numeric", flag.value) == Kept(v))
    ensures ConvertValue(lib, there, "zeroOne", v).Lost? ==>
              forall b :: ConvertValue(lib, back, "numeric", Bool(b)) != Kept(v)
  {
  }

  /** Whether the library reads back the text it writes for a scalar. */
  predicate ReadsBack(lib: Library, v: Value) {
    var text := ScalarString(lib, v);
    && lib.trim(text) == text && text != ""
    && (v.Num? ==> lib.parseNumber(text) == Some(v.number))
    && (v.Bool? ==> lib.lower(text) == text)
  }

  /** A number or checkbox written as text is parsed back to itself wherever the library reads what it writes. */
  lemma FormatComesBack(lib: Library, there: Context, back: Context, v: Value)
    requires ReadsBack(lib, v) && ((v.Num? && back.target == Number) || (v.Bool? && back.target == Checkbox))
    ensures var text := ConvertValue(lib, there, "format", v);
            text.Kept? && ConvertValue(lib, back, "parse", text.value) == Kept(v)
  {
    FormatIs(lib, there, v);
    ParseIs(lib, back, Str(ScalarString(lib, v)));
    ParseReads(lib, back.target, v);
  }

  lemma FormatIs(lib: Library, c: Context, v: Value)
    requires v != Null
    ensures ConvertValue(lib, c, "format", v) == Kept(Str(ScalarString(lib, v)))
  {
  }

  lemma ParseIs(lib: Library, c: Context, v: Value)
    requires v != Null
    ensures ConvertValue(lib, c, "parse", v) == ParseText(lib, c.target, v)
  {
  }

  lemma ParseReads(lib: Library, target: FieldType, v: Value)
    requires ReadsBack(lib, v) && ((v.Num? && target == Number) || (v.Bool? && target == Checkbox))
    ensures ParseText(lib, target, Str(ScalarString(lib, v))) == Kept(v)
  {
  }

  // ----- option names -----

  lemma {:induction false} ActiveName(options: seq<SelectOption>, o: SelectOption)
    requires o in options && forall i, j | 0 <= i < j < |options| :: options[i].id != options[j].id
    ensures o.id in NamesFrom(options) && NamesFrom(options)[o.id] == o.name
  {
    var front, last := options[..|options| - 1], options[|options| - 1];
    assert options == front + [last];
    if o != last {
      ActiveName(front, o);
    }
  }

  lemma {:induction false} DeletedName(options: seq<DeletedOption>, o: DeletedOption)
    requires o in options && forall i, j | 0 <= i < j < |options| :: options[i].id != options[j].id
    ensures o.id in DeletedNamesFrom(options) && DeletedNamesFrom(options)[o.id] == o.name
  {
    var front, last := options[..|options| - 1], options[|options| - 1];
    assert options == front + [last];
    if o != last {
      DeletedName(front, o);
    }
  }

  lemma NameOfOption(c: SelectConfig, id: string, name: string)
    requires DistinctIds(c)
    requires (exists o | o in c.options :: o.id == id && o.name == name)
             || (exists o | o in c.deletedOptions :: o.id == id && o.name == name)
    ensures id in OptionNames(c) && OptionNames(c)[id] == name
  {
    DeletedNamesKnown(c.deletedOptions);
    if o :| o in c.options && o.id == id && o.name == name {
      ActiveName(c.options, o);
      assert id in ActiveIds(c);
    } else {
      var o :| o in c.deletedOptions && o.id == id && o.name == name;
      DeletedName(c.deletedOptions, o);
    }
  }

  /** Converting a select cell to text shows the name of the option it points at, active or deleted. */
  lemma ShowsItsOption(lib: Library, field: Field, target: FieldType, id: string, name: string)
    requires IsChoice(field.fieldType) && field.config.Choices? && DistinctIds(field.config.select)
    requires (exists o | o in field.config.select.options :: o.id == id && o.name == name)
             || (exists o | o in field.config.select.deletedOptions :: o.id == id && o.name == name)
    ensures ConvertValue(lib, ContextOf(field, target), "optionName", Str(id)) == Kept(Str(name))
  {
    NameOfOption(field.config.select, id, name);
    OptionNameIs(lib, ContextOf(field, target), id);
  }

  // ----- which option a new select cell points at -----

  /** The cell that points at one option. */
  function OptionCell(target: FieldType, id: string): Value {
    if target == MultiSelect then List([Str(id)]) else Str(id)
  }

  /** A folded name resolves to an option built from a name that folds the same. */
  lemma {:induction false} IndexedName(lib: Library, names: seq<string>, next: nat, key: string) returns (i: nat)
    requires key in NameToId(lib, names, next)
    ensures i < |names| && lib.fold(names[i]) == key && NameToId(lib, names, next)[key] == lib.newOptionId(next + i)
  {
    var n := |names| - 1;
    if key == lib.fold(names[n]) {
      i := n;
    } else {
      i := IndexedName(lib, names[..n], next, key);
    }
  }

  /** The option of a list of pairwise different names that a name stands for, and the cell that points at it. */
  lemma ResolvesAmong(lib: Library, target: FieldType, names: seq<string>, next: nat, name: string) returns (i: nat)
    requires lib.fold(name) in NameToId(lib, names, next)
    requires forall i, j | 0 <= i < j < |names| :: lib.fold(names[i]) != lib.fold(names[j])
    ensures i < |names| && forall j | 0 <= j < |names| :: lib.fold(names[j]) == lib.fold(name) <==> j == i
    ensures ResolveName(lib, target, NameToId(lib, names, next), Str(name)) ==
            Some(OptionCell(target, NewOptions(lib, names, next)[i].id))
  {
    i := IndexedName(lib, names, next, lib.fold(name));
  }

  lemma NamesApart(lib: Library, r: Request, rows: map<string, Row>, order: seq<string>)
    requires Lawful(lib) && r.mode in ModesFor(r.seen.fieldType, r.target) && OptionTarget(ContextOf(r.seen, r.target))
    ensures var names := NamesOf(lib, r, rows, order);
            forall i, j | 0 <= i < j < |names| :: lib.fold(names[i]) != lib.fold(names[j])
  {
    OptionNamesMade(lib, ContextOf(r.seen, r.target), r.mode);
    AllNoted(lib, ContextOf(r.seen, r.target), r.mode, ValuesOf(rows, r.fieldId, order));
    SortedNamesFacts(lib, TallyOf(lib, r, rows, order));
  }

  lemma BuiltFromNames(lib: Library, r: Request, names: seq<string>, next: nat, built: Built)
    requires OptionTarget(ContextOf(r.seen, r.target)) && ConvertedConfig(lib, r.seen, r.target, names, next) == Some(built)
    ensures built.config == Choices(SelectConfig(NewOptions(lib, names, next), [])) && built.nameToId == NameToId(lib, names, next)
  {
  }

  lemma NameKnown(lib: Library, r: Request, built: Built, v: Value, name: string)
    requires Offers(lib, r, built, v) && ConvertedOf(lib, r, v) == Some(Str(name))
    ensures lib.fold(name) in built.nameToId
  {
  }

  lemma FinalIs(lib: Library, r: Request, nameToId: map<string, string>, v: Value, name: string)
    requires OptionTarget(ContextOf(r.seen, r.target)) && ConvertedOf(lib, r, v) == Some(Str(name))
    ensures FinalOf(lib, r, nameToId, v) == ResolveName(lib, r.target, nameToId, Str(name))
  {
  }

  /** The cell made from a scanned value whose option name is `name` points at the one option of the new configuration
      whose name folds like it. */
  lemma PointsAtName(lib: Library, r: Request, rows: map<string, Row>, order: seq<string>, next: nat, built: Built, v: Value, name: string)
    returns (i: nat)
    requires Lawful(lib) && r.mode in ModesFor(r.seen.fieldType, r.target) && OptionTarget(ContextOf(r.seen, r.target))
    requires ConvertedConfig(lib, r.seen, r.target, NamesOf(lib, r, rows, order), next) == Some(built)
    requires v in ValuesOf(rows, r.fieldId, order) && ConvertedOf(lib, r, v) == Some(Str(name))
    ensures PointsAt(lib, r.target, built.config, FinalOf(lib, r, built.nameToId, v), name, i)
  {
    var names := NamesOf(lib, r, rows, order);
    BuiltOffers(lib, r, rows, order, next, built, v);
    NameKnown(lib, r, built, v, name);
    BuiltFromNames(lib, r, names, next, built);
    NamesApart(lib, r, rows, order);
    FinalIs(lib, r, built.nameToId, v, name);
    i := PointsAmong(lib, r.target, names, next, built.config, built.nameToId, name);
  }

  /** The cell points at the i-th option, the only one whose name folds like the given one. */
  ghost predicate PointsAt(lib: Library, target: FieldType, config: Config, cell: Option<Value>, name: string, i: nat) {
    && config.Choices? && i < |config.select.options|
    && cell == Some(OptionCell(target, config.select.options[i].id))
    && forall j | 0 <= j < |config.select.options| :: lib.fold(config.select.options[j].name) == lib.fold(name) <==> j == i
  }

  lemma PointsAmong(lib: Library, target: FieldType, names: seq<string>, next: nat, config: Config, nameToId: map<string, string>, name: string)
    returns (i: nat)
    requires config == Choices(SelectConfig(NewOptions(lib, names, next), [])) && nameToId == NameToId(lib, names, next)
    requires lib.fold(name) in nameToId
    requires forall i, j | 0 <= i < j < |names| :: lib.fold(names[i]) != lib.fold(names[j])
    ensures PointsAt(lib, target, config, ResolveName(lib, target, nameToId, Str(name)), name, i)
  {
    i := ResolvesAmong(lib, target, names, next, name);
  }

  /** After a conversion to a choice type two cells point at the same option exactly when their old values name options
      that fold alike. */
  lemma SameCellSameName(lib: Library, r: Request, rows: map<string, Row>, order: seq<string>, next: nat, built: Built,
                         v: Value, a: string, w: Value, b: string)
    requires Lawful(lib) && r.mode in ModesFor(r.seen.fieldType, r.target) && OptionTarget(ContextOf(r.seen, r.target))
    requires ConvertedConfig(lib, r.seen, r.target, NamesOf(lib, r, rows, order), next) == Some(built)
    requires v in ValuesOf(rows, r.fieldId, order) && ConvertedOf(lib, r, v) == Some(Str(a))
    requires w in ValuesOf(rows, r.fieldId, order) && ConvertedOf(lib, r, w) == Some(Str(b))
    ensures FinalOf(lib, r, built.nameToId, v) == FinalOf(lib, r, built.nameToId, w) <==> lib.fold(a) == lib.fold(b)
  {
    var i := PointsAtName(lib, r, rows, order, next, built, v, a);
    var j := PointsAtName(lib, r, rows, order, next, built, w, b);
    BuiltFromNames(lib, r, NamesOf(lib, r, rows, order), next, built);
    NewOptionsApart(lib, NamesOf(lib, r, rows, order), next);
    SameCellSameOption(lib, r.target, built.config, FinalOf(lib, r, built.nameToId, v), a, i,
                       FinalOf(lib, r, built.nameToId, w), b, j);
  }

  lemma SameCellSameOption(lib: Library, target: FieldType, config: Config, x: Option<Value>, a: string, i: nat,
                           y: Option<Value>, b: string, j: nat)
    requires PointsAt(lib, target, config, x, a, i) && PointsAt(lib, target, config, y, b, j)
    requires forall i, j | 0 <= i < j < |config.select.options| :: config.select.options[i].id != config.select.options[j].id
    ensures x == y <==> lib.fold(a) == lib.fold(b)
  {
    var options := config.select.options;
    if x == y {
      assert OptionCell(target, options[i].id) == OptionCell(target, options[j].id);
      assert target == MultiSelect ==> [Str(options[i].id)][0] == [Str(options[j].id)][0];
    }
  }

  lemma ConvertedCell(lib: Library, fields: Fields, r: Request, nameToId: map<string, string>, row: Row)
    requires OldValue(row, r.fieldId) != Null && FinalOf(lib, r, nameToId, OldValue(row, r.fieldId)).Some?
    requires FinalOf(lib, r, nameToId, OldValue(row, r.fieldId)).value != Null
    ensures Lookup(ConvertedRow(lib, fields, r, nameToId, row).values, r.fieldId) ==
            FinalOf(lib, r, nameToId, OldValue(row, r.fieldId))
  {
    RowWithFacts(lib, fields, r.fieldId, row, FinalOf(lib, r, nameToId, OldValue(row, r.fieldId)));
  }

  lemma Scans(rows: map<string, Row>, f: string, order: seq<string>, id: string)
    requires id in order && id in rows
    ensures OldValue(rows[id], f) in ValuesOf(rows, f, order)
  {
    var i :| 0 <= i < |order| && order[i] == id;
    assert ValuesOf(rows, f, order)[i] == OldValue(rows[id], f);
  }

  /** After a committed conversion to a choice type a record whose old value named an option points at the one option of
      the field's new list that is named like it. */
  lemma CellShowsName(lib: Library, s: State, table: string, r: Request, order: seq<string>, now: int, id: string, name: string)
    returns (i: nat)
    requires Lawful(lib) && r.mode in ModesFor(r.seen.fieldType, r.target) && OptionTarget(ContextOf(r.seen, r.target))
    requires r.fieldId in s.fields && s.fields[r.fieldId] == r.seen && Converted(lib, s, table, r, order, now).Ok?
    requires id in order && id in s.rows && OldValue(s.rows[id], r.fieldId) != Null
    requires ConvertedOf(lib, r, OldValue(s.rows[id], r.fieldId)) == Some(Str(name))
    ensures var t := Converted(lib, s, table, r, order, now).value.0;
            && id in t.rows && r.fieldId in t.fields
            && PointsAt(lib, r.target, t.fields[r.fieldId].config, Lookup(t.rows[id].values, r.fieldId), name, i)
  {
    var t, tally, built := ConvertedParts(lib, s, table, r, order, now);
    var v := OldValue(s.rows[id], r.fieldId);
    Scans(s.rows, r.fieldId, order, id);
    i := PointsAtName(lib, r, s.rows, order, s.nextOption, built, v, name);
    CellAfterIs(lib, s, t, r, order, built, id);
  }

  lemma CellAfterIs(lib: Library, s: State, t: State, r: Request, order: seq<string>, built: Built, id: string)
    requires t.rows == ConvertedRows(lib, t.fields, r, built.nameToId, s.rows, order) && id in order && id in s.rows
    requires OldValue(s.rows[id], r.fieldId) != Null
    requires var cell := FinalOf(lib, r, built.nameToId, OldValue(s.rows[id], r.fieldId)); cell.Some? && cell.value != Null
    ensures id in t.rows
    ensures Lookup(t.rows[id].values, r.fieldId) == FinalOf(lib, r, built.nameToId, OldValue(s.rows[id], r.fieldId))
  {
    ConvertedCell(lib, t.fields, r, built.nameToId, s.rows[id]);
    assert t.rows[id] == ConvertedRow(lib, t.fields, r, built.nameToId, s.rows[id]);
  }
}
