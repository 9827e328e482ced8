/** What a committed conversion guarantees, and where it does not. */
module ConversionTyped {
  import opened Results
  import opened Schema
  import opened Values
  import opened Orders
  import opened ChoiceOptions
  import opened Conversion
  import opened FieldConversion
  import opened Mutations

  // ----- option names -----

  lemma {:induction false} NamesFromKnown(options: seq<SelectOption>)
    ensures NamesFrom(options).Keys == set o | o in options :: o.id
    ensures forall id | id in NamesFrom(options) :: exists o | o in options :: o.name == NamesFrom(options)[id]
  {
    if options != [] {
      NamesFromKnown(options[..|options| - 1]);
      assert options == options[..|options| - 1] + [options[|options| - 1]];
    }
  }

  lemma {:induction false} DeletedNamesKnown(options: seq<DeletedOption>)
    ensures DeletedNamesFrom(options).Keys == set o | o in options :: o.id
    ensures forall id | id in DeletedNamesFrom(options) :: exists o | o in options :: o.name == DeletedNamesFrom(options)[id]
  {
    if options != [] {
      DeletedNamesKnown(options[..|options| - 1]);
      assert options == options[..|options| - 1] + [options[|options| - 1]];
    }
  }

  lemma OptionNamesShort(lib: Library, c: SelectConfig)
    requires WellFormed(lib, c)
    ensures OptionNames(c).Keys == AllIds(c)
    ensures forall id | id in OptionNames(c) :: |OptionNames(c)[id]| <= 100
  {
    NamesFromKnown(c.options);
    DeletedNamesKnown(c.deletedOptions);
    assert ActiveIds(c) == set o | o in c.options :: o.id;
    assert DeletedIds(c) == set o | o in c.deletedOptions :: o.id;
  }

  // ----- one value -----

  /** The configuration a conversion ends with when no options are built. */
  function PlainTarget(field: Field, target: FieldType): Config {
    if IsChoice(target) then Choices(ConfigOf(field)) else Plain
  }

  lemma ParsedFits(lib: Library, target: FieldType, v: Value)
    requires ConvertedTo(ParseText(lib, target, v)).Some?
    ensures Stored(lib, ConvertedTo(ParseText(lib, target, v)).value, target, Plain)
  {
  }

  lemma FormattedFits(lib: Library, v: Value, source: FieldType, config: Config, target: FieldType)
    requires Lawful(lib) && source in {Number, Checkbox, Date} && v != Null && Stored(lib, v, source, config)
    requires target == Text || target == LongText
    ensures Stored(lib, Str(ScalarString(lib, v)), target, Plain)
  {
  }

  lemma SelectFits(lib: Library, field: Field, v: Value)
    requires field.config.Choices? && WellFormed(lib, field.config.select) && v != Null
    requires Stored(lib, v, Select, field.config)
    ensures v.text in OptionNames(ConfigOf(field)) && |OptionNames(ConfigOf(field))[v.text]| <= 100
    ensures Stored(lib, List([v]), MultiSelect, Choices(ConfigOf(field)))
  {
    OptionNamesShort(lib, field.config.select);
  }

  lemma FirstFits(lib: Library, field: Field, v: Value)
    requires field.config.Choices? && v != Null && Stored(lib, v, MultiSelect, field.config) && v.items != []
    ensures Stored(lib, v.items[0], Select, Choices(ConfigOf(field)))
  {
  }

  ghost predicate Fits(lib: Library, o: Outcome, target: FieldType, config: Config) {
    ConvertedTo(o).Some? ==> ConvertedTo(o).value != Null && Stored(lib, ConvertedTo(o).value, target, config)
  }

  lemma TextFits(lib: Library, source: FieldType, target: FieldType, mode: string, v: Value, config: Config)
    requires IsTextual(source) && !IsChoice(target) && mode in ModesFor(source, target) && Stored(lib, v, source, config)
    ensures Fits(lib, ConvertValue(lib, Context(source, target, map[]), mode, v), target, Plain)
  {
    if mode == "parse" && v != Null && ConvertedTo(ParseText(lib, target, v)).Some? {
      ParsedFits(lib, target, v);
    }
  }

  lemma FormatFits(lib: Library, source: FieldType, target: FieldType, v: Value, config: Config)
    requires Lawful(lib) && source in {Number, Checkbox, Date} && (target == Text || target == LongText)
    requires Stored(lib, v, source, config)
    ensures Fits(lib, ConvertValue(lib, Context(source, target, map[]), "format", v), target, Plain)
  {
    if v != Null {
      FormattedFits(lib, v, source, config, target);
    }
  }

  lemma FlagFits(lib: Library, mode: string, v: Value)
    requires mode in ["nonzero", "zeroOne"]
    ensures Fits(lib, ConvertValue(lib, Context(Number, Checkbox, map[]), mode, v), Checkbox, Plain)
  {
  }

  lemma NumericFits(lib: Library, v: Value)
    ensures Fits(lib, ConvertValue(lib, Context(Checkbox, Number, map[]), "numeric", v), Number, Plain)
  {
  }

  lemma ScalarFits(lib: Library, source: FieldType, target: FieldType, mode: string, v: Value, config: Config)
    requires Lawful(lib) && source in {Number, Checkbox, Date} && !IsChoice(target) && mode in ModesFor(source, target)
    requires Stored(lib, v, source, config)
    ensures Fits(lib, ConvertValue(lib, Context(source, target, map[]), mode, v), target, Plain)
  {
    if target == Text || target == LongText {
      FormatFits(lib, source, target, v, config);
    } else if target == Checkbox {
      FlagFits(lib, mode, v);
    } else {
      NumericFits(lib, v);
    }
  }

  lemma OptionNameIs(lib: Library, c: Context, id: string)
    requires id in c.optionNames
    ensures ConvertValue(lib, c, "optionName", Str(id)) == Kept(Str(c.optionNames[id]))
  {
  }

  lemma SingleIs(lib: Library, c: Context, v: Value)
    requires v.Str?
    ensures ConvertValue(lib, c, "singleElement", v) == Kept(List([v]))
  {
  }

  lemma KeptFits(lib: Library, v: Value, target: FieldType, config: Config)
    requires v != Null && Stored(lib, v, target, config)
    ensures Fits(lib, Kept(v), target, config)
  {
  }

  lemma ShortTextFits(lib: Library, text: string, target: FieldType)
    requires (target == Text || target == LongText) && |text| <= 100
    ensures Fits(lib, Kept(Str(text)), target, Plain)
  {
  }

  lemma NamedFits(lib: Library, field: Field, target: FieldType, v: Value)
    requires target == Text || target == LongText
    requires field.config.Choices? && WellFormed(lib, field.config.select) && Stored(lib, v, Select, field.config)
    ensures Fits(lib, ConvertValue(lib, Context(Select, target, OptionNames(ConfigOf(field))), "optionName", v), target, Plain)
  {
    if v != Null {
      SelectFits(lib, field, v);
      OptionNameIs(lib, Context(Select, target, OptionNames(ConfigOf(field))), v.text);
      ShortTextFits(lib, OptionNames(ConfigOf(field))[v.text], target);
    }
  }

  lemma SingleFits(lib: Library, field: Field, v: Value)
    requires field.config.Choices? && WellFormed(lib, field.config.select) && Stored(lib, v, Select, field.config)
    ensures Fits(lib, ConvertValue(lib, Context(Select, MultiSelect, OptionNames(ConfigOf(field))), "singleElement", v),
                 MultiSelect, Choices(ConfigOf(field)))
  {
    if v != Null {
      SelectFits(lib, field, v);
      SingleIs(lib, Context(Select, MultiSelect, OptionNames(ConfigOf(field))), v);
      KeptFits(lib, List([v]), MultiSelect, Choices(ConfigOf(field)));
    }
  }

  lemma FromSelectFits(lib: Library, field: Field, target: FieldType, mode: string, v: Value)
    requires field.fieldType == Select && mode in ModesFor(Select, target)
    requires field.config.Choices? && WellFormed(lib, field.config.select) && Stored(lib, v, Select, field.config)
    ensures Fits(lib, ConvertValue(lib, Context(Select, target, OptionNames(ConfigOf(field))), mode, v), target, PlainTarget(field, target))
  {
    if target == MultiSelect {
      SingleFits(lib, field, v);
    } else {
      NamedFits(lib, field, target, v);
    }
  }

  lemma FromMultiSelectFits(lib: Library, field: Field, target: FieldType, mode: string, v: Value)
    requires field.fieldType == MultiSelect && mode in ModesFor(MultiSelect, target)
    requires field.config.Choices? && Stored(lib, v, MultiSelect, field.config)
    ensures Fits(lib, ConvertValue(lib, Context(MultiSelect, target, OptionNames(ConfigOf(field))), mode, v), target, PlainTarget(field, target))
  {
    if target == Select {
      if v != Null && v.items != [] {
        FirstFits(lib, field, v);
      }
    } else {
      JoinedFits(lib, target, OptionNames(ConfigOf(field)), v);
    }
  }

  lemma JoinedFits(lib: Library, target: FieldType, names: map<string, string>, v: Value)
    requires target == Text || target == LongText
    ensures Fits(lib, ConvertValue(lib, Context(MultiSelect, target, names), "joinNames", v), target, Plain)
  {
  }

  lemma ChoiceFits(lib: Library, field: Field, target: FieldType, mode: string, v: Value)
    requires IsChoice(field.fieldType) && mode in ModesFor(field.fieldType, target)
    requires field.config.Choices? && WellFormed(lib, field.config.select)
    requires Stored(lib, v, field.fieldType, field.config)
    ensures Fits(lib, ConvertValue(lib, Context(field.fieldType, target, OptionNames(ConfigOf(field))), mode, v), target, PlainTarget(field, target))
  {
    if field.fieldType == Select {
      FromSelectFits(lib, field, target, mode, v);
    } else {
      FromMultiSelectFits(lib, field, target, mode, v);
    }
  }

  /** A converted value that needs no new option is valid for the target. */
  lemma ConvertedFits(lib: Library, field: Field, target: FieldType, mode: string, v: Value)
    requires Lawful(lib) && mode in ModesFor(field.fieldType, target) && !OptionTarget(ContextOf(field, target))
    requires IsChoice(field.fieldType) ==> field.config.Choices? && WellFormed(lib, field.config.select)
    requires Stored(lib, v, field.fieldType, field.config)
    ensures Fits(lib, ConvertValue(lib, ContextOf(field, target), mode, v), target, PlainTarget(field, target))
  {
    if IsChoice(field.fieldType) {
      ChoiceFits(lib, field, target, mode, v);
    } else if IsTextual(field.fieldType) {
      TextFits(lib, field.fieldType, target, mode, v, field.config);
    } else {
      ScalarFits(lib, field.fieldType, target, mode, v, field.config);
    }
  }

  // ----- distinct options -----

  /** Every noted name sits under its own folded key and is a normalised option name. */
  ghost predicate NamesNoted(lib: Library, t: Tally) {
    forall key | key in t.distinct :: lib.fold(t.distinct[key]) == key && |t.distinct[key]| <= 100
  }

  /** Conversion makes short names and nothing else. */
  ghost predicate MakesNames(lib: Library, c: Context, mode: string) {
    forall v :: var o := ConvertValue(lib, c, mode, v);
                !o.Lossy? && (o.Kept? ==> o.value.Str? && |o.value.text| <= 100)
  }

  /** Converting to a choice type does. */
  lemma OptionNamesMade(lib: Library, c: Context, mode: string)
    requires Lawful(lib) && OptionTarget(c) && mode in ModesFor(c.source, c.target)
    ensures MakesNames(lib, c, mode)
  {
    assert mode == "distinctOptions";
  }

  /** The value's name, if conversion made one, is among the noted ones. */
  ghost predicate NameNoted(lib: Library, c: Context, mode: string, t: Tally, v: Value) {
    var o := ConvertValue(lib, c, mode, v);
    o.Kept? ==> o.value.Str? && lib.fold(o.value.text) in t.distinct
  }

  /** The tally after a value that came out as `o`. */
  function Tallied(lib: Library, c: Context, t: Tally, o: Outcome): Tally {
    match o
    case Nothing => t.(empty := t.empty + 1)
    case Lost => t.(lost := t.lost + 1)
    case Kept(w) => Noted(lib, c, t.(ok := t.ok + 1), w)
    case Lossy(w) => Noted(lib, c, t.(lossy := t.lossy + 1), w)
  }

  lemma TalliedNoted(lib: Library, c: Context, t: Tally, o: Outcome)
    requires OptionTarget(c) && NamesNoted(lib, t) && !o.Lossy? && (o.Kept? ==> o.value.Str? && |o.value.text| <= 100)
    ensures NamesNoted(lib, Tallied(lib, c, t, o)) && t.distinct.Keys <= Tallied(lib, c, t, o).distinct.Keys
    ensures o.Kept? ==> lib.fold(o.value.text) in Tallied(lib, c, t, o).distinct
  {
  }

  lemma AddedNoted(lib: Library, c: Context, mode: string, t: Tally, v: Value)
    requires OptionTarget(c) && MakesNames(lib, c, mode) && NamesNoted(lib, t)
    ensures NamesNoted(lib, Added(lib, c, mode, t, v))
    ensures t.distinct.Keys <= Added(lib, c, mode, t, v).distinct.Keys
    ensures NameNoted(lib, c, mode, Added(lib, c, mode, t, v), v)
  {
    TalliedNoted(lib, c, t, ConvertValue(lib, c, mode, v));
  }

  lemma {:induction false} AllNoted(lib: Library, c: Context, mode: string, values: seq<Value>)
    requires OptionTarget(c) && MakesNames(lib, c, mode)
    ensures NamesNoted(lib, AddAll(lib, c, mode, values))
    ensures forall v | v in values :: NameNoted(lib, c, mode, AddAll(lib, c, mode, values), v)
  {
    if values != [] {
      var front, last := values[..|values| - 1], values[|values| - 1];
      AllNoted(lib, c, mode, front);
      AddedNoted(lib, c, mode, AddAll(lib, c, mode, front), last);
      StillNoted(lib, c, mode, AddAll(lib, c, mode, front), AddAll(lib, c, mode, values), front);
      assert values == front + [last];
    }
  }

  lemma StillNoted(lib: Library, c: Context, mode: string, t: Tally, u: Tally, values: seq<Value>)
    requires t.distinct.Keys <= u.distinct.Keys && forall v | v in values :: NameNoted(lib, c, mode, t, v)
    ensures forall v | v in values :: NameNoted(lib, c, mode, u, v)
  {
    forall v | v in values ensures NameNoted(lib, c, mode, u, v) {
      assert NameNoted(lib, c, mode, t, v);
    }
  }

  /** One of `count` identifiers generated from `first` on. */
  ghost predicate Minted(lib: Library, first: nat, count: nat, id: string) {
    exists n | first <= n < first + count :: id == lib.newOptionId(n)
  }

  lemma {:induction false} NameToIdFacts(lib: Library, names: seq<string>, next: nat)
    ensures forall i | 0 <= i < |names| :: lib.fold(names[i]) in NameToId(lib, names, next)
    ensures forall key | key in NameToId(lib, names, next) :: Minted(lib, next, |names|, NameToId(lib, names, next)[key])
  {
    if names != [] {
      var n := |names| - 1;
      var front, all := NameToId(lib, names[..n], next), NameToId(lib, names, next);
      NameToIdFacts(lib, names[..n], next);
      forall key | key in all ensures Minted(lib, next, n + 1, all[key]) {
        if key != lib.fold(names[n]) {
          assert Minted(lib, next, n, front[key]);
        }
      }
    }
  }

  lemma SortedNamesFacts(lib: Library, t: Tally)
    requires NamesNoted(lib, t)
    ensures var names := SortedNames(t.distinct);
            && (forall i, j | 0 <= i < j < |names| :: lib.fold(names[i]) != lib.fold(names[j]))
            && (forall i | 0 <= i < |names| :: |names[i]| <= 100)
            && (forall key | key in t.distinct :: exists i | 0 <= i < |names| :: lib.fold(names[i]) == key)
  {
    var keys := SortedSet(t.distinct.Keys);
    SortedSetElements(t.distinct.Keys);
    var names := SortedNames(t.distinct);
    forall i | 0 <= i < |keys| ensures lib.fold(names[i]) == keys[i] && |names[i]| <= 100 {
      assert keys[i] in keys;
    }
    forall key | key in t.distinct ensures exists i | 0 <= i < |names| :: lib.fold(names[i]) == key {
      assert key in keys;
      var i :| 0 <= i < |keys| && keys[i] == key;
      assert lib.fold(names[i]) == key;
    }
  }

  /** The options built from pairwise different names form a well-formed configuration. */
  lemma NewOptionsWell(lib: Library, names: seq<string>, next: nat)
    requires Lawful(lib) && |names| <= MAX_ACTIVE && (forall i | 0 <= i < |names| :: |names[i]| <= 100)
    requires forall i, j | 0 <= i < j < |names| :: lib.fold(names[i]) != lib.fold(names[j])
    ensures WellFormed(lib, SelectConfig(NewOptions(lib, names, next), []))
    ensures Unused(lib, SelectConfig(NewOptions(lib, names, next), []), next + |names|)
    ensures forall id :: Minted(lib, next, |names|, id) <==> id in ActiveIds(SelectConfig(NewOptions(lib, names, next), []))
  {
    var c := SelectConfig(NewOptions(lib, names, next), []);
    assert AllIds(c) == ActiveIds(c) && DeletedIds(c) == {};
    NewOptionIds(lib, names, next);
    MintedFacts(lib, next, |names|);
    NewOptionsApart(lib, names, next);
  }

  lemma MintedFacts(lib: Library, first: nat, count: nat)
    requires Lawful(lib)
    ensures forall id | Minted(lib, first, count, id) :: lib.optionId(id)
    ensures forall n | n >= first + count :: !Minted(lib, first, count, lib.newOptionId(n))
  {
  }

  lemma NewOptionsApart(lib: Library, names: seq<string>, next: nat)
    requires Lawful(lib)
    ensures var options := NewOptions(lib, names, next);
            forall i, j | 0 <= i < j < |options| :: options[i].id != options[j].id
  {
    var options := NewOptions(lib, names, next);
    forall i, j | 0 <= i < j < |options| ensures options[i].id != options[j].id {
      assert lib.optionNumber(options[i].id) == next + i && lib.optionNumber(options[j].id) == next + j;
    }
  }

  lemma NewOptionIds(lib: Library, names: seq<string>, next: nat)
    ensures forall id :: Minted(lib, next, |names|, id) <==> id in ActiveIds(SelectConfig(NewOptions(lib, names, next), []))
    ensures forall o | o in NewOptions(lib, names, next) :: o.name in names
  {
    var options := NewOptions(lib, names, next);
    forall id ensures Minted(lib, next, |names|, id) <==> id in ActiveIds(SelectConfig(options, [])) {
      if Minted(lib, next, |names|, id) {
        var n :| next <= n < next + |names| && id == lib.newOptionId(n);
        OptionMade(options, n - next, id);
      }
      if id in ActiveIds(SelectConfig(options, [])) {
        var i := OptionFound(options, id);
        assert id == lib.newOptionId(next + i);
      }
    }
    forall o | o in options ensures o.name in names {
      var i :| 0 <= i < |options| && options[i] == o;
      assert names[i] == o.name;
    }
  }

  lemma OptionMade(options: seq<SelectOption>, i: nat, id: string)
    requires i < |options| && options[i].id == id
    ensures id in ActiveIds(SelectConfig(options, []))
  {
    assert options[i] in options;
  }

  lemma OptionFound(options: seq<SelectOption>, id: string) returns (i: nat)
    requires id in ActiveIds(SelectConfig(options, []))
    ensures i < |options| && options[i].id == id
  {
    var o :| o in options && o.id == id;
    i :| i < |options| && options[i] == o;
  }

  // ----- the transaction -----

  function NamesOf(lib: Library, r: Request, rows: map<string, Row>, order: seq<string>): seq<string> {
    SortedNames(TallyOf(lib, r, rows, order).distinct)
  }

  /** What a built configuration offers the values it was built for. */
  ghost predicate Offers(lib: Library, r: Request, built: Built, v: Value) {
    var o := ConvertValue(lib, ContextOf(r.seen, r.target), r.mode, v);
    && built.config.Choices?
    && (o.Kept? ==> o.value.Str? && lib.fold(o.value.text) in built.nameToId)
    && !o.Lossy?
    && (forall key | key in built.nameToId ::
          lib.optionId(built.nameToId[key]) && KnownOption(built.config.select, built.nameToId[key]))
  }

  /** Every name the scan noted has an option just built for it. */
  lemma BuiltOffers(lib: Library, r: Request, rows: map<string, Row>, order: seq<string>, next: nat, built: Built, v: Value)
    requires Lawful(lib) && r.mode in ModesFor(r.seen.fieldType, r.target) && OptionTarget(ContextOf(r.seen, r.target))
    requires ConvertedConfig(lib, r.seen, r.target, NamesOf(lib, r, rows, order), next) == Some(built)
    requires v in ValuesOf(rows, r.fieldId, order)
    ensures Offers(lib, r, built, v)
  {
    var c := ContextOf(r.seen, r.target);
    var t := TallyOf(lib, r, rows, order);
    OptionNamesMade(lib, c, r.mode);
    AllNoted(lib, c, r.mode, ValuesOf(rows, r.fieldId, order));
    assert NameNoted(lib, c, r.mode, t, v);
    NamesIndexed(lib, t, NamesOf(lib, r, rows, order), next);
  }

  /** The name index of a new configuration covers every noted key and points at its options. */
  lemma NamesIndexed(lib: Library, t: Tally, names: seq<string>, next: nat)
    requires Lawful(lib) && NamesNoted(lib, t) && names == SortedNames(t.distinct)
    ensures forall key | key in t.distinct :: key in NameToId(lib, names, next)
    ensures forall key | key in NameToId(lib, names, next) ::
              lib.optionId(NameToId(lib, names, next)[key])
              && KnownOption(SelectConfig(NewOptions(lib, names, next), []), NameToId(lib, names, next)[key])
  {
    SortedNamesFacts(lib, t);
    NameToIdFacts(lib, names, next);
    NewOptionIds(lib, names, next);
    MintedFacts(lib, next, |names|);
  }

  /** A cell keeps a value exactly when conversion made one, and it is valid for the new type and configuration. */
  ghost predicate CellConverted(lib: Library, r: Request, nameToId: map<string, string>, config: Config, v: Value) {
    && (FinalOf(lib, r, nameToId, v).Some? <==> ConvertedOf(lib, r, v).Some?)
    && (FinalOf(lib, r, nameToId, v).Some? ==>
          FinalOf(lib, r, nameToId, v).value != Null && Stored(lib, FinalOf(lib, r, nameToId, v).value, r.target, config))
  }

  lemma OfferedFits(lib: Library, r: Request, built: Built, v: Value)
    requires OptionTarget(ContextOf(r.seen, r.target)) && Offers(lib, r, built, v)
    ensures CellConverted(lib, r, built.nameToId, built.config, v)
  {
  }

  lemma DirectFits(lib: Library, r: Request, nameToId: map<string, string>, v: Value)
    requires !OptionTarget(ContextOf(r.seen, r.target))
    requires Fits(lib, ConvertValue(lib, ContextOf(r.seen, r.target), r.mode, v), r.target, PlainTarget(r.seen, r.target))
    ensures CellConverted(lib, r, nameToId, PlainTarget(r.seen, r.target), v)
  {
  }

  lemma DirectConfig(lib: Library, r: Request, names: seq<string>, next: nat, built: Built)
    requires !OptionTarget(ContextOf(r.seen, r.target)) && ConvertedConfig(lib, r.seen, r.target, names, next) == Some(built)
    ensures built.config == PlainTarget(r.seen, r.target) && built.next == next
  {
  }

  lemma FinalFits(lib: Library, r: Request, rows: map<string, Row>, order: seq<string>, next: nat, built: Built, v: Value)
    requires Lawful(lib) && r.mode in ModesFor(r.seen.fieldType, r.target)
    requires IsChoice(r.seen.fieldType) ==> r.seen.config.Choices? && WellFormed(lib, r.seen.config.select)
    requires ConvertedConfig(lib, r.seen, r.target, NamesOf(lib, r, rows, order), next) == Some(built)
    requires v in ValuesOf(rows, r.fieldId, order) && Stored(lib, v, r.seen.fieldType, r.seen.config)
    ensures CellConverted(lib, r, built.nameToId, built.config, v)
  {
    if OptionTarget(ContextOf(r.seen, r.target)) {
      BuiltOffers(lib, r, rows, order, next, built, v);
      OfferedFits(lib, r, built, v);
    } else {
      ConvertedFits(lib, r.seen, r.target, r.mode, v);
      DirectFits(lib, r, built.nameToId, v);
      DirectConfig(lib, r, NamesOf(lib, r, rows, order), next, built);
    }
  }

  ghost predicate ColumnStored(lib: Library, rows: map<string, Row>, order: seq<string>, f: string, t: FieldType, config: Config) {
    forall id | id in order && id in rows && f in rows[id].values :: Stored(lib, rows[id].values[f], t, config)
  }

  ghost predicate RowConverted(lib: Library, r: Request, config: Config, before: Row, after: Row) {
    && (r.fieldId in after.values ==> Stored(lib, after.values[r.fieldId], r.target, config))
    && (forall g | g != r.fieldId :: Lookup(after.values, g) == Lookup(before.values, g))
    && (Held(after.values, r.fieldId) != Null <==>
          OldValue(before, r.fieldId) != Null && ConvertedOf(lib, r, OldValue(before, r.fieldId)).Some?)
    && after.revision == before.revision && after.deleted == before.deleted
  }

  /** A record once the new value of its cell is known. */
  function RowWith(lib: Library, fields: Fields, f: string, row: Row, final: Option<Value>): Row {
    match final
    case None => Reindexed(lib, fields, row, row.values - {f})
    case Some(w) => if w == OldValue(row, f) then row else Reindexed(lib, fields, row, row.values[f := w])
  }

  lemma RowWithFacts(lib: Library, fields: Fields, f: string, row: Row, final: Option<Value>)
    requires OldValue(row, f) != Null && (final.Some? ==> final.value != Null)
    ensures var after := RowWith(lib, fields, f, row, final);
            && Lookup(after.values, f) == final
            && (forall g | g != f :: Lookup(after.values, g) == Lookup(row.values, g))
            && after.revision == row.revision && after.deleted == row.deleted
  {
    CellReplaced(row.values, f, final);
  }

  lemma CellReplaced(cells: Cells, f: string, final: Option<Value>)
    ensures var after := match final case None => cells - {f} case Some(w) => cells[f := w];
            Lookup(after, f) == final && forall g | g != f :: Lookup(after, g) == Lookup(cells, g)
  {
  }

  lemma RowFits(lib: Library, fields: Fields, r: Request, nameToId: map<string, string>, config: Config, row: Row)
    requires OldValue(row, r.fieldId) != Null ==> CellConverted(lib, r, nameToId, config, OldValue(row, r.fieldId))
    ensures RowConverted(lib, r, config, row, ConvertedRow(lib, fields, r, nameToId, row))
  {
    var v := OldValue(row, r.fieldId);
    if v != Null {
      var final := FinalOf(lib, r, nameToId, v);
      RowWithFacts(lib, fields, r.fieldId, row, final);
      RowIsConverted(lib, r, config, row, RowWith(lib, fields, r.fieldId, row, final), final, ConvertedOf(lib, r, v));
    }
  }

  lemma RowIsConverted(lib: Library, r: Request, config: Config, before: Row, after: Row, final: Option<Value>, made: Option<Value>)
    requires OldValue(before, r.fieldId) != Null && made == ConvertedOf(lib, r, OldValue(before, r.fieldId))
    requires final.Some? <==> made.Some?
    requires final.Some? ==> final.value != Null && Stored(lib, final.value, r.target, config)
    requires Lookup(after.values, r.fieldId) == final
    requires forall g | g != r.fieldId :: Lookup(after.values, g) == Lookup(before.values, g)
    requires after.revision == before.revision && after.deleted == before.deleted
    ensures RowConverted(lib, r, config, before, after)
  {
  }

  lemma CellFitsAt(lib: Library, r: Request, rows: map<string, Row>, order: seq<string>, next: nat, built: Built, id: string)
    requires Lawful(lib) && r.mode in ModesFor(r.seen.fieldType, r.target)
    requires IsChoice(r.seen.fieldType) ==> r.seen.config.Choices? && WellFormed(lib, r.seen.config.select)
    requires ConvertedConfig(lib, r.seen, r.target, NamesOf(lib, r, rows, order), next) == Some(built)
    requires id in order && id in rows && ColumnStored(lib, rows, order, r.fieldId, r.seen.fieldType, r.seen.config)
    requires OldValue(rows[id], r.fieldId) != Null
    ensures CellConverted(lib, r, built.nameToId, built.config, OldValue(rows[id], r.fieldId))
  {
    var i :| 0 <= i < |order| && order[i] == id;
    assert ValuesOf(rows, r.fieldId, order)[i] == OldValue(rows[id], r.fieldId);
    FinalFits(lib, r, rows, order, next, built, OldValue(rows[id], r.fieldId));
  }

  /** The configuration a conversion ends with is well formed, whatever it was built from. */
  lemma BuiltWell(lib: Library, r: Request, rows: map<string, Row>, order: seq<string>, next: nat, built: Built)
    requires Lawful(lib) && r.mode in ModesFor(r.seen.fieldType, r.target)
    requires IsChoice(r.seen.fieldType) ==>
               r.seen.config.Choices? && WellFormed(lib, r.seen.config.select) && Unused(lib, r.seen.config.select, next)
    requires ConvertedConfig(lib, r.seen, r.target, NamesOf(lib, r, rows, order), next) == Some(built)
    ensures built.config.Choices? <==> IsChoice(r.target)
    ensures built.config.Choices? ==> WellFormed(lib, built.config.select) && Unused(lib, built.config.select, built.next)
    ensures built.next >= next
  {
    if OptionTarget(ContextOf(r.seen, r.target)) {
      OptionNamesMade(lib, ContextOf(r.seen, r.target), r.mode);
      AllNoted(lib, ContextOf(r.seen, r.target), r.mode, ValuesOf(rows, r.fieldId, order));
      SortedNamesFacts(lib, TallyOf(lib, r, rows, order));
      NewOptionsWell(lib, NamesOf(lib, r, rows, order), next);
    }
  }

  /** What a committed conversion leaves behind: cells of the new type, a cell exactly where conversion made a value,
      everything else as it was, and counts that add up to the records scanned. */
  ghost predicate WellConverted(lib: Library, s: State, t: State, tally: Tally, r: Request, order: seq<string>) {
    && t.rows.Keys == s.rows.Keys && r.fieldId in t.fields && t.fields[r.fieldId].fieldType == r.target
    && (forall id | id in s.rows ::
          if id in order then RowConverted(lib, r, t.fields[r.fieldId].config, s.rows[id], t.rows[id])
          else t.rows[id] == s.rows[id])
    && Scanned(tally) == |order|
  }

  /** Main result: if every stored value was valid, then after a committed conversion from the field the service read,
      every remaining value is valid for the target type and its configuration. */
  lemma ConversionWellTyped(lib: Library, s: State, table: string, r: Request, order: seq<string>, now: int)
    requires Lawful(lib) && FieldsWell(lib, s.fields, s.nextOption) && r.mode in ModesFor(r.seen.fieldType, r.target)
    requires r.fieldId in s.fields && s.fields[r.fieldId] == r.seen
    requires ColumnStored(lib, s.rows, order, r.fieldId, r.seen.fieldType, r.seen.config)
    requires Converted(lib, s, table, r, order, now).Ok?
    ensures var done := Converted(lib, s, table, r, order, now).value;
            WellConverted(lib, s, done.0, done.1, r, order)
  {
    var t, tally, built := ConvertedParts(lib, s, table, r, order, now);
    CountsAddUp(lib, ContextOf(r.seen, r.target), r.mode, ValuesOf(s.rows, r.fieldId, order));
    RowsConverted(lib, t.fields, r, s.rows, order, s.nextOption, built);
    AllConverted(lib, s, t, tally, r, order, built);
  }

  lemma AllConverted(lib: Library, s: State, t: State, tally: Tally, r: Request, order: seq<string>, built: Built)
    requires t.rows == ConvertedRows(lib, t.fields, r, built.nameToId, s.rows, order)
    requires r.fieldId in t.fields && t.fields[r.fieldId].fieldType == r.target && t.fields[r.fieldId].config == built.config
    requires forall id | id in s.rows && id in order ::
               RowConverted(lib, r, built.config, s.rows[id], ConvertedRow(lib, t.fields, r, built.nameToId, s.rows[id]))
    requires Scanned(tally) == |order|
    ensures WellConverted(lib, s, t, tally, r, order)
  {
    forall id | id in s.rows
      ensures if id in order then RowConverted(lib, r, t.fields[r.fieldId].config, s.rows[id], t.rows[id])
              else t.rows[id] == s.rows[id]
    {
    }
  }

  /** What a committed conversion is made of. */
  lemma ConvertedParts(lib: Library, s: State, table: string, r: Request, order: seq<string>, now: int)
    returns (t: State, tally: Tally, built: Built)
    requires r.fieldId in s.fields && Converted(lib, s, table, r, order, now).Ok?
    ensures Converted(lib, s, table, r, order, now) == Ok((t, tally)) && tally == TallyOf(lib, r, s.rows, order)
    ensures ConvertedConfig(lib, r.seen, r.target, NamesOf(lib, r, s.rows, order), s.nextOption) == Some(built)
    ensures t.fields == s.fields[r.fieldId := NewField(s.fields[r.fieldId], r, built.config)] && t.nextOption == built.next
    ensures t.rows == ConvertedRows(lib, t.fields, r, built.nameToId, s.rows, order)
  {
    t, tally := Converted(lib, s, table, r, order, now).value.0, Converted(lib, s, table, r, order, now).value.1;
    built := ConvertedConfig(lib, r.seen, r.target, NamesOf(lib, r, s.rows, order), s.nextOption).value;
  }

  lemma RowsConverted(lib: Library, fields: Fields, r: Request, rows: map<string, Row>, order: seq<string>, next: nat, built: Built)
    requires Lawful(lib) && r.mode in ModesFor(r.seen.fieldType, r.target)
    requires IsChoice(r.seen.fieldType) ==> r.seen.config.Choices? && WellFormed(lib, r.seen.config.select)
    requires ConvertedConfig(lib, r.seen, r.target, NamesOf(lib, r, rows, order), next) == Some(built)
    requires ColumnStored(lib, rows, order, r.fieldId, r.seen.fieldType, r.seen.config)
    ensures forall id | id in rows && id in order ::
              RowConverted(lib, r, built.config, rows[id], ConvertedRow(lib, fields, r, built.nameToId, rows[id]))
  {
    forall id | id in rows && id in order
      ensures RowConverted(lib, r, built.config, rows[id], ConvertedRow(lib, fields, r, built.nameToId, rows[id]))
    {
      if OldValue(rows[id], r.fieldId) != Null {
        CellFitsAt(lib, r, rows, order, next, built, id);
      }
      RowFits(lib, fields, r, built.nameToId, built.config, rows[id]);
    }
  }

  /** Configurations stay well formed too. */
  lemma ConversionKeepsFields(lib: Library, s: State, table: string, r: Request, order: seq<string>, now: int)
    requires Lawful(lib) && FieldsWell(lib, s.fields, s.nextOption) && r.mode in ModesFor(r.seen.fieldType, r.target)
    requires r.fieldId in s.fields && s.fields[r.fieldId] == r.seen
    requires Converted(lib, s, table, r, order, now).Ok?
    ensures var t := Converted(lib, s, table, r, order, now).value.0;
            FieldsWell(lib, t.fields, t.nextOption)
  {
    var t, tally, built := ConvertedParts(lib, s, table, r, order, now);
    BuiltWell(lib, r, s.rows, order, s.nextOption, built);
    OneFieldReplaced(lib, s.fields, s.nextOption, r.fieldId, NewField(r.seen, r, built.config), built.next);
  }

  lemma OneFieldReplaced(lib: Library, fields: Fields, next: nat, f: string, field: Field, next': nat)
    requires FieldsWell(lib, fields, next) && next <= next'
    requires IsChoice(field.fieldType) <==> field.config.Choices?
    requires field.config.Choices? ==> WellFormed(lib, field.config.select) && Unused(lib, field.config.select, next')
    ensures FieldsWell(lib, fields[f := field], next')
  {
  }
}
