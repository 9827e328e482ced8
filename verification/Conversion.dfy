/** Converting a field to another type: how a value is converted, what is counted, and the new configuration. */
module Conversion {
  import opened Results
  import opened Schema
  import opened Values
  import opened Orders
  import opened ChoiceOptions

  // ----- which conversions exist -----

  function FromText(target: FieldType): seq<string> {
    match target
    case Number => ["parse"] case Checkbox => ["parse"] case Date => ["parse"] case Url => ["parse"]
    case Select => ["distinctOptions"] case MultiSelect => ["distinctOptions"]
    case _ => []
  }

  function ToOptions(target: FieldType): seq<string> {
    if IsChoice(target) then ["distinctOptions"] else []
  }

  function ModesFor(source: FieldType, target: FieldType): seq<string> {
    match source
    case Text => if target == LongText then ["preserve"] else if target == Text then [] else FromText(target)
    case LongText => if target == Text then ["dropOverlong"] else if target == LongText then [] else FromText(target)
    case Url => if target == Text || target == LongText then ["preserve"] else ToOptions(target)
    case Number =>
      if target == Text || target == LongText then ["format"]
      else if target == Checkbox then ["nonzero", "zeroOne"] else ToOptions(target)
    case Checkbox =>
      if target == Text || target == LongText then ["format"]
      else if target == Number then ["numeric"] else ToOptions(target)
    case Date => if target == Text || target == LongText then ["format"] else ToOptions(target)
    case Select =>
      if target == Text || target == LongText then ["optionName"] else if target == MultiSelect then ["singleElement"] else []
    case MultiSelect =>
      if target == Text || target == LongText then ["joinNames"] else if target == Select then ["firstOption"] else []
    case _ => []
  }

  // ----- one value -----

  datatype Outcome = Nothing | Kept(value: Value) | Lossy(value: Value) | Lost

  datatype Context = Context(source: FieldType, target: FieldType, optionNames: map<string, string>)

  function OptionTarget(c: Context): bool {
    IsChoice(c.target) && !IsChoice(c.source)
  }

  function OptionNames(config: SelectConfig): map<string, string> {
    NamesFrom(config.options) + DeletedNamesFrom(config.deletedOptions)
  }

  function NamesFrom(options: seq<SelectOption>): map<string, string> {
    if options == [] then map[] else NamesFrom(options[..|options| - 1])[options[|options| - 1].id := options[|options| - 1].name]
  }

  function DeletedNamesFrom(options: seq<DeletedOption>): map<string, string> {
    if options == [] then map[]
    else DeletedNamesFrom(options[..|options| - 1])[options[|options| - 1].id := options[|options| - 1].name]
  }

  function ContextOf(field: Field, target: FieldType): Context {
    Context(field.fieldType, target, if IsChoice(field.fieldType) then OptionNames(ConfigOf(field)) else map[])
  }

  function ScalarString(lib: Library, v: Value): string {
    match v
    case Str(text) => text
    case Num(number) => lib.formatNumber(number)
    case Bool(flag) => if flag then "true" else "false"
    case _ => ""
  }

  function ParseText(lib: Library, target: FieldType, v: Value): Outcome {
    if !v.Str? then Lost
    else
      var trimmed := lib.trim(v.text);
      if trimmed == "" then Nothing
      else match target
      case Number => (match lib.parseNumber(trimmed) case Some(x) => Kept(Num(x)) case None => Lost)
      case Checkbox =>
        var lower := lib.lower(trimmed);
        if lower in ["true", "1", "yes"] then Kept(Bool(true))
        else if lower in ["false", "0", "no"] then Kept(Bool(false)) else Lost
      case Date => if lib.validDate(trimmed) then Kept(Str(trimmed)) else Lost
      case Url => if |trimmed| <= 2048 && lib.validUrl(trimmed) then Kept(Str(trimmed)) else Lost
      case _ => Lost
  }

  function DistinctOption(lib: Library, v: Value): Outcome {
    var text := ScalarString(lib, v);
    if lib.trim(text) == "" then Nothing
    else match lib.optionName(text) case Some(name) => Kept(Str(name)) case None => Lost
  }

  /** The names of the listed options, or None when one of them is unknown. */
  function ListedNames(names: map<string, string>, items: seq<Value>): Option<seq<string>> {
    if items == [] then Some([])
    else
      var last := items[|items| - 1];
      match ListedNames(names, items[..|items| - 1])
      case None => None
      case Some(front) => if last.Str? && last.text in names then Some(front + [names[last.text]]) else None
  }

  function JoinNames(names: seq<string>): string {
    if names == [] then "" else if |names| == 1 then names[0] else JoinNames(names[..|names| - 1]) + ", " + names[|names| - 1]
  }

  function ConvertValue(lib: Library, c: Context, mode: string, v: Value): Outcome {
    if v == Null then Nothing
    else match mode
    case "preserve" => if v.Str? then Kept(v) else Lost
    case "dropOverlong" => if v.Str? && |v.text| <= TextLimit(c.target) then Kept(v) else Lost
    case "parse" => ParseText(lib, c.target, v)
    case "distinctOptions" => DistinctOption(lib, v)
    case "format" => Kept(Str(ScalarString(lib, v)))
    case "numeric" => if v.Bool? then Kept(Num(if v.flag then 1.0 else 0.0)) else Lost
    case "nonzero" => if v.Num? then Kept(Bool(v.number != 0.0)) else Lost
    case "zeroOne" => if v.Num? && (v.number == 0.0 || v.number == 1.0) then Kept(Bool(v.number == 1.0)) else Lost
    case "optionName" => if v.Str? && v.text in c.optionNames then Kept(Str(c.optionNames[v.text])) else Lost
    case "joinNames" =>
      if !v.List? then Lost
      else if v.items == [] then Nothing
      else
        (match ListedNames(c.optionNames, v.items)
         case None => Lost
         case Some(names) => if |JoinNames(names)| <= TextLimit(c.target) then Kept(Str(JoinNames(names))) else Lost)
    case "singleElement" => if v.Str? then Kept(List([v])) else Lost
    case "firstOption" =>
      if !v.List? then Lost
      else if v.items == [] then Nothing
      else if |v.items| > 1 then Lossy(v.items[0]) else Kept(v.items[0])
    case _ => Lost
  }

  function ConvertedTo(o: Outcome): Option<Value> {
    match o case Kept(v) => Some(v) case Lossy(v) => Some(v) case _ => None
  }

  // ----- the accumulator -----

  datatype Tally = Tally(ok: nat, lossy: nat, lost: nat, empty: nat, distinct: map<string, string>)

  function Start(): Tally {
    Tally(0, 0, 0, 0, map[])
  }

  function Noted(lib: Library, c: Context, t: Tally, v: Value): Tally {
    var name := if v.Str? then v.text else "";
    if !OptionTarget(c) || lib.fold(name) in t.distinct then t
    else t.(distinct := t.distinct[lib.fold(name) := name])
  }

  function Added(lib: Library, c: Context, mode: string, t: Tally, v: Value): Tally {
    match ConvertValue(lib, c, mode, v)
    case Nothing => t.(empty := t.empty + 1)
    case Lost => t.(lost := t.lost + 1)
    case Kept(w) => Noted(lib, c, t.(ok := t.ok + 1), w)
    case Lossy(w) => Noted(lib, c, t.(lossy := t.lossy + 1), w)
  }

  class Accumulator {
    const lib: Library
    const context: Context
    const mode: string
    var ok: nat
    var lossy: nat
    var lost: nat
    var empty: nat
    var distinct: map<string, string>

    function Contents(): Tally
      reads this
    {
      Tally(ok, lossy, lost, empty, distinct)
    }

    constructor (lib: Library, context: Context, mode: string)
      ensures this.lib == lib && this.context == context && this.mode == mode && Contents() == Start()
    {
      this.lib, this.context, this.mode := lib, context, mode;
      ok, lossy, lost, empty, distinct := 0, 0, 0, 0, map[];
    }

    method Add(value: Value) returns (converted: Option<Value>)
      modifies this
      ensures Contents() == Added(lib, context, mode, old(Contents()), value)
      ensures converted == ConvertedTo(ConvertValue(lib, context, mode, value))
    {
      var outcome := ConvertValue(lib, context, mode, value);
      match outcome {
        case Nothing =>
          empty := empty + 1;
          return None;
        case Kept(_) => ok := ok + 1;
        case Lossy(_) => lossy := lossy + 1;
        case Lost =>
          lost := lost + 1;
          return None;
      }
      if OptionTarget(context) {
        var name := if outcome.value.Str? then outcome.value.text else "";
        var key := lib.fold(name);
        if key !in distinct {
          distinct := distinct[key := name];
        }
      }
      return Some(outcome.value);
    }
  }

  /** Every record scanned is counted once. */
  function Scanned(t: Tally): nat {
    t.ok + t.lossy + t.lost + t.empty
  }

  function AddAll(lib: Library, c: Context, mode: string, values: seq<Value>): Tally {
    if values == [] then Start()
    else Added(lib, c, mode, AddAll(lib, c, mode, values[..|values| - 1]), values[|values| - 1])
  }

  lemma {:induction false} CountsAddUp(lib: Library, c: Context, mode: string, values: seq<Value>)
    ensures Scanned(AddAll(lib, c, mode, values)) == |values|
  {
    if values != [] {
      CountsAddUp(lib, c, mode, values[..|values| - 1]);
      OneMoreCounted(lib, c, mode, AddAll(lib, c, mode, values[..|values| - 1]), values[|values| - 1]);
    }
  }

  lemma OneMoreCounted(lib: Library, c: Context, mode: string, t: Tally, v: Value)
    ensures Scanned(Added(lib, c, mode, t, v)) == Scanned(t) + 1
  {
  }

  // ----- the new configuration -----

  const PALETTE: seq<string> := ["blue", "green", "red", "orange", "yellow", "purple", "pink", "cyan", "gray"]

  function SortedNames(distinct: map<string, string>): seq<string> {
    var keys := SortedSet(distinct.Keys);
    seq(|keys|, i requires 0 <= i < |keys| => if keys[i] in distinct then distinct[keys[i]] else "")
  }

  function NewOptions(lib: Library, names: seq<string>, next: nat): (r: seq<SelectOption>)
    ensures |r| == |names|
  {
    seq(|names|, i requires 0 <= i < |names| => SelectOption(lib.newOptionId(next + i), names[i], PALETTE[i % |PALETTE|]))
  }

  /** Which option each folded name resolves to. */
  function NameToId(lib: Library, names: seq<string>, next: nat): map<string, string> {
    if names == [] then map[]
    else NameToId(lib, names[..|names| - 1], next)[lib.fold(names[|names| - 1]) := lib.newOptionId(next + |names| - 1)]
  }

  datatype Built = Built(config: Config, nameToId: map<string, string>, next: nat)

  function ConvertedConfig(lib: Library, field: Field, target: FieldType, names: seq<string>, next: nat): Option<Built> {
    if !IsChoice(target) then Some(Built(Plain, map[], next))
    else if IsChoice(field.fieldType) then Some(Built(Choices(ConfigOf(field)), map[], next))
    else if |names| > MAX_ACTIVE then None
    else Some(Built(Choices(SelectConfig(NewOptions(lib, names, next), [])), NameToId(lib, names, next), next + |names|))
  }

  lemma NameToIdStep(lib: Library, names: seq<string>, next: nat, i: nat)
    requires i < |names|
    ensures NameToId(lib, names[..i + 1], next) ==
            NameToId(lib, names[..i], next)[lib.fold(names[i]) := lib.newOptionId(next + i)]
    ensures NewOptions(lib, names, next)[..i + 1] ==
            NewOptions(lib, names, next)[..i] + [SelectOption(lib.newOptionId(next + i), names[i], PALETTE[i % |PALETTE|])]
  {
    assert names[..i + 1][..i] == names[..i];
  }

  method BuildConvertedConfig(lib: Library, field: Field, target: FieldType, names: seq<string>, next: nat)
    returns (built: Option<Built>)
    ensures built == ConvertedConfig(lib, field, target, names, next)
  {
    if !IsChoice(target) {
      return Some(Built(Plain, map[], next));
    }
    if IsChoice(field.fieldType) {
      return Some(Built(Choices(ConfigOf(field)), map[], next));
    }
    if |names| > MAX_ACTIVE {
      return None;
    }
    var options: seq<SelectOption> := [];
    var nameToId: map<string, string> := map[];
    var index := 0;
    while index < |names|
      invariant 0 <= index <= |names|
      invariant options == NewOptions(lib, names, next)[..index]
      invariant nameToId == NameToId(lib, names[..index], next)
    {
      NameToIdStep(lib, names, next, index);
      var optionId := lib.newOptionId(next + index);
      options := options + [SelectOption(optionId, names[index], PALETTE[index % |PALETTE|])];
      nameToId := nameToId[lib.fold(names[index]) := optionId];
      index := index + 1;
    }
    assert names[..index] == names && NewOptions(lib, names, next)[..index] == NewOptions(lib, names, next);
    return Some(Built(Choices(SelectConfig(options, [])), nameToId, next + |names|));
  }
}
