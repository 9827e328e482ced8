/** Select options: resolving the choices of a batch (creating options on the way) and replacing a field's
    option list. Both must keep every option configuration well formed and no option identity may be lost. */
module ChoiceOptions {
  import opened Results
  import opened Schema
  import opened Values
  import opened Commands
  import opened Orders

  const MAX_ACTIVE: nat := 500
  const MAX_TOTAL: nat := 5000

  datatype ChoiceError = UnknownOption | BadName | OptionBudget | RepeatedOption | OneOptionRequired | BadConfig

  function AllIds(c: SelectConfig): set<string> {
    ActiveIds(c) + DeletedIds(c)
  }

  ghost predicate DistinctIds(c: SelectConfig) {
    && (forall i, j | 0 <= i < j < |c.options| :: c.options[i].id != c.options[j].id)
    && (forall i, j | 0 <= i < j < |c.deletedOptions| :: c.deletedOptions[i].id != c.deletedOptions[j].id)
    && (forall id | id in ActiveIds(c) :: id !in DeletedIds(c))
  }

  ghost predicate DistinctNames(lib: Library, c: SelectConfig) {
    forall i, j | 0 <= i < j < |c.options| :: lib.fold(c.options[i].name) != lib.fold(c.options[j].name)
  }

  ghost predicate WellFormed(lib: Library, c: SelectConfig) {
    && DistinctIds(c) && DistinctNames(lib, c)
    && |c.options| <= MAX_ACTIVE && |c.options| + |c.deletedOptions| <= MAX_TOTAL
    && (forall id | id in AllIds(c) :: lib.optionId(id))
    && (forall o | o in c.options :: |o.name| <= 100) && (forall o | o in c.deletedOptions :: |o.name| <= 100)
  }

  /** No identifier generated from `next` on occurs in the configuration. */
  ghost predicate Unused(lib: Library, c: SelectConfig, next: nat) {
    forall n | n >= next :: lib.newOptionId(n) !in AllIds(c)
  }

  // ----- resolving one option -----

  function IndexOfId(options: seq<SelectOption>, id: string): (r: Option<nat>)
    ensures r.Some? ==> r.value < |options| && options[r.value].id == id
    ensures r.None? ==> forall o | o in options :: o.id != id
  {
    if options == [] then None
    else if options[0].id == id then Some(0)
    else match IndexOfId(options[1..], id) case None => None case Some(k) => Some(k + 1)
  }

  function IndexOfName(lib: Library, options: seq<SelectOption>, key: string): (r: Option<nat>)
    ensures r.Some? ==> r.value < |options| && lib.fold(options[r.value].name) == key
    ensures r.None? ==> forall o | o in options :: lib.fold(o.name) != key
  {
    if options == [] then None
    else if lib.fold(options[0].name) == key then Some(0)
    else match IndexOfName(lib, options[1..], key) case None => None case Some(k) => Some(k + 1)
  }

  function IndexOfDeleted(options: seq<DeletedOption>, id: string): (r: Option<nat>)
    ensures r.Some? ==> r.value < |options| && options[r.value].id == id
    ensures r.None? ==> forall o | o in options :: o.id != id
  {
    if options == [] then None
    else if options[0].id == id then Some(0)
    else match IndexOfDeleted(options[1..], id) case None => None case Some(k) => Some(k + 1)
  }

  /** The option found or made, the configuration afterwards, and how many identifiers were used up. */
  datatype Resolution = Resolution(option: SelectOption, config: SelectConfig, next: nat)

  function ResolveOption(lib: Library, c: SelectConfig, input: ChoiceOption, previous: Value, next: nat)
    : Result<Resolution, ChoiceError>
  {
    if input.optionId != "" then
      match IndexOfId(c.options, input.optionId)
      case Some(k) => Ok(Resolution(c.options[k], c, next))
      case None =>
        match IndexOfDeleted(c.deletedOptions, input.optionId)
        case Some(k) =>
          if HoldsOption(previous, input.optionId) then
            var o := c.deletedOptions[k];
            Ok(Resolution(SelectOption(o.id, o.name, o.color), c, next))
          else Err(UnknownOption)
        case None => Err(UnknownOption)
    else
      match lib.optionName(input.name)
      case None => Err(BadName)
      case Some(name) =>
        match IndexOfName(lib, c.options, lib.fold(name))
        case Some(k) => Ok(Resolution(c.options[k], c, next))
        case None =>
          if |c.options| >= MAX_ACTIVE || |c.options| + |c.deletedOptions| >= MAX_TOTAL then Err(OptionBudget)
          else
            var o := SelectOption(lib.newOptionId(next), name, input.color);
            Ok(Resolution(o, c.(options := c.options + [o]), next + 1))
  }

  /** `d` is `c` with active options appended: existing options stay where they are. */
  ghost predicate Grown(c: SelectConfig, d: SelectConfig) {
    c.options <= d.options && c.deletedOptions == d.deletedOptions
  }

  /** What an input may resolve to, judged against the configuration at the end of the batch. */
  ghost predicate Denotes(lib: Library, d: SelectConfig, input: ChoiceOption, previous: Value, id: string) {
    if input.optionId != "" then
      input.optionId == id && (id in ActiveIds(d) || (id in DeletedIds(d) && HoldsOption(previous, id)))
    else
      && lib.optionName(input.name).Some?
      && exists o | o in d.options :: o.id == id && lib.fold(o.name) == lib.fold(lib.optionName(input.name).value)
  }

  lemma GrownKeeps(c: SelectConfig, d: SelectConfig)
    requires Grown(c, d)
    ensures ActiveIds(c) <= ActiveIds(d) && DeletedIds(c) == DeletedIds(d)
    ensures forall o | o in c.options :: o in d.options
  {
    forall o | o in c.options ensures o in d.options {
      var i :| 0 <= i < |c.options| && c.options[i] == o;
      assert d.options[i] == o;
    }
  }

  lemma DenotesGrows(lib: Library, c: SelectConfig, d: SelectConfig, input: ChoiceOption, previous: Value, id: string)
    requires Grown(c, d) && Denotes(lib, c, input, previous, id)
    ensures Denotes(lib, d, input, previous, id)
  {
    GrownKeeps(c, d);
  }

  lemma AppendWellFormed(lib: Library, c: SelectConfig, o: SelectOption)
    requires WellFormed(lib, c) && |c.options| < MAX_ACTIVE && |c.options| + |c.deletedOptions| < MAX_TOTAL
    requires o.id !in AllIds(c) && lib.optionId(o.id) && |o.name| <= 100
    requires forall p | p in c.options :: lib.fold(p.name) != lib.fold(o.name)
    ensures WellFormed(lib, c.(options := c.options + [o]))
    ensures AllIds(c.(options := c.options + [o])) == AllIds(c) + {o.id}
  {
    var d := c.(options := c.options + [o]);
    assert ActiveIds(d) == ActiveIds(c) + {o.id};
    forall i | 0 <= i < |c.options| ensures c.options[i].id != o.id && lib.fold(c.options[i].name) != lib.fold(o.name) {
      assert c.options[i] in c.options && c.options[i].id in ActiveIds(c);
    }
  }

  lemma ResolveOptionKeeps(lib: Library, c: SelectConfig, input: ChoiceOption, previous: Value, next: nat)
    requires Lawful(lib) && WellFormed(lib, c) && Unused(lib, c, next)
    requires ResolveOption(lib, c, input, previous, next).Ok?
    ensures var r := ResolveOption(lib, c, input, previous, next).value;
            && WellFormed(lib, r.config) && Unused(lib, r.config, r.next) && r.next >= next
            && Grown(c, r.config) && Denotes(lib, r.config, input, previous, r.option.id)
            && lib.optionId(r.option.id)
            && r.config == (if r.next == next then c else c.(options := c.options + [r.option]))
  {
    var r := ResolveOption(lib, c, input, previous, next).value;
    if r.config != c {
      AppendWellFormed(lib, c, r.option);
      assert r.option in r.config.options;
    } else {
      assert r.option.id in AllIds(c);
    }
  }

  /** Inputs that name one option, however they spell it, denote one identity. */
  lemma OneIdentityPerName(lib: Library, d: SelectConfig, a: ChoiceOption, b: ChoiceOption, u: Value, v: Value, x: string, y: string)
    requires WellFormed(lib, d) && a.optionId == b.optionId == ""
    requires Denotes(lib, d, a, u, x) && Denotes(lib, d, b, v, y)
    ensures lib.fold(lib.optionName(a.name).value) == lib.fold(lib.optionName(b.name).value) <==> x == y
  {
    var o :| o in d.options && o.id == x && lib.fold(o.name) == lib.fold(lib.optionName(a.name).value);
    var p :| p in d.options && p.id == y && lib.fold(p.name) == lib.fold(lib.optionName(b.name).value);
    var i :| 0 <= i < |d.options| && d.options[i] == o;
    var j :| 0 <= j < |d.options| && d.options[j] == p;
    assert i != j ==> d.options[i].id != d.options[j].id;
  }

  // ----- resolving one assignment -----

  /** The identities chosen so far, the options behind them, and those that had to be created. */
  datatype Chosen = Chosen(config: SelectConfig, next: nat, options: seq<SelectOption>, created: seq<SelectOption>)

  function IdsOf(options: seq<SelectOption>): (r: seq<string>)
    ensures |r| == |options|
  {
    seq(|options|, i requires 0 <= i < |options| => options[i].id)
  }

  function ResolveInputs(lib: Library, c: SelectConfig, inputs: seq<ChoiceOption>, previous: Value, next: nat)
    : (r: Result<Chosen, ChoiceError>)
    ensures r.Ok? ==> |r.value.options| == |inputs|
  {
    if inputs == [] then Ok(Chosen(c, next, [], []))
    else
      var before :- ResolveInputs(lib, c, inputs[..|inputs| - 1], previous, next);
      AddInput(lib, before, inputs[|inputs| - 1], previous)
  }

  function AddInput(lib: Library, before: Chosen, input: ChoiceOption, previous: Value): (r: Result<Chosen, ChoiceError>)
    ensures r.Ok? ==> |r.value.options| == |before.options| + 1
  {
    var r :- ResolveOption(lib, before.config, input, previous, before.next);
    if r.option.id in IdsOf(before.options) then Err(RepeatedOption)
    else Ok(Chosen(r.config, r.next, before.options + [r.option],
                   before.created + if r.next == before.next then [] else [r.option]))
  }

  lemma {:induction false} ResolveInputsFails(lib: Library, c: SelectConfig, inputs: seq<ChoiceOption>, previous: Value,
                                              next: nat, n: nat)
    requires n <= |inputs| && ResolveInputs(lib, c, inputs[..n], previous, next).Err?
    ensures ResolveInputs(lib, c, inputs, previous, next) == ResolveInputs(lib, c, inputs[..n], previous, next)
  {
    if n == |inputs| {
      assert inputs[..n] == inputs;
    } else {
      var front := inputs[..|inputs| - 1];
      assert front[..n] == inputs[..n];
      ResolveInputsFails(lib, c, front, previous, next, n);
    }
  }

  lemma ResolveInputsStep(lib: Library, c: SelectConfig, inputs: seq<ChoiceOption>, previous: Value, next: nat, k: nat, chosen: Chosen)
    requires k < |inputs| && ResolveInputs(lib, c, inputs[..k], previous, next) == Ok(chosen)
    ensures ResolveInputs(lib, c, inputs[..k + 1], previous, next) == AddInput(lib, chosen, inputs[k], previous)
  {
    assert inputs[..k + 1][..k] == inputs[..k];
  }

  method ResolveAssignment(lib: Library, c: SelectConfig, inputs: seq<ChoiceOption>, previous: Value, next: nat)
    returns (result: Result<Chosen, ChoiceError>)
    ensures result == ResolveInputs(lib, c, inputs, previous, next)
  {
    var chosen := Chosen(c, next, [], []);
    var k := 0;
    while k < |inputs|
      invariant 0 <= k <= |inputs|
      invariant ResolveInputs(lib, c, inputs[..k], previous, next) == Ok(chosen)
    {
      ResolveInputsStep(lib, c, inputs, previous, next, k, chosen);
      var added := AddInput(lib, chosen, inputs[k], previous);
      if added.Err? {
        ResolveInputsFails(lib, c, inputs, previous, next, k + 1);
        return Err(added.error);
      }
      chosen := added.value;
      k := k + 1;
    }
    assert inputs[..k] == inputs;
    return Ok(chosen);
  }

  /** Each input got the option it denotes, no two the same. */
  ghost predicate EachDenotes(lib: Library, d: SelectConfig, inputs: seq<ChoiceOption>, previous: Value, options: seq<SelectOption>) {
    && |options| == |inputs|
    && (forall i | 0 <= i < |inputs| ::
          Denotes(lib, d, inputs[i], previous, options[i].id) && lib.optionId(options[i].id))
    && (forall i, j | 0 <= i < j < |inputs| :: options[i].id != options[j].id)
  }

  /** What resolving an assignment keeps and yields. */
  ghost predicate ChosenWell(lib: Library, c: SelectConfig, inputs: seq<ChoiceOption>, previous: Value, next: nat, r: Chosen) {
    && WellFormed(lib, r.config) && Unused(lib, r.config, r.next) && r.next >= next
    && r.config == c.(options := c.options + r.created)
    && EachDenotes(lib, r.config, inputs, previous, r.options)
  }

  lemma {:induction false} ResolveInputsKeeps(lib: Library, c: SelectConfig, inputs: seq<ChoiceOption>, previous: Value, next: nat)
    requires Lawful(lib) && WellFormed(lib, c) && Unused(lib, c, next)
    requires ResolveInputs(lib, c, inputs, previous, next).Ok?
    ensures ChosenWell(lib, c, inputs, previous, next, ResolveInputs(lib, c, inputs, previous, next).value)
  {
    if inputs != [] {
      var n := |inputs| - 1;
      ResolveInputsKeeps(lib, c, inputs[..n], previous, next);
      var before := ResolveInputs(lib, c, inputs[..n], previous, next).value;
      AddInputKeeps(lib, c, inputs, previous, next, before);
    }
  }

  lemma AddInputKeeps(lib: Library, c: SelectConfig, inputs: seq<ChoiceOption>, previous: Value, next: nat, before: Chosen)
    requires Lawful(lib) && inputs != [] && ChosenWell(lib, c, inputs[..|inputs| - 1], previous, next, before)
    requires AddInput(lib, before, inputs[|inputs| - 1], previous).Ok?
    ensures ChosenWell(lib, c, inputs, previous, next, AddInput(lib, before, inputs[|inputs| - 1], previous).value)
  {
    var n := |inputs| - 1;
    var r := ResolveOption(lib, before.config, inputs[n], previous, before.next).value;
    ResolveOptionKeeps(lib, before.config, inputs[n], previous, before.next);
    AddedKeeps(lib, c, inputs, previous, next, before, r);
  }

  lemma AddedKeeps(lib: Library, c: SelectConfig, inputs: seq<ChoiceOption>, previous: Value, next: nat, before: Chosen, r: Resolution)
    requires inputs != [] && ChosenWell(lib, c, inputs[..|inputs| - 1], previous, next, before)
    requires WellFormed(lib, r.config) && Unused(lib, r.config, r.next) && r.next >= before.next && Grown(before.config, r.config)
    requires Denotes(lib, r.config, inputs[|inputs| - 1], previous, r.option.id) && lib.optionId(r.option.id)
    requires r.config == (if r.next == before.next then before.config else before.config.(options := before.config.options + [r.option]))
    requires r.option.id !in IdsOf(before.options)
    ensures ChosenWell(lib, c, inputs, previous, next,
                       Chosen(r.config, r.next, before.options + [r.option],
                              before.created + if r.next == before.next then [] else [r.option]))
  {
    MoreDenotes(lib, before.config, r.config, inputs, previous, before.options, r.option);
    Regrouped(c.options, before.created, r.option);
  }

  lemma Regrouped(options: seq<SelectOption>, created: seq<SelectOption>, option: SelectOption)
    ensures options + created + [option] == options + (created + [option]) && created + [] == created
  {
  }

  lemma MoreDenotes(lib: Library, c: SelectConfig, d: SelectConfig, inputs: seq<ChoiceOption>, previous: Value,
                    options: seq<SelectOption>, option: SelectOption)
    requires inputs != [] && EachDenotes(lib, c, inputs[..|inputs| - 1], previous, options) && Grown(c, d)
    requires Denotes(lib, d, inputs[|inputs| - 1], previous, option.id) && lib.optionId(option.id)
    requires option.id !in IdsOf(options)
    ensures EachDenotes(lib, d, inputs, previous, options + [option])
  {
    var n := |inputs| - 1;
    forall i | 0 <= i < n
      ensures Denotes(lib, d, inputs[i], previous, options[i].id) && lib.optionId(options[i].id) && options[i].id != option.id
    {
      assert inputs[..n][i] == inputs[i];
      DenotesGrows(lib, c, d, inputs[i], previous, options[i].id);
      assert IdsOf(options)[i] == options[i].id;
    }
    forall i, j | 0 <= i < j < n ensures options[i].id != options[j].id {}
  }

  // ----- the cell value an assignment writes -----

  function ChoiceValue(t: FieldType, options: seq<SelectOption>): Value {
    if t == Select then (if options == [] then Null else Str(options[0].id))
    else List(seq(|options|, i requires 0 <= i < |options| => Str(options[i].id)))
  }

  /** `value` is the cell an assignment asks for, judged against configuration `d`. */
  ghost predicate Fulfils(lib: Library, d: SelectConfig, t: FieldType, choice: ChoiceAssignment, previous: Value, value: Value) {
    && (t == Select ==> |choice.options| == 1)
    && exists options :: EachDenotes(lib, d, choice.options, previous, options) && value == ChoiceValue(t, options)
  }

  lemma FulfilsGrows(lib: Library, c: SelectConfig, d: SelectConfig, t: FieldType, choice: ChoiceAssignment, previous: Value, value: Value)
    requires Grown(c, d) && Fulfils(lib, c, t, choice, previous, value)
    ensures Fulfils(lib, d, t, choice, previous, value)
  {
    var options: seq<SelectOption> :| EachDenotes(lib, c, choice.options, previous, options) && value == ChoiceValue(t, options);
    forall i | 0 <= i < |choice.options| ensures Denotes(lib, d, choice.options[i], previous, options[i].id) {
      DenotesGrows(lib, c, d, choice.options[i], previous, options[i].id);
    }
    assert EachDenotes(lib, d, choice.options, previous, options);
  }

  /** A cell of a choice field holds one identity or a list of them, according to its type. */
  predicate CellFits(t: FieldType, v: Value) {
    v == Null || (t == Select && v.Str?) || (t == MultiSelect && v.List?)
  }

  lemma SelectableDenoted(lib: Library, d: SelectConfig, input: ChoiceOption, previous: Value, id: string)
    requires Denotes(lib, d, input, previous, id)
    ensures Selectable(d, HoldsOption(previous, id), id)
  {
  }

  /** What a choice resolved to is accepted by the value check of its field. */
  lemma FulfilledIsAccepted(lib: Library, field: Field, choice: ChoiceAssignment, previous: Value, value: Value)
    requires IsChoice(field.fieldType) && field.config.Choices? && |choice.options| <= 100
    requires CellFits(field.fieldType, previous)
    requires Fulfils(lib, field.config.select, field.fieldType, choice, previous, value)
    ensures NormalizeValue(lib, value, previous, field) == Some(value)
  {
    var d := field.config.select;
    var options: seq<SelectOption> :| EachDenotes(lib, d, choice.options, previous, options) && value == ChoiceValue(field.fieldType, options);
    forall i | 0 <= i < |options| ensures Selectable(d, HoldsOption(previous, options[i].id), options[i].id) {
      SelectableDenoted(lib, d, choice.options[i], previous, options[i].id);
    }
  }

  // ----- a batch -----

  /** Per choice field: the configuration so far, the options its inputs resolved to, and those created. */
  datatype Delta = Delta(config: SelectConfig, resolved: seq<SelectOption>, created: seq<SelectOption>)

  datatype Batch = Batch(deltas: map<string, Delta>, next: nat)

  function AddResolved(resolved: seq<SelectOption>, more: seq<SelectOption>): seq<SelectOption> {
    if more == [] then resolved
    else
      var before := AddResolved(resolved, more[..|more| - 1]);
      var o := more[|more| - 1];
      if o.id in IdsOf(before) then before else before + [o]
  }

  function Assign(lib: Library, fields: Fields, b: Batch, choice: ChoiceAssignment, previous: Value)
    : Result<(Batch, Value), ChoiceError>
  {
    if choice.fieldId !in b.deltas || choice.fieldId !in fields then Err(BadConfig)
    else
      var t, delta := fields[choice.fieldId].fieldType, b.deltas[choice.fieldId];
      if t == Select && |choice.options| != 1 then Err(OneOptionRequired)
      else
        var chosen :- ResolveInputs(lib, delta.config, choice.options, previous, b.next);
        var delta' := Delta(chosen.config, AddResolved(delta.resolved, chosen.options), delta.created + chosen.created);
        Ok((Batch(b.deltas[choice.fieldId := delta'], chosen.next), ChoiceValue(t, chosen.options)))
  }

  /** The choices of one command, in order; the cells they write. */
  function AssignAll(lib: Library, fields: Fields, b: Batch, choices: seq<ChoiceAssignment>, current: Cells)
    : Result<(Batch, Cells), ChoiceError>
  {
    if choices == [] then Ok((b, map[]))
    else
      var before :- AssignAll(lib, fields, b, choices[..|choices| - 1], current);
      var choice := choices[|choices| - 1];
      var after :- Assign(lib, fields, before.0, choice, Held(current, choice.fieldId));
      Ok((after.0, before.1[choice.fieldId := after.1]))
  }

  /** A configuration is its stored one with the created options appended, and well formed. */
  ghost predicate DeltaWell(lib: Library, field: Field, delta: Delta, next: nat) {
    && IsChoice(field.fieldType) && field.config.Choices?
    && WellFormed(lib, delta.config) && Unused(lib, delta.config, next)
    && delta.config == field.config.select.(options := field.config.select.options + delta.created)
  }

  ghost predicate BatchWell(lib: Library, fields: Fields, b: Batch) {
    forall f | f in b.deltas :: f in fields && DeltaWell(lib, fields[f], b.deltas[f], b.next)
  }

  ghost predicate BatchGrown(b: Batch, c: Batch) {
    && b.deltas.Keys == c.deltas.Keys && b.next <= c.next
    && forall f | f in b.deltas :: Grown(b.deltas[f].config, c.deltas[f].config)
  }

  lemma ChosenDelta(lib: Library, field: Field, delta: Delta, choice: ChoiceAssignment, previous: Value, next: nat,
                    resolved: seq<SelectOption>, chosen: Chosen)
    requires DeltaWell(lib, field, delta, next) && (field.fieldType == Select ==> |choice.options| == 1)
    requires ChosenWell(lib, delta.config, choice.options, previous, next, chosen)
    ensures DeltaWell(lib, field, Delta(chosen.config, resolved, delta.created + chosen.created), chosen.next)
    ensures Grown(delta.config, chosen.config)
    ensures Fulfils(lib, chosen.config, field.fieldType, choice, previous, ChoiceValue(field.fieldType, chosen.options))
  {
    var base := field.config.select.options;
    assert base + delta.created + chosen.created == base + (delta.created + chosen.created);
    assert Grown(delta.config, chosen.config);
    assert EachDenotes(lib, chosen.config, choice.options, previous, chosen.options);
  }

  lemma AssignKeeps(lib: Library, fields: Fields, b: Batch, choice: ChoiceAssignment, previous: Value)
    requires Lawful(lib) && BatchWell(lib, fields, b) && Assign(lib, fields, b, choice, previous).Ok?
    ensures var r := Assign(lib, fields, b, choice, previous).value;
            && BatchWell(lib, fields, r.0) && BatchGrown(b, r.0) && choice.fieldId in b.deltas
            && Fulfils(lib, r.0.deltas[choice.fieldId].config, fields[choice.fieldId].fieldType, choice, previous, r.1)
  {
    var f := choice.fieldId;
    var chosen := ResolveInputs(lib, b.deltas[f].config, choice.options, previous, b.next).value;
    ResolveInputsKeeps(lib, b.deltas[f].config, choice.options, previous, b.next);
    AssignedKeeps(lib, fields, b, choice, previous, chosen);
  }

  /** The batch after an assignment whose inputs resolved to `chosen`. */
  function Adjusted(b: Batch, f: string, chosen: Chosen): Batch
    requires f in b.deltas
  {
    var delta := b.deltas[f];
    Batch(b.deltas[f := Delta(chosen.config, AddResolved(delta.resolved, chosen.options), delta.created + chosen.created)], chosen.next)
  }

  lemma AssignedKeeps(lib: Library, fields: Fields, b: Batch, choice: ChoiceAssignment, previous: Value, chosen: Chosen)
    requires BatchWell(lib, fields, b) && choice.fieldId in b.deltas
    requires fields[choice.fieldId].fieldType == Select ==> |choice.options| == 1
    requires ChosenWell(lib, b.deltas[choice.fieldId].config, choice.options, previous, b.next, chosen)
    ensures var c := Adjusted(b, choice.fieldId, chosen);
            && BatchWell(lib, fields, c) && BatchGrown(b, c)
            && Fulfils(lib, c.deltas[choice.fieldId].config, fields[choice.fieldId].fieldType, choice, previous,
                       ChoiceValue(fields[choice.fieldId].fieldType, chosen.options))
  {
    var f := choice.fieldId;
    ChosenDelta(lib, fields[f], b.deltas[f], choice, previous, b.next,
                AddResolved(b.deltas[f].resolved, chosen.options), chosen);
    OneDeltaChanged(lib, fields, b, f, Adjusted(b, f, chosen).deltas[f], chosen.next);
  }

  lemma OneDeltaChanged(lib: Library, fields: Fields, b: Batch, f: string, delta: Delta, next: nat)
    requires BatchWell(lib, fields, b) && f in b.deltas && f in fields && b.next <= next
    requires DeltaWell(lib, fields[f], delta, next) && Grown(b.deltas[f].config, delta.config)
    ensures BatchWell(lib, fields, Batch(b.deltas[f := delta], next)) && BatchGrown(b, Batch(b.deltas[f := delta], next))
  {
    var c := Batch(b.deltas[f := delta], next);
    forall g | g in c.deltas ensures g in fields && DeltaWell(lib, fields[g], c.deltas[g], c.next) {
      if g != f {
        assert DeltaWell(lib, fields[g], b.deltas[g], b.next);
        DeltaLater(lib, fields[g], b.deltas[g], b.next, next);
      }
    }
  }

  lemma DeltaLater(lib: Library, field: Field, delta: Delta, first: nat, last: nat)
    requires DeltaWell(lib, field, delta, first) && first <= last
    ensures DeltaWell(lib, field, delta, last)
  {
  }

  lemma BatchGrownTrans(a: Batch, b: Batch, c: Batch)
    requires BatchGrown(a, b) && BatchGrown(b, c)
    ensures BatchGrown(a, c)
  {
  }

  /** All cells written so far fulfil their assignments under the batch's configurations. */
  ghost predicate CellsFulfil(lib: Library, fields: Fields, b: Batch, choices: seq<ChoiceAssignment>, current: Cells, cells: Cells) {
    forall k | 0 <= k < |choices| ::
      && choices[k].fieldId in b.deltas && choices[k].fieldId in fields && choices[k].fieldId in cells
      && Fulfils(lib, b.deltas[choices[k].fieldId].config, fields[choices[k].fieldId].fieldType, choices[k],
                 Held(current, choices[k].fieldId), cells[choices[k].fieldId])
  }

  lemma CellsFulfilGrow(lib: Library, fields: Fields, b: Batch, c: Batch, choices: seq<ChoiceAssignment>, current: Cells, cells: Cells)
    requires BatchGrown(b, c) && CellsFulfil(lib, fields, b, choices, current, cells)
    ensures CellsFulfil(lib, fields, c, choices, current, cells)
  {
    forall k | 0 <= k < |choices|
      ensures Fulfils(lib, c.deltas[choices[k].fieldId].config, fields[choices[k].fieldId].fieldType, choices[k],
                      Held(current, choices[k].fieldId), cells[choices[k].fieldId])
    {
      var f := choices[k].fieldId;
      FulfilsGrows(lib, b.deltas[f].config, c.deltas[f].config, fields[f].fieldType, choices[k], Held(current, f), cells[f]);
    }
  }

  ghost predicate DistinctFields(choices: seq<ChoiceAssignment>) {
    forall i, j | 0 <= i < j < |choices| :: choices[i].fieldId != choices[j].fieldId
  }

  /** From batch `b`, a command's choices lead to batch `c` and write `cells`. */
  ghost predicate Assigned(lib: Library, fields: Fields, b: Batch, choices: seq<ChoiceAssignment>, current: Cells,
                           c: Batch, cells: Cells) {
    && BatchWell(lib, fields, c) && BatchGrown(b, c)
    && CellsFulfil(lib, fields, c, choices, current, cells)
    && cells.Keys == ChoiceFields(choices)
  }

  lemma {:induction false} AssignAllKeeps(lib: Library, fields: Fields, b: Batch, choices: seq<ChoiceAssignment>, current: Cells)
    requires Lawful(lib) && BatchWell(lib, fields, b) && DistinctFields(choices)
    requires AssignAll(lib, fields, b, choices, current).Ok?
    ensures var r := AssignAll(lib, fields, b, choices, current).value;
            Assigned(lib, fields, b, choices, current, r.0, r.1)
  {
    if choices != [] {
      var n := |choices| - 1;
      AssignAllKeeps(lib, fields, b, choices[..n], current);
      var mid := AssignAll(lib, fields, b, choices[..n], current).value;
      var last := choices[n];
      AssignKeeps(lib, fields, mid.0, last, Held(current, last.fieldId));
      var r := Assign(lib, fields, mid.0, last, Held(current, last.fieldId)).value;
      AssignedMore(lib, fields, b, choices, current, mid.0, mid.1, r.0, r.1);
    }
  }

  lemma AssignedMore(lib: Library, fields: Fields, b: Batch, choices: seq<ChoiceAssignment>, current: Cells,
                     mid: Batch, cells: Cells, c: Batch, value: Value)
    requires choices != [] && DistinctFields(choices)
    requires Assigned(lib, fields, b, choices[..|choices| - 1], current, mid, cells)
    requires BatchWell(lib, fields, c) && BatchGrown(mid, c)
    requires var last := choices[|choices| - 1];
             && last.fieldId in c.deltas && last.fieldId in fields
             && Fulfils(lib, c.deltas[last.fieldId].config, fields[last.fieldId].fieldType, last, Held(current, last.fieldId), value)
    ensures Assigned(lib, fields, b, choices, current, c, cells[choices[|choices| - 1].fieldId := value])
  {
    BatchGrownTrans(b, mid, c);
    CellsFulfilMore(lib, fields, choices, current, mid, cells, c, value);
    FieldsMore(choices);
  }

  lemma FieldsMore(choices: seq<ChoiceAssignment>)
    requires choices != []
    ensures ChoiceFields(choices) == ChoiceFields(choices[..|choices| - 1]) + {choices[|choices| - 1].fieldId}
  {
    assert choices == choices[..|choices| - 1] + [choices[|choices| - 1]];
  }

  lemma CellsFulfilMore(lib: Library, fields: Fields, choices: seq<ChoiceAssignment>, current: Cells,
                        mid: Batch, cells: Cells, c: Batch, value: Value)
    requires choices != [] && DistinctFields(choices) && BatchGrown(mid, c)
    requires CellsFulfil(lib, fields, mid, choices[..|choices| - 1], current, cells)
    requires var last := choices[|choices| - 1];
             && last.fieldId in c.deltas && last.fieldId in fields
             && Fulfils(lib, c.deltas[last.fieldId].config, fields[last.fieldId].fieldType, last, Held(current, last.fieldId), value)
    ensures CellsFulfil(lib, fields, c, choices, current, cells[choices[|choices| - 1].fieldId := value])
  {
    CellsFulfilGrow(lib, fields, mid, c, choices[..|choices| - 1], current, cells);
    OneMoreCell(lib, fields, c, choices, current, cells, value);
  }

  lemma OneMoreCell(lib: Library, fields: Fields, c: Batch, choices: seq<ChoiceAssignment>, current: Cells, cells: Cells, value: Value)
    requires choices != [] && DistinctFields(choices)
    requires CellsFulfil(lib, fields, c, choices[..|choices| - 1], current, cells)
    requires var last := choices[|choices| - 1];
             && last.fieldId in c.deltas && last.fieldId in fields
             && Fulfils(lib, c.deltas[last.fieldId].config, fields[last.fieldId].fieldType, last, Held(current, last.fieldId), value)
    ensures CellsFulfil(lib, fields, c, choices, current, cells[choices[|choices| - 1].fieldId := value])
  {
    var n := |choices| - 1;
    forall k | 0 <= k < n ensures choices[k] == choices[..n][k] && choices[k].fieldId != choices[n].fieldId {}
  }

  // ----- preparing a whole batch -----

  datatype PrepareError =
    | FieldNotFound(fieldId: string)
    | FieldConflict(fieldId: string, expected: int, current: nat)
    | FieldIsDeleted(fieldId: string)
    | NotAChoiceField(fieldId: string)
    | RecordNotFound(recordId: string)
    | RecordConflict(index: nat, expected: int, current: nat)
    | RecordIsDeleted(recordId: string)
    | Unresolved(error: ChoiceError)

  datatype Prepared = Prepared(commands: seq<Command>, fields: Fields, batch: Batch)

  function CurrentCells(rows: map<string, Row>, c: Command): Cells {
    if c.recordId in rows then rows[c.recordId].values else map[]
  }

  /** The command with its resolved choices written into the values it submits. */
  function WithCells(c: Command, cells: Cells): Command {
    if c.kind == CreateRecord then c.(values := Some((if c.values.Some? then c.values.value else map[]) + cells))
    else c.(set_ := c.set_ + cells)
  }

  function ResolveBatch(lib: Library, fields: Fields, rows: map<string, Row>, b: Batch, commands: seq<Command>)
    : (r: Result<(Batch, seq<Command>), ChoiceError>)
    ensures r.Ok? ==> |r.value.1| == |commands|
  {
    if commands == [] then Ok((b, []))
    else
      var before :- ResolveBatch(lib, fields, rows, b, commands[..|commands| - 1]);
      ResolveNext(lib, fields, rows, before, commands[|commands| - 1])
  }

  /** The revision the first choice of a field expects. */
  function ExpectedRevision(choices: seq<ChoiceAssignment>, f: string): int {
    if choices == [] then 0 else if choices[0].fieldId == f then choices[0].expectedRevision
    else ExpectedRevision(choices[1..], f)
  }

  function FieldProblem(fields: Fields, table: string, f: string, expected: int): Option<PrepareError> {
    if f !in fields || fields[f].tableId != table then Some(FieldNotFound(f))
    else if fields[f].revision != expected then Some(FieldConflict(f, expected, fields[f].revision))
    else if fields[f].deleted then Some(FieldIsDeleted(f))
    else if !fields[f].config.Choices? then Some(NotAChoiceField(f))
    else None
  }

  /** The field checks, in identifier order. */
  function FirstFieldProblem(fields: Fields, table: string, choices: seq<ChoiceAssignment>, ids: seq<string>): Option<PrepareError> {
    if ids == [] then None
    else
      var p := FieldProblem(fields, table, ids[0], ExpectedRevision(choices, ids[0]));
      if p.Some? then p else FirstFieldProblem(fields, table, choices, ids[1..])
  }

  lemma {:induction false} NoFieldProblem(fields: Fields, table: string, choices: seq<ChoiceAssignment>, ids: seq<string>)
    ensures FirstFieldProblem(fields, table, choices, ids).None? <==>
            forall f | f in ids :: FieldProblem(fields, table, f, ExpectedRevision(choices, f)).None?
  {
    if ids != [] {
      NoFieldProblem(fields, table, choices, ids[1..]);
      assert ids == [ids[0]] + ids[1..];
      assert ids[0] in ids;
    }
  }

  function TargetIds(commands: seq<Command>): set<string> {
    set c | c in commands && c.recordId != "" :: c.recordId
  }

  function FirstMissing(rows: map<string, Row>, table: string, ids: seq<string>): (r: Option<PrepareError>)
    ensures r.None? <==> forall id | id in ids :: id in rows && rows[id].tableId == table
  {
    if ids == [] then None
    else if ids[0] !in rows || rows[ids[0]].tableId != table then Some(RecordNotFound(ids[0]))
    else FirstMissing(rows, table, ids[1..])
  }

  function FirstStale(rows: map<string, Row>, commands: seq<Command>, from_: nat): Option<PrepareError>
    requires from_ <= |commands|
    decreases |commands| - from_
  {
    if from_ == |commands| then None
    else
      var c := commands[from_];
      if c.recordId == "" || c.recordId !in rows then FirstStale(rows, commands, from_ + 1)
      else if rows[c.recordId].revision != c.expectedRevision then
        Some(RecordConflict(from_, c.expectedRevision, rows[c.recordId].revision))
      else if c.kind == UpdateRecord && rows[c.recordId].deleted then Some(RecordIsDeleted(c.recordId))
      else FirstStale(rows, commands, from_ + 1)
  }

  function StartBatch(fields: Fields, ids: set<string>, next: nat): Batch {
    Batch(map f | f in ids && f in fields :: Delta(ConfigOf(fields[f]), [], []), next)
  }

  /** Fields whose batch created options get the new configuration and one revision more; nothing else changes. */
  function UpdatedFields(fields: Fields, b: Batch): Fields {
    map f | f in fields ::
      if f in b.deltas && b.deltas[f].created != [] then
        fields[f].(config := Choices(b.deltas[f].config), revision := fields[f].revision + 1)
      else fields[f]
  }

  function PrepareChoices(lib: Library, fields: Fields, rows: map<string, Row>, table: string, commands: seq<Command>, next: nat)
    : Result<Prepared, PrepareError>
  {
    var choices := AllChoices(commands);
    var ids := SortedSet(ChoiceFields(choices));
    match FirstFieldProblem(fields, table, choices, ids)
    case Some(p) => Err(p)
    case None =>
      match FirstMissing(rows, table, SortedSet(TargetIds(commands)))
      case Some(p) => Err(p)
      case None =>
        match FirstStale(rows, commands, 0)
        case Some(p) => Err(p)
        case None =>
          match ResolveBatch(lib, fields, rows, StartBatch(fields, ChoiceFields(choices), next), commands)
          case Err(e) => Err(Unresolved(e))
          case Ok(r) => Ok(Prepared(r.1, UpdatedFields(fields, r.0), r.0))
  }

  // ----- the loops -----

  lemma {:induction false} AssignAllFails(lib: Library, fields: Fields, b: Batch, choices: seq<ChoiceAssignment>, current: Cells, n: nat)
    requires n <= |choices| && AssignAll(lib, fields, b, choices[..n], current).Err?
    ensures AssignAll(lib, fields, b, choices, current) == AssignAll(lib, fields, b, choices[..n], current)
  {
    if n == |choices| {
      assert choices[..n] == choices;
    } else {
      assert choices[..|choices| - 1][..n] == choices[..n];
      AssignAllFails(lib, fields, b, choices[..|choices| - 1], current, n);
    }
  }

  lemma {:induction false} ResolveBatchFails(lib: Library, fields: Fields, rows: map<string, Row>, b: Batch, commands: seq<Command>, n: nat)
    requires n <= |commands| && ResolveBatch(lib, fields, rows, b, commands[..n]).Err?
    ensures ResolveBatch(lib, fields, rows, b, commands) == ResolveBatch(lib, fields, rows, b, commands[..n])
  {
    if n == |commands| {
      assert commands[..n] == commands;
    } else {
      assert commands[..|commands| - 1][..n] == commands[..n];
      ResolveBatchFails(lib, fields, rows, b, commands[..|commands| - 1], n);
    }
  }

  method AssignChoices(lib: Library, fields: Fields, b: Batch, choices: seq<ChoiceAssignment>, current: Cells)
    returns (result: Result<(Batch, Cells), ChoiceError>)
    ensures result == AssignAll(lib, fields, b, choices, current)
  {
    var batch, cells: Cells := b, map[];
    var j := 0;
    while j < |choices|
      invariant 0 <= j <= |choices|
      invariant AssignAll(lib, fields, b, choices[..j], current) == Ok((batch, cells))
    {
      assert choices[..j + 1][..j] == choices[..j];
      var outcome := Assign(lib, fields, batch, choices[j], Held(current, choices[j].fieldId));
      if outcome.Err? {
        AssignAllFails(lib, fields, b, choices, current, j + 1);
        return Err(outcome.error);
      }
      batch, cells := outcome.value.0, cells[choices[j].fieldId := outcome.value.1];
      j := j + 1;
    }
    assert choices[..j] == choices;
    return Ok((batch, cells));
  }

  method PrepareChoiceMutation(lib: Library, fields: Fields, rows: map<string, Row>, table: string, commands: seq<Command>, next: nat)
    returns (result: Result<Prepared, PrepareError>)
    ensures result == PrepareChoices(lib, fields, rows, table, commands, next)
  {
    var choices := AllChoices(commands);
    var problem := FirstFieldProblem(fields, table, choices, SortedSet(ChoiceFields(choices)));
    if problem.Some? { return Err(problem.value); }
    problem := FirstMissing(rows, table, SortedSet(TargetIds(commands)));
    if problem.Some? { return Err(problem.value); }
    problem := FirstStale(rows, commands, 0);
    if problem.Some? { return Err(problem.value); }
    var resolved := ResolveCommands(lib, fields, rows, StartBatch(fields, ChoiceFields(choices), next), commands);
    if resolved.Err? { return Err(Unresolved(resolved.error)); }
    return Ok(Prepared(resolved.value.1, UpdatedFields(fields, resolved.value.0), resolved.value.0));
  }

  /** The next command, given what the ones before it led to. */
  function ResolveNext(lib: Library, fields: Fields, rows: map<string, Row>, before: (Batch, seq<Command>), last: Command)
    : (r: Result<(Batch, seq<Command>), ChoiceError>)
    ensures r.Ok? ==> |r.value.1| == |before.1| + 1
  {
    var r :- AssignAll(lib, fields, before.0, last.choices, CurrentCells(rows, last));
    Ok((r.0, before.1 + [WithCells(last, r.1)]))
  }

  lemma ResolveStep(lib: Library, fields: Fields, rows: map<string, Row>, b: Batch, commands: seq<Command>, i: nat,
                    before: (Batch, seq<Command>))
    requires i < |commands| && ResolveBatch(lib, fields, rows, b, commands[..i]) == Ok(before)
    ensures ResolveBatch(lib, fields, rows, b, commands[..i + 1]) == ResolveNext(lib, fields, rows, before, commands[i])
  {
    assert commands[..i + 1][..i] == commands[..i];
  }

  method ResolveCommand(lib: Library, fields: Fields, rows: map<string, Row>, before: (Batch, seq<Command>), last: Command)
    returns (result: Result<(Batch, seq<Command>), ChoiceError>)
    ensures result == ResolveNext(lib, fields, rows, before, last)
  {
    var outcome := AssignChoices(lib, fields, before.0, last.choices, CurrentCells(rows, last));
    if outcome.Err? { return Err(outcome.error); }
    return Ok((outcome.value.0, before.1 + [WithCells(last, outcome.value.1)]));
  }

  method ResolveCommands(lib: Library, fields: Fields, rows: map<string, Row>, b: Batch, commands: seq<Command>)
    returns (result: Result<(Batch, seq<Command>), ChoiceError>)
    ensures result == ResolveBatch(lib, fields, rows, b, commands)
  {
    var done: (Batch, seq<Command>) := (b, []);
    var index := 0;
    while index < |commands|
      invariant 0 <= index <= |commands|
      invariant ResolveBatch(lib, fields, rows, b, commands[..index]) == Ok(done)
    {
      ResolveStep(lib, fields, rows, b, commands, index, done);
      var outcome := ResolveCommand(lib, fields, rows, done, commands[index]);
      if outcome.Err? {
        ResolveBatchFails(lib, fields, rows, b, commands, index + 1);
        return outcome;
      }
      done := outcome.value;
      index := index + 1;
    }
    assert commands[..index] == commands;
    return Ok(done);
  }

  // ----- what a prepared batch guarantees -----

  /** The rewritten command carries, for each of its choices, a cell that fulfils it under the final batch. */
  ghost predicate CommandDone(lib: Library, fields: Fields, rows: map<string, Row>, b: Batch, command: Command, rewritten: Command) {
    && rewritten == WithCells(command, ChosenCells(rewritten, command.choices))
    && CellsFulfil(lib, fields, b, command.choices, CurrentCells(rows, command), ChosenCells(rewritten, command.choices))
  }

  /** The value a command submits for a field. */
  function Submitted(c: Command, f: string): Value {
    if c.kind == CreateRecord then (if c.values.Some? then Held(c.values.value, f) else Null) else Held(c.set_, f)
  }

  /** What a command submits for the fields its choices name. */
  function ChosenCells(c: Command, choices: seq<ChoiceAssignment>): Cells {
    map f | f in ChoiceFields(choices) :: Submitted(c, f)
  }

  lemma ChosenCellsWritten(command: Command, cells: Cells)
    requires cells.Keys == ChoiceFields(command.choices)
    ensures ChosenCells(WithCells(command, cells), command.choices) == cells
  {
  }

  ghost predicate BatchDone(lib: Library, fields: Fields, rows: map<string, Row>, b: Batch, commands: seq<Command>, rewritten: seq<Command>) {
    && |rewritten| == |commands|
    && forall k | 0 <= k < |commands| :: CommandDone(lib, fields, rows, b, commands[k], rewritten[k])
  }

  lemma DoneGrows(lib: Library, fields: Fields, rows: map<string, Row>, b: Batch, c: Batch, command: Command, rewritten: Command)
    requires BatchGrown(b, c) && CommandDone(lib, fields, rows, b, command, rewritten)
    ensures CommandDone(lib, fields, rows, c, command, rewritten)
  {
    CellsFulfilGrow(lib, fields, b, c, command.choices, CurrentCells(rows, command), ChosenCells(rewritten, command.choices));
  }

  lemma ResolveNextKeeps(lib: Library, fields: Fields, rows: map<string, Row>, before: (Batch, seq<Command>), last: Command)
    requires Lawful(lib) && BatchWell(lib, fields, before.0) && DistinctFields(last.choices)
    requires ResolveNext(lib, fields, rows, before, last).Ok?
    ensures var r := ResolveNext(lib, fields, rows, before, last).value;
            && BatchWell(lib, fields, r.0) && BatchGrown(before.0, r.0)
            && r.1[..|before.1|] == before.1 && CommandDone(lib, fields, rows, r.0, last, r.1[|before.1|])
  {
    AssignAllKeeps(lib, fields, before.0, last.choices, CurrentCells(rows, last));
    var a := AssignAll(lib, fields, before.0, last.choices, CurrentCells(rows, last)).value;
    ChosenCellsWritten(last, a.1);
  }

  lemma {:induction false} ResolveBatchKeeps(lib: Library, fields: Fields, rows: map<string, Row>, b: Batch, commands: seq<Command>)
    requires Lawful(lib) && BatchWell(lib, fields, b)
    requires forall c | c in commands :: DistinctFields(c.choices)
    requires ResolveBatch(lib, fields, rows, b, commands).Ok?
    ensures var r := ResolveBatch(lib, fields, rows, b, commands).value;
            BatchWell(lib, fields, r.0) && BatchGrown(b, r.0) && BatchDone(lib, fields, rows, r.0, commands, r.1)
  {
    if commands != [] {
      var n := |commands| - 1;
      ResolveBatchKeeps(lib, fields, rows, b, commands[..n]);
      var before := ResolveBatch(lib, fields, rows, b, commands[..n]).value;
      assert commands[n] in commands;
      ResolveNextKeeps(lib, fields, rows, before, commands[n]);
      var r := ResolveNext(lib, fields, rows, before, commands[n]).value;
      BatchGrownTrans(b, before.0, r.0);
      BatchDoneMore(lib, fields, rows, before.0, r.0, commands, before.1, r.1);
    }
  }

  lemma BatchDoneMore(lib: Library, fields: Fields, rows: map<string, Row>, b: Batch, c: Batch, commands: seq<Command>,
                      front: seq<Command>, rewritten: seq<Command>)
    requires commands != [] && |rewritten| == |commands| && front == rewritten[..|commands| - 1] && BatchGrown(b, c)
    requires BatchDone(lib, fields, rows, b, commands[..|commands| - 1], front)
    requires CommandDone(lib, fields, rows, c, commands[|commands| - 1], rewritten[|commands| - 1])
    ensures BatchDone(lib, fields, rows, c, commands, rewritten)
  {
    forall k | 0 <= k < |commands| ensures CommandDone(lib, fields, rows, c, commands[k], rewritten[k]) {
      OneDone(lib, fields, rows, b, c, commands, front, rewritten, k);
    }
  }

  lemma OneDone(lib: Library, fields: Fields, rows: map<string, Row>, b: Batch, c: Batch, commands: seq<Command>,
                front: seq<Command>, rewritten: seq<Command>, k: nat)
    requires k < |commands| && |rewritten| == |commands| && front == rewritten[..|commands| - 1] && BatchGrown(b, c)
    requires BatchDone(lib, fields, rows, b, commands[..|commands| - 1], front)
    requires CommandDone(lib, fields, rows, c, commands[|commands| - 1], rewritten[|commands| - 1])
    ensures CommandDone(lib, fields, rows, c, commands[k], rewritten[k])
  {
    if k < |commands| - 1 {
      EarlierDone(lib, fields, rows, b, commands, front, k);
      DoneGrows(lib, fields, rows, b, c, commands[k], front[k]);
    }
  }

  lemma EarlierDone(lib: Library, fields: Fields, rows: map<string, Row>, b: Batch, commands: seq<Command>, front: seq<Command>, k: nat)
    requires commands != [] && k < |commands| - 1
    requires BatchDone(lib, fields, rows, b, commands[..|commands| - 1], front)
    ensures |front| == |commands| - 1 && CommandDone(lib, fields, rows, b, commands[k], front[k])
  {
    var early := commands[..|commands| - 1];
    assert early[k] == commands[k];
    assert CommandDone(lib, fields, rows, b, early[k], front[k]);
  }

  /** Exactly the choice fields have option lists, all of them well formed. */
  ghost predicate FieldsWell(lib: Library, fields: Fields, next: nat) {
    forall f | f in fields ::
      && (IsChoice(fields[f].fieldType) <==> fields[f].config.Choices?)
      && (fields[f].config.Choices? ==>
            WellFormed(lib, fields[f].config.select) && Unused(lib, fields[f].config.select, next))
  }

  /** `after` is `before` with `created` appended to its options, and one revision more exactly when that is something. */
  ghost predicate OptionsAppended(before: Field, after: Field, created: seq<SelectOption>) {
    && before.config.Choices? && after.config.Choices?
    && after == before.(config := after.config, revision := after.revision)
    && after.config.select == before.config.select.(options := before.config.select.options + created)
    && after.revision == before.revision + (if created == [] then 0 else 1)
  }

  /** The effect of a prepared batch on the fields: options are only ever appended, to the fields that choices name. */
  ghost predicate FieldsExtended(fields: Fields, p: Prepared, chosen: set<string>) {
    && p.fields.Keys == fields.Keys && p.batch.deltas.Keys == chosen && chosen <= fields.Keys
    && forall f | f in fields ::
         if f in chosen then OptionsAppended(fields[f], p.fields[f], p.batch.deltas[f].created)
         else p.fields[f] == fields[f]
  }

  lemma NoneWrong(fields: Fields, table: string, choices: seq<ChoiceAssignment>)
    requires FirstFieldProblem(fields, table, choices, SortedSet(ChoiceFields(choices))).None?
    ensures forall f | f in ChoiceFields(choices) :: f in fields && fields[f].config.Choices?
  {
    var ids := SortedSet(ChoiceFields(choices));
    NoFieldProblem(fields, table, choices, ids);
    SortedSetMembers(ChoiceFields(choices));
    forall f | f in ChoiceFields(choices)
      ensures f in fields && fields[f].config.Choices?
    {
      assert f in ids;
    }
  }

  lemma StartWell(lib: Library, fields: Fields, table: string, choices: seq<ChoiceAssignment>, next: nat)
    requires FieldsWell(lib, fields, next)
    requires FirstFieldProblem(fields, table, choices, SortedSet(ChoiceFields(choices))).None?
    ensures ChoiceFields(choices) <= fields.Keys
    ensures var b := StartBatch(fields, ChoiceFields(choices), next);
            BatchWell(lib, fields, b) && b.deltas.Keys == ChoiceFields(choices)
  {
    NoneWrong(fields, table, choices);
    var b := StartBatch(fields, ChoiceFields(choices), next);
    forall f | f in b.deltas ensures DeltaWell(lib, fields[f], b.deltas[f], b.next) {
      var options := fields[f].config.select.options;
      assert options + [] == options;
    }
  }

  lemma BatchExtends(lib: Library, fields: Fields, b: Batch, next: nat, commands: seq<Command>)
    requires FieldsWell(lib, fields, next) && BatchWell(lib, fields, b) && next <= b.next
    ensures FieldsExtended(fields, Prepared(commands, UpdatedFields(fields, b), b), b.deltas.Keys)
    ensures FieldsWell(lib, UpdatedFields(fields, b), b.next)
  {
    forall f | f in b.deltas ensures OptionsAppended(fields[f], UpdatedFields(fields, b)[f], b.deltas[f].created) {
      assert DeltaWell(lib, fields[f], b.deltas[f], b.next);
      DeltaAppends(lib, fields[f], b.deltas[f], b.next);
    }
    UpdatedWell(lib, fields, b, next);
  }

  lemma DeltaAppends(lib: Library, field: Field, delta: Delta, next: nat)
    requires DeltaWell(lib, field, delta, next)
    ensures var after := if delta.created != [] then field.(config := Choices(delta.config), revision := field.revision + 1) else field;
            OptionsAppended(field, after, delta.created)
  {
    assert field.config.select.options + [] == field.config.select.options;
  }

  lemma UpdatedWell(lib: Library, fields: Fields, b: Batch, next: nat)
    requires FieldsWell(lib, fields, next) && BatchWell(lib, fields, b) && next <= b.next
    ensures FieldsWell(lib, UpdatedFields(fields, b), b.next)
  {
    forall f | f in b.deltas ensures DeltaWell(lib, fields[f], b.deltas[f], b.next) {}
  }

  lemma PrepareResult(lib: Library, fields: Fields, rows: map<string, Row>, table: string, commands: seq<Command>, next: nat)
    returns (start: Batch)
    requires PrepareChoices(lib, fields, rows, table, commands, next).Ok?
    requires FieldsWell(lib, fields, next)
    ensures var p := PrepareChoices(lib, fields, rows, table, commands, next).value;
            && start == StartBatch(fields, ChoiceFields(AllChoices(commands)), next)
            && start.deltas.Keys == ChoiceFields(AllChoices(commands)) <= fields.Keys
            && BatchWell(lib, fields, start)
            && ResolveBatch(lib, fields, rows, start, commands) == Ok((p.batch, p.commands))
            && p.fields == UpdatedFields(fields, p.batch)
  {
    var choices := AllChoices(commands);
    start := StartBatch(fields, ChoiceFields(choices), next);
    StartWell(lib, fields, table, choices, next);
  }

  /** Main result of choice resolution. Over any accepted batch: option lists stay well formed and only grow at the
      end, a field's revision rises by one exactly when the batch created options in it, other fields are untouched,
      and every command ends up with cells that its choices ask for. */
  lemma PreparedWell(lib: Library, fields: Fields, rows: map<string, Row>, table: string, commands: seq<Command>, next: nat)
    requires Lawful(lib) && FieldsWell(lib, fields, next) && ValidBatch(lib, commands)
    requires PrepareChoices(lib, fields, rows, table, commands, next).Ok?
    ensures var p := PrepareChoices(lib, fields, rows, table, commands, next).value;
            && FieldsWell(lib, p.fields, p.batch.next) && next <= p.batch.next
            && FieldsExtended(fields, p, ChoiceFields(AllChoices(commands)))
            && BatchWell(lib, fields, p.batch)
            && BatchDone(lib, fields, rows, p.batch, commands, p.commands)
  {
    var start := PrepareResult(lib, fields, rows, table, commands, next);
    var p := PrepareChoices(lib, fields, rows, table, commands, next).value;
    ValidFields(lib, commands);
    ResolveBatchKeeps(lib, fields, rows, start, commands);
    BatchExtends(lib, fields, p.batch, next, p.commands);
  }

  /** No choice that resolved is refused afterwards by the value check, whatever else the batch did. */
  lemma ResolvedIsAccepted(lib: Library, fields: Fields, rows: map<string, Row>, table: string, commands: seq<Command>, next: nat,
                           p: Prepared, k: nat, j: nat)
    requires Lawful(lib) && FieldsWell(lib, fields, next) && ValidBatch(lib, commands)
    requires PrepareChoices(lib, fields, rows, table, commands, next) == Ok(p)
    requires k < |commands| && j < |commands[k].choices|
    requires HeldFits(fields, CurrentCells(rows, commands[k]), commands[k].choices[j].fieldId)
    ensures k < |p.commands|
    ensures AcceptedCell(lib, p.fields, commands[k].choices[j].fieldId, CurrentCells(rows, commands[k]), p.commands[k])
  {
    PreparedWell(lib, fields, rows, table, commands, next);
    ValidOptionCount(lib, commands, k, j);
    assert CommandDone(lib, fields, rows, p.batch, commands[k], p.commands[k]);
    DoneIsAccepted(lib, fields, rows, p, ChoiceFields(AllChoices(commands)), commands[k], p.commands[k], j);
  }

  /** What the record holds in a choice field has the shape of that field. */
  predicate HeldFits(fields: Fields, current: Cells, f: string) {
    f in fields ==> CellFits(fields[f].fieldType, Held(current, f))
  }

  lemma ValidOptionCount(lib: Library, commands: seq<Command>, k: nat, j: nat)
    requires ValidBatch(lib, commands) && k < |commands| && j < |commands[k].choices|
    ensures |commands[k].choices[j].options| <= 100
  {
    assert ValidChoices(lib, commands[k]) && commands[k].choices[j] in commands[k].choices;
    assert ValidChoice(lib, commands[k], commands[k].choices[j]);
  }

  lemma ValidFields(lib: Library, commands: seq<Command>)
    requires ValidBatch(lib, commands)
    ensures forall c | c in commands :: DistinctFields(c.choices)
  {
    forall c | c in commands ensures DistinctFields(c.choices) {
      var i :| 0 <= i < |commands| && commands[i] == c;
      assert ValidChoices(lib, commands[i]);
    }
  }

  /** The submitted cell survives the value check of its field unchanged. */
  ghost predicate AcceptedCell(lib: Library, fields: Fields, f: string, current: Cells, c: Command) {
    f in fields && NormalizeValue(lib, Submitted(c, f), Held(current, f), fields[f]) == Some(Submitted(c, f))
  }

  lemma DoneIsAccepted(lib: Library, fields: Fields, rows: map<string, Row>, p: Prepared, chosen: set<string>,
                       command: Command, rewritten: Command, j: nat)
    requires FieldsExtended(fields, p, chosen) && BatchWell(lib, fields, p.batch)
    requires CommandDone(lib, fields, rows, p.batch, command, rewritten)
    requires j < |command.choices| && |command.choices[j].options| <= 100
    requires HeldFits(fields, CurrentCells(rows, command), command.choices[j].fieldId)
    ensures AcceptedCell(lib, p.fields, command.choices[j].fieldId, CurrentCells(rows, command), rewritten)
  {
    var choice := command.choices[j];
    var f := choice.fieldId;
    CellOf(lib, fields, rows, p.batch, command, rewritten, j);
    BatchConfigs(lib, fields, p, chosen, f);
    FulfilledIsAccepted(lib, p.fields[f], choice, Held(CurrentCells(rows, command), f), Submitted(rewritten, f));
  }

  /** The final field carries the batch's configuration. */
  lemma BatchConfigs(lib: Library, fields: Fields, p: Prepared, chosen: set<string>, f: string)
    requires FieldsExtended(fields, p, chosen) && BatchWell(lib, fields, p.batch) && f in p.batch.deltas
    ensures f in p.fields && p.fields[f].config == Choices(p.batch.deltas[f].config)
    ensures p.fields[f].fieldType == fields[f].fieldType && IsChoice(p.fields[f].fieldType)
  {
    assert DeltaWell(lib, fields[f], p.batch.deltas[f], p.batch.next);
    assert OptionsAppended(fields[f], p.fields[f], p.batch.deltas[f].created);
  }

  lemma CellOf(lib: Library, fields: Fields, rows: map<string, Row>, b: Batch, command: Command, rewritten: Command, j: nat)
    requires CommandDone(lib, fields, rows, b, command, rewritten) && j < |command.choices|
    ensures var choice := command.choices[j];
            && choice.fieldId in b.deltas && choice.fieldId in fields
            && Fulfils(lib, b.deltas[choice.fieldId].config, fields[choice.fieldId].fieldType, choice,
                       Held(CurrentCells(rows, command), choice.fieldId), Submitted(rewritten, choice.fieldId))
  {
    assert command.choices[j].fieldId in ChosenCells(rewritten, command.choices);
  }

  /** The identity a cell holds at position `i`. */
  function IdAt(v: Value, i: nat): string {
    if v.Str? then v.text else if v.List? && i < |v.items| && v.items[i].Str? then v.items[i].text else ""
  }

  function FoldedName(lib: Library, o: ChoiceOption): string {
    match lib.optionName(o.name) case None => "" case Some(name) => lib.fold(name)
  }

  lemma FulfilledId(lib: Library, d: SelectConfig, t: FieldType, choice: ChoiceAssignment, previous: Value, v: Value, i: nat)
    requires IsChoice(t) && Fulfils(lib, d, t, choice, previous, v) && i < |choice.options|
    ensures Denotes(lib, d, choice.options[i], previous, IdAt(v, i))
  {
    var options: seq<SelectOption> :| EachDenotes(lib, d, choice.options, previous, options) && v == ChoiceValue(t, options);
    assert IdAt(v, i) == options[i].id;
  }

  /** Position `i` of choice `j` of command `k`. */
  datatype Spot = Spot(k: nat, j: nat, i: nat)

  predicate NamedSpot(commands: seq<Command>, s: Spot) {
    && s.k < |commands| && s.j < |commands[s.k].choices|
    && s.i < |commands[s.k].choices[s.j].options| && commands[s.k].choices[s.j].options[s.i].optionId == ""
  }

  function ChoiceAt(commands: seq<Command>, s: Spot): ChoiceAssignment
    requires NamedSpot(commands, s)
  {
    commands[s.k].choices[s.j]
  }

  /** The identity a prepared batch puts at a spot. */
  function ResolvedId(commands: seq<Command>, p: Prepared, s: Spot): string
    requires NamedSpot(commands, s) && |p.commands| == |commands|
  {
    IdAt(Submitted(p.commands[s.k], ChoiceAt(commands, s).fieldId), s.i)
  }

  lemma SpotDenotes(lib: Library, fields: Fields, rows: map<string, Row>, commands: seq<Command>, p: Prepared, s: Spot)
    requires NamedSpot(commands, s) && BatchDone(lib, fields, rows, p.batch, commands, p.commands) && BatchWell(lib, fields, p.batch)
    ensures var choice := ChoiceAt(commands, s);
            && choice.fieldId in p.batch.deltas
            && Denotes(lib, p.batch.deltas[choice.fieldId].config, choice.options[s.i],
                       Held(CurrentCells(rows, commands[s.k]), choice.fieldId), ResolvedId(commands, p, s))
  {
    var choice := ChoiceAt(commands, s);
    assert CommandDone(lib, fields, rows, p.batch, commands[s.k], p.commands[s.k]);
    CellOf(lib, fields, rows, p.batch, commands[s.k], p.commands[s.k], s.j);
    assert DeltaWell(lib, fields[choice.fieldId], p.batch.deltas[choice.fieldId], p.batch.next);
    FulfilledId(lib, p.batch.deltas[choice.fieldId].config, fields[choice.fieldId].fieldType, choice,
                Held(CurrentCells(rows, commands[s.k]), choice.fieldId), Submitted(p.commands[s.k], choice.fieldId), s.i);
  }

  /** Across a whole batch, two names for the same field resolve to one identity exactly when they fold alike. */
  lemma SameNameSameOption(lib: Library, fields: Fields, rows: map<string, Row>, table: string, commands: seq<Command>, next: nat,
                           p: Prepared, s: Spot, u: Spot)
    requires Lawful(lib) && FieldsWell(lib, fields, next) && ValidBatch(lib, commands)
    requires PrepareChoices(lib, fields, rows, table, commands, next) == Ok(p) && |p.commands| == |commands|
    requires NamedSpot(commands, s) && NamedSpot(commands, u)
    requires ChoiceAt(commands, s).fieldId == ChoiceAt(commands, u).fieldId
    ensures FoldedName(lib, ChoiceAt(commands, s).options[s.i]) == FoldedName(lib, ChoiceAt(commands, u).options[u.i]) <==>
            ResolvedId(commands, p, s) == ResolvedId(commands, p, u)
  {
    PreparedWell(lib, fields, rows, table, commands, next);
    SpotsAgree(lib, fields, rows, commands, p, s, u);
  }

  lemma SpotsAgree(lib: Library, fields: Fields, rows: map<string, Row>, commands: seq<Command>, p: Prepared, s: Spot, u: Spot)
    requires BatchDone(lib, fields, rows, p.batch, commands, p.commands) && BatchWell(lib, fields, p.batch)
    requires NamedSpot(commands, s) && NamedSpot(commands, u)
    requires ChoiceAt(commands, s).fieldId == ChoiceAt(commands, u).fieldId
    ensures FoldedName(lib, ChoiceAt(commands, s).options[s.i]) == FoldedName(lib, ChoiceAt(commands, u).options[u.i]) <==>
            ResolvedId(commands, p, s) == ResolvedId(commands, p, u)
  {
    SpotDenotes(lib, fields, rows, commands, p, s);
    SpotDenotes(lib, fields, rows, commands, p, u);
    BatchWellAt(lib, fields, p.batch, ChoiceAt(commands, s).fieldId);
    SpotsAgreeIn(lib, p.batch.deltas[ChoiceAt(commands, s).fieldId].config, ChoiceAt(commands, s).options[s.i],
                 ChoiceAt(commands, u).options[u.i], Held(CurrentCells(rows, commands[s.k]), ChoiceAt(commands, s).fieldId),
                 Held(CurrentCells(rows, commands[u.k]), ChoiceAt(commands, s).fieldId),
                 ResolvedId(commands, p, s), ResolvedId(commands, p, u));
  }

  lemma BatchWellAt(lib: Library, fields: Fields, b: Batch, f: string)
    requires BatchWell(lib, fields, b) && f in b.deltas
    ensures WellFormed(lib, b.deltas[f].config)
  {
    assert DeltaWell(lib, fields[f], b.deltas[f], b.next);
  }

  lemma SpotsAgreeIn(lib: Library, d: SelectConfig, a: ChoiceOption, b: ChoiceOption, u: Value, v: Value, x: string, y: string)
    requires WellFormed(lib, d) && a.optionId == b.optionId == ""
    requires Denotes(lib, d, a, u, x) && Denotes(lib, d, b, v, y)
    ensures FoldedName(lib, a) == FoldedName(lib, b) <==> x == y
  {
    OneIdentityPerName(lib, d, a, b, u, v, x, y);
  }
}
