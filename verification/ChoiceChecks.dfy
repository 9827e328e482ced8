/** What a batch with choices checked before it wrote, and where the options it created come from. */
module ChoiceChecks {
  import opened Results
  import opened Schema
  import opened Values
  import opened Orders
  import opened Commands
  import opened ChoiceOptions
  import opened Mutations

  // ----- the fields were as expected -----

  /** The choice's field is an active choice field of the table at the revision the choice expects. */
  predicate FieldMet(fields: Fields, table: string, choice: ChoiceAssignment) {
    var f := choice.fieldId;
    && f in fields && fields[f].tableId == table && fields[f].revision == choice.expectedRevision
    && !fields[f].deleted && fields[f].config.Choices?
  }

  lemma {:induction false} ExpectedIs(choices: seq<ChoiceAssignment>, choice: ChoiceAssignment)
    requires OneRevision(choices) && choice in choices
    ensures ExpectedRevision(choices, choice.fieldId) == choice.expectedRevision
  {
    var k :| 0 <= k < |choices| && choices[k] == choice;
    if choices[0].fieldId == choice.fieldId {
      assert k > 0 ==> choices[0].expectedRevision == choices[k].expectedRevision;
    } else {
      assert choices[1..][k - 1] == choice;
      ExpectedIs(choices[1..], choice);
    }
  }

  /** The field checks pass exactly when every choice finds its field as it expects it. */
  lemma FieldsMet(fields: Fields, table: string, choices: seq<ChoiceAssignment>)
    requires OneRevision(choices)
    ensures FirstFieldProblem(fields, table, choices, SortedSet(ChoiceFields(choices))).None? <==>
            forall choice | choice in choices :: FieldMet(fields, table, choice)
  {
    var ids := SortedSet(ChoiceFields(choices));
    NoFieldProblem(fields, table, choices, ids);
    SortedSetMembers(ChoiceFields(choices));
    forall choice | choice in choices
      ensures choice.fieldId in ids
      ensures FieldProblem(fields, table, choice.fieldId, ExpectedRevision(choices, choice.fieldId)).None? <==>
              FieldMet(fields, table, choice)
    {
      ExpectedIs(choices, choice);
      assert choice.fieldId in ChoiceFields(choices);
    }
  }

  lemma {:induction false} AmongAll(commands: seq<Command>, i: nat, choice: ChoiceAssignment)
    requires i < |commands| && choice in commands[i].choices
    ensures choice in AllChoices(commands)
  {
    if i < |commands| - 1 {
      AmongAll(commands[..|commands| - 1], i, choice);
    }
  }

  /** A batch that commits found every field it chooses from at the revision the choice expected. */
  lemma CommittedMet(env: Environment, s: State, table: string, commands: seq<Command>, now: int, i: nat, choice: ChoiceAssignment)
    requires ValidBatch(env.lib, commands) && Mutated(env, s, table, commands, now).Ok?
    requires i < |commands| && choice in commands[i].choices
    ensures FieldMet(s.fields, table, choice)
  {
    assert commands[i] in commands;
    AmongAll(commands, i, choice);
    FieldsMet(s.fields, table, AllChoices(commands));
  }

  // ----- where new options come from -----

  /** The input names the option by name and color. */
  predicate AskedAs(lib: Library, input: ChoiceOption, o: SelectOption) {
    input.optionId == "" && lib.optionName(input.name) == Some(o.name) && input.color == o.color
  }

  predicate Asks(lib: Library, inputs: seq<ChoiceOption>, o: SelectOption) {
    exists input | input in inputs :: AskedAs(lib, input, o)
  }

  predicate AsksFor(lib: Library, choices: seq<ChoiceAssignment>, f: string, o: SelectOption) {
    exists choice | choice in choices :: choice.fieldId == f && Asks(lib, choice.options, o)
  }

  predicate BatchAsks(lib: Library, commands: seq<Command>, f: string, o: SelectOption) {
    exists c | c in commands :: AsksFor(lib, c.choices, f, o)
  }

  lemma AddAsks(lib: Library, before: Chosen, input: ChoiceOption, previous: Value, o: SelectOption)
    requires AddInput(lib, before, input, previous).Ok? && o in AddInput(lib, before, input, previous).value.created
    ensures o in before.created || AskedAs(lib, input, o)
  {
  }

  lemma {:induction false} InputsAsk(lib: Library, c: SelectConfig, inputs: seq<ChoiceOption>, previous: Value, next: nat, o: SelectOption)
    requires ResolveInputs(lib, c, inputs, previous, next).Ok?
    requires o in ResolveInputs(lib, c, inputs, previous, next).value.created
    ensures Asks(lib, inputs, o)
  {
    var front, last := inputs[..|inputs| - 1], inputs[|inputs| - 1];
    assert inputs == front + [last];
    var before := ResolveInputs(lib, c, front, previous, next).value;
    AddAsks(lib, before, last, previous, o);
    if o in before.created {
      InputsAsk(lib, c, front, previous, next, o);
    }
  }

  function CreatedIn(b: Batch, f: string): seq<SelectOption> {
    if f in b.deltas then b.deltas[f].created else []
  }

  lemma AssignAsks(lib: Library, fields: Fields, b: Batch, choice: ChoiceAssignment, previous: Value, f: string, o: SelectOption)
    requires Assign(lib, fields, b, choice, previous).Ok?
    requires o in CreatedIn(Assign(lib, fields, b, choice, previous).value.0, f)
    ensures o in CreatedIn(b, f) || (choice.fieldId == f && Asks(lib, choice.options, o))
  {
    if choice.fieldId == f && o !in CreatedIn(b, f) {
      InputsAsk(lib, b.deltas[f].config, choice.options, previous, b.next, o);
    }
  }

  lemma {:induction false} AssignAllAsks(lib: Library, fields: Fields, b: Batch, choices: seq<ChoiceAssignment>, current: Cells,
                                         f: string, o: SelectOption)
    requires AssignAll(lib, fields, b, choices, current).Ok?
    requires o in CreatedIn(AssignAll(lib, fields, b, choices, current).value.0, f)
    ensures o in CreatedIn(b, f) || AsksFor(lib, choices, f, o)
  {
    if choices != [] {
      var n := |choices| - 1;
      assert choices == choices[..n] + [choices[n]];
      var mid := AssignAll(lib, fields, b, choices[..n], current).value;
      AssignAsks(lib, fields, mid.0, choices[n], Held(current, choices[n].fieldId), f, o);
      if o in CreatedIn(mid.0, f) {
        AssignAllAsks(lib, fields, b, choices[..n], current, f, o);
      }
    }
  }

  lemma {:induction false} BatchAsksAll(lib: Library, fields: Fields, rows: map<string, Row>, b: Batch, commands: seq<Command>,
                                        f: string, o: SelectOption)
    requires ResolveBatch(lib, fields, rows, b, commands).Ok?
    requires o in CreatedIn(ResolveBatch(lib, fields, rows, b, commands).value.0, f)
    ensures o in CreatedIn(b, f) || BatchAsks(lib, commands, f, o)
  {
    if commands != [] {
      var n := |commands| - 1;
      assert commands == commands[..n] + [commands[n]];
      var mid := ResolveBatch(lib, fields, rows, b, commands[..n]).value;
      AssignAllAsks(lib, fields, mid.0, commands[n].choices, CurrentCells(rows, commands[n]), f, o);
      if o in CreatedIn(mid.0, f) {
        BatchAsksAll(lib, fields, rows, b, commands[..n], f, o);
      }
    }
  }

  /** Main result: every option a batch adds to a field was asked for, by name and color, in a choice of that field, and no
      option the field had is named alike. */
  lemma AddedWereAsked(lib: Library, fields: Fields, rows: map<string, Row>, table: string, commands: seq<Command>, next: nat, f: string)
    requires Lawful(lib) && FieldsWell(lib, fields, next) && ValidBatch(lib, commands)
    requires PrepareChoices(lib, fields, rows, table, commands, next).Ok? && f in fields && fields[f].config.Choices?
    ensures var after := PrepareChoices(lib, fields, rows, table, commands, next).value.fields;
            && f in after && after[f].config.Choices? && fields[f].config.select.options <= after[f].config.select.options
            && forall i | |fields[f].config.select.options| <= i < |after[f].config.select.options| ::
                 var o := after[f].config.select.options[i];
                 && BatchAsks(lib, commands, f, o)
                 && forall j | 0 <= j < i :: lib.fold(after[f].config.select.options[j].name) != lib.fold(o.name)
  {
    PreparedWell(lib, fields, rows, table, commands, next);
    var p := PrepareChoices(lib, fields, rows, table, commands, next).value;
    AddedAre(lib, fields, rows, table, commands, next, p, f);
    assert WellFormed(lib, p.fields[f].config.select);
  }

  lemma AddedAre(lib: Library, fields: Fields, rows: map<string, Row>, table: string, commands: seq<Command>, next: nat, p: Prepared, f: string)
    requires PrepareChoices(lib, fields, rows, table, commands, next) == Ok(p) && f in fields && fields[f].config.Choices?
    requires FieldsExtended(fields, p, ChoiceFields(AllChoices(commands)))
    ensures p.fields[f].config.Choices? && fields[f].config.select.options <= p.fields[f].config.select.options
    ensures forall i | |fields[f].config.select.options| <= i < |p.fields[f].config.select.options| ::
              BatchAsks(lib, commands, f, p.fields[f].config.select.options[i])
  {
    var start := StartBatch(fields, ChoiceFields(AllChoices(commands)), next);
    var before := fields[f].config.select.options;
    if f in ChoiceFields(AllChoices(commands)) {
      var created := p.batch.deltas[f].created;
      assert OptionsAppended(fields[f], p.fields[f], created);
      forall i | 0 <= i < |created| ensures BatchAsks(lib, commands, f, created[i]) {
        BatchAsksAll(lib, fields, rows, start, commands, f, created[i]);
      }
    }
  }

  // ----- what the log says of the fields -----

  predicate Gained(p: Prepared, f: string) {
    f in p.batch.deltas && p.batch.deltas[f].created != [] && f in p.fields
  }

  /** The entries that follow `from_` name fields that gained options, each at its new revision. */
  ghost predicate NamesGained(log: seq<Change>, from_: nat, table: string, p: Prepared, now: int) {
    forall i | from_ <= i < |log| ::
      Gained(p, log[i].objectId)
      && log[i] == Change(i + 1, table, SchemaChanged, log[i].objectId, p.fields[log[i].objectId].revision, [], now)
  }

  predicate Named(log: seq<Change>, from_: nat, f: string) {
    exists i | from_ <= i < |log| :: log[i].objectId == f
  }

  /** One entry for each field of a list that gained options, and no other. */
  ghost predicate LogsGained(log: seq<Change>, after: seq<Change>, table: string, p: Prepared, ids: seq<string>, now: int) {
    && log <= after && NamesGained(after, |log|, table, p, now)
    && (forall f :: Named(after, |log|, f) <==> f in ids && Gained(p, f))
    && (forall i, j | |log| <= i < j < |after| :: after[i].objectId != after[j].objectId)
  }

  lemma {:induction false} LogFieldsGained(log: seq<Change>, table: string, p: Prepared, ids: seq<string>, now: int)
    requires Distinct(ids)
    ensures LogsGained(log, LogFields(log, table, p, ids, now), table, p, ids, now)
  {
    if ids != [] {
      var front, last := ids[..|ids| - 1], ids[|ids| - 1];
      assert ids == front + [last];
      LogFieldsGained(log, table, p, front, now);
      if Gained(p, last) {
        LogsOneMore(log, LogFields(log, table, p, front, now), table, p, front, last, now);
      } else {
        LogsNoMore(log, LogFields(log, table, p, front, now), table, p, front, last, now);
      }
    }
  }

  lemma LogsNoMore(log: seq<Change>, after: seq<Change>, table: string, p: Prepared, ids: seq<string>, last: string, now: int)
    requires LogsGained(log, after, table, p, ids, now) && !Gained(p, last)
    ensures LogsGained(log, after, table, p, ids + [last], now)
  {
  }

  lemma NamedMore(log: seq<Change>, from_: nat, entry: Change, f: string)
    requires from_ <= |log|
    ensures Named(log + [entry], from_, f) <==> Named(log, from_, f) || f == entry.objectId
  {
    if i :| from_ <= i < |log| && log[i].objectId == f {
      assert (log + [entry])[i] == log[i];
    }
    if f == entry.objectId {
      assert (log + [entry])[|log|] == entry;
    }
  }

  lemma LogsOneMore(log: seq<Change>, before: seq<Change>, table: string, p: Prepared, ids: seq<string>, last: string, now: int)
    requires LogsGained(log, before, table, p, ids, now) && Gained(p, last) && last !in ids
    ensures LogsGained(log, before + [Change(|before| + 1, table, SchemaChanged, last, p.fields[last].revision, [], now)],
                       table, p, ids + [last], now)
  {
    var entry := Change(|before| + 1, table, SchemaChanged, last, p.fields[last].revision, [], now);
    assert !Named(before, |log|, last);
    forall f ensures Named(before + [entry], |log|, f) <==> Named(before, |log|, f) || f == last {
      NamedMore(before, |log|, entry, f);
    }
    StillApart(log, before, entry);
  }

  lemma StillApart(log: seq<Change>, before: seq<Change>, entry: Change)
    requires log <= before && !Named(before, |log|, entry.objectId)
    requires forall i, j | |log| <= i < j < |before| :: before[i].objectId != before[j].objectId
    ensures forall i, j | |log| <= i < j < |before| + 1 :: (before + [entry])[i].objectId != (before + [entry])[j].objectId
  {
  }

  /** A batch with choices logs one schema change for each field it added options to, at the field's new revision, and
      nothing else before its commands run. */
  lemma ResolvedLogs(env: Environment, s: State, table: string, commands: seq<Command>, now: int, p: Prepared)
    requires HasChoices(commands) && PrepareChoices(env.lib, s.fields, s.rows, table, commands, s.nextOption) == Ok(p)
    ensures Resolved(env, s, table, commands, now).Ok?
    ensures LogsGained(s.log, Resolved(env, s, table, commands, now).value.0.log, table, p,
                       SortedSet(ChoiceFields(AllChoices(commands))), now)
  {
    SortedSetElements(ChoiceFields(AllChoices(commands)));
    LogFieldsGained(s.log, table, p, SortedSet(ChoiceFields(AllChoices(commands))), now);
  }
}
