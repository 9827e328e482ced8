/** Every cell a table ever stores is valid for its field, over all runs of mutations, moves and duplications, while
    batches keep adding options. */
module StoredValues {
  import opened Results
  import opened Schema
  import opened Values
  import opened Commands
  import opened ChoiceOptions
  import opened RecordOrder
  import opened Mutations

  ghost predicate StoredAll(env: Environment, s: State) {
    forall id | id in s.rows :: RowStored(env.lib, s.fields, s.rows[id])
  }

  /** Field configurations are well formed and every cell is valid for them. */
  ghost predicate Sound(env: Environment, s: State) {
    FieldsWell(env.lib, s.fields, s.nextOption) && StoredAll(env, s)
  }

  ghost predicate CellsStored(lib: Library, fields: Fields, cells: Cells) {
    forall f | f in cells && f in fields :: Stored(lib, cells[f], fields[f].fieldType, fields[f].config)
  }

  lemma NormalizedStored(lib: Library, submitted: Cells, current: Cells, fields: Fields)
    requires AcceptsAll(lib, submitted, current, fields)
    requires forall f | f in fields && IsChoice(fields[f].fieldType) :: fields[f].config.Choices?
    ensures CellsStored(lib, fields, NormalizedAll(lib, submitted, current, fields))
  {
    forall f | f in submitted
      ensures Stored(lib, NormalizedAll(lib, submitted, current, fields)[f], fields[f].fieldType, fields[f].config)
    {
      NormalizedIsStored(lib, submitted[f], Held(current, f), fields[f]);
    }
  }

  lemma CreateStored(lib: Library, submitted: Cells, fields: Fields)
    requires NormalizeCreate(lib, submitted, fields).Some?
    requires forall f | f in fields && IsChoice(fields[f].fieldType) :: fields[f].config.Choices?
    ensures CellsStored(lib, fields, NormalizeCreate(lib, submitted, fields).value)
  {
    NormalizedStored(lib, submitted, map[], fields);
  }

  lemma UpdateStored(lib: Library, current: Cells, set_: Cells, unset: seq<string>, fields: Fields)
    requires NormalizeUpdate(lib, current, set_, unset, fields).Some? && CellsStored(lib, fields, current)
    requires forall f | f in fields && IsChoice(fields[f].fieldType) :: fields[f].config.Choices?
    ensures CellsStored(lib, fields, NormalizeUpdate(lib, current, set_, unset, fields).value)
  {
    NormalizedStored(lib, set_, current, fields);
  }

  ghost predicate ChoicesFit(fields: Fields) {
    forall f | f in fields && IsChoice(fields[f].fieldType) :: fields[f].config.Choices?
  }

  ghost predicate StoredAfter(env: Environment, s: State, t: State) {
    StoredAll(env, t) && t.fields == s.fields && t.nextOption == s.nextOption
  }

  lemma ApplyStored(env: Environment, s: State, table: string, index: nat, c: Command, now: int)
    requires ChoicesFit(s.fields) && StoredAll(env, s) && Apply(env, s, table, index, c, now).Ok?
    ensures StoredAfter(env, s, Apply(env, s, table, index, c, now).value.0)
  {
    match c.kind
    case CreateRecord => ApplyCreateStored(env, s, table, index, c, now);
    case UpdateRecord => ApplyUpdateStored(env, s, table, index, c, now);
    case DeleteRecord => LifecycleStored(env, s, table, index, c, true, now);
    case RestoreRecord => LifecycleStored(env, s, table, index, c, false, now);
  }

  lemma ApplyCreateStored(env: Environment, s: State, table: string, index: nat, c: Command, now: int)
    requires ChoicesFit(s.fields) && StoredAll(env, s) && ApplyCreate(env, s, table, index, c, now).Ok?
    ensures StoredAfter(env, s, ApplyCreate(env, s, table, index, c, now).value.0)
  {
    CreateStored(env.lib, if c.values.Some? then c.values.value else map[], s.fields);
    InsertedStored(env, s, table, NormalizeCreate(env.lib, if c.values.Some? then c.values.value else map[], s.fields).value, now);
  }

  lemma InsertedStored(env: Environment, s: State, table: string, values: Cells, now: int)
    requires StoredAll(env, s) && CellsStored(env.lib, s.fields, values)
    ensures StoredAfter(env, s, Inserted(env, s, table, values, now).0)
  {
  }

  lemma LifecycleStored(env: Environment, s: State, table: string, index: nat, c: Command, deleting: bool, now: int)
    requires StoredAll(env, s) && ApplyLifecycle(s, table, index, c, deleting, now).Ok?
    ensures StoredAfter(env, s, ApplyLifecycle(s, table, index, c, deleting, now).value.0)
  {
    assert RowStored(env.lib, s.fields, s.rows[c.recordId]);
  }

  lemma ApplyUpdateStored(env: Environment, s: State, table: string, index: nat, c: Command, now: int)
    requires ChoicesFit(s.fields) && StoredAll(env, s) && ApplyUpdate(env, s, table, index, c, now).Ok?
    ensures StoredAfter(env, s, ApplyUpdate(env, s, table, index, c, now).value.0)
  {
    var normalized := NormalizeUpdate(env.lib, s.rows[c.recordId].values, c.set_, c.unset, s.fields);
    if normalized.Some? {
      assert RowStored(env.lib, s.fields, s.rows[c.recordId]);
      UpdateStored(env.lib, s.rows[c.recordId].values, c.set_, c.unset, s.fields);
    }
    UpdatedStored(env, s, table, index, c.recordId, normalized, now);
  }

  lemma UpdatedStored(env: Environment, s: State, table: string, index: nat, id: string, normalized: Option<Cells>, now: int)
    requires StoredAll(env, s) && id in s.rows
    requires normalized.Some? ==> CellsStored(env.lib, s.fields, normalized.value)
    requires Update(env, s, table, index, id, s.rows[id], normalized, now).Ok?
    ensures StoredAfter(env, s, Update(env, s, table, index, id, s.rows[id], normalized, now).value.0)
  {
    if normalized.value != s.rows[id].values {
      var row := Rewritten(env, s, s.rows[id], normalized.value);
      PutStored(env, s, s.rows[id := row], id, row);
    }
  }

  lemma PutStored(env: Environment, s: State, rows: map<string, Row>, id: string, row: Row)
    requires StoredAll(env, s) && RowStored(env.lib, s.fields, row) && rows == s.rows[id := row]
    ensures forall k | k in rows :: RowStored(env.lib, s.fields, rows[k])
  {
  }

  lemma {:induction false} ApplyAllStored(env: Environment, s: State, table: string, commands: seq<Command>, now: int)
    requires ChoicesFit(s.fields) && StoredAll(env, s) && ApplyAll(env, s, table, commands, now).Ok?
    ensures StoredAfter(env, s, ApplyAll(env, s, table, commands, now).value.0)
  {
    if commands != [] {
      var front := commands[..|commands| - 1];
      ApplyAllStored(env, s, table, front, now);
      var before := ApplyAll(env, s, table, front, now).value;
      ApplyStored(env, before.0, table, |before.1|, commands[|commands| - 1], now);
    }
  }

  // ----- options added by a batch -----

  /** Fields keep their type, and options are only added. */
  ghost predicate OptionsGrow(a: Field, b: Field) {
    a.fieldType == b.fieldType
    && (a.config == b.config || (a.config.Choices? && b.config.Choices? && Grown(a.config.select, b.config.select)))
  }

  lemma StoredGrows(lib: Library, v: Value, a: Field, b: Field)
    requires IsChoice(a.fieldType) <==> a.config.Choices?
    requires OptionsGrow(a, b) && Stored(lib, v, a.fieldType, a.config)
    ensures Stored(lib, v, b.fieldType, b.config)
  {
    if a.config != b.config {
      GrownKeeps(a.config.select, b.config.select);
    }
  }

  lemma ResolvedSound(env: Environment, s: State, table: string, commands: seq<Command>, now: int)
    requires Lawful(env.lib) && Sound(env, s) && ValidBatch(env.lib, commands)
    requires Resolved(env, s, table, commands, now).Ok?
    ensures Sound(env, Resolved(env, s, table, commands, now).value.0)
  {
    if HasChoices(commands) {
      var p := PrepareChoices(env.lib, s.fields, s.rows, table, commands, s.nextOption).value;
      PreparedWell(env.lib, s.fields, s.rows, table, commands, s.nextOption);
      ExtendedStored(env, s, p, ChoiceFields(AllChoices(commands)));
    }
  }

  lemma ExtendedStored(env: Environment, s: State, p: Prepared, chosen: set<string>)
    requires Sound(env, s) && FieldsExtended(s.fields, p, chosen)
    ensures forall id | id in s.rows :: RowStored(env.lib, p.fields, s.rows[id])
  {
    forall id, f | id in s.rows && f in s.rows[id].values && f in p.fields
      ensures Stored(env.lib, s.rows[id].values[f], p.fields[f].fieldType, p.fields[f].config)
    {
      assert RowStored(env.lib, s.fields, s.rows[id]);
      if f in chosen {
        assert OptionsAppended(s.fields[f], p.fields[f], p.batch.deltas[f].created);
      }
      StoredGrows(env.lib, s.rows[id].values[f], s.fields[f], p.fields[f]);
    }
  }

  /** Only validated batches reach the transaction. */
  ghost predicate Validated(lib: Library, tx: Transaction) {
    tx.Mutate? ==> ValidBatch(lib, tx.commands)
  }

  lemma CommittedSound(env: Environment, s: State, table: string, tx: Transaction)
    requires Lawful(env.lib) && Sound(env, s) && Validated(env.lib, tx)
    ensures Sound(env, Committed(env, s, table, tx))
  {
    match tx
    case Mutate(commands, now) =>
      if Mutated(env, s, table, commands, now).Ok? {
        MutatedSound(env, s, table, commands, now);
      }
    case Move(id, before, after, now) =>
      if MoveState(s, table, id, before, after, now).Some? {
        MovedSound(env, s, table, id, before, after, now);
      }
    case Duplicate(id, now) =>
      if DuplicateState(env, s, table, id, now).Some? {
        CreateStored(env.lib, s.rows[id].values, s.fields);
        InsertedStored(env, s, table, NormalizeCreate(env.lib, s.rows[id].values, s.fields).value, now);
      }
  }

  lemma MovedSound(env: Environment, s: State, table: string, id: string, before: Option<string>, after: Option<string>, now: int)
    requires Sound(env, s) && MoveState(s, table, id, before, after, now).Some?
    ensures Sound(env, MoveState(s, table, id, before, after, now).value)
  {
    MoveWrites(s.rows, table, id, before, after);
    assert RowStored(env.lib, s.fields, s.rows[id]);
  }

  lemma MutatedSound(env: Environment, s: State, table: string, commands: seq<Command>, now: int)
    requires Lawful(env.lib) && Sound(env, s) && ValidBatch(env.lib, commands) && Mutated(env, s, table, commands, now).Ok?
    ensures Sound(env, Mutated(env, s, table, commands, now).value.0)
  {
    var m := Resolved(env, s, table, commands, now).value;
    ResolvedSound(env, s, table, commands, now);
    ApplyAllStored(env, m.0, table, m.1, now);
  }

  /** Over any run of validated transactions, every configuration stays well formed and every cell valid. */
  lemma {:induction false} RunSound(env: Environment, s: State, table: string, txs: seq<Transaction>)
    requires Lawful(env.lib) && Sound(env, s) && forall tx | tx in txs :: Validated(env.lib, tx)
    ensures Sound(env, Run(env, s, table, txs))
  {
    if txs != [] {
      RunSound(env, s, table, txs[..|txs| - 1]);
      CommittedSound(env, Run(env, s, table, txs[..|txs| - 1]), table, txs[|txs| - 1]);
    }
  }

  /** So in a reachable state a batch whose choices resolve is never refused because of one of those choices. */
  lemma ReachableChoicesAccepted(env: Environment, s: State, table: string, txs: seq<Transaction>, commands: seq<Command>,
                                 p: Prepared, k: nat, j: nat)
    requires Lawful(env.lib) && Sound(env, s) && forall tx | tx in txs :: Validated(env.lib, tx)
    requires ValidBatch(env.lib, commands) && k < |commands| && j < |commands[k].choices|
    requires var u := Run(env, s, table, txs);
             PrepareChoices(env.lib, u.fields, u.rows, table, commands, u.nextOption) == Ok(p)
    ensures k < |p.commands|
    ensures AcceptedCell(env.lib, p.fields, commands[k].choices[j].fieldId,
                         CurrentCells(Run(env, s, table, txs).rows, commands[k]), p.commands[k])
  {
    RunSound(env, s, table, txs);
    SoundChoicesAccepted(env, Run(env, s, table, txs), table, commands, p, k, j);
  }

  lemma SoundChoicesAccepted(env: Environment, s: State, table: string, commands: seq<Command>, p: Prepared, k: nat, j: nat)
    requires Lawful(env.lib) && Sound(env, s) && ValidBatch(env.lib, commands)
    requires PrepareChoices(env.lib, s.fields, s.rows, table, commands, s.nextOption) == Ok(p)
    requires k < |commands| && j < |commands[k].choices|
    ensures k < |p.commands|
    ensures AcceptedCell(env.lib, p.fields, commands[k].choices[j].fieldId, CurrentCells(s.rows, commands[k]), p.commands[k])
  {
    ChosenIsChoice(env, s, table, commands, p, k, j);
    SoundHolds(env, s, commands[k], commands[k].choices[j].fieldId);
    ResolvedIsAccepted(env.lib, s.fields, s.rows, table, commands, s.nextOption, p, k, j);
  }

  lemma ChosenIsChoice(env: Environment, s: State, table: string, commands: seq<Command>, p: Prepared, k: nat, j: nat)
    requires Lawful(env.lib) && Sound(env, s) && ValidBatch(env.lib, commands)
    requires PrepareChoices(env.lib, s.fields, s.rows, table, commands, s.nextOption) == Ok(p)
    requires k < |commands| && j < |commands[k].choices|
    ensures var f := commands[k].choices[j].fieldId; f in s.fields && s.fields[f].config.Choices?
  {
    PreparedWell(env.lib, s.fields, s.rows, table, commands, s.nextOption);
    var f := commands[k].choices[j].fieldId;
    assert CommandDone(env.lib, s.fields, s.rows, p.batch, commands[k], p.commands[k]);
    DeltaIsChoice(env.lib, s.fields, s.rows, p.batch, commands[k], p.commands[k], j);
  }

  lemma DeltaIsChoice(lib: Library, fields: Fields, rows: map<string, Row>, b: Batch, command: Command, rewritten: Command, j: nat)
    requires CommandDone(lib, fields, rows, b, command, rewritten) && BatchWell(lib, fields, b) && j < |command.choices|
    ensures var f := command.choices[j].fieldId; f in fields && fields[f].config.Choices?
  {
    var f := command.choices[j].fieldId;
    assert f in b.deltas;
    assert DeltaWell(lib, fields[f], b.deltas[f], b.next);
  }

  lemma SoundHolds(env: Environment, s: State, c: Command, f: string)
    requires Sound(env, s)
    requires f in s.fields ==> s.fields[f].config.Choices?
    ensures HeldFits(s.fields, CurrentCells(s.rows, c), f)
  {
    if c.recordId in s.rows {
      assert RowStored(env.lib, s.fields, s.rows[c.recordId]);
    }
  }
}
