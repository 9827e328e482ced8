/** What a committed batch brings into being: one new record for each create command, holding exactly what the command
    submitted, after everything that was there. */
module BatchCreates {
  import opened Results
  import opened Schema
  import opened Values
  import opened Commands
  import opened ChoiceOptions
  import opened RecordOrder
  import opened Mutations
  import opened BatchEffects
  import opened RecordDiff

  /** The cells are the submitted values, each normalised against an empty cell, and nothing else. */
  ghost predicate HoldsSubmitted(lib: Library, fields: Fields, submitted: Cells, cells: Cells) {
    && (forall f | f in submitted :: Writable(lib, fields, f) && f in cells
                                     && NormalizeValue(lib, submitted[f], Null, fields[f]) == Some(cells[f]))
    && (forall f | f in cells :: f in submitted)
  }

  ghost predicate NewRecord(lib: Library, fields: Fields, table: string, submitted: Cells, now: int, row: Row) {
    && row.tableId == table && row.revision == 1 && !row.deleted && row.createdAt == now
    && HoldsSubmitted(lib, fields, submitted, row.values) && RowIndexed(lib, fields, row)
  }

  function Submission(c: Command): Cells {
    if c.values.Some? then c.values.value else map[]
  }

  /** Behind every record of the table. */
  ghost predicate Behind(rows: map<string, Row>, table: string, p: real) {
    forall id | id in rows && rows[id].tableId == table :: rows[id].position < p
  }

  lemma CreatedHolds(lib: Library, fields: Fields, submitted: Cells)
    requires NormalizeCreate(lib, submitted, fields).Some?
    ensures HoldsSubmitted(lib, fields, submitted, NormalizeCreate(lib, submitted, fields).value)
  {
    assert AcceptsAll(lib, submitted, map[], fields);
    forall f | f in submitted ensures Accepts(lib, submitted, map[], fields, f) && Held(map[], f) == Null {}
  }

  /** A record inserted: new, last in its table, and all that changes. */
  lemma InsertedIsNew(env: Environment, s: State, table: string, submitted: Cells, values: Cells, now: int)
    requires HoldsSubmitted(env.lib, s.fields, submitted, values)
    ensures var id := env.recordIdAt(s.nextRecord);
            var t := Inserted(env, s, table, values, now).0;
            && id in t.rows && NewRecord(env.lib, s.fields, table, submitted, now, t.rows[id])
            && Behind(s.rows, table, t.rows[id].position)
            && t.rows == s.rows[id := t.rows[id]] && t.fields == s.fields && t.nextRecord == s.nextRecord + 1
  {
  }

  lemma CreateIsNew(env: Environment, s: State, table: string, index: nat, c: Command, now: int)
    requires Apply(env, s, table, index, c, now).Ok? && c.kind == CreateRecord
    ensures var r := Apply(env, s, table, index, c, now).value;
            var id, t := env.recordIdAt(s.nextRecord), r.0;
            && r.1 == CommandResult(true, id)
            && id in t.rows && NewRecord(env.lib, s.fields, table, Submission(c), now, t.rows[id])
            && Behind(s.rows, table, t.rows[id].position)
            && t.rows == s.rows[id := t.rows[id]] && t.fields == s.fields && t.nextRecord == s.nextRecord + 1
  {
    CreatedHolds(env.lib, s.fields, Submission(c));
    InsertedIsNew(env, s, table, Submission(c), NormalizeCreate(env.lib, Submission(c), s.fields).value, now);
  }

  /** The i-th command made the record its result names. */
  ghost predicate Made(env: Environment, s: State, table: string, commands: seq<Command>, now: int, done: Batched, i: int)
    requires 0 <= i < |commands| && |done.1| == |commands|
  {
    var id := done.1[i].recordId;
    && done.1[i].applied && id !in s.rows && id in done.0.rows && Unborn(env, s, id)
    && NewRecord(env.lib, s.fields, table, Submission(commands[i]), now, done.0.rows[id])
    && Behind(s.rows, table, done.0.rows[id].position)
  }

  predicate IsCreate(commands: seq<Command>, i: int) {
    0 <= i < |commands| && commands[i].kind == CreateRecord
  }

  ghost predicate EachMade(env: Environment, s: State, table: string, commands: seq<Command>, now: int, done: Batched)
    requires |done.1| == |commands|
  {
    forall i | IsCreate(commands, i) :: Made(env, s, table, commands, now, done, i)
  }

  /** In the order of the commands, and none twice. */
  ghost predicate InTurn(commands: seq<Command>, done: Batched)
    requires |done.1| == |commands|
  {
    forall i, j | IsCreate(commands, i) && IsCreate(commands, j) && i < j :: Precedes(done.0.rows, done.1[i].recordId, done.1[j].recordId)
  }

  predicate Precedes(rows: map<string, Row>, a: string, b: string) {
    a != b && a in rows && b in rows && rows[a].position < rows[b].position
  }

  /** Nothing else is new. */
  ghost predicate OnlyMade(s: State, commands: seq<Command>, done: Batched)
    requires |done.1| == |commands|
  {
    forall id | id in done.0.rows && id !in s.rows :: NamesOne(commands, done, id)
  }

  /** Everything a batch brought into being. */
  ghost predicate AllMade(env: Environment, s: State, table: string, commands: seq<Command>, now: int, done: Batched) {
    && |done.1| == |commands| && done.0.fields == s.fields && done.0.nextRecord >= s.nextRecord
    && EachMade(env, s, table, commands, now, done) && InTurn(commands, done) && OnlyMade(s, commands, done)
  }

  // ----- one more command -----

  /** The records made so far are as they were, and their results too. */
  ghost predicate Extends(s: State, before: Batched, after: Batched) {
    && |after.1| == |before.1| + 1 && after.1[..|before.1|] == before.1
    && after.0.fields == before.0.fields && after.0.nextRecord >= before.0.nextRecord
    && forall id | id in before.0.rows && id !in s.rows :: id in after.0.rows && after.0.rows[id] == before.0.rows[id]
  }

  lemma StillMade(env: Environment, s: State, table: string, front: seq<Command>, c: Command, now: int,
                  before: Batched, after: Batched, i: int)
    requires |before.1| == |front| && EachMade(env, s, table, front, now, before) && Extends(s, before, after) && IsCreate(front, i)
    ensures IsCreate(front + [c], i) && after.1[i] == before.1[i] && Made(env, s, table, front + [c], now, after, i)
  {
    assert Made(env, s, table, front, now, before, i);
    assert after.1[i] == after.1[..|front|][i];
  }

  lemma StillInTurn(env: Environment, s: State, table: string, front: seq<Command>, c: Command, now: int,
                    before: Batched, after: Batched, i: int, j: int)
    requires |before.1| == |front| && EachMade(env, s, table, front, now, before) && InTurn(front, before) && Extends(s, before, after)
    requires IsCreate(front, i) && IsCreate(front, j) && i < j
    ensures Precedes(after.0.rows, after.1[i].recordId, after.1[j].recordId)
  {
    StillMade(env, s, table, front, c, now, before, after, i);
    StillMade(env, s, table, front, c, now, before, after, j);
    assert Made(env, s, table, front, now, before, i) && Made(env, s, table, front, now, before, j);
    assert Precedes(before.0.rows, before.1[i].recordId, before.1[j].recordId);
  }

  lemma MadeIsUnborn(env: Environment, s: State, table: string, front: seq<Command>, now: int, before: Batched, id: string)
    requires AllMade(env, s, table, front, now, before) && id in before.0.rows && id !in s.rows
    ensures Unborn(env, s, id)
  {
    var i :| IsCreate(front, i) && before.1[i].recordId == id;
    assert Made(env, s, table, front, now, before, i);
  }

  lemma CommandOther(env: Environment, s: State, table: string, index: nat, c: Command, now: int, id: string)
    requires Apply(env, s, table, index, c, now).Ok? && c.kind != CreateRecord && id != c.recordId
    ensures Same(s, Apply(env, s, table, index, c, now).value.0, id)
  {
    CommandFrame(env, s, table, index, c, now, id);
  }

  /** A command on an existing record neither makes nor touches a new one. */
  lemma OtherExtends(env: Environment, s: State, table: string, front: seq<Command>, c: Command, now: int, before: Batched)
    requires AllMade(env, s, table, front, now, before) && c.kind != CreateRecord && !Unborn(env, s, c.recordId)
    requires ApplyNext(env, before, table, c, now).Ok?
    ensures Extends(s, before, ApplyNext(env, before, table, c, now).value)
    ensures forall id | id in ApplyNext(env, before, table, c, now).value.0.rows :: id in before.0.rows
  {
    var after := ApplyNext(env, before, table, c, now).value;
    CommandNext(env, before.0, table, |front|, c, now);
    CommandEffect(env, before.0, table, |front|, c, now);
    forall id | id != c.recordId ensures Same(before.0, after.0, id) {
      CommandOther(env, before.0, table, |front|, c, now, id);
    }
    NewStay(env, s, table, front, c, now, before, after);
  }

  lemma NewStay(env: Environment, s: State, table: string, front: seq<Command>, c: Command, now: int, before: Batched, after: Batched)
    requires AllMade(env, s, table, front, now, before) && !Unborn(env, s, c.recordId)
    requires forall id | id != c.recordId :: Same(before.0, after.0, id)
    ensures forall id | id in before.0.rows && id !in s.rows :: id in after.0.rows && after.0.rows[id] == before.0.rows[id]
  {
    forall id | id in before.0.rows && id !in s.rows ensures id in after.0.rows && after.0.rows[id] == before.0.rows[id] {
      MadeIsUnborn(env, s, table, front, now, before, id);
      assert Same(before.0, after.0, id);
    }
  }

  ghost predicate NamesOne(commands: seq<Command>, done: Batched, id: string)
    requires |done.1| == |commands|
  {
    exists i :: IsCreate(commands, i) && done.1[i].recordId == id
  }

  lemma StillNamed(env: Environment, s: State, table: string, front: seq<Command>, c: Command, now: int,
                   before: Batched, after: Batched, id: string)
    requires |before.1| == |front| && EachMade(env, s, table, front, now, before) && Extends(s, before, after)
    requires NamesOne(front, before, id)
    ensures NamesOne(front + [c], after, id)
  {
    var i :| IsCreate(front, i) && before.1[i].recordId == id;
    StillMade(env, s, table, front, c, now, before, after, i);
  }

  lemma NotLast(front: seq<Command>, c: Command, i: int)
    requires IsCreate(front + [c], i) && (c.kind != CreateRecord || i < |front|)
    ensures IsCreate(front, i)
  {
  }

  lemma OtherKeepsMade(env: Environment, s: State, table: string, front: seq<Command>, c: Command, now: int, before: Batched, after: Batched)
    requires AllMade(env, s, table, front, now, before) && c.kind != CreateRecord && Extends(s, before, after)
    requires forall id | id in after.0.rows :: id in before.0.rows
    ensures AllMade(env, s, table, front + [c], now, after)
  {
    forall i | IsCreate(front + [c], i) ensures Made(env, s, table, front + [c], now, after, i) {
      NotLast(front, c, i);
      StillMade(env, s, table, front, c, now, before, after, i);
    }
    OtherKeepsTurn(env, s, table, front, c, now, before, after);
    forall id | id in after.0.rows && id !in s.rows ensures NamesOne(front + [c], after, id) {
      StillNamed(env, s, table, front, c, now, before, after, id);
    }
  }

  lemma OtherKeepsTurn(env: Environment, s: State, table: string, front: seq<Command>, c: Command, now: int, before: Batched, after: Batched)
    requires AllMade(env, s, table, front, now, before) && c.kind != CreateRecord && Extends(s, before, after)
    ensures InTurn(front + [c], after)
  {
    forall i, j | IsCreate(front + [c], i) && IsCreate(front + [c], j) && i < j
      ensures Precedes(after.0.rows, after.1[i].recordId, after.1[j].recordId)
    {
      NotLast(front, c, i);
      NotLast(front, c, j);
      StillInTurn(env, s, table, front, c, now, before, after, i, j);
    }
  }

  /** A create command adds one record, behind those there were. */
  ghost predicate Adds(env: Environment, s: State, table: string, c: Command, now: int, before: Batched, after: Batched, id: string) {
    && Extends(s, before, after) && after.1[|before.1|] == CommandResult(true, id) && id !in before.0.rows
    && id in after.0.rows && NewRecord(env.lib, s.fields, table, Submission(c), now, after.0.rows[id])
    && Behind(before.0.rows, table, after.0.rows[id].position)
    && after.0.rows == before.0.rows[id := after.0.rows[id]]
  }

  lemma CreateExtends(env: Environment, s: State, table: string, front: seq<Command>, c: Command, now: int, before: Batched)
    requires AllMade(env, s, table, front, now, before) && c.kind == CreateRecord && Counted(env, before.0)
    requires ApplyNext(env, before, table, c, now).Ok?
    ensures Adds(env, s, table, c, now, before, ApplyNext(env, before, table, c, now).value, env.recordIdAt(before.0.nextRecord))
  {
    CreateIsNew(env, before.0, table, |front|, c, now);
    assert env.recordIdAt(before.0.nextRecord) !in before.0.rows;
  }

  /** Commands keep the place of the records there were. */
  lemma PlaceKept(env: Environment, s: State, m: State, commands: seq<Command>, id: string)
    requires Counted(env, s) && Between(env, s, m, commands) && id in s.rows
    ensures id in m.rows && m.rows[id].tableId == s.rows[id].tableId && m.rows[id].position == s.rows[id].position
  {
    assert !Unborn(env, s, id);
    assert RecordAfter(env, s, m, commands, id);
    if c :| c in commands && Aims(c, id) {
      assert Effected(env.lib, s.fields, s.rows[id], c, m.rows[id]);
    }
  }

  lemma BehindBoth(env: Environment, s: State, m: State, commands: seq<Command>, table: string, p: real)
    requires Counted(env, s) && Between(env, s, m, commands) && Behind(m.rows, table, p)
    ensures Behind(s.rows, table, p)
  {
    forall id | id in s.rows && s.rows[id].tableId == table ensures s.rows[id].position < p {
      PlaceKept(env, s, m, commands, id);
    }
  }

  lemma LastMade(env: Environment, s: State, table: string, front: seq<Command>, c: Command, now: int, before: Batched, after: Batched, id: string)
    requires |before.1| == |front| && c.kind == CreateRecord && Adds(env, s, table, c, now, before, after, id)
    requires Counted(env, s) && Between(env, s, before.0, front) && id == env.recordIdAt(before.0.nextRecord)
    ensures Made(env, s, table, front + [c], now, after, |front|)
  {
    BehindBoth(env, s, before.0, front, table, after.0.rows[id].position);
    UnbornNext(env, s, before.0);
    if id in s.rows {
      PlaceKept(env, s, before.0, front, id);
    }
  }

  lemma BeforeLast(env: Environment, s: State, table: string, front: seq<Command>, c: Command, now: int, before: Batched,
                   after: Batched, id: string, i: int)
    requires |before.1| == |front| && EachMade(env, s, table, front, now, before) && IsCreate(front, i)
    requires Adds(env, s, table, c, now, before, after, id)
    ensures Precedes(after.0.rows, after.1[i].recordId, after.1[|front|].recordId)
  {
    StillMade(env, s, table, front, c, now, before, after, i);
    assert Made(env, s, table, front, now, before, i);
  }

  lemma CreateKeepsTurn(env: Environment, s: State, table: string, front: seq<Command>, c: Command, now: int, before: Batched,
                        after: Batched, id: string)
    requires AllMade(env, s, table, front, now, before) && Adds(env, s, table, c, now, before, after, id)
    ensures InTurn(front + [c], after)
  {
    forall i, j | IsCreate(front + [c], i) && IsCreate(front + [c], j) && i < j
      ensures Precedes(after.0.rows, after.1[i].recordId, after.1[j].recordId)
    {
      if j < |front| {
        EarlyInTurn(env, s, table, front, c, now, before, after, i, j);
      } else {
        NotLast(front, c, i);
        BeforeLast(env, s, table, front, c, now, before, after, id, i);
      }
    }
  }

  lemma EarlyInTurn(env: Environment, s: State, table: string, front: seq<Command>, c: Command, now: int, before: Batched,
                    after: Batched, i: int, j: int)
    requires AllMade(env, s, table, front, now, before) && Extends(s, before, after)
    requires IsCreate(front + [c], i) && IsCreate(front + [c], j) && i < j < |front|
    ensures Precedes(after.0.rows, after.1[i].recordId, after.1[j].recordId)
  {
    NotLast(front, c, i);
    NotLast(front, c, j);
    StillInTurn(env, s, table, front, c, now, before, after, i, j);
  }

  lemma CreateKeepsMade(env: Environment, s: State, table: string, front: seq<Command>, c: Command, now: int, before: Batched,
                        after: Batched, id: string)
    requires AllMade(env, s, table, front, now, before) && Adds(env, s, table, c, now, before, after, id)
    requires c.kind == CreateRecord && Counted(env, s) && Between(env, s, before.0, front) && id == env.recordIdAt(before.0.nextRecord)
    ensures AllMade(env, s, table, front + [c], now, after)
  {
    LastMade(env, s, table, front, c, now, before, after, id);
    forall i | IsCreate(front + [c], i) ensures Made(env, s, table, front + [c], now, after, i) {
      if i < |front| {
        NotLast(front, c, i);
        StillMade(env, s, table, front, c, now, before, after, i);
      }
    }
    CreateKeepsTurn(env, s, table, front, c, now, before, after, id);
    forall k | k in after.0.rows && k !in s.rows ensures NamesOne(front + [c], after, k) {
      if k == id {
        assert IsCreate(front + [c], |front|);
      } else {
        StillNamed(env, s, table, front, c, now, before, after, k);
      }
    }
  }

  // ----- whole batches -----

  lemma UnguessedFront(env: Environment, s: State, commands: seq<Command>, front: seq<Command>, c: Command)
    requires Unguessed(env, s, commands) && Ends(commands, front, c)
    ensures Unguessed(env, s, front) && (c.kind != CreateRecord ==> !Unborn(env, s, c.recordId))
  {
    assert forall d :: d in front ==> d in commands;
    assert c in commands;
  }

  lemma {:induction false} CreatesOfAll(env: Environment, s: State, table: string, commands: seq<Command>, now: int)
    requires FreshIds(env) && Counted(env, s) && Separate(commands) && Unguessed(env, s, commands)
    requires ApplyAll(env, s, table, commands, now).Ok?
    ensures AllMade(env, s, table, commands, now, ApplyAll(env, s, table, commands, now).value)
  {
    if commands != [] {
      var front, c := commands[..|commands| - 1], commands[|commands| - 1];
      SeparateFront(commands, front, c);
      UnguessedFront(env, s, commands, front, c);
      ApplyLast(env, s, table, commands, front, c, now);
      CreatesOfAll(env, s, table, front, now);
      CreatesOneMore(env, s, table, front, c, now, ApplyAll(env, s, table, front, now).value);
    }
  }

  lemma CreatesOneMore(env: Environment, s: State, table: string, front: seq<Command>, c: Command, now: int, before: Batched)
    requires FreshIds(env) && Counted(env, s) && Separate(front) && ApplyAll(env, s, table, front, now) == Ok(before)
    requires c.kind != CreateRecord ==> !Unborn(env, s, c.recordId)
    requires AllMade(env, s, table, front, now, before) && ApplyNext(env, before, table, c, now).Ok?
    ensures AllMade(env, s, table, front + [c], now, ApplyNext(env, before, table, c, now).value)
  {
    var after := ApplyNext(env, before, table, c, now).value;
    if c.kind == CreateRecord {
      EffectsOfAll(env, s, table, front, now);
      ApplyAllKeeps(env, s, table, front, now);
      CreateExtends(env, s, table, front, c, now, before);
      CreateKeepsMade(env, s, table, front, c, now, before, after, env.recordIdAt(before.0.nextRecord));
    } else {
      OtherExtends(env, s, table, front, c, now, before);
      OtherKeepsMade(env, s, table, front, c, now, before, after);
    }
  }

  // ----- the transaction -----

  /** What a command submits for a field. */
  function CellSubmitted(c: Command, f: string): Option<Value> {
    Lookup(if c.kind == CreateRecord then Submission(c) else c.set_, f)
  }

  /** A cell that a choice asks for, under the options the field ends up with. */
  ghost predicate Answers(lib: Library, fields: Fields, current: Cells, choice: ChoiceAssignment, cell: Option<Value>) {
    var f := choice.fieldId;
    && f in fields && fields[f].config.Choices? && IsChoice(fields[f].fieldType) && cell.Some?
    && Fulfils(lib, fields[f].config.select, fields[f].fieldType, choice, Held(current, f), cell.value)
  }

  /** `r` is `c` with a cell for each of its choices; all else is as submitted. */
  ghost predicate Spells(lib: Library, fields: Fields, current: Cells, c: Command, r: Command) {
    Around(c, r) && AllAnswered(lib, fields, current, c, r)
  }

  lemma PlainSpells(lib: Library, fields: Fields, current: Cells, c: Command)
    requires c.choices == []
    ensures Spells(lib, fields, current, c, c)
  {
  }

  lemma DoneAnswers(lib: Library, fields: Fields, rows: map<string, Row>, p: Prepared, chosen: set<string>, c: Command, r: Command, k: nat)
    requires FieldsExtended(fields, p, chosen) && BatchWell(lib, fields, p.batch)
    requires CommandDone(lib, fields, rows, p.batch, c, r) && k < |c.choices|
    ensures Answers(lib, p.fields, CurrentCells(rows, c), c.choices[k], CellSubmitted(r, c.choices[k].fieldId))
  {
    CellOf(lib, fields, rows, p.batch, c, r, k);
    BatchConfigs(lib, fields, p, chosen, c.choices[k].fieldId);
    assert c.choices[k].fieldId in ChoiceFields(c.choices);
    WrittenCell(c, ChosenCells(r, c.choices), c.choices[k].fieldId);
  }

  lemma WrittenCell(c: Command, cells: Cells, f: string)
    ensures f in cells ==> CellSubmitted(WithCells(c, cells), f) == Some(cells[f]) && Submitted(WithCells(c, cells), f) == cells[f]
    ensures f !in cells ==> CellSubmitted(WithCells(c, cells), f) == CellSubmitted(c, f)
  {
  }

  /** Everything but the cells of the choices is as submitted. */
  ghost predicate Around(c: Command, r: Command) {
    && r == (if c.kind == CreateRecord then c.(values := r.values) else c.(set_ := r.set_))
    && (forall f | f !in ChoiceFields(c.choices) :: CellSubmitted(r, f) == CellSubmitted(c, f))
  }

  lemma WrittenAround(c: Command, r: Command, cells: Cells)
    requires r == WithCells(c, cells) && cells.Keys == ChoiceFields(c.choices)
    ensures Around(c, r)
  {
  }

  ghost predicate AllAnswered(lib: Library, fields: Fields, current: Cells, c: Command, r: Command) {
    forall choice | choice in c.choices :: Answers(lib, fields, current, choice, CellSubmitted(r, choice.fieldId))
  }

  lemma DoneAnswersAll(lib: Library, fields: Fields, rows: map<string, Row>, p: Prepared, chosen: set<string>, c: Command, r: Command)
    requires FieldsExtended(fields, p, chosen) && BatchWell(lib, fields, p.batch)
    requires CommandDone(lib, fields, rows, p.batch, c, r)
    ensures AllAnswered(lib, p.fields, CurrentCells(rows, c), c, r)
  {
    forall k | 0 <= k < |c.choices|
      ensures Answers(lib, p.fields, CurrentCells(rows, c), c.choices[k], CellSubmitted(r, c.choices[k].fieldId))
    {
      DoneAnswers(lib, fields, rows, p, chosen, c, r, k);
    }
  }

  lemma DoneAround(lib: Library, fields: Fields, rows: map<string, Row>, b: Batch, c: Command, r: Command)
    requires CommandDone(lib, fields, rows, b, c, r)
    ensures Around(c, r)
  {
    WrittenAround(c, r, ChosenCells(r, c.choices));
  }

  /** What a batch may be run on. */
  ghost predicate Ready(env: Environment, s: State, commands: seq<Command>) {
    && Lawful(env.lib) && FreshIds(env) && Counted(env, s) && FieldsWell(env.lib, s.fields, s.nextOption)
    && ValidBatch(env.lib, commands) && !env.lib.recordId("")
  }

  /** The commands a batch really runs: as submitted, each choice replaced by a cell it asks for. */
  lemma ResolvedSpells(env: Environment, s: State, table: string, commands: seq<Command>, now: int, i: nat)
    requires Ready(env, s, commands) && Resolved(env, s, table, commands, now).Ok? && i < |commands|
    ensures var m := Resolved(env, s, table, commands, now).value;
            |m.1| == |commands| && Spells(env.lib, m.0.fields, CurrentCells(s.rows, commands[i]), commands[i], m.1[i])
  {
    if HasChoices(commands) {
      PreparedWell(env.lib, s.fields, s.rows, table, commands, s.nextOption);
      var p := PrepareChoices(env.lib, s.fields, s.rows, table, commands, s.nextOption).value;
      assert CommandDone(env.lib, s.fields, s.rows, p.batch, commands[i], p.commands[i]);
      DoneAround(env.lib, s.fields, s.rows, p.batch, commands[i], p.commands[i]);
      DoneAnswersAll(env.lib, s.fields, s.rows, p, ChoiceFields(AllChoices(commands)), commands[i], p.commands[i]);
    } else {
      assert commands[i] in commands;
      PlainSpells(env.lib, s.fields, CurrentCells(s.rows, commands[i]), commands[i]);
    }
  }

  /** The cells a create command asks for: its values, normalised against an empty cell, an answer to each of its
      choices, and nothing else. */
  ghost predicate HoldsCommand(lib: Library, fields: Fields, current: Cells, c: Command, cells: Cells) {
    && (forall f | f !in ChoiceFields(c.choices) && f in Submission(c) ::
          Writable(lib, fields, f) && f in cells && NormalizeValue(lib, Submission(c)[f], Null, fields[f]) == Some(cells[f]))
    && (forall choice | choice in c.choices :: Answers(lib, fields, current, choice, Lookup(cells, choice.fieldId)))
    && (forall f | f in cells :: f in Submission(c) || f in ChoiceFields(c.choices))
  }

  lemma ChoiceKept(lib: Library, value: Value, previous: Value, field: Field)
    requires IsChoice(field.fieldType) && NormalizeValue(lib, value, previous, field).Some?
    ensures NormalizeValue(lib, value, previous, field).value == value
  {
  }

  lemma SpelledHolds(lib: Library, fields: Fields, current: Cells, c: Command, r: Command, cells: Cells)
    requires c.kind == CreateRecord && Spells(lib, fields, current, c, r) && HoldsSubmitted(lib, fields, Submission(r), cells)
    ensures HoldsCommand(lib, fields, current, c, cells)
  {
    forall f | f !in ChoiceFields(c.choices) ensures Lookup(Submission(r), f) == Lookup(Submission(c), f) {
      assert CellSubmitted(r, f) == CellSubmitted(c, f);
    }
    forall choice | choice in c.choices ensures Answers(lib, fields, current, choice, Lookup(cells, choice.fieldId)) {
      assert Answers(lib, fields, current, choice, CellSubmitted(r, choice.fieldId));
      ChoiceKept(lib, Submission(r)[choice.fieldId], Null, fields[choice.fieldId]);
    }
  }

  /** The record a create command brought into being: not there before, at revision 1, active, indexed, behind every
      record there was, and holding what the command asks for. */
  ghost predicate Born(env: Environment, s: State, t: State, table: string, c: Command, now: int, r: CommandResult) {
    var id := r.recordId;
    && r.applied && id !in s.rows && id in t.rows
    && t.rows[id].tableId == table && t.rows[id].revision == 1 && !t.rows[id].deleted && t.rows[id].createdAt == now
    && RowIndexed(env.lib, t.fields, t.rows[id]) && Behind(s.rows, table, t.rows[id].position)
    && HoldsCommand(env.lib, t.fields, CurrentCells(s.rows, c), c, t.rows[id].values)
  }

  lemma MadeIsBorn(env: Environment, s: State, m: State, table: string, commands: seq<Command>, resolved: seq<Command>, now: int,
                   done: Batched, i: nat)
    requires m.rows == s.rows && |resolved| == |commands| && AllMade(env, m, table, resolved, now, done)
    requires IsCreate(commands, i) && Spells(env.lib, m.fields, CurrentCells(s.rows, commands[i]), commands[i], resolved[i])
    ensures Born(env, s, done.0, table, commands[i], now, done.1[i])
  {
    assert IsCreate(resolved, i);
    assert Made(env, m, table, resolved, now, done, i);
    SpelledHolds(env.lib, m.fields, CurrentCells(s.rows, commands[i]), commands[i], resolved[i], done.0.rows[done.1[i].recordId].values);
  }

  /** Main result: a committed batch brings one new record into being for each of its create commands, named by the
      command's result and holding what that command asks for; the new records follow the old ones, in the order of the
      commands; and no other record is new. */
  lemma BatchBirths(env: Environment, s: State, table: string, commands: seq<Command>, now: int)
    requires Ready(env, s, commands) && Unguessed(env, s, commands) && Mutated(env, s, table, commands, now).Ok?
    ensures var t := Mutated(env, s, table, commands, now).value;
            && |t.1| == |commands|
            && (forall i | IsCreate(commands, i) :: Born(env, s, t.0, table, commands[i], now, t.1[i]))
            && InTurn(commands, t) && OnlyMade(s, commands, t)
  {
    ValidIsSeparate(env.lib, commands);
    ResolvedKeepsAims(env, s, table, commands, now);
    ResolvedUnguessed(env, s, table, commands, now);
    ResolvedKeeps(env, s, table, commands, now);
    var m := Resolved(env, s, table, commands, now).value;
    CreatesOfAll(env, m.0, table, m.1, now);
    BirthsFrom(env, s, table, commands, now, m, ApplyAll(env, m.0, table, m.1, now).value);
  }

  lemma BirthsFrom(env: Environment, s: State, table: string, commands: seq<Command>, now: int, m: (State, seq<Command>), done: Batched)
    requires Ready(env, s, commands) && Resolved(env, s, table, commands, now) == Ok(m) && m.0.rows == s.rows
    requires |m.1| == |commands| && forall i | 0 <= i < |commands| :: m.1[i].kind == commands[i].kind
    requires AllMade(env, m.0, table, m.1, now, done)
    ensures forall i | IsCreate(commands, i) :: Born(env, s, done.0, table, commands[i], now, done.1[i])
    ensures InTurn(commands, done) && OnlyMade(s, commands, done)
  {
    forall i | IsCreate(commands, i) ensures Born(env, s, done.0, table, commands[i], now, done.1[i]) {
      ResolvedSpells(env, s, table, commands, now, i);
      MadeIsBorn(env, s, m.0, table, commands, m.1, now, done, i);
    }
    assert forall i :: IsCreate(commands, i) <==> IsCreate(m.1, i);
    forall id | id in done.0.rows && id !in s.rows ensures NamesOne(commands, done, id) {
      assert NamesOne(m.1, done, id);
    }
  }

  // ----- what the results tell -----

  /** The i-th result names the record of its command and says whether the batch changed it. */
  ghost predicate Told(s: State, commands: seq<Command>, done: Batched, i: int)
    requires 0 <= i < |commands| && |done.1| == |commands|
  {
    var id := commands[i].recordId;
    && done.1[i].recordId == id && id in s.rows && id in done.0.rows
    && (done.1[i].applied <==> done.0.rows[id] != s.rows[id])
  }

  predicate Edits(commands: seq<Command>, i: int) {
    0 <= i < |commands| && commands[i].kind != CreateRecord
  }

  ghost predicate AllTold(s: State, commands: seq<Command>, done: Batched) {
    |done.1| == |commands| && forall i | Edits(commands, i) :: Told(s, commands, done, i)
  }

  lemma CommandTells(env: Environment, s: State, table: string, index: nat, c: Command, now: int)
    requires Apply(env, s, table, index, c, now).Ok? && c.kind != CreateRecord
    ensures var r := Apply(env, s, table, index, c, now).value;
            && r.1.recordId == c.recordId && c.recordId in s.rows && c.recordId in r.0.rows
            && (r.1.applied <==> r.0.rows[c.recordId] != s.rows[c.recordId])
  {
  }

  lemma LastTold(env: Environment, s: State, table: string, front: seq<Command>, c: Command, now: int, before: Batched)
    requires Effects(env, s, front, before) && ApplyNext(env, before, table, c, now).Ok?
    requires c.kind != CreateRecord ==> !Unborn(env, s, c.recordId) && forall d | d in front :: !Aims(d, c.recordId)
    ensures var after := ApplyNext(env, before, table, c, now).value;
            |after.1| == |front| + 1 && (c.kind != CreateRecord ==> Told(s, front + [c], after, |front|))
  {
    if c.kind != CreateRecord {
      Untouched(env, s, before.0, front, c.recordId);
      CommandTells(env, before.0, table, |front|, c, now);
    }
  }

  lemma EarlierTold(env: Environment, s: State, table: string, front: seq<Command>, c: Command, now: int, before: Batched, i: int)
    requires Effects(env, s, front, before) && ApplyNext(env, before, table, c, now).Ok? && AllTold(s, front, before)
    requires Edits(front, i) && !Unborn(env, s, front[i].recordId) && !Aims(c, front[i].recordId)
    ensures Told(s, front + [c], ApplyNext(env, before, table, c, now).value, i)
  {
    assert Told(s, front, before, i);
    UnbornNext(env, s, before.0);
    CommandFrame(env, before.0, table, |front|, c, now, front[i].recordId);
  }

  lemma {:induction false} AllTell(env: Environment, s: State, table: string, commands: seq<Command>, now: int)
    requires Separate(commands) && Unguessed(env, s, commands) && ApplyAll(env, s, table, commands, now).Ok?
    ensures AllTold(s, commands, ApplyAll(env, s, table, commands, now).value)
  {
    if commands != [] {
      var front, c := commands[..|commands| - 1], commands[|commands| - 1];
      SeparateFront(commands, front, c);
      UnguessedFront(env, s, commands, front, c);
      ApplyLast(env, s, table, commands, front, c, now);
      AllTell(env, s, table, front, now);
      EffectsOfAll(env, s, table, front, now);
      OneMoreTold(env, s, table, front, c, now, ApplyAll(env, s, table, front, now).value);
    }
  }

  lemma OneMoreTold(env: Environment, s: State, table: string, front: seq<Command>, c: Command, now: int, before: Batched)
    requires Effects(env, s, front, before) && ApplyNext(env, before, table, c, now).Ok? && AllTold(s, front, before)
    requires Separate(front + [c]) && Unguessed(env, s, front + [c])
    ensures AllTold(s, front + [c], ApplyNext(env, before, table, c, now).value)
  {
    var commands := front + [c];
    assert Ends(commands, front, c);
    SeparateFront(commands, front, c);
    UnguessedFront(env, s, commands, front, c);
    LastTold(env, s, table, front, c, now, before);
    forall i | Edits(commands, i) ensures Told(s, commands, ApplyNext(env, before, table, c, now).value, i) {
      if i < |front| {
        assert Edits(front, i) && front[i] in front;
        NotAgain(front, c, i);
        EarlierTold(env, s, table, front, c, now, before, i);
      }
    }
  }

  lemma NotAgain(front: seq<Command>, c: Command, i: int)
    requires Edits(front, i) && Separate(front + [c])
    ensures !Aims(c, front[i].recordId)
  {
    var commands := front + [c];
    assert commands[i] == front[i] && commands[|front|] == c;
  }

  /** The results of a committed batch: each names the record its command is about, and for a record that was there says
      whether the batch changed it. */
  lemma ResultsTell(env: Environment, s: State, table: string, commands: seq<Command>, now: int, i: nat)
    requires ValidBatch(env.lib, commands) && !env.lib.recordId("") && Unguessed(env, s, commands)
    requires Mutated(env, s, table, commands, now).Ok? && Edits(commands, i)
    ensures var t := Mutated(env, s, table, commands, now).value;
            |t.1| == |commands| && Told(s, commands, t, i)
  {
    ValidIsSeparate(env.lib, commands);
    ResolvedKeepsAims(env, s, table, commands, now);
    ResolvedUnguessed(env, s, table, commands, now);
    var m := Resolved(env, s, table, commands, now).value;
    AllTell(env, m.0, table, m.1, now);
    assert Edits(m.1, i);
    assert Told(m.0, m.1, ApplyAll(env, m.0, table, m.1, now).value, i);
  }

  // ----- when a command is accepted -----

  lemma CreateCommits(env: Environment, s: State, table: string, index: nat, c: Command, now: int)
    requires c.kind == CreateRecord
    ensures Apply(env, s, table, index, c, now).Ok? <==>
            exists cells :: HoldsSubmitted(env.lib, s.fields, Submission(c), cells) && env.attachmentsReady(cells, s.fields)
  {
    var normal := NormalizeCreate(env.lib, Submission(c), s.fields);
    if normal.Some? {
      CreatedHolds(env.lib, s.fields, Submission(c));
    }
    if cells: Cells :| HoldsSubmitted(env.lib, s.fields, Submission(c), cells) && env.attachmentsReady(cells, s.fields) {
      HeldIsNormal(env.lib, s.fields, Submission(c), cells);
    }
  }

  lemma HeldIsNormal(lib: Library, fields: Fields, submitted: Cells, cells: Cells)
    requires HoldsSubmitted(lib, fields, submitted, cells)
    ensures NormalizeCreate(lib, submitted, fields) == Some(cells)
  {
    forall f | f in submitted ensures Accepts(lib, submitted, map[], fields, f) && Held(map[], f) == Null {}
    assert NormalizedAll(lib, submitted, map[], fields) == cells;
  }

  /** No field is unset twice, or both unset and set. */
  predicate UnsetApart(c: Command) {
    && (forall i, j | 0 <= i < j < |c.unset| :: c.unset[i] != c.unset[j])
    && (forall f | f in c.unset :: f !in c.set_)
  }

  lemma UpdateAccepted(lib: Library, fields: Fields, before: Row, c: Command, after: Row)
    requires Updated(lib, fields, before, c, after) && UnsetApart(c)
    ensures NormalizeUpdate(lib, before.values, c.set_, c.unset, fields).Some?
  {
    forall f | f in c.set_ ensures Accepts(lib, c.set_, before.values, fields, f) {
      assert Lookup(after.values, f) == CellAfter(lib, fields, before, c, f);
    }
  }

  lemma UpdatedIsNormal(lib: Library, fields: Fields, before: Row, c: Command, after: Row)
    requires Updated(lib, fields, before, c, after) && UnsetApart(c)
    ensures NormalizeUpdate(lib, before.values, c.set_, c.unset, fields) == Some(after.values)
  {
    UpdateAccepted(lib, fields, before, c, after);
    var values := NormalizeUpdate(lib, before.values, c.set_, c.unset, fields).value;
    forall f ensures Lookup(values, f) == Lookup(after.values, f) {
      UpdateCells(lib, fields, before.values, c, values, f);
      assert Lookup(after.values, f) == CellAfter(lib, fields, before, c, f);
    }
    SameLookups(values, after.values);
  }

  /** What an edit may make of the record it names. */
  ghost predicate Edit(env: Environment, s: State, c: Command, after: Row)
    requires c.recordId in s.rows
  {
    && Effected(env.lib, s.fields, s.rows[c.recordId], c, after)
    && (c.kind == UpdateRecord ==> UnsetApart(c) && env.attachmentsReady(after.values, s.fields))
  }

  lemma UpdateCommits(env: Environment, s: State, table: string, index: nat, c: Command, now: int, after: Row)
    requires c.kind == UpdateRecord && c.recordId in s.rows && s.rows[c.recordId].tableId == table && Edit(env, s, c, after)
    ensures Apply(env, s, table, index, c, now).Ok?
  {
    UpdatedIsNormal(env.lib, s.fields, s.rows[c.recordId], c, after);
  }

  lemma UpdateReady(env: Environment, s: State, table: string, index: nat, c: Command, now: int)
    requires c.kind == UpdateRecord && Apply(env, s, table, index, c, now).Ok?
    ensures c.recordId in s.rows && s.rows[c.recordId].tableId == table
    ensures exists after :: Edit(env, s, c, after)
  {
    CommandEffect(env, s, table, index, c, now);
    var t := Apply(env, s, table, index, c, now).value.0;
    assert Edit(env, s, c, t.rows[c.recordId]);
  }

  /** Main result: a command commits exactly when there is something for it to do as it asks: cells to create a record with,
      or a record of the table, at the expected revision, to make what the command says of it. */
  lemma CommitsWhen(env: Environment, s: State, table: string, index: nat, c: Command, now: int)
    ensures Apply(env, s, table, index, c, now).Ok? <==>
            if c.kind == CreateRecord then
              exists cells :: HoldsSubmitted(env.lib, s.fields, Submission(c), cells) && env.attachmentsReady(cells, s.fields)
            else
              && c.recordId in s.rows && s.rows[c.recordId].tableId == table
              && exists after :: Edit(env, s, c, after)
  {
    if c.kind == CreateRecord {
      CreateCommits(env, s, table, index, c, now);
    } else if c.kind == UpdateRecord {
      if Apply(env, s, table, index, c, now).Ok? {
        UpdateReady(env, s, table, index, c, now);
      } else if c.recordId in s.rows && s.rows[c.recordId].tableId == table && exists after :: Edit(env, s, c, after) {
        var after :| Edit(env, s, c, after);
        UpdateCommits(env, s, table, index, c, now, after);
      }
    } else if Apply(env, s, table, index, c, now).Ok? {
      CommandEffect(env, s, table, index, c, now);
      assert Edit(env, s, c, Apply(env, s, table, index, c, now).value.0.rows[c.recordId]);
    }
  }

  // ----- duplication -----

  /** A duplication makes one record: active, at revision 1, behind the others, holding the cells of the original as the
      writer accepts them today; nothing else changes. It is refused when the original is not an active record of the
      table or one of its cells is no longer acceptable, and only then. */
  lemma DuplicateMeans(env: Environment, s: State, table: string, id: string, now: int)
    requires FreshIds(env) && Counted(env, s)
    ensures DuplicateState(env, s, table, id, now).Some? <==>
            && id in s.rows && s.rows[id].tableId == table && !s.rows[id].deleted
            && forall f | f in s.rows[id].values ::
                 Writable(env.lib, s.fields, f) && NormalizeValue(env.lib, s.rows[id].values[f], Null, s.fields[f]).Some?
    ensures DuplicateState(env, s, table, id, now).Some? ==>
              var t, copy := DuplicateState(env, s, table, id, now).value, env.recordIdAt(s.nextRecord);
              && copy !in s.rows && copy in t.rows
              && NewRecord(env.lib, s.fields, table, s.rows[id].values, now, t.rows[copy])
              && Behind(s.rows, table, t.rows[copy].position)
              && t.rows == s.rows[copy := t.rows[copy]] && t.fields == s.fields
  {
    if id in s.rows {
      var original := s.rows[id].values;
      forall f | f in original
        ensures Accepts(env.lib, original, map[], s.fields, f) <==>
                Writable(env.lib, s.fields, f) && NormalizeValue(env.lib, original[f], Null, s.fields[f]).Some?
      {
        assert Held(map[], f) == Null;
      }
      if NormalizeCreate(env.lib, original, s.fields).Some? {
        CreatedHolds(env.lib, s.fields, original);
        InsertedIsNew(env, s, table, original, NormalizeCreate(env.lib, original, s.fields).value, now);
      }
    }
  }
}
