/** What a committed batch does to the data: every record gets the effect of the one command that names it, as if that
    command came alone, and the batch commits exactly when every command would on its own. */
module BatchEffects {
  import opened Results
  import opened Schema
  import opened Values
  import opened Commands
  import opened ChoiceOptions
  import opened Mutations
  import opened RecordDiff

  predicate Aims(c: Command, id: string) {
    c.kind != CreateRecord && c.recordId == id
  }

  /** No two commands name the same record. */
  ghost predicate Separate(commands: seq<Command>) {
    forall i, j | 0 <= i < j < |commands| && commands[j].kind != CreateRecord :: !Aims(commands[i], commands[j].recordId)
  }

  /** An identifier still to be generated. */
  ghost predicate Unborn(env: Environment, s: State, id: string) {
    exists n :: n >= s.nextRecord && env.recordIdAt(n) == id
  }

  /** A cell after an update: what was submitted for it in normalised form, nothing if it was unset, else what it held. */
  function CellAfter(lib: Library, fields: Fields, before: Row, c: Command, f: string): Option<Value> {
    if f in c.set_ then
      if f in fields then NormalizeValue(lib, c.set_[f], Held(before.values, f), fields[f]) else None
    else if f in c.unset then None
    else Lookup(before.values, f)
  }

  ghost predicate Updated(lib: Library, fields: Fields, before: Row, c: Command, after: Row) {
    && (forall f :: Lookup(after.values, f) == CellAfter(lib, fields, before, c, f))
    && (forall f | f in c.set_ :: Writable(lib, fields, f) && f in after.values)
    && (forall f | f in c.unset :: Writable(lib, fields, f))
    && !before.deleted
    && after == if after.values == before.values then before
                else before.(values := after.values, queryValues := Projection(lib, after.values, fields),
                             searchText := SearchText(lib, after.values, fields), revision := before.revision + 1)
  }

  /** What a command makes of the record it names, at the revision it expects. */
  ghost predicate Effected(lib: Library, fields: Fields, before: Row, c: Command, after: Row) {
    && before.revision == c.expectedRevision
    && match c.kind
       case UpdateRecord => Updated(lib, fields, before, c, after)
       case DeleteRecord => !before.deleted && after == before.(deleted := true, revision := before.revision + 1)
       case RestoreRecord => before.deleted && after == before.(deleted := false, revision := before.revision + 1)
       case _ => false
  }

  lemma UpdateCells(lib: Library, fields: Fields, before: Cells, c: Command, after: Cells, f: string)
    requires NormalizeUpdate(lib, before, c.set_, c.unset, fields) == Some(after)
    ensures Lookup(after, f) ==
            if f in c.set_ then
              if f in fields then NormalizeValue(lib, c.set_[f], Held(before, f), fields[f]) else None
            else if f in c.unset then None
            else Lookup(before, f)
    ensures f in c.set_ ==> Writable(lib, fields, f) && f in after
    ensures f in c.unset ==> Writable(lib, fields, f)
  {
  }

  /** An update that commits has its effect on the record it names. */
  lemma UpdateEffect(env: Environment, s: State, table: string, index: nat, c: Command, now: int)
    requires ApplyUpdate(env, s, table, index, c, now).Ok?
    ensures c.recordId in s.rows && s.rows[c.recordId].revision == c.expectedRevision
    ensures var t := ApplyUpdate(env, s, table, index, c, now).value.0;
            c.recordId in t.rows && Updated(env.lib, s.fields, s.rows[c.recordId], c, t.rows[c.recordId])
  {
    var before := s.rows[c.recordId];
    var values := NormalizeUpdate(env.lib, before.values, c.set_, c.unset, s.fields).value;
    forall f
      ensures Lookup(values, f) == CellAfter(env.lib, s.fields, before, c, f)
      ensures f in c.set_ ==> Writable(env.lib, s.fields, f) && f in values
      ensures f in c.unset ==> Writable(env.lib, s.fields, f)
    {
      UpdateCells(env.lib, s.fields, before.values, c, values, f);
    }
  }

  /** A command that commits has its effect on the record it names. */
  lemma CommandEffect(env: Environment, s: State, table: string, index: nat, c: Command, now: int)
    requires Apply(env, s, table, index, c, now).Ok? && c.kind != CreateRecord
    ensures var t := Apply(env, s, table, index, c, now).value.0;
            c.recordId in s.rows && c.recordId in t.rows
            && Effected(env.lib, s.fields, s.rows[c.recordId], c, t.rows[c.recordId])
  {
    if c.kind == UpdateRecord {
      UpdateEffect(env, s, table, index, c, now);
    }
  }

  /** From `s` to `t` the record stays as it is, present or absent. */
  ghost predicate Frames(s: State, t: State, id: string) {
    Same(s, t, id) && t.fields == s.fields && t.nextRecord >= s.nextRecord
  }

  lemma CreateFrame(env: Environment, s: State, table: string, index: nat, c: Command, now: int, id: string)
    requires ApplyCreate(env, s, table, index, c, now).Ok? && id != env.recordIdAt(s.nextRecord)
    ensures Frames(s, ApplyCreate(env, s, table, index, c, now).value.0, id)
  {
  }

  lemma PutFrame(s: State, name: string, row: Row, log: seq<Change>, id: string)
    requires id != name
    ensures Frames(s, s.(rows := s.rows[name := row], log := log), id)
  {
  }

  lemma UpdateFrame(env: Environment, s: State, table: string, index: nat, name: string, row: Row, normalized: Option<Cells>,
                    now: int, id: string)
    requires Update(env, s, table, index, name, row, normalized, now).Ok? && id != name
    ensures Frames(s, Update(env, s, table, index, name, row, normalized, now).value.0, id)
  {
    var values := normalized.value;
    if values != row.values {
      var entry := Logged(s, table, RecordUpdated, name, row.revision + 1, Diff(row.values, values), now);
      PutFrame(s, name, Rewritten(env, s, row, values), s.log + [entry], id);
    }
  }

  lemma LifecycleFrame(s: State, table: string, index: nat, c: Command, deleting: bool, now: int, id: string)
    requires ApplyLifecycle(s, table, index, c, deleting, now).Ok? && id != c.recordId
    ensures Frames(s, ApplyLifecycle(s, table, index, c, deleting, now).value.0, id)
  {
  }

  /** A command leaves every other record alone. */
  lemma CommandFrame(env: Environment, s: State, table: string, index: nat, c: Command, now: int, id: string)
    requires Apply(env, s, table, index, c, now).Ok?
    requires !Aims(c, id) && (c.kind == CreateRecord ==> id != env.recordIdAt(s.nextRecord))
    ensures Frames(s, Apply(env, s, table, index, c, now).value.0, id)
  {
    match c.kind
    case CreateRecord => CreateFrame(env, s, table, index, c, now, id);
    case UpdateRecord =>
      var row := s.rows[c.recordId];
      UpdateFrame(env, s, table, index, c.recordId, row,
                  NormalizeUpdate(env.lib, row.values, c.set_, c.unset, s.fields), now, id);
    case DeleteRecord => LifecycleFrame(s, table, index, c, true, now, id);
    case RestoreRecord => LifecycleFrame(s, table, index, c, false, now, id);
  }

  /** Whether a command commits depends on the fields and on the record it names, on nothing else. */
  lemma CommandIsLocal(env: Environment, s: State, m: State, table: string, i: nat, j: nat, c: Command, now: int)
    requires s.fields == m.fields
    requires c.kind != CreateRecord ==> Same(s, m, c.recordId)
    ensures Apply(env, s, table, i, c, now).Ok? <==> Apply(env, m, table, j, c, now).Ok?
  {
  }

  ghost predicate Same(s: State, m: State, id: string) {
    (id in s.rows <==> id in m.rows) && (id in s.rows ==> s.rows[id] == m.rows[id])
  }

  /** A record after some commands: the effect of the one that names it, or what it was. */
  ghost predicate RowAfter(lib: Library, fields: Fields, commands: seq<Command>, id: string, before: Row, after: Row) {
    && (forall c | c in commands && Aims(c, id) :: Effected(lib, fields, before, c, after))
    && ((forall c | c in commands :: !Aims(c, id)) ==> after == before)
  }

  ghost predicate RecordAfter(env: Environment, s: State, t: State, commands: seq<Command>, id: string) {
    && (id in t.rows <==> id in s.rows)
    && (id in s.rows ==> RowAfter(env.lib, s.fields, commands, id, s.rows[id], t.rows[id]))
  }

  /** From `s` to `t` by some commands: every record that is not made on the way. */
  ghost predicate Between(env: Environment, s: State, t: State, commands: seq<Command>) {
    && t.fields == s.fields && t.nextRecord >= s.nextRecord
    && forall id | !Unborn(env, s, id) :: RecordAfter(env, s, t, commands, id)
  }

  lemma UnbornNext(env: Environment, s: State, m: State)
    requires m.nextRecord >= s.nextRecord
    ensures Unborn(env, s, env.recordIdAt(m.nextRecord))
  {
  }

  lemma Untouched(env: Environment, s: State, m: State, commands: seq<Command>, id: string)
    requires Between(env, s, m, commands) && !Unborn(env, s, id) && forall c | c in commands :: !Aims(c, id)
    ensures Same(s, m, id)
  {
    assert RecordAfter(env, s, m, commands, id);
  }

  lemma LastIsNew(commands: seq<Command>, front: seq<Command>, id: string)
    requires commands != [] && Separate(commands) && front == commands[..|commands| - 1] && Aims(commands[|commands| - 1], id)
    ensures forall c | c in front :: !Aims(c, id)
  {
  }

  /** One more command. */
  lemma OneMoreEffect(env: Environment, s: State, m: State, table: string, front: seq<Command>, c: Command, now: int, id: string)
    requires Between(env, s, m, front) && !Unborn(env, s, id)
    requires Aims(c, id) ==> forall d | d in front :: !Aims(d, id)
    requires Apply(env, m, table, |front|, c, now).Ok?
    ensures RecordAfter(env, s, Apply(env, m, table, |front|, c, now).value.0, front + [c], id)
  {
    var t := Apply(env, m, table, |front|, c, now).value.0;
    UnbornNext(env, s, m);
    assert RecordAfter(env, s, m, front, id);
    assert forall d :: d in front + [c] <==> d in front || d == c;
    if Aims(c, id) {
      CommandEffect(env, m, table, |front|, c, now);
    } else {
      CommandFrame(env, m, table, |front|, c, now, id);
    }
  }

  /** No command names a record that only the batch itself will make. */
  ghost predicate Unguessed(env: Environment, s: State, commands: seq<Command>) {
    forall c | c in commands && c.kind != CreateRecord :: !Unborn(env, s, c.recordId)
  }

  ghost predicate Ends(commands: seq<Command>, front: seq<Command>, c: Command) {
    commands != [] && front == commands[..|commands| - 1] && c == commands[|commands| - 1]
  }

  /** The last command of a batch. */
  lemma ApplyLast(env: Environment, s: State, table: string, commands: seq<Command>, front: seq<Command>, c: Command, now: int)
    requires Ends(commands, front, c)
    ensures ApplyAll(env, s, table, commands, now).Ok? ==> ApplyAll(env, s, table, front, now).Ok?
    ensures ApplyAll(env, s, table, front, now).Ok? ==>
              var before := ApplyAll(env, s, table, front, now).value;
              ApplyAll(env, s, table, commands, now) == ApplyNext(env, before, table, c, now)
  {
  }

  lemma SeparateFront(commands: seq<Command>, front: seq<Command>, c: Command)
    requires Separate(commands) && Ends(commands, front, c)
    ensures Separate(front) && (c.kind != CreateRecord ==> forall d | d in front :: !Aims(d, c.recordId))
    ensures commands == front + [c]
  {
    if c.kind != CreateRecord {
      LastIsNew(commands, front, c.recordId);
    }
  }

  /** What the commands of a batch made of the state. */
  ghost predicate Effects(env: Environment, s: State, commands: seq<Command>, done: Batched) {
    Between(env, s, done.0, commands) && |done.1| == |commands|
  }

  /** Every record gets the effect of the command that names it, as it was before the batch. */
  lemma {:induction false} EffectsOfAll(env: Environment, s: State, table: string, commands: seq<Command>, now: int)
    requires Separate(commands) && ApplyAll(env, s, table, commands, now).Ok?
    ensures Effects(env, s, commands, ApplyAll(env, s, table, commands, now).value)
  {
    if commands != [] {
      var front, c := commands[..|commands| - 1], commands[|commands| - 1];
      SeparateFront(commands, front, c);
      ApplyLast(env, s, table, commands, front, c, now);
      EffectsOfAll(env, s, table, front, now);
      BetweenMore(env, s, ApplyAll(env, s, table, front, now).value, table, front, c, now);
    }
  }

  lemma BetweenMore(env: Environment, s: State, before: Batched, table: string, front: seq<Command>, c: Command, now: int)
    requires Effects(env, s, front, before) && ApplyNext(env, before, table, c, now).Ok?
    requires c.kind != CreateRecord ==> forall d | d in front :: !Aims(d, c.recordId)
    ensures Effects(env, s, front + [c], ApplyNext(env, before, table, c, now).value)
  {
    var t := Apply(env, before.0, table, |front|, c, now).value.0;
    forall id | !Unborn(env, s, id) ensures RecordAfter(env, s, t, front + [c], id) {
      OneMoreEffect(env, s, before.0, table, front, c, now, id);
    }
    CommandNext(env, before.0, table, |front|, c, now);
  }

  lemma CommandNext(env: Environment, s: State, table: string, index: nat, c: Command, now: int)
    requires Apply(env, s, table, index, c, now).Ok?
    ensures var t := Apply(env, s, table, index, c, now).value.0;
            t.fields == s.fields && t.nextRecord >= s.nextRecord
  {
  }

  ghost predicate Alone(env: Environment, s: State, table: string, c: Command, now: int) {
    Apply(env, s, table, 0, c, now).Ok?
  }

  /** A command commits after others, none of which names its record, exactly when it would alone. */
  lemma StillAlone(env: Environment, s: State, m: State, table: string, front: seq<Command>, c: Command, now: int)
    requires Between(env, s, m, front)
    requires c.kind != CreateRecord ==> !Unborn(env, s, c.recordId) && forall d | d in front :: !Aims(d, c.recordId)
    ensures Alone(env, s, table, c, now) <==> Apply(env, m, table, |front|, c, now).Ok?
  {
    if c.kind != CreateRecord {
      Untouched(env, s, m, front, c.recordId);
    }
    CommandIsLocal(env, s, m, table, 0, |front|, c, now);
  }

  /** The commands commit together exactly when each would commit alone. */
  lemma {:induction false} AllOrNone(env: Environment, s: State, table: string, commands: seq<Command>, now: int)
    requires Separate(commands) && Unguessed(env, s, commands)
    ensures ApplyAll(env, s, table, commands, now).Ok? <==> forall c | c in commands :: Alone(env, s, table, c, now)
  {
    if commands != [] {
      var front, c := commands[..|commands| - 1], commands[|commands| - 1];
      SeparateFront(commands, front, c);
      AllOrNone(env, s, table, front, now);
      if ApplyAll(env, s, table, front, now).Ok? {
        EffectsOfAll(env, s, table, front, now);
        StillAlone(env, s, ApplyAll(env, s, table, front, now).value.0, table, front, c, now);
      }
      ApplyLast(env, s, table, commands, front, c, now);
      assert forall d :: d in commands <==> d in front || d == c;
    }
  }

  // ----- the order of a batch -----

  lemma EffectUnique(lib: Library, fields: Fields, before: Row, c: Command, x: Row, y: Row)
    requires Effected(lib, fields, before, c, x) && Effected(lib, fields, before, c, y)
    ensures x == y
  {
    if c.kind == UpdateRecord {
      forall f ensures Lookup(x.values, f) == Lookup(y.values, f) {
        assert Lookup(x.values, f) == CellAfter(lib, fields, before, c, f);
      }
      SameLookups(x.values, y.values);
    }
  }

  /** Main result: the order of the commands does not matter. Two batches of the same commands both commit or both fail,
      and leave every record there was the same. */
  lemma OrderIrrelevant(env: Environment, s: State, table: string, one: seq<Command>, other: seq<Command>, now: int)
    requires Separate(one) && Separate(other) && Unguessed(env, s, one) && forall c :: c in one <==> c in other
    ensures ApplyAll(env, s, table, one, now).Ok? <==> ApplyAll(env, s, table, other, now).Ok?
    ensures ApplyAll(env, s, table, one, now).Ok? && Counted(env, s) ==>
              forall id | id in s.rows ::
                Same(ApplyAll(env, s, table, one, now).value.0, ApplyAll(env, s, table, other, now).value.0, id)
  {
    AllOrNone(env, s, table, one, now);
    AllOrNone(env, s, table, other, now);
    if ApplyAll(env, s, table, one, now).Ok? && Counted(env, s) {
      EffectsOfAll(env, s, table, one, now);
      EffectsOfAll(env, s, table, other, now);
      var t, u := ApplyAll(env, s, table, one, now).value.0, ApplyAll(env, s, table, other, now).value.0;
      forall id | id in s.rows ensures Same(t, u, id) {
        SameAfter(env, s, t, u, one, other, id);
      }
    }
  }

  lemma SameAfter(env: Environment, s: State, t: State, u: State, one: seq<Command>, other: seq<Command>, id: string)
    requires Counted(env, s) && id in s.rows && Between(env, s, t, one) && Between(env, s, u, other)
    requires forall c :: c in one <==> c in other
    ensures Same(t, u, id)
  {
    assert !Unborn(env, s, id);
    assert RecordAfter(env, s, t, one, id) && RecordAfter(env, s, u, other, id);
    if c :| c in one && Aims(c, id) {
      EffectUnique(env.lib, s.fields, s.rows[id], c, t.rows[id], u.rows[id]);
    }
  }

  // ----- the transaction -----

  /** Resolving choices keeps what the commands aim at. */
  lemma {:induction false} ResolvedAims(lib: Library, fields: Fields, rows: map<string, Row>, b: Batch, commands: seq<Command>)
    requires ResolveBatch(lib, fields, rows, b, commands).Ok?
    ensures var r := ResolveBatch(lib, fields, rows, b, commands).value.1;
            |r| == |commands|
            && forall i | 0 <= i < |commands| :: r[i].kind == commands[i].kind && r[i].recordId == commands[i].recordId
  {
    if commands != [] {
      ResolvedAims(lib, fields, rows, b, commands[..|commands| - 1]);
    }
  }

  lemma ResolvedKeepsAims(env: Environment, s: State, table: string, commands: seq<Command>, now: int)
    requires Resolved(env, s, table, commands, now).Ok? && Separate(commands)
    ensures var r := Resolved(env, s, table, commands, now).value;
            Separate(r.1) && r.0.rows == s.rows && r.0.nextRecord == s.nextRecord && |r.1| == |commands|
            && forall i | 0 <= i < |commands| :: r.1[i].kind == commands[i].kind && r.1[i].recordId == commands[i].recordId
  {
    if HasChoices(commands) {
      ResolvedAims(env.lib, s.fields, s.rows, StartBatch(s.fields, ChoiceFields(AllChoices(commands)), s.nextOption), commands);
    }
  }

  /** A valid batch names each record once, provided the empty string is no record identifier. */
  lemma ValidIsSeparate(lib: Library, commands: seq<Command>)
    requires ValidBatch(lib, commands) && !lib.recordId("")
    ensures Separate(commands)
  {
    forall i, j | 0 <= i < j < |commands| && commands[j].kind != CreateRecord ensures !Aims(commands[i], commands[j].recordId) {
      assert commands[i] in commands && commands[j] in commands;
    }
  }

  /** Main result: after a committed batch every record there was has the effect of the one command that names it, with
      its choices resolved, or is as it was. */
  lemma BatchEffect(env: Environment, s: State, table: string, commands: seq<Command>, now: int, id: string)
    requires ValidBatch(env.lib, commands) && !env.lib.recordId("") && Counted(env, s) && id in s.rows
    requires Mutated(env, s, table, commands, now).Ok?
    ensures var t := Mutated(env, s, table, commands, now).value.0;
            var resolved := Resolved(env, s, table, commands, now).value.1;
            id in t.rows && RowAfter(env.lib, t.fields, resolved, id, s.rows[id], t.rows[id])
  {
    ValidIsSeparate(env.lib, commands);
    ResolvedKeepsAims(env, s, table, commands, now);
    var r := Resolved(env, s, table, commands, now).value;
    EffectsOfAll(env, r.0, table, r.1, now);
    assert !Unborn(env, r.0, id);
    assert RecordAfter(env, r.0, ApplyAll(env, r.0, table, r.1, now).value.0, r.1, id);
  }

  lemma ResolvedUnguessed(env: Environment, s: State, table: string, commands: seq<Command>, now: int)
    requires Resolved(env, s, table, commands, now).Ok? && Separate(commands) && Unguessed(env, s, commands)
    ensures Unguessed(env, Resolved(env, s, table, commands, now).value.0, Resolved(env, s, table, commands, now).value.1)
  {
    ResolvedKeepsAims(env, s, table, commands, now);
    var r := Resolved(env, s, table, commands, now).value;
    forall c | c in r.1 && c.kind != CreateRecord ensures !Unborn(env, r.0, c.recordId) {
      var i :| 0 <= i < |r.1| && r.1[i] == c;
      assert commands[i] in commands;
      assert !Unborn(env, s, commands[i].recordId);
    }
  }

  /** A batch commits exactly when its choices resolve and each of the resolved commands would commit alone. */
  lemma BatchAllOrNone(env: Environment, s: State, table: string, commands: seq<Command>, now: int)
    requires ValidBatch(env.lib, commands) && !env.lib.recordId("") && Unguessed(env, s, commands)
    ensures Mutated(env, s, table, commands, now).Ok? <==>
            Resolved(env, s, table, commands, now).Ok? &&
            var r := Resolved(env, s, table, commands, now).value;
            forall c | c in r.1 :: Alone(env, r.0, table, c, now)
  {
    ValidIsSeparate(env.lib, commands);
    if Resolved(env, s, table, commands, now).Ok? {
      var r := Resolved(env, s, table, commands, now).value;
      ResolvedKeepsAims(env, s, table, commands, now);
      ResolvedUnguessed(env, s, table, commands, now);
      AllOrNone(env, r.0, table, r.1, now);
    }
  }

  /** The order of a batch without choices does not matter. (With choices it decides which option gets which of the
      generated identifiers.) */
  lemma BatchOrderIrrelevant(env: Environment, s: State, table: string, one: seq<Command>, other: seq<Command>, now: int)
    requires ValidBatch(env.lib, one) && ValidBatch(env.lib, other) && !env.lib.recordId("") && Counted(env, s)
    requires Unguessed(env, s, one) && !HasChoices(one) && forall c :: c in one <==> c in other
    ensures Mutated(env, s, table, one, now).Ok? <==> Mutated(env, s, table, other, now).Ok?
    ensures Mutated(env, s, table, one, now).Ok? ==>
              forall id | id in s.rows ::
                Same(Mutated(env, s, table, one, now).value.0, Mutated(env, s, table, other, now).value.0, id)
  {
    ValidIsSeparate(env.lib, one);
    ValidIsSeparate(env.lib, other);
    WithoutChoices(env, s, table, one, now);
    WithoutChoices(env, s, table, other, now);
    OrderIrrelevant(env, s, table, one, other, now);
  }

  lemma WithoutChoices(env: Environment, s: State, table: string, commands: seq<Command>, now: int)
    requires !HasChoices(commands)
    ensures Mutated(env, s, table, commands, now) == ApplyAll(env, s, table, commands, now)
  {
  }
}
