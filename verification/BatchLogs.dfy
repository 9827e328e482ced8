/** What a committed transaction leaves in the log: one entry for each record it changed, telling what happened to it. */
module BatchLogs {
  import opened Results
  import opened Schema
  import opened Values
  import opened Commands
  import opened ChoiceOptions
  import opened RecordDiff
  import opened RecordOrder
  import opened Mutations
  import opened BatchEffects
  import opened BatchCreates

  function KindOf(k: Kind): ChangeKind {
    match k
    case CreateRecord => RecordCreated
    case UpdateRecord => RecordUpdated
    case DeleteRecord => RecordDeleted
    case _ => RecordRestored
  }

  function ValuesOf(rows: map<string, Row>, id: string): Cells {
    if id in rows then rows[id].values else map[]
  }

  /** The entry for a command that changed the record `id`, between two states. */
  ghost predicate Tells(entry: Change, sequence: nat, table: string, c: Command, id: string, before: map<string, Row>,
                        after: map<string, Row>, now: int) {
    && id in after
    && entry == Change(sequence, table, KindOf(c.kind), id, after[id].revision,
                       if c.kind == UpdateRecord then Diff(ValuesOf(before, id), after[id].values) else [], now)
  }

  /** A command that changed something appended its entry; one that did not left the log alone. */
  ghost predicate LogsOne(s: State, t: State, table: string, c: Command, r: CommandResult, now: int) {
    if r.applied then
      && |t.log| == |s.log| + 1 && s.log == t.log[..|s.log|]
      && Tells(t.log[|s.log|], |s.log| + 1, table, c, r.recordId, s.rows, t.rows, now)
    else t.log == s.log
  }

  lemma CreateLogs(env: Environment, s: State, table: string, index: nat, c: Command, now: int)
    requires c.kind == CreateRecord && ApplyCreate(env, s, table, index, c, now).Ok?
    ensures var r := ApplyCreate(env, s, table, index, c, now).value; LogsOne(s, r.0, table, c, r.1, now)
  {
  }

  lemma UpdateLogs(env: Environment, s: State, table: string, index: nat, c: Command, now: int)
    requires c.kind == UpdateRecord && ApplyUpdate(env, s, table, index, c, now).Ok?
    ensures var r := ApplyUpdate(env, s, table, index, c, now).value; LogsOne(s, r.0, table, c, r.1, now)
  {
  }

  lemma LifecycleLogs(s: State, table: string, index: nat, c: Command, deleting: bool, now: int)
    requires ApplyLifecycle(s, table, index, c, deleting, now).Ok? && c.kind == if deleting then DeleteRecord else RestoreRecord
    ensures var r := ApplyLifecycle(s, table, index, c, deleting, now).value; LogsOne(s, r.0, table, c, r.1, now)
  {
  }

  lemma CommandLogs(env: Environment, s: State, table: string, index: nat, c: Command, now: int)
    requires Apply(env, s, table, index, c, now).Ok?
    ensures var r := Apply(env, s, table, index, c, now).value; LogsOne(s, r.0, table, c, r.1, now)
  {
    match c.kind
    case CreateRecord => CreateLogs(env, s, table, index, c, now);
    case UpdateRecord => UpdateLogs(env, s, table, index, c, now);
    case DeleteRecord => LifecycleLogs(s, table, index, c, true, now);
    case RestoreRecord => LifecycleLogs(s, table, index, c, false, now);
  }

  // ----- a batch -----

  /** Where the entry of the i-th command stands. */
  function EntryAt(s: State, done: Batched, i: nat): nat
    requires i <= |done.1|
  {
    |s.log| + AppliedCount(done.1[..i])
  }

  predicate Applied(done: Batched, i: int) {
    0 <= i < |done.1| && done.1[i].applied
  }

  /** The entry of an applied command tells what became of its record between the two states. */
  ghost predicate EntryTells(s: State, table: string, commands: seq<Command>, now: int, done: Batched, i: nat)
    requires i < |commands| && |done.1| == |commands|
  {
    var k := EntryAt(s, done, i);
    k < |done.0.log| && Tells(done.0.log[k], k + 1, table, commands[i], done.1[i].recordId, s.rows, done.0.rows, now)
  }

  ghost predicate AllLogged(s: State, table: string, commands: seq<Command>, now: int, done: Batched) {
    && |done.1| == |commands| && |done.0.log| == |s.log| + AppliedCount(done.1) && s.log <= done.0.log
    && forall i | Applied(done, i) :: EntryTells(s, table, commands, now, done, i)
  }

  /** The records that earlier commands changed are left alone by the next one. */
  ghost predicate LeavesAlone(before: Batched, c: Command) {
    forall i | Applied(before, i) :: !Aims(c, before.1[i].recordId)
  }

  lemma EarlierStays(env: Environment, before: Batched, table: string, c: Command, now: int, i: nat, id: string)
    requires Counted(env, before.0) && ApplyNext(env, before, table, c, now).Ok? && LeavesAlone(before, c)
    requires Applied(before, i) && id == before.1[i].recordId && id in before.0.rows
    ensures Same(before.0, ApplyNext(env, before, table, c, now).value.0, id)
  {
    CommandFrame(env, before.0, table, |before.1|, c, now, id);
  }

  /** The log has grown at its end, and the results too. */
  ghost predicate Grows(before: Batched, after: Batched) {
    && |after.1| == |before.1| + 1 && after.1[..|before.1|] == before.1 && before.0.log <= after.0.log
  }

  lemma EarlierTells(s: State, table: string, front: seq<Command>, c: Command, now: int, before: Batched, after: Batched, i: nat)
    requires AllLogged(s, table, front, now, before) && Grows(before, after) && Applied(before, i)
    requires Same(before.0, after.0, before.1[i].recordId)
    ensures after.1[i] == before.1[i] && EntryTells(s, table, front + [c], now, after, i)
  {
    assert EntryTells(s, table, front, now, before, i);
    assert after.1[i] == after.1[..|front|][i];
    assert after.1[..i] == before.1[..i] by {
      assert after.1[..i] == after.1[..|front|][..i];
    }
  }

  lemma NextGrows(env: Environment, s: State, table: string, front: seq<Command>, c: Command, now: int, before: Batched)
    requires AllLogged(s, table, front, now, before) && ApplyNext(env, before, table, c, now).Ok?
    ensures var after := ApplyNext(env, before, table, c, now).value;
            && Grows(before, after) && LogsOne(before.0, after.0, table, c, after.1[|front|], now)
            && |after.0.log| == |s.log| + AppliedCount(after.1) && s.log <= after.0.log
  {
    CommandLogs(env, before.0, table, |front|, c, now);
    var r := Apply(env, before.0, table, |front|, c, now).value;
    AppliedMore(before.1, r.1);
  }

  lemma LastTells(s: State, table: string, front: seq<Command>, c: Command, now: int, before: Batched, after: Batched)
    requires AllLogged(s, table, front, now, before) && Grows(before, after)
    requires LogsOne(before.0, after.0, table, c, after.1[|front|], now) && after.1[|front|].applied
    requires c.kind == UpdateRecord ==> ValuesOf(before.0.rows, after.1[|front|].recordId) == ValuesOf(s.rows, after.1[|front|].recordId)
    ensures EntryTells(s, table, front + [c], now, after, |front|)
  {
  }

  lemma LoggedOneMore(env: Environment, s: State, table: string, front: seq<Command>, c: Command, now: int, before: Batched)
    requires AllLogged(s, table, front, now, before) && Counted(env, before.0) && LeavesAlone(before, c)
    requires ApplyNext(env, before, table, c, now).Ok? && (c.kind != CreateRecord ==> Same(s, before.0, c.recordId))
    ensures AllLogged(s, table, front + [c], now, ApplyNext(env, before, table, c, now).value)
  {
    var after := ApplyNext(env, before, table, c, now).value;
    NextGrows(env, s, table, front, c, now, before);
    if c.kind != CreateRecord {
      CommandTells(env, before.0, table, |front|, c, now);
    }
    forall i | Applied(after, i) ensures EntryTells(s, table, front + [c], now, after, i) {
      if i < |front| {
        assert after.1[i] == after.1[..|front|][i];
        assert EntryTells(s, table, front, now, before, i);
        EarlierStays(env, before, table, c, now, i, before.1[i].recordId);
        EarlierTells(s, table, front, c, now, before, after, i);
      } else {
        LastTells(s, table, front, c, now, before, after);
      }
    }
  }

  lemma EarlierApart(env: Environment, s: State, table: string, front: seq<Command>, c: Command, now: int, before: Batched, i: nat)
    requires AllMade(env, s, table, front, now, before) && AllTold(s, front, before) && Applied(before, i)
    requires Separate(front + [c]) && (c.kind != CreateRecord ==> !Unborn(env, s, c.recordId))
    ensures !Aims(c, before.1[i].recordId)
  {
    if front[i].kind == CreateRecord {
      assert IsCreate(front, i);
      assert Made(env, s, table, front, now, before, i);
    } else {
      assert Edits(front, i);
      assert Told(s, front, before, i);
      NotAgain(front, c, i);
    }
  }

  lemma {:induction false} LogsAll(env: Environment, s: State, table: string, commands: seq<Command>, now: int)
    requires FreshIds(env) && Counted(env, s) && Separate(commands) && Unguessed(env, s, commands)
    requires ApplyAll(env, s, table, commands, now).Ok?
    ensures AllLogged(s, table, commands, now, ApplyAll(env, s, table, commands, now).value)
  {
    if commands != [] {
      var front, c := commands[..|commands| - 1], commands[|commands| - 1];
      SeparateFront(commands, front, c);
      UnguessedFront(env, s, commands, front, c);
      ApplyLast(env, s, table, commands, front, c, now);
      LogsAll(env, s, table, front, now);
      var before := ApplyAll(env, s, table, front, now).value;
      FrontFacts(env, s, table, front, c, now, before);
      LoggedOneMore(env, s, table, front, c, now, before);
    }
  }

  lemma FrontFacts(env: Environment, s: State, table: string, front: seq<Command>, c: Command, now: int, before: Batched)
    requires FreshIds(env) && Counted(env, s) && Separate(front) && Separate(front + [c]) && Unguessed(env, s, front)
    requires ApplyAll(env, s, table, front, now) == Ok(before)
    requires c.kind != CreateRecord ==> !Unborn(env, s, c.recordId) && forall d | d in front :: !Aims(d, c.recordId)
    ensures Counted(env, before.0) && LeavesAlone(before, c)
    ensures c.kind != CreateRecord ==> Same(s, before.0, c.recordId)
  {
    ApplyAllKeeps(env, s, table, front, now);
    EffectsOfAll(env, s, table, front, now);
    CreatesOfAll(env, s, table, front, now);
    AllTell(env, s, table, front, now);
    if c.kind != CreateRecord {
      Untouched(env, s, before.0, front, c.recordId);
    }
    forall i | Applied(before, i) ensures !Aims(c, before.1[i].recordId) {
      EarlierApart(env, s, table, front, c, now, before, i);
    }
  }

  /** Main result: a committed batch appends, after what its choices logged, exactly one entry for each command that changed
      something, in the order of the commands: its kind, its record, the revision and the cell changes the record ended with. */
  lemma BatchLogged(env: Environment, s: State, table: string, commands: seq<Command>, now: int)
    requires Ready(env, s, commands) && Unguessed(env, s, commands) && Mutated(env, s, table, commands, now).Ok?
    ensures var m := Resolved(env, s, table, commands, now).value;
            m.0.rows == s.rows && AllLogged(m.0, table, m.1, now, Mutated(env, s, table, commands, now).value)
  {
    ValidIsSeparate(env.lib, commands);
    ResolvedKeepsAims(env, s, table, commands, now);
    ResolvedUnguessed(env, s, table, commands, now);
    ResolvedKeeps(env, s, table, commands, now);
    var m := Resolved(env, s, table, commands, now).value;
    LogsAll(env, m.0, table, m.1, now);
  }

  // ----- moves and duplications -----

  /** A move appends one entry at the record's unchanged revision, a duplication one for the record it made. */
  lemma MoveLogged(env: Environment, s: State, table: string, id: string, before: Option<string>, after: Option<string>, now: int)
    requires MoveState(s, table, id, before, after, now).Some?
    ensures var t := MoveState(s, table, id, before, after, now).value;
            && id in s.rows && id in t.rows && t.rows[id].revision == s.rows[id].revision
            && t.log == s.log + [Change(|s.log| + 1, table, RecordMoved, id, s.rows[id].revision, [], now)]
            && t.fields == s.fields
  {
    MoveWrites(s.rows, table, id, before, after);
  }

  lemma DuplicateLogged(env: Environment, s: State, table: string, id: string, now: int)
    requires DuplicateState(env, s, table, id, now).Some?
    ensures DuplicateState(env, s, table, id, now).value.log ==
            s.log + [Change(|s.log| + 1, table, RecordCreated, env.recordIdAt(s.nextRecord), 1, [], now)]
  {
  }
}
