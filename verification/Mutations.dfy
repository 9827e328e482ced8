/** A mutation batch over one table's records: compare-and-swap on revisions, the change log, and atomicity. */
module Mutations {
  import opened Results
  import opened Schema
  import opened Values
  import opened Commands
  import opened Orders
  import opened ChoiceOptions
  import opened RecordDiff
  import opened RecordOrder

  /** Everything a transaction on the table reads or writes. `nextRecord` and `nextOption` number the identifiers
      still to be generated. */
  datatype State = State(fields: Fields, rows: map<string, Row>, log: seq<Change>, nextRecord: nat, nextOption: nat)

  datatype Environment = Environment(
    lib: Library,
    recordIdAt: nat -> string,
    attachmentsReady: (Cells, Fields) -> bool)

  datatype Failure =
    | NoSuchRecord(recordId: string)
    | RevisionConflict(index: nat, recordId: string, expected: int, current: nat)
    | BadTransition(recordId: string)
    | InvalidValues(index: nat)
    | UnsupportedKind(index: nat)
    | ChoicesFailed(problem: PrepareError)

  /** `applied` is false for a command that left the record as it was. */
  datatype CommandResult = CommandResult(applied: bool, recordId: string)

  type Step = (State, CommandResult)

  // ----- one command -----

  function Logged(s: State, table: string, kind: ChangeKind, id: string, revision: nat, changes: seq<FieldChange>, now: int): Change {
    Change(|s.log| + 1, table, kind, id, revision, changes, now)
  }

  function NewRow(env: Environment, s: State, table: string, values: Cells, now: int): Row {
    Row(table, 1, values, Projection(env.lib, values, s.fields), SearchText(env.lib, values, s.fields),
        AppendPosition(s.rows, table), now, false)
  }

  function Inserted(env: Environment, s: State, table: string, values: Cells, now: int): Step {
    var id := env.recordIdAt(s.nextRecord);
    (s.(rows := s.rows[id := NewRow(env, s, table, values, now)],
        log := s.log + [Logged(s, table, RecordCreated, id, 1, [], now)],
        nextRecord := s.nextRecord + 1),
     CommandResult(true, id))
  }

  function ApplyCreate(env: Environment, s: State, table: string, index: nat, c: Command, now: int): Result<Step, Failure> {
    match NormalizeCreate(env.lib, if c.values.Some? then c.values.value else map[], s.fields)
    case None => Err(InvalidValues(index))
    case Some(values) =>
      if !env.attachmentsReady(values, s.fields) then Err(InvalidValues(index))
      else Ok(Inserted(env, s, table, values, now))
  }

  /** The row found for a command, its revision checked. */
  function Locked(s: State, table: string, index: nat, c: Command): Result<Row, Failure> {
    if c.recordId !in s.rows || s.rows[c.recordId].tableId != table then Err(NoSuchRecord(c.recordId))
    else if s.rows[c.recordId].revision != c.expectedRevision then
      Err(RevisionConflict(index, c.recordId, c.expectedRevision, s.rows[c.recordId].revision))
    else Ok(s.rows[c.recordId])
  }

  function Rewritten(env: Environment, s: State, row: Row, values: Cells): Row {
    row.(values := values, queryValues := Projection(env.lib, values, s.fields),
         searchText := SearchText(env.lib, values, s.fields), revision := row.revision + 1)
  }

  /** An update once its values are normalised: refused, without effect, or written. */
  function Update(env: Environment, s: State, table: string, index: nat, id: string, row: Row, normalized: Option<Cells>, now: int)
    : Result<Step, Failure>
  {
    match normalized
    case None => Err(InvalidValues(index))
    case Some(values) =>
      if !env.attachmentsReady(values, s.fields) then Err(InvalidValues(index))
      else if values == row.values then Ok((s, CommandResult(false, id)))
      else
        Ok((s.(rows := s.rows[id := Rewritten(env, s, row, values)],
               log := s.log + [Logged(s, table, RecordUpdated, id, row.revision + 1, Diff(row.values, values), now)]),
            CommandResult(true, id)))
  }

  function ApplyUpdate(env: Environment, s: State, table: string, index: nat, c: Command, now: int): Result<Step, Failure> {
    var row :- Locked(s, table, index, c);
    if row.deleted then Err(BadTransition(c.recordId))
    else Update(env, s, table, index, c.recordId, row, NormalizeUpdate(env.lib, row.values, c.set_, c.unset, s.fields), now)
  }

  function ApplyLifecycle(s: State, table: string, index: nat, c: Command, deleting: bool, now: int): Result<Step, Failure> {
    var row :- Locked(s, table, index, c);
    if row.deleted == deleting then Err(BadTransition(c.recordId))
    else
      Ok((s.(rows := s.rows[c.recordId := row.(deleted := deleting, revision := row.revision + 1)],
             log := s.log + [Logged(s, table, if deleting then RecordDeleted else RecordRestored, c.recordId,
                                    row.revision + 1, [], now)]),
          CommandResult(true, c.recordId)))
  }

  function Apply(env: Environment, s: State, table: string, index: nat, c: Command, now: int): Result<Step, Failure> {
    match c.kind
    case CreateRecord => ApplyCreate(env, s, table, index, c, now)
    case UpdateRecord => ApplyUpdate(env, s, table, index, c, now)
    case DeleteRecord => ApplyLifecycle(s, table, index, c, true, now)
    case RestoreRecord => ApplyLifecycle(s, table, index, c, false, now)
    case OtherKind => Err(UnsupportedKind(index))
  }

  // ----- a batch -----

  type Batched = (State, seq<CommandResult>)

  function ApplyNext(env: Environment, before: Batched, table: string, c: Command, now: int): Result<Batched, Failure> {
    var r :- Apply(env, before.0, table, |before.1|, c, now);
    Ok((r.0, before.1 + [r.1]))
  }

  function ApplyAll(env: Environment, s: State, table: string, commands: seq<Command>, now: int): Result<Batched, Failure> {
    if commands == [] then Ok((s, []))
    else
      var before :- ApplyAll(env, s, table, commands[..|commands| - 1], now);
      ApplyNext(env, before, table, commands[|commands| - 1], now)
  }

  predicate HasChoices(commands: seq<Command>) {
    exists c | c in commands :: c.choices != []
  }

  /** The batch's choices resolved: commands carrying plain values, and the state with the options they created. One
      schema change is logged per field that gained options, in identifier order. */
  function Resolved(env: Environment, s: State, table: string, commands: seq<Command>, now: int): Result<(State, seq<Command>), Failure> {
    if !HasChoices(commands) then Ok((s, commands))
    else
      match PrepareChoices(env.lib, s.fields, s.rows, table, commands, s.nextOption)
      case Err(e) => Err(ChoicesFailed(e))
      case Ok(p) =>
        var named := SortedSet(ChoiceFields(AllChoices(commands)));
        Ok((s.(fields := p.fields, nextOption := p.batch.next, log := LogFields(s.log, table, p, named, now)), p.commands))
  }

  function LogFields(log: seq<Change>, table: string, p: Prepared, ids: seq<string>, now: int): seq<Change> {
    if ids == [] then log
    else
      var front := LogFields(log, table, p, ids[..|ids| - 1], now);
      var f := ids[|ids| - 1];
      if f in p.batch.deltas && p.batch.deltas[f].created != [] && f in p.fields then
        front + [Change(|front| + 1, table, SchemaChanged, f, p.fields[f].revision, [], now)]
      else front
  }

  function Mutated(env: Environment, s: State, table: string, commands: seq<Command>, now: int): Result<Batched, Failure> {
    var r :- Resolved(env, s, table, commands, now);
    ApplyAll(env, r.0, table, r.1, now)
  }

  // ----- the transaction -----

  lemma {:induction false} ApplyAllFails(env: Environment, s: State, table: string, commands: seq<Command>, now: int, n: nat)
    requires n <= |commands| && ApplyAll(env, s, table, commands[..n], now).Err?
    ensures ApplyAll(env, s, table, commands, now) == ApplyAll(env, s, table, commands[..n], now)
  {
    if n == |commands| {
      assert commands[..n] == commands;
    } else {
      assert commands[..|commands| - 1][..n] == commands[..n];
      ApplyAllFails(env, s, table, commands[..|commands| - 1], now, n);
    }
  }

  lemma ApplyAllStep(env: Environment, s: State, table: string, commands: seq<Command>, now: int, i: nat, before: Batched)
    requires i < |commands| && ApplyAll(env, s, table, commands[..i], now) == Ok(before)
    ensures ApplyAll(env, s, table, commands[..i + 1], now) == ApplyNext(env, before, table, commands[i], now)
  {
    assert commands[..i + 1][..i] == commands[..i];
  }

  method ApplyCommands(env: Environment, s: State, table: string, commands: seq<Command>, now: int)
    returns (outcome: Result<Batched, Failure>)
    ensures outcome == ApplyAll(env, s, table, commands, now)
  {
    var done: Batched := (s, []);
    var index := 0;
    while index < |commands|
      invariant 0 <= index <= |commands|
      invariant ApplyAll(env, s, table, commands[..index], now) == Ok(done)
    {
      ApplyAllStep(env, s, table, commands, now, index, done);
      var next := ApplyNext(env, done, table, commands[index], now);
      if next.Err? {
        ApplyAllFails(env, s, table, commands, now, index + 1);
        return next;
      }
      done := next.value;
      index := index + 1;
    }
    assert commands[..index] == commands;
    return Ok(done);
  }

  method AnyChoices(commands: seq<Command>) returns (found: bool)
    ensures found == HasChoices(commands)
  {
    var i := 0;
    while i < |commands|
      invariant 0 <= i <= |commands|
      invariant forall k | 0 <= k < i :: commands[k].choices == []
    {
      if commands[i].choices != [] {
        assert commands[i] in commands;
        return true;
      }
      i := i + 1;
    }
    return false;
  }

  class RecordStore {
    const env: Environment
    var state: State

    constructor (env: Environment, state: State)
      ensures this.env == env && this.state == state
    {
      this.env, this.state := env, state;
    }

    /** Commits the whole batch or leaves the table as it was. */
    method MutateRecords(table: string, commands: seq<Command>, now: int) returns (outcome: Result<seq<CommandResult>, Failure>)
      modifies this
      ensures match Mutated(env, old(state), table, commands, now)
              case Ok(done) => state == done.0 && outcome == Ok(done.1)
              case Err(e) => state == old(state) && outcome == Err(e)
    {
      var working, rewritten := state, commands;
      var hasChoices := AnyChoices(commands);
      if hasChoices {
        var prepared := PrepareChoiceMutation(env.lib, state.fields, state.rows, table, commands, state.nextOption);
        if prepared.Err? {
          return Err(ChoicesFailed(prepared.error));
        }
        var p := prepared.value;
        var log := LogPrepared(state.log, table, p, SortedSet(ChoiceFields(AllChoices(commands))), now);
        working := state.(fields := p.fields, nextOption := p.batch.next, log := log);
        rewritten := p.commands;
      }
      var done := ApplyCommands(env, working, table, rewritten, now);
      if done.Err? {
        return Err(done.error);
      }
      state := done.value.0;
      return Ok(done.value.1);
    }
  }

  method LogPrepared(before: seq<Change>, table: string, p: Prepared, ids: seq<string>, now: int) returns (log: seq<Change>)
    ensures log == LogFields(before, table, p, ids, now)
  {
    log := before;
    var i := 0;
    while i < |ids|
      invariant 0 <= i <= |ids|
      invariant log == LogFields(before, table, p, ids[..i], now)
    {
      assert ids[..i + 1][..i] == ids[..i];
      var f := ids[i];
      if f in p.batch.deltas && p.batch.deltas[f].created != [] && f in p.fields {
        log := log + [Change(|log| + 1, table, SchemaChanged, f, p.fields[f].revision, [], now)];
      }
      i := i + 1;
    }
    assert ids[..i] == ids;
  }

  // ----- bookkeeping: a record's revision counts its log entries -----

  predicate Bumps(c: Change, id: string) {
    c.objectId == id && (c.kind == RecordUpdated || c.kind == RecordDeleted || c.kind == RecordRestored)
  }

  function BumpCount(log: seq<Change>, id: string): nat {
    if log == [] then 0 else BumpCount(log[..|log| - 1], id) + if Bumps(log[|log| - 1], id) then 1 else 0
  }

  lemma BumpMore(log: seq<Change>, c: Change, id: string)
    ensures BumpCount(log + [c], id) == BumpCount(log, id) + if Bumps(c, id) then 1 else 0
  {
    assert (log + [c])[..|log|] == log;
  }

  /** Records carry one revision more than their entries; identifiers to come have no entries and no record. */
  ghost predicate Counted(env: Environment, s: State) {
    && (forall id | id in s.rows :: s.rows[id].revision == 1 + BumpCount(s.log, id))
    && (forall n | n >= s.nextRecord :: env.recordIdAt(n) !in s.rows && BumpCount(s.log, env.recordIdAt(n)) == 0)
  }

  ghost predicate FreshIds(env: Environment) {
    forall m, n | m != n :: env.recordIdAt(m) != env.recordIdAt(n)
  }

  /** One entry appended and one row written, so that the revision still counts the entries. */
  lemma WriteCounted(env: Environment, s: State, id: string, row: Row, c: Change, next: nat)
    requires Counted(env, s) && next >= s.nextRecord
    requires forall n | n >= next :: env.recordIdAt(n) != id
    requires Bumps(c, id) || (forall k :: !Bumps(c, k))
    requires row.revision == 1 + BumpCount(s.log, id) + if Bumps(c, id) then 1 else 0
    ensures Counted(env, s.(rows := s.rows[id := row], log := s.log + [c], nextRecord := next))
  {
    forall k ensures BumpCount(s.log + [c], k) == BumpCount(s.log, k) + if Bumps(c, k) then 1 else 0 {
      BumpMore(s.log, c, k);
    }
  }

  // ----- what an applied command writes -----

  function Wrote(s: State, id: string, row: Row, entry: Change, next: nat): State {
    s.(rows := s.rows[id := row], log := s.log + [entry], nextRecord := next)
  }

  ghost predicate RowIndexed(lib: Library, fields: Fields, row: Row) {
    row.queryValues == Projection(lib, row.values, fields) && row.searchText == SearchText(lib, row.values, fields)
  }

  ghost predicate RowStored(lib: Library, fields: Fields, row: Row) {
    forall f | f in row.values && f in fields :: Stored(lib, row.values[f], fields[f].fieldType, fields[f].config)
  }

  /** A new row comes with its creation entry. */
  ghost predicate Creates(env: Environment, s: State, table: string, id: string, row: Row, entry: Change, next: nat) {
    && id == env.recordIdAt(s.nextRecord) && next == s.nextRecord + 1
    && entry.kind == RecordCreated && row.tableId == table && row.revision == 1 && !row.deleted
    && RowIndexed(env.lib, s.fields, row)
  }

  /** A changed row keeps its place and comes with an entry that says exactly what changed. */
  ghost predicate Changes(env: Environment, s: State, table: string, id: string, row: Row, entry: Change, next: nat) {
    && id in s.rows && s.rows[id].tableId == table && next == s.nextRecord && Bumps(entry, id)
    && row.revision == s.rows[id].revision + 1 && row.position == s.rows[id].position
    && row.tableId == table && row.createdAt == s.rows[id].createdAt
    && (if entry.kind == RecordUpdated then
          !row.deleted && !s.rows[id].deleted && entry.fields == Diff(s.rows[id].values, row.values)
          && entry.fields != [] && RowIndexed(env.lib, s.fields, row)
        else
          row.values == s.rows[id].values && row.queryValues == s.rows[id].queryValues
          && row.searchText == s.rows[id].searchText && row.deleted == !s.rows[id].deleted
          && (entry.kind == RecordDeleted <==> row.deleted) && entry.fields == [])
  }

  ghost predicate Writes(env: Environment, s: State, table: string, id: string, row: Row, entry: Change, next: nat) {
    && entry.objectId == id && entry.tableId == table && entry.revision == row.revision && entry.sequence == |s.log| + 1
    && (Creates(env, s, table, id, row, entry, next) || Changes(env, s, table, id, row, entry, next))
  }

  lemma CreateWrites(env: Environment, s: State, table: string, index: nat, c: Command, now: int)
    returns (row: Row, entry: Change, next: nat)
    requires ApplyCreate(env, s, table, index, c, now).Ok?
    ensures var r := ApplyCreate(env, s, table, index, c, now).value;
            r.1.applied && r.0 == Wrote(s, r.1.recordId, row, entry, next)
            && Writes(env, s, table, r.1.recordId, row, entry, next)
  {
    var values := NormalizeCreate(env.lib, if c.values.Some? then c.values.value else map[], s.fields).value;
    row := NewRow(env, s, table, values, now);
    entry := Logged(s, table, RecordCreated, env.recordIdAt(s.nextRecord), 1, [], now);
    next := s.nextRecord + 1;
  }

  lemma UpdateWrites(env: Environment, s: State, table: string, index: nat, id: string, normalized: Option<Cells>, now: int)
    returns (row: Row, entry: Change, next: nat)
    requires id in s.rows && s.rows[id].tableId == table && !s.rows[id].deleted
    requires Update(env, s, table, index, id, s.rows[id], normalized, now).Ok?
    ensures var r := Update(env, s, table, index, id, s.rows[id], normalized, now).value;
            if r.1.applied then
              r.0 == Wrote(s, r.1.recordId, row, entry, next) && Writes(env, s, table, r.1.recordId, row, entry, next)
            else r.0 == s
  {
    var values := normalized.value;
    row := Rewritten(env, s, s.rows[id], values);
    entry := Logged(s, table, RecordUpdated, id, s.rows[id].revision + 1, Diff(s.rows[id].values, values), now);
    next := s.nextRecord;
    if values != s.rows[id].values {
      RewriteWrites(env, s, table, id, values, now);
      assert Update(env, s, table, index, id, s.rows[id], normalized, now) ==
             Ok((Wrote(s, id, row, entry, next), CommandResult(true, id)));
    }
  }

  lemma RewriteWrites(env: Environment, s: State, table: string, id: string, values: Cells, now: int)
    requires id in s.rows && s.rows[id].tableId == table && !s.rows[id].deleted && values != s.rows[id].values
    ensures Writes(env, s, table, id, Rewritten(env, s, s.rows[id], values),
                   Logged(s, table, RecordUpdated, id, s.rows[id].revision + 1, Diff(s.rows[id].values, values), now), s.nextRecord)
  {
    assert Diff(s.rows[id].values, values) != [] by { DiffIsMinimal(s.rows[id].values, values); }
  }

  lemma LifecycleWrites(env: Environment, s: State, table: string, index: nat, c: Command, deleting: bool, now: int)
    returns (row: Row, entry: Change, next: nat)
    requires ApplyLifecycle(s, table, index, c, deleting, now).Ok?
    ensures var r := ApplyLifecycle(s, table, index, c, deleting, now).value;
            r.1.applied && r.0 == Wrote(s, r.1.recordId, row, entry, next)
            && Writes(env, s, table, r.1.recordId, row, entry, next)
  {
    var old_ := s.rows[c.recordId];
    row := old_.(deleted := deleting, revision := old_.revision + 1);
    entry := Logged(s, table, if deleting then RecordDeleted else RecordRestored, c.recordId, old_.revision + 1, [], now);
    next := s.nextRecord;
  }

  /** A command that succeeds either changes nothing at all or writes one row and one entry that belong together. */
  lemma ApplyWrites(env: Environment, s: State, table: string, index: nat, c: Command, now: int)
    returns (row: Row, entry: Change, next: nat)
    requires Apply(env, s, table, index, c, now).Ok?
    ensures var r := Apply(env, s, table, index, c, now).value;
            if r.1.applied then
              r.0 == Wrote(s, r.1.recordId, row, entry, next) && Writes(env, s, table, r.1.recordId, row, entry, next)
            else r.0 == s
  {
    match c.kind
    case CreateRecord => row, entry, next := CreateWrites(env, s, table, index, c, now);
    case UpdateRecord =>
      row, entry, next := UpdateWrites(env, s, table, index, c.recordId,
                                       NormalizeUpdate(env.lib, s.rows[c.recordId].values, c.set_, c.unset, s.fields), now);
    case DeleteRecord => row, entry, next := LifecycleWrites(env, s, table, index, c, true, now);
    case RestoreRecord => row, entry, next := LifecycleWrites(env, s, table, index, c, false, now);
  }

  lemma WritesCounted(env: Environment, s: State, table: string, id: string, row: Row, entry: Change, next: nat)
    requires FreshIds(env) && Counted(env, s) && Writes(env, s, table, id, row, entry, next)
    ensures Counted(env, Wrote(s, id, row, entry, next))
  {
    WriteCounted(env, s, id, row, entry, next);
  }

  // ----- undo and redo along the log -----

  predicate Updates(c: Change, id: string) {
    c.kind == RecordUpdated && c.objectId == id
  }

  /** The values a record had when the log was `start` entries long, from what it has now. */
  function Undone(log: seq<Change>, start: nat, id: string, values: Cells): Cells {
    if |log| <= start then values
    else
      var c := log[|log| - 1];
      Undone(log[..|log| - 1], start, id, if Updates(c, id) then Backward(values, c.fields) else values)
  }

  function Redone(log: seq<Change>, start: nat, id: string, values: Cells): Cells {
    if |log| <= start then values
    else
      var c := log[|log| - 1];
      var before := Redone(log[..|log| - 1], start, id, values);
      if Updates(c, id) then Forward(before, c.fields) else before
  }

  ghost predicate RowTraced(s: State, t: State, id: string) {
    && id in s.rows && id in t.rows
    && Undone(t.log, |s.log|, id, t.rows[id].values) == s.rows[id].values
    && Redone(t.log, |s.log|, id, s.rows[id].values) == t.rows[id].values
  }

  /** The log between two states takes every record of the first to its values in the second and back. */
  ghost predicate Traced(s: State, t: State) {
    s.log <= t.log && forall id | id in s.rows :: RowTraced(s, t, id)
  }

  lemma {:induction false} UndoneSplit(log: seq<Change>, start: nat, mid: nat, id: string, values: Cells)
    requires start <= mid <= |log|
    ensures Undone(log, start, id, values) == Undone(log[..mid], start, id, Undone(log, mid, id, values))
  {
    if mid == |log| {
      assert log[..mid] == log;
    } else {
      var c, front := log[|log| - 1], log[..|log| - 1];
      assert front[..mid] == log[..mid];
      UndoneSplit(front, start, mid, id, if Updates(c, id) then Backward(values, c.fields) else values);
    }
  }

  lemma {:induction false} RedoneSplit(log: seq<Change>, start: nat, mid: nat, id: string, values: Cells)
    requires start <= mid <= |log|
    ensures Redone(log, start, id, values) == Redone(log, mid, id, Redone(log[..mid], start, id, values))
  {
    if mid == |log| {
      assert log[..mid] == log;
    } else {
      var front := log[..|log| - 1];
      assert front[..mid] == log[..mid];
      RedoneSplit(front, start, mid, id, values);
    }
  }

  lemma TracedTrans(s: State, m: State, t: State)
    requires Traced(s, m) && Traced(m, t)
    ensures Traced(s, t)
  {
    assert t.log[..|m.log|] == m.log;
    forall id | id in s.rows ensures RowTraced(s, t, id) {
      assert RowTraced(s, m, id) && RowTraced(m, t, id);
      UndoneSplit(t.log, |s.log|, |m.log|, id, t.rows[id].values);
      RedoneSplit(t.log, |s.log|, |m.log|, id, s.rows[id].values);
    }
  }

  lemma OneEntry(log: seq<Change>, c: Change, id: string, values: Cells)
    ensures Undone(log + [c], |log|, id, values) == if Updates(c, id) then Backward(values, c.fields) else values
    ensures Redone(log + [c], |log|, id, values) == if Updates(c, id) then Forward(values, c.fields) else values
  {
    assert (log + [c])[..|log|] == log;
  }

  lemma WritesTraced(env: Environment, s: State, table: string, id: string, row: Row, entry: Change, next: nat)
    requires Writes(env, s, table, id, row, entry, next)
    requires Creates(env, s, table, id, row, entry, next) ==> id !in s.rows
    ensures Traced(s, Wrote(s, id, row, entry, next))
  {
    var t := Wrote(s, id, row, entry, next);
    forall k | k in s.rows ensures RowTraced(s, t, k) {
      OneEntry(s.log, entry, k, s.rows[k].values);
      OneEntry(s.log, entry, k, t.rows[k].values);
      if k == id {
        DiffRoundTrip(s.rows[k].values, row.values);
      }
    }
  }

  // ----- what every command and every batch keeps -----

  ghost predicate Indexed(env: Environment, s: State) {
    forall id | id in s.rows :: RowIndexed(env.lib, s.fields, s.rows[id])
  }

  /** From `s` to `t` by commands: the log tells the whole story and says how many commands were applied. */
  ghost predicate Advances(env: Environment, s: State, t: State, applied: nat) {
    && Counted(env, t) && Traced(s, t) && |t.log| == |s.log| + applied
    && t.fields == s.fields && t.nextOption == s.nextOption && (Indexed(env, s) ==> Indexed(env, t))
  }

  lemma CreatesFresh(env: Environment, s: State, table: string, id: string, row: Row, entry: Change, next: nat)
    requires Counted(env, s) && Creates(env, s, table, id, row, entry, next)
    ensures id !in s.rows
  {
  }

  lemma TracedRefl(s: State)
    ensures Traced(s, s)
  {
  }

  lemma ApplyKeeps(env: Environment, s: State, table: string, index: nat, c: Command, now: int)
    requires FreshIds(env) && Counted(env, s) && Apply(env, s, table, index, c, now).Ok?
    ensures var r := Apply(env, s, table, index, c, now).value;
            Advances(env, s, r.0, if r.1.applied then 1 else 0)
  {
    var r := Apply(env, s, table, index, c, now).value;
    var row, entry, next := ApplyWrites(env, s, table, index, c, now);
    if r.1.applied {
      WritesAdvances(env, s, table, r.1.recordId, row, entry, next);
    } else {
      TracedRefl(s);
    }
  }

  lemma WritesAdvances(env: Environment, s: State, table: string, id: string, row: Row, entry: Change, next: nat)
    requires FreshIds(env) && Counted(env, s) && Writes(env, s, table, id, row, entry, next)
    ensures Advances(env, s, Wrote(s, id, row, entry, next), 1)
  {
    WritesCounted(env, s, table, id, row, entry, next);
    if Creates(env, s, table, id, row, entry, next) {
      CreatesFresh(env, s, table, id, row, entry, next);
    }
    WritesTraced(env, s, table, id, row, entry, next);
  }

  function AppliedCount(results: seq<CommandResult>): nat {
    if results == [] then 0
    else AppliedCount(results[..|results| - 1]) + if results[|results| - 1].applied then 1 else 0
  }

  lemma AppliedMore(results: seq<CommandResult>, r: CommandResult)
    ensures AppliedCount(results + [r]) == AppliedCount(results) + if r.applied then 1 else 0
  {
    assert (results + [r])[..|results|] == results;
  }

  lemma {:induction false} ApplyAllKeeps(env: Environment, s: State, table: string, commands: seq<Command>, now: int)
    requires FreshIds(env) && Counted(env, s) && ApplyAll(env, s, table, commands, now).Ok?
    ensures var r := ApplyAll(env, s, table, commands, now).value;
            Advances(env, s, r.0, AppliedCount(r.1)) && |r.1| == |commands|
  {
    if commands == [] {
      TracedRefl(s);
    } else {
      var front := commands[..|commands| - 1];
      ApplyAllKeeps(env, s, table, front, now);
      var before := ApplyAll(env, s, table, front, now).value;
      var last := Apply(env, before.0, table, |before.1|, commands[|commands| - 1], now).value;
      ApplyKeeps(env, before.0, table, |before.1|, commands[|commands| - 1], now);
      TracedTrans(s, before.0, last.0);
      AppliedMore(before.1, last.1);
    }
  }

  // ----- choices first -----

  ghost predicate OnlySchema(before: seq<Change>, after: seq<Change>) {
    before <= after && forall c | c in after[|before|..] :: c.kind == SchemaChanged
  }

  lemma {:induction false} LogFieldsIsSchema(log: seq<Change>, table: string, p: Prepared, ids: seq<string>, now: int)
    ensures OnlySchema(log, LogFields(log, table, p, ids, now))
  {
    if ids != [] {
      var front := LogFields(log, table, p, ids[..|ids| - 1], now);
      LogFieldsIsSchema(log, table, p, ids[..|ids| - 1], now);
      var all := LogFields(log, table, p, ids, now);
      if |all| > |front| {
        assert all[|log|..] == front[|log|..] + [all[|front|]];
      }
    }
  }

  lemma {:induction false} SchemaNeutral(before: seq<Change>, after: seq<Change>, id: string, values: Cells)
    requires OnlySchema(before, after)
    ensures BumpCount(after, id) == BumpCount(before, id)
    ensures Undone(after, |before|, id, values) == values && Redone(after, |before|, id, values) == values
    decreases |after|
  {
    if |after| > |before| {
      var front := after[..|after| - 1];
      assert after[|before|..] == front[|before|..] + [after[|after| - 1]];
      assert after[|after| - 1] in after[|before|..];
      SchemaNeutral(before, front, id, values);
    } else {
      assert before == after;
    }
  }

  /** Fields keep what the index depends on. */
  ghost predicate SameShape(a: Fields, b: Fields) {
    a.Keys == b.Keys && forall f | f in a :: a[f].fieldType == b[f].fieldType && a[f].deleted == b[f].deleted
  }

  lemma SameSearch(lib: Library, values: Cells, a: Fields, b: Fields, ids: seq<string>)
    requires SameShape(a, b)
    ensures JoinParts(lib, values, a, ids) == JoinParts(lib, values, b, ids)
  {
    if ids != [] {
      SameSearch(lib, values, a, b, ids[..|ids| - 1]);
    }
  }

  lemma SameIndex(lib: Library, a: Fields, b: Fields, row: Row)
    requires SameShape(a, b) && RowIndexed(lib, a, row)
    ensures RowIndexed(lib, b, row)
  {
    SameSearch(lib, row.values, a, b, SortedSet(row.values.Keys));
    assert Projection(lib, row.values, a) == Projection(lib, row.values, b);
  }

  /** New fields and schema entries leave records alone. */
  lemma SchemaAdvances(env: Environment, s: State, t: State)
    requires Counted(env, s) && t.rows == s.rows && t.nextRecord == s.nextRecord
    requires OnlySchema(s.log, t.log) && SameShape(s.fields, t.fields)
    ensures Counted(env, t) && Traced(s, t) && (Indexed(env, s) ==> Indexed(env, t))
  {
    forall id ensures BumpCount(t.log, id) == BumpCount(s.log, id) {
      SchemaNeutral(s.log, t.log, id, map[]);
    }
    forall id | id in s.rows ensures RowTraced(s, t, id) {
      SchemaNeutral(s.log, t.log, id, s.rows[id].values);
    }
    forall id | id in s.rows && Indexed(env, s) ensures RowIndexed(env.lib, t.fields, t.rows[id]) {
      SameIndex(env.lib, s.fields, t.fields, s.rows[id]);
    }
  }

  lemma ResolvedKeeps(env: Environment, s: State, table: string, commands: seq<Command>, now: int)
    requires Counted(env, s) && Resolved(env, s, table, commands, now).Ok?
    ensures var m := Resolved(env, s, table, commands, now).value.0;
            Counted(env, m) && Traced(s, m) && (Indexed(env, s) ==> Indexed(env, m)) && m.rows == s.rows
            && OnlySchema(s.log, m.log)
  {
    if HasChoices(commands) {
      var p := PrepareChoices(env.lib, s.fields, s.rows, table, commands, s.nextOption).value;
      LogFieldsIsSchema(s.log, table, p, SortedSet(ChoiceFields(AllChoices(commands))), now);
      assert p.fields == UpdatedFields(s.fields, p.batch);
    }
    SchemaAdvances(env, s, Resolved(env, s, table, commands, now).value.0);
  }

  /** A committed batch keeps the count of every revision, leaves a log that leads back, keeps the index in step, and
      logs exactly one record entry per command that changed something. */
  lemma BatchKeeps(env: Environment, s: State, table: string, commands: seq<Command>, now: int)
    requires FreshIds(env) && Counted(env, s) && Mutated(env, s, table, commands, now).Ok?
    ensures var t := Mutated(env, s, table, commands, now).value;
            && Counted(env, t.0) && Traced(s, t.0) && (Indexed(env, s) ==> Indexed(env, t.0))
            && |t.0.log| == |Resolved(env, s, table, commands, now).value.0.log| + AppliedCount(t.1)
  {
    var m := Resolved(env, s, table, commands, now).value;
    ResolvedKeeps(env, s, table, commands, now);
    ApplyAllKeeps(env, m.0, table, m.1, now);
    TracedTrans(s, m.0, Mutated(env, s, table, commands, now).value.0);
  }

  // ----- the other writers of records -----

  datatype Transaction =
    | Mutate(commands: seq<Command>, now: int)
    | Move(recordId: string, before: Option<string>, after: Option<string>, now: int)
    | Duplicate(recordId: string, now: int)

  function MoveState(s: State, table: string, id: string, before: Option<string>, after: Option<string>, now: int): Option<State> {
    match Moved(s.rows, table, id, before, after)
    case Err(_) => None
    case Ok(rows) =>
      if id in rows then
        Some(s.(rows := rows, log := s.log + [Logged(s, table, RecordMoved, id, rows[id].revision, [], now)]))
      else None
  }

  function DuplicateState(env: Environment, s: State, table: string, id: string, now: int): Option<State> {
    if !IsActive(s.rows, table, id) then None
    else
      match NormalizeCreate(env.lib, s.rows[id].values, s.fields)
      case None => None
      case Some(values) => Some(Inserted(env, s, table, values, now).0)
  }

  /** A transaction that fails leaves the state as it was. */
  function Committed(env: Environment, s: State, table: string, tx: Transaction): State {
    match tx
    case Mutate(commands, now) =>
      (match Mutated(env, s, table, commands, now) case Ok(r) => r.0 case Err(_) => s)
    case Move(id, before, after, now) =>
      (match MoveState(s, table, id, before, after, now) case Some(t) => t case None => s)
    case Duplicate(id, now) =>
      (match DuplicateState(env, s, table, id, now) case Some(t) => t case None => s)
  }

  function Run(env: Environment, s: State, table: string, txs: seq<Transaction>): State {
    if txs == [] then s else Committed(env, Run(env, s, table, txs[..|txs| - 1]), table, txs[|txs| - 1])
  }

  lemma InsertedWrites(env: Environment, s: State, table: string, values: Cells, now: int)
    ensures var id := env.recordIdAt(s.nextRecord);
            var entry := Logged(s, table, RecordCreated, id, 1, [], now);
            && Inserted(env, s, table, values, now).0 == Wrote(s, id, NewRow(env, s, table, values, now), entry, s.nextRecord + 1)
            && Writes(env, s, table, id, NewRow(env, s, table, values, now), entry, s.nextRecord + 1)
  {
  }

  lemma DuplicateKeeps(env: Environment, s: State, table: string, id: string, now: int)
    requires FreshIds(env) && Counted(env, s) && DuplicateState(env, s, table, id, now).Some?
    ensures Advances(env, s, DuplicateState(env, s, table, id, now).value, 1)
  {
    var values := NormalizeCreate(env.lib, s.rows[id].values, s.fields).value;
    InsertedWrites(env, s, table, values, now);
    var made := env.recordIdAt(s.nextRecord);
    WritesAdvances(env, s, table, made, NewRow(env, s, table, values, now),
                   Logged(s, table, RecordCreated, made, 1, [], now), s.nextRecord + 1);
  }

  lemma MoveKeeps(env: Environment, s: State, table: string, id: string, before: Option<string>, after: Option<string>, now: int)
    requires Counted(env, s) && MoveState(s, table, id, before, after, now).Some?
    ensures Advances(env, s, MoveState(s, table, id, before, after, now).value, 1)
  {
    var t := MoveState(s, table, id, before, after, now).value;
    MoveWrites(s.rows, table, id, before, after);
    PlacedKeeps(env, s, id, t.rows[id].position, t.log[|s.log|]);
    assert t == s.(rows := s.rows[id := s.rows[id].(position := t.rows[id].position)], log := s.log + [t.log[|s.log|]]);
  }

  lemma PlacedKeeps(env: Environment, s: State, id: string, position: real, entry: Change)
    requires Counted(env, s) && id in s.rows && entry.kind == RecordMoved
    ensures Advances(env, s, s.(rows := s.rows[id := s.rows[id].(position := position)], log := s.log + [entry]), 1)
  {
    var t := s.(rows := s.rows[id := s.rows[id].(position := position)], log := s.log + [entry]);
    WriteCounted(env, s, id, s.rows[id].(position := position), entry, s.nextRecord);
    forall k | k in s.rows ensures RowTraced(s, t, k) {
      OneEntry(s.log, entry, k, s.rows[k].values);
    }
  }

  lemma CommittedKeeps(env: Environment, s: State, table: string, tx: Transaction)
    requires FreshIds(env) && Counted(env, s)
    ensures var t := Committed(env, s, table, tx);
            Counted(env, t) && Traced(s, t) && (Indexed(env, s) ==> Indexed(env, t))
  {
    TracedRefl(s);
    match tx
    case Mutate(commands, now) =>
      if Mutated(env, s, table, commands, now).Ok? { BatchKeeps(env, s, table, commands, now); }
    case Move(id, before, after, now) =>
      if MoveState(s, table, id, before, after, now).Some? { MoveKeeps(env, s, table, id, before, after, now); }
    case Duplicate(id, now) =>
      if DuplicateState(env, s, table, id, now).Some? { DuplicateKeeps(env, s, table, id, now); }
  }

  /** In every reachable state a record's revision is one plus its update, delete and restore entries, and the query
      index is the projection of the values. */
  lemma {:induction false} RunKeeps(env: Environment, s: State, table: string, txs: seq<Transaction>)
    requires FreshIds(env) && Counted(env, s)
    ensures Counted(env, Run(env, s, table, txs))
    ensures Indexed(env, s) ==> Indexed(env, Run(env, s, table, txs))
  {
    if txs != [] {
      RunKeeps(env, s, table, txs[..|txs| - 1]);
      CommittedKeeps(env, Run(env, s, table, txs[..|txs| - 1]), table, txs[|txs| - 1]);
    }
  }

  /** Every earlier version of a record can be recovered: undoing the later log entries from any state of a run gives
      the values the record had at any earlier point of it, and redoing them leads forward again. */
  lemma {:induction false} HistoryRecovers(env: Environment, s: State, table: string, txs: seq<Transaction>, i: nat)
    requires FreshIds(env) && Counted(env, s) && i <= |txs|
    ensures Traced(Run(env, s, table, txs[..i]), Run(env, s, table, txs))
  {
    if i == |txs| {
      assert txs[..i] == txs;
      TracedRefl(Run(env, s, table, txs));
    } else {
      var front := txs[..|txs| - 1];
      HistoryRecovers(env, s, table, front, i);
      assert front[..i] == txs[..i];
      RunKeeps(env, s, table, front);
      CommittedKeeps(env, Run(env, s, table, front), table, txs[|txs| - 1]);
      TracedTrans(Run(env, s, table, txs[..i]), Run(env, s, table, front), Run(env, s, table, txs));
    }
  }

  /** Field conversion rewrites values and logs only a schema change, so the log traces across it exactly when no
      record's values changed. */
  lemma RewritesAreUntraced(s: State, t: State)
    requires OnlySchema(s.log, t.log) && s.rows.Keys == t.rows.Keys
    ensures Traced(s, t) <==> forall id | id in s.rows :: t.rows[id].values == s.rows[id].values
  {
    forall id | id in s.rows ensures RowTraced(s, t, id) <==> t.rows[id].values == s.rows[id].values {
      SchemaNeutral(s.log, t.log, id, t.rows[id].values);
      SchemaNeutral(s.log, t.log, id, s.rows[id].values);
    }
  }
}
