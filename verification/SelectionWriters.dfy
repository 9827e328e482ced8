/** Every record writer reports the records whose view it changed, so that its write is a legal event for the scopes. */
module SelectionWriters {
  import opened Results
  import opened Schema
  import opened Values
  import opened Commands
  import RecordOrder
  import opened Mutations
  import opened FieldConversion
  import opened SelectionPlans
  import opened SelectionCoherence

  lemma ReportsTrans(a: map<string, Row>, b: map<string, Row>, c: map<string, Row>, table: string, first: set<string>, second: set<string>)
    requires Reports(a, b, table, first) && Reports(b, c, table, second)
    ensures Reports(a, c, table, first + second)
  {
    forall id | !SameRow(a, c, id)
      ensures id in first + second && (id in a ==> InTable(a, id, table)) && (id in c ==> InTable(c, id, table))
    {
      if SameRow(a, b, id) {
        assert !SameRow(b, c, id);
      } else if SameRow(b, c, id) {
        assert !SameRow(a, b, id);
      } else {
        assert !SameRow(a, b, id) && !SameRow(b, c, id);
      }
    }
  }

  lemma ReportsOne(rows: map<string, Row>, table: string, id: string, row: Row)
    requires row.tableId == table && (id in rows ==> rows[id].tableId == table)
    ensures Reports(rows, rows[id := row], table, {id})
  {
  }

  /** The records of a batch that were applied: what MutateRecords passes on. */
  function AppliedIds(results: seq<CommandResult>): set<string> {
    if results == [] then {}
    else AppliedIds(results[..|results| - 1]) + if results[|results| - 1].applied then {results[|results| - 1].recordId} else {}
  }

  lemma AppliedIdsMore(results: seq<CommandResult>, r: CommandResult)
    ensures AppliedIds(results + [r]) == AppliedIds(results) + if r.applied then {r.recordId} else {}
  {
    assert (results + [r])[..|results|] == results;
  }

  lemma ApplyReports(env: Environment, s: State, table: string, index: nat, c: Command, now: int)
    requires Counted(env, s) && Apply(env, s, table, index, c, now).Ok?
    ensures var r := Apply(env, s, table, index, c, now).value;
            Reports(s.rows, r.0.rows, table, if r.1.applied then {r.1.recordId} else {})
  {
    var row, entry, next := ApplyWrites(env, s, table, index, c, now);
    var r := Apply(env, s, table, index, c, now).value;
    if r.1.applied {
      if Creates(env, s, table, r.1.recordId, row, entry, next) {
        CreatesFresh(env, s, table, r.1.recordId, row, entry, next);
      }
      ReportsOne(s.rows, table, r.1.recordId, row);
    }
  }

  lemma {:induction false} ApplyAllReports(env: Environment, s: State, table: string, commands: seq<Command>, now: int)
    requires FreshIds(env) && Counted(env, s) && ApplyAll(env, s, table, commands, now).Ok?
    ensures var r := ApplyAll(env, s, table, commands, now).value;
            Reports(s.rows, r.0.rows, table, AppliedIds(r.1))
  {
    if commands != [] {
      var front := commands[..|commands| - 1];
      ApplyAllReports(env, s, table, front, now);
      ApplyAllKeeps(env, s, table, front, now);
      var before := ApplyAll(env, s, table, front, now).value;
      var last := Apply(env, before.0, table, |before.1|, commands[|commands| - 1], now).value;
      ApplyReports(env, before.0, table, |before.1|, commands[|commands| - 1], now);
      AppliedIdsMore(before.1, last.1);
      ReportsTrans(s.rows, before.0.rows, last.0.rows, table, AppliedIds(before.1), if last.1.applied then {last.1.recordId} else {});
    }
  }

  /** A mutation batch reports its applied records. */
  lemma MutationReports(env: Environment, s: State, table: string, commands: seq<Command>, now: int)
    requires FreshIds(env) && Counted(env, s) && Mutated(env, s, table, commands, now).Ok?
    ensures var t := Mutated(env, s, table, commands, now).value;
            Reports(s.rows, t.0.rows, table, AppliedIds(t.1))
  {
    var m := Resolved(env, s, table, commands, now).value;
    ResolvedKeeps(env, s, table, commands, now);
    ApplyAllReports(env, m.0, table, m.1, now);
  }

  /** A move changes nothing a rule can see, and reports nothing. */
  lemma MoveReports(s: State, table: string, id: string, before: Option<string>, after: Option<string>, now: int)
    requires MoveState(s, table, id, before, after, now).Some?
    ensures Reports(s.rows, MoveState(s, table, id, before, after, now).value.rows, table, {})
  {
    RecordOrder.MoveWrites(s.rows, table, id, before, after);
  }

  /** A duplication reports the record it made. */
  lemma DuplicateReports(env: Environment, s: State, table: string, id: string, now: int)
    requires Counted(env, s) && DuplicateState(env, s, table, id, now).Some?
    ensures Reports(s.rows, DuplicateState(env, s, table, id, now).value.rows, table, {env.recordIdAt(s.nextRecord)})
  {
    var values := NormalizeCreate(env.lib, s.rows[id].values, s.fields).value;
    assert env.recordIdAt(s.nextRecord) !in s.rows;
    ReportsOne(s.rows, table, env.recordIdAt(s.nextRecord), NewRow(env, s, table, values, now));
  }

  /** A conversion reports the records that had a value to convert. */
  lemma ConversionReports(lib: Library, s: State, table: string, r: Request, order: seq<string>, now: int)
    requires Converted(lib, s, table, r, order, now).Ok?
    requires forall id | id in order :: InTable(s.rows, id, table)
    ensures Reports(s.rows, Converted(lib, s, table, r, order, now).value.0.rows, table, IdsOfPending(PendingOf(lib, r, s.rows, order)))
  {
    var t := Converted(lib, s, table, r, order, now).value.0;
    PendingIds(lib, r, s.rows, order);
    forall id | !SameRow(s.rows, t.rows, id)
      ensures id in IdsOfPending(PendingOf(lib, r, s.rows, order)) && InTable(s.rows, id, table) && InTable(t.rows, id, table)
    {
      assert id in s.rows && id in order && OldValue(s.rows[id], r.fieldId) != Null;
    }
  }
}
