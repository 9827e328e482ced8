/** The conversion transaction: scan every record, verify against the preview, build the new configuration, resolve and
    rewrite. Afterwards every remaining value is valid for the new type. */
module FieldConversion {
  import opened Results
  import opened Schema
  import opened Values
  import opened Orders
  import opened ChoiceOptions
  import opened Conversion
  import opened Mutations

  datatype ConvertError =
    | NoSuchField | FieldRevision(expected: int, current: nat) | WrongState(state: string)
    | PreviewStale | TooManyOptions

  /** What the preview promised: the counts and the distinct values. */
  datatype Digest = Digest(ok: nat, lossy: nat, lost: nat, empty: nat, distincts: seq<string>)

  function DigestOf(t: Tally): Digest {
    Digest(t.ok, t.lossy, t.lost, t.empty, SortedSet(t.distinct.Keys))
  }

  /** The request: the field as the service read it, the target, and what the client confirmed. */
  datatype Request = Request(
    fieldId: string, seen: Field, target: FieldType, mode: string, expectedRevision: int, digest: Digest)

  datatype Pending = Pending(id: string, converted: Option<Value>)

  function OldValue(row: Row, f: string): Value {
    Held(row.values, f)
  }

  function ValuesOf(rows: map<string, Row>, f: string, order: seq<string>): seq<Value> {
    seq(|order|, i requires 0 <= i < |order| => if order[i] in rows then OldValue(rows[order[i]], f) else Null)
  }

  function TallyOf(lib: Library, r: Request, rows: map<string, Row>, order: seq<string>): Tally {
    AddAll(lib, ContextOf(r.seen, r.target), r.mode, ValuesOf(rows, r.fieldId, order))
  }

  /** The option list of a resolved name. */
  function ResolveName(lib: Library, target: FieldType, nameToId: map<string, string>, v: Value): Option<Value> {
    if v.Str? && lib.fold(v.text) in nameToId then
      var id := nameToId[lib.fold(v.text)];
      Some(if target == MultiSelect then List([Str(id)]) else Str(id))
    else None
  }

  function ConvertedOf(lib: Library, r: Request, v: Value): Option<Value> {
    ConvertedTo(ConvertValue(lib, ContextOf(r.seen, r.target), r.mode, v))
  }

  /** The value a cell gets, or None when it loses its value. */
  function FinalOf(lib: Library, r: Request, nameToId: map<string, string>, v: Value): Option<Value> {
    match ConvertedOf(lib, r, v)
    case None => None
    case Some(w) => if OptionTarget(ContextOf(r.seen, r.target)) then ResolveName(lib, r.target, nameToId, w) else Some(w)
  }

  function Reindexed(lib: Library, fields: Fields, row: Row, values: Cells): Row {
    row.(values := values, queryValues := Projection(lib, values, fields), searchText := SearchText(lib, values, fields))
  }

  /** A record after conversion. A cell without value, and a cell whose value comes out the same, leave the record
      untouched: its index is not rebuilt. */
  function ConvertedRow(lib: Library, fields: Fields, r: Request, nameToId: map<string, string>, row: Row): Row {
    var v := OldValue(row, r.fieldId);
    if v == Null then row
    else
      match FinalOf(lib, r, nameToId, v)
      case None => Reindexed(lib, fields, row, row.values - {r.fieldId})
      case Some(w) => if w == v then row else Reindexed(lib, fields, row, row.values[r.fieldId := w])
  }

  function ConvertedRows(lib: Library, fields: Fields, r: Request, nameToId: map<string, string>, rows: map<string, Row>, order: seq<string>)
    : map<string, Row>
  {
    map id | id in rows :: if id in order then ConvertedRow(lib, fields, r, nameToId, rows[id]) else rows[id]
  }

  function NewField(current: Field, r: Request, config: Config): Field {
    current.(fieldType := r.target, config := config, revision := current.revision + 1)
  }

  function FieldCheck(s: State, table: string, r: Request): Option<ConvertError> {
    if r.fieldId !in s.fields || s.fields[r.fieldId].tableId != table then Some(NoSuchField)
    else
      var current := s.fields[r.fieldId];
      if current.revision != r.expectedRevision then Some(FieldRevision(r.expectedRevision, current.revision))
      else if current.deleted then Some(WrongState("deleted"))
      else if current.primary then Some(WrongState("primary"))
      else None
  }

  /** The whole transaction; `order` is the order in which the database hands out the table's records. */
  function Converted(lib: Library, s: State, table: string, r: Request, order: seq<string>, now: int): Result<(State, Tally), ConvertError> {
    match FieldCheck(s, table, r)
    case Some(e) => Err(e)
    case None =>
      var tally := TallyOf(lib, r, s.rows, order);
      if DigestOf(tally) != r.digest then Err(PreviewStale)
      else
        match ConvertedConfig(lib, r.seen, r.target, SortedNames(tally.distinct), s.nextOption)
        case None => Err(TooManyOptions)
        case Some(built) =>
          if r.fieldId !in s.fields then Err(NoSuchField)
          else
            var field := NewField(s.fields[r.fieldId], r, built.config);
            var fields := s.fields[r.fieldId := field];
            Ok((s.(fields := fields, rows := ConvertedRows(lib, fields, r, built.nameToId, s.rows, order),
                   log := s.log + [Change(|s.log| + 1, table, SchemaChanged, r.fieldId, field.revision, [], now)],
                   nextOption := built.next),
                tally))
  }

  // ----- the loops -----

  lemma ValuesStep(rows: map<string, Row>, f: string, order: seq<string>, i: nat)
    requires i < |order|
    ensures ValuesOf(rows, f, order[..i + 1]) ==
            ValuesOf(rows, f, order[..i]) + [if order[i] in rows then OldValue(rows[order[i]], f) else Null]
  {
    assert order[..i + 1] == order[..i] + [order[i]];
  }

  lemma AddStep(lib: Library, c: Context, mode: string, values: seq<Value>, v: Value)
    ensures AddAll(lib, c, mode, values + [v]) == Added(lib, c, mode, AddAll(lib, c, mode, values), v)
  {
    assert (values + [v])[..|values|] == values;
  }

  /** What the scan leaves to rewrite. */
  function PendingOf(lib: Library, r: Request, rows: map<string, Row>, order: seq<string>): seq<Pending> {
    if order == [] then []
    else
      var front, id := PendingOf(lib, r, rows, order[..|order| - 1]), order[|order| - 1];
      if id !in rows || OldValue(rows[id], r.fieldId) == Null then front
      else front + [Pending(id, ConvertedOf(lib, r, OldValue(rows[id], r.fieldId)))]
  }

  method Scan(lib: Library, r: Request, rows: map<string, Row>, order: seq<string>, accumulator: Accumulator)
    returns (pending: seq<Pending>)
    requires accumulator.lib == lib && accumulator.context == ContextOf(r.seen, r.target) && accumulator.mode == r.mode
    requires accumulator.Contents() == Start() && forall id | id in order :: id in rows
    modifies accumulator
    ensures accumulator.Contents() == TallyOf(lib, r, rows, order)
    ensures pending == PendingOf(lib, r, rows, order)
  {
    pending := [];
    var i := 0;
    while i < |order|
      invariant 0 <= i <= |order|
      invariant accumulator.Contents() == TallyOf(lib, r, rows, order[..i])
      invariant pending == PendingOf(lib, r, rows, order[..i])
    {
      assert order[i] in order;
      var old_ := OldValue(rows[order[i]], r.fieldId);
      ValuesStep(rows, r.fieldId, order, i);
      AddStep(lib, ContextOf(r.seen, r.target), r.mode, ValuesOf(rows, r.fieldId, order[..i]), old_);
      assert order[..i + 1][..i] == order[..i];
      var converted := accumulator.Add(old_);
      if !(old_ == Null && converted.None?) {
        pending := pending + [Pending(order[i], converted)];
      }
      i := i + 1;
    }
    assert order[..i] == order;
  }

  lemma {:induction false} PendingIds(lib: Library, r: Request, rows: map<string, Row>, order: seq<string>)
    ensures forall p | p in PendingOf(lib, r, rows, order) ::
              p.id in rows && p.id in order && OldValue(rows[p.id], r.fieldId) != Null
              && p.converted == ConvertedOf(lib, r, OldValue(rows[p.id], r.fieldId))
    ensures forall id | id in order && id in rows && OldValue(rows[id], r.fieldId) != Null ::
              exists p | p in PendingOf(lib, r, rows, order) :: p.id == id
  {
    if order != [] {
      var front, id := order[..|order| - 1], order[|order| - 1];
      assert order == front + [id];
      PendingIds(lib, r, rows, front);
      var pending := PendingOf(lib, r, rows, order);
      if id in rows && OldValue(rows[id], r.fieldId) != Null {
        assert pending[|pending| - 1].id == id;
      }
    }
  }

  function IdsOfPending(pending: seq<Pending>): set<string> {
    set p | p in pending :: p.id
  }

  /** The rows after the first `n` pending updates. */
  ghost predicate Rewrote(lib: Library, fields: Fields, r: Request, nameToId: map<string, string>, rows: map<string, Row>,
                          done: seq<Pending>, after: map<string, Row>) {
    after.Keys == rows.Keys
    && forall id | id in rows ::
         after[id] == if id in IdsOfPending(done) then ConvertedRow(lib, fields, r, nameToId, rows[id]) else rows[id]
  }

  lemma RewroteMore(lib: Library, fields: Fields, r: Request, nameToId: map<string, string>, rows: map<string, Row>,
                    pending: seq<Pending>, i: nat, after: map<string, Row>)
    requires i < |pending| && pending[i].id in rows
    requires Rewrote(lib, fields, r, nameToId, rows, pending[..i], after)
    ensures Rewrote(lib, fields, r, nameToId, rows, pending[..i + 1],
                    after[pending[i].id := ConvertedRow(lib, fields, r, nameToId, rows[pending[i].id])])
  {
    assert pending[..i + 1] == pending[..i] + [pending[i]];
    assert IdsOfPending(pending[..i + 1]) == IdsOfPending(pending[..i]) + {pending[i].id};
  }

  method RewriteRow(lib: Library, fields: Fields, r: Request, nameToId: map<string, string>, row: Row, pending: Option<Value>)
    returns (after: Row)
    requires OldValue(row, r.fieldId) != Null && pending == ConvertedOf(lib, r, OldValue(row, r.fieldId))
    ensures after == ConvertedRow(lib, fields, r, nameToId, row)
  {
    var converted := pending;
    if converted.Some? && OptionTarget(ContextOf(r.seen, r.target)) {
      converted := ResolveName(lib, r.target, nameToId, converted.value);
    }
    if converted.None? {
      return Reindexed(lib, fields, row, row.values - {r.fieldId});
    }
    if converted.value == OldValue(row, r.fieldId) {
      return row;
    }
    return Reindexed(lib, fields, row, row.values[r.fieldId := converted.value]);
  }

  method Rewrite(lib: Library, fields: Fields, r: Request, nameToId: map<string, string>, rows: map<string, Row>, pending: seq<Pending>)
    returns (after: map<string, Row>)
    requires forall p | p in pending ::
               p.id in rows && OldValue(rows[p.id], r.fieldId) != Null
               && p.converted == ConvertedOf(lib, r, OldValue(rows[p.id], r.fieldId))
    ensures Rewrote(lib, fields, r, nameToId, rows, pending, after)
  {
    after := rows;
    var i := 0;
    while i < |pending|
      invariant 0 <= i <= |pending|
      invariant Rewrote(lib, fields, r, nameToId, rows, pending[..i], after)
    {
      var item := pending[i];
      assert item in pending;
      RewroteMore(lib, fields, r, nameToId, rows, pending, i, after);
      var row := RewriteRow(lib, fields, r, nameToId, rows[item.id], item.converted);
      after := after[item.id := row];
      i := i + 1;
    }
    assert pending[..i] == pending;
  }

  lemma RewroteIsConverted(lib: Library, fields: Fields, r: Request, nameToId: map<string, string>, rows: map<string, Row>,
                           order: seq<string>, after: map<string, Row>)
    requires Rewrote(lib, fields, r, nameToId, rows, PendingOf(lib, r, rows, order), after)
    ensures after == ConvertedRows(lib, fields, r, nameToId, rows, order)
  {
    var pending := PendingOf(lib, r, rows, order);
    PendingIds(lib, r, rows, order);
    forall id | id in rows ensures after[id] == ConvertedRows(lib, fields, r, nameToId, rows, order)[id] {
      if id in order && OldValue(rows[id], r.fieldId) != Null {
        var p :| p in pending && p.id == id;
        assert id in IdsOfPending(pending);
      } else {
        assert id !in IdsOfPending(pending);
      }
    }
  }

  class FieldStore {
    const lib: Library
    var state: State

    constructor (lib: Library, state: State)
      ensures this.lib == lib && this.state == state
    {
      this.lib, this.state := lib, state;
    }

    method ConvertField(table: string, r: Request, order: seq<string>, now: int) returns (result: Result<Tally, ConvertError>)
      requires forall id | id in order :: id in state.rows
      modifies this
      ensures match Converted(lib, old(state), table, r, order, now)
              case Ok(done) => state == done.0 && result == Ok(done.1)
              case Err(e) => state == old(state) && result == Err(e)
    {
      var problem := FieldCheck(state, table, r);
      if problem.Some? {
        return Err(problem.value);
      }
      var accumulator := new Accumulator(lib, ContextOf(r.seen, r.target), r.mode);
      var pending := Scan(lib, r, state.rows, order, accumulator);
      var tally := Tally(accumulator.ok, accumulator.lossy, accumulator.lost, accumulator.empty, accumulator.distinct);
      if DigestOf(tally) != r.digest {
        return Err(PreviewStale);
      }
      var built := BuildConvertedConfig(lib, r.seen, r.target, SortedNames(tally.distinct), state.nextOption);
      if built.None? {
        return Err(TooManyOptions);
      }
      var field := NewField(state.fields[r.fieldId], r, built.value.config);
      var fields := state.fields[r.fieldId := field];
      PendingIds(lib, r, state.rows, order);
      var rows := Rewrite(lib, fields, r, built.value.nameToId, state.rows, pending);
      RewroteIsConverted(lib, fields, r, built.value.nameToId, state.rows, order, rows);
      state := state.(fields := fields, rows := rows, nextOption := built.value.next,
                      log := state.log + [Change(|state.log| + 1, table, SchemaChanged, r.fieldId, field.revision, [], now)]);
      return Ok(tally);
    }
  }
}
