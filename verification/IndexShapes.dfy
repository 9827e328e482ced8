/** The query index has the shape compiled filters rely on in every reachable state: over runs of mutations, moves,
    duplications and conversions, even where a conversion leaves an index as it was. */
module IndexShapes {
  import opened Results
  import opened Schema
  import opened Values
  import opened Commands
  import opened ChoiceOptions
  import opened RecordOrder
  import opened FilterMeaning
  import opened Conversion
  import opened FieldConversion
  import opened ConversionTyped
  import opened ConversionIndex
  import opened Mutations
  import opened StoredValues

  predicate SameKind(a: Value, b: Value) {
    match a
    case Null => b.Null? case Str(_) => b.Str? case Num(_) => b.Num? case Bool(_) => b.Bool?
    case List(_) => b.List? case Obj(_) => b.Obj?
  }

  /** An index entry comes from a cell of the same kind. Folding keeps the kind, and no conversion touches one without the
      other. */
  ghost predicate Reflects(row: Row) {
    forall f | f in row.queryValues :: f in row.values && SameKind(row.queryValues[f], row.values[f])
  }

  lemma IndexedReflects(lib: Library, fields: Fields, row: Row)
    requires RowIndexed(lib, fields, row)
    ensures Reflects(row)
  {
  }

  lemma KindShapes(lib: Library, v: Value, index: Value, t: FieldType, config: Config)
    requires Stored(lib, v, t, config) && SameKind(index, v)
    ensures Shaped(t, index)
  {
  }

  /** Entries of the right kind for valid cells are shaped. */
  lemma ReflectsShaped(lib: Library, fields: Fields, row: Row)
    requires Reflects(row) && RowStored(lib, fields, row)
    ensures ShapedRow(fields, row)
  {
    forall f | f in row.queryValues && f in fields ensures Shaped(fields[f].fieldType, row.queryValues[f]) {
      KindShapes(lib, row.values[f], row.queryValues[f], fields[f].fieldType, fields[f].config);
    }
  }

  // ----- the writers -----

  ghost predicate ReflectsAll(s: State) {
    forall id | id in s.rows :: Reflects(s.rows[id])
  }

  lemma WroteReflects(s: State, id: string, row: Row, entry: Change, next: nat)
    requires ReflectsAll(s) && Reflects(row)
    ensures ReflectsAll(Wrote(s, id, row, entry, next))
  {
  }

  lemma RowReflects(env: Environment, s: State, table: string, id: string, row: Row, entry: Change, next: nat)
    requires ReflectsAll(s) && Writes(env, s, table, id, row, entry, next)
    ensures Reflects(row)
  {
    if RowIndexed(env.lib, s.fields, row) {
      IndexedReflects(env.lib, s.fields, row);
    } else {
      assert Reflects(s.rows[id]);
    }
  }

  lemma ApplyReflects(env: Environment, s: State, table: string, index: nat, c: Command, now: int)
    requires ReflectsAll(s) && Apply(env, s, table, index, c, now).Ok?
    ensures ReflectsAll(Apply(env, s, table, index, c, now).value.0)
  {
    var row, entry, next := ApplyWrites(env, s, table, index, c, now);
    var r := Apply(env, s, table, index, c, now).value;
    if r.1.applied {
      RowReflects(env, s, table, r.1.recordId, row, entry, next);
      WroteReflects(s, r.1.recordId, row, entry, next);
    }
  }

  lemma {:induction false} ApplyAllReflects(env: Environment, s: State, table: string, commands: seq<Command>, now: int)
    requires ReflectsAll(s) && ApplyAll(env, s, table, commands, now).Ok?
    ensures ReflectsAll(ApplyAll(env, s, table, commands, now).value.0)
  {
    if commands != [] {
      var front := commands[..|commands| - 1];
      ApplyAllReflects(env, s, table, front, now);
      var before := ApplyAll(env, s, table, front, now).value;
      ApplyReflects(env, before.0, table, |before.1|, commands[|commands| - 1], now);
    }
  }

  lemma ResolvedReflects(env: Environment, s: State, table: string, commands: seq<Command>, now: int)
    requires ReflectsAll(s) && Resolved(env, s, table, commands, now).Ok?
    ensures ReflectsAll(Resolved(env, s, table, commands, now).value.0)
  {
  }

  lemma MutatedReflects(env: Environment, s: State, table: string, commands: seq<Command>, now: int)
    requires ReflectsAll(s) && Mutated(env, s, table, commands, now).Ok?
    ensures ReflectsAll(Mutated(env, s, table, commands, now).value.0)
  {
    var m := Resolved(env, s, table, commands, now).value;
    ResolvedReflects(env, s, table, commands, now);
    ApplyAllReflects(env, m.0, table, m.1, now);
  }

  lemma MoveReflects(s: State, table: string, id: string, before: Option<string>, after: Option<string>, now: int)
    requires ReflectsAll(s) && MoveState(s, table, id, before, after, now).Some?
    ensures ReflectsAll(MoveState(s, table, id, before, after, now).value)
  {
    MoveWrites(s.rows, table, id, before, after);
  }

  lemma InsertedReflects(env: Environment, s: State, table: string, values: Cells, now: int)
    requires ReflectsAll(s)
    ensures ReflectsAll(Inserted(env, s, table, values, now).0)
  {
    IndexedReflects(env.lib, s.fields, NewRow(env, s, table, values, now));
  }

  lemma CommittedReflects(env: Environment, s: State, table: string, tx: Transaction)
    requires ReflectsAll(s)
    ensures ReflectsAll(Committed(env, s, table, tx))
  {
    match tx
    case Mutate(commands, now) =>
      if Mutated(env, s, table, commands, now).Ok? { MutatedReflects(env, s, table, commands, now); }
    case Move(id, before, after, now) =>
      if MoveState(s, table, id, before, after, now).Some? { MoveReflects(s, table, id, before, after, now); }
    case Duplicate(id, now) =>
      if DuplicateState(env, s, table, id, now).Some? {
        InsertedReflects(env, s, table, NormalizeCreate(env.lib, s.rows[id].values, s.fields).value, now);
      }
  }

  // ----- conversions -----

  lemma ConvertedReflects(lib: Library, fields: Fields, r: Request, nameToId: map<string, string>, row: Row)
    requires Reflects(row)
    ensures Reflects(ConvertedRow(lib, fields, r, nameToId, row))
  {
    if OldValue(row, r.fieldId) == Null || Skipped(lib, r, nameToId, row) {
      LeftAlone(lib, fields, r, nameToId, row);
    } else {
      RewrittenIndexed(lib, fields, r, nameToId, row);
      IndexedReflects(lib, fields, ConvertedRow(lib, fields, r, nameToId, row));
    }
  }

  /** What the service guarantees of a conversion: an offered mode, the preview's revision as the expected one, and a scan
      of every record that has a cell. */
  ghost predicate Honest(s: State, r: Request, order: seq<string>) {
    && Offered(r.seen, r) && r.expectedRevision == r.seen.revision
    && (r.fieldId in s.fields ==> RevisionsTell(r.seen, s.fields[r.fieldId]))
    && forall id | id in s.rows && r.fieldId in s.rows[id].values :: id in order
  }

  lemma ConversionSound(env: Environment, s: State, table: string, r: Request, order: seq<string>, now: int)
    requires Lawful(env.lib) && Sound(env, s) && Honest(s, r, order)
    requires Converted(env.lib, s, table, r, order, now).Ok?
    ensures Sound(env, Converted(env.lib, s, table, r, order, now).value.0)
  {
    ConversionGuarded(env.lib, s, table, r, order, now);
    ConversionKeepsFields(env.lib, s, table, r, order, now);
    ConversionKeepsStored(env, s, table, r, order, now);
  }

  lemma ConversionKeepsStored(env: Environment, s: State, table: string, r: Request, order: seq<string>, now: int)
    requires Lawful(env.lib) && Sound(env, s) && Honest(s, r, order) && r.fieldId in s.fields && s.fields[r.fieldId] == r.seen
    requires Converted(env.lib, s, table, r, order, now).Ok?
    ensures StoredAll(env, Converted(env.lib, s, table, r, order, now).value.0)
  {
    AllStored(env, s, r, order);
    ConversionWellTyped(env.lib, s, table, r, order, now);
    var t, tally, built := ConvertedParts(env.lib, s, table, r, order, now);
    ConversionStored(env, s, t, tally, r, order, built);
  }

  lemma ConversionReflects(env: Environment, s: State, table: string, r: Request, order: seq<string>, now: int)
    requires ReflectsAll(s) && Converted(env.lib, s, table, r, order, now).Ok?
    ensures ReflectsAll(Converted(env.lib, s, table, r, order, now).value.0)
  {
    var t, tally, built := ConvertedParts(env.lib, s, table, r, order, now);
    forall id | id in t.rows ensures Reflects(t.rows[id]) {
      ConvertedReflects(env.lib, t.fields, r, built.nameToId, s.rows[id]);
    }
  }

  lemma AllStored(env: Environment, s: State, r: Request, order: seq<string>)
    requires StoredAll(env, s) && r.fieldId in s.fields && s.fields[r.fieldId] == r.seen
    ensures ColumnStored(env.lib, s.rows, order, r.fieldId, r.seen.fieldType, r.seen.config)
  {
    forall id | id in order && id in s.rows && r.fieldId in s.rows[id].values
      ensures Stored(env.lib, s.rows[id].values[r.fieldId], r.seen.fieldType, r.seen.config)
    {
      assert RowStored(env.lib, s.fields, s.rows[id]);
    }
  }

  lemma ConversionStored(env: Environment, s: State, t: State, tally: Tally, r: Request, order: seq<string>, built: Built)
    requires StoredAll(env, s) && WellConverted(env.lib, s, t, tally, r, order) && r.fieldId in s.fields
    requires t.fields == s.fields[r.fieldId := NewField(s.fields[r.fieldId], r, built.config)]
    requires forall id | id in s.rows && r.fieldId in s.rows[id].values :: id in order
    ensures StoredAll(env, t)
  {
    forall id | id in t.rows ensures RowStored(env.lib, t.fields, t.rows[id]) {
      assert RowStored(env.lib, s.fields, s.rows[id]);
      if id in order {
        ConvertedStored(env.lib, s.fields, t.fields, r, s.rows[id], t.rows[id]);
      } else {
        assert t.rows[id] == s.rows[id];
      }
    }
  }

  lemma ConvertedStored(lib: Library, a: Fields, b: Fields, r: Request, before: Row, after: Row)
    requires RowStored(lib, a, before) && r.fieldId in b && b[r.fieldId].fieldType == r.target
    requires RowConverted(lib, r, b[r.fieldId].config, before, after)
    requires forall g | g in b && g != r.fieldId :: g in a && a[g] == b[g]
    ensures RowStored(lib, b, after)
  {
    forall g | g in after.values && g in b ensures Stored(lib, after.values[g], b[g].fieldType, b[g].config) {
      if g != r.fieldId {
        assert Lookup(after.values, g) == Lookup(before.values, g);
      }
    }
  }

  // ----- runs -----

  datatype Writer = Records(tx: Transaction) | Convert(request: Request, order: seq<string>, now: int)

  function Written(env: Environment, s: State, table: string, w: Writer): State {
    match w
    case Records(tx) => Committed(env, s, table, tx)
    case Convert(r, order, now) => (match Converted(env.lib, s, table, r, order, now) case Ok(done) => done.0 case Err(_) => s)
  }

  ghost predicate Permitted(env: Environment, s: State, w: Writer) {
    match w case Records(tx) => Validated(env.lib, tx) case Convert(r, order, _) => Honest(s, r, order)
  }

  function Reach(env: Environment, s: State, table: string, ws: seq<Writer>): State {
    if ws == [] then s else Written(env, Reach(env, s, table, ws[..|ws| - 1]), table, ws[|ws| - 1])
  }

  ghost predicate AllPermitted(env: Environment, s: State, table: string, ws: seq<Writer>) {
    ws == [] || (AllPermitted(env, s, table, ws[..|ws| - 1])
                 && Permitted(env, Reach(env, s, table, ws[..|ws| - 1]), ws[|ws| - 1]))
  }

  lemma WrittenSound(env: Environment, s: State, table: string, w: Writer)
    requires Lawful(env.lib) && Sound(env, s) && Permitted(env, s, w)
    ensures Sound(env, Written(env, s, table, w))
  {
    match w
    case Records(tx) => CommittedSound(env, s, table, tx);
    case Convert(r, order, now) =>
      if Converted(env.lib, s, table, r, order, now).Ok? { ConversionSound(env, s, table, r, order, now); }
  }

  lemma WrittenReflects(env: Environment, s: State, table: string, w: Writer)
    requires ReflectsAll(s)
    ensures ReflectsAll(Written(env, s, table, w))
  {
    match w
    case Records(tx) => CommittedReflects(env, s, table, tx);
    case Convert(r, order, now) =>
      if Converted(env.lib, s, table, r, order, now).Ok? { ConversionReflects(env, s, table, r, order, now); }
  }

  /** Over any run, conversions included, cells stay valid and the index stays shaped. */
  lemma {:induction false} ReachKeeps(env: Environment, s: State, table: string, ws: seq<Writer>)
    requires Lawful(env.lib) && Sound(env, s) && ReflectsAll(s) && AllPermitted(env, s, table, ws)
    ensures Sound(env, Reach(env, s, table, ws)) && ReflectsAll(Reach(env, s, table, ws))
  {
    if ws != [] {
      ReachKeeps(env, s, table, ws[..|ws| - 1]);
      WrittenSound(env, Reach(env, s, table, ws[..|ws| - 1]), table, ws[|ws| - 1]);
      WrittenReflects(env, Reach(env, s, table, ws[..|ws| - 1]), table, ws[|ws| - 1]);
    }
  }

  /** A table reached by a run of permitted writers from a sound one. */
  ghost predicate Reached(env: Environment, s: State, table: string, ws: seq<Writer>, t: State) {
    Lawful(env.lib) && Sound(env, s) && ReflectsAll(s) && AllPermitted(env, s, table, ws) && t == Reach(env, s, table, ws)
  }

  ghost predicate AllShaped(t: State) {
    forall id | id in t.rows :: ShapedRow(t.fields, t.rows[id])
  }

  lemma SoundShaped(env: Environment, t: State)
    requires StoredAll(env, t) && ReflectsAll(t)
    ensures AllShaped(t)
  {
    forall id | id in t.rows ensures ShapedRow(t.fields, t.rows[id]) {
      assert RowStored(env.lib, t.fields, t.rows[id]) && Reflects(t.rows[id]);
      ReflectsShaped(env.lib, t.fields, t.rows[id]);
    }
  }

  /** So in every reachable table the index has the shape compiled filters rely on. */
  lemma ReachShaped(env: Environment, s: State, table: string, ws: seq<Writer>, t: State)
    requires Reached(env, s, table, ws, t)
    ensures AllShaped(t)
  {
    ReachKeeps(env, s, table, ws);
    SoundShaped(env, t);
  }
}
