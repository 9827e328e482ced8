/** Cell values: what the writer accepts, and the query projection derived from it. */
module Values {
  import opened Results
  import opened Schema
  import opened Orders

  /** Library code the model does not look into. */
  datatype Library = Library(
    fold: string -> string,                  // NFC and default case folding
    optionName: string -> Option<string>,    // trimmed, NFC, 1..100 code points, no control characters
    optionColor: string -> bool,
    optionId: string -> bool,                // a typed option identifier
    fieldId: string -> bool,                 // a typed field identifier
    recordId: string -> bool,                // a typed record identifier
    newOptionId: nat -> string,              // the nth option identifier ever generated
    optionNumber: string -> nat,             // which one that was: generated identifiers differ
    validDate: string -> bool,               // a Gregorian YYYY-MM-DD date
    validUrl: string -> bool,                // parses, has a host, http or https
    trim: string -> string,
    lower: string -> string,
    parseNumber: string -> Option<real>,
    formatNumber: real -> string,
    location: Value -> Option<Value>,
    attachments: (Value, nat) -> Option<Value>)

  ghost predicate Lawful(lib: Library) {
    && (forall n :: lib.optionNumber(lib.newOptionId(n)) == n)
    && (forall n :: lib.optionId(lib.newOptionId(n)))
    && (forall s | lib.optionName(s).Some? :: |lib.optionName(s).value| <= 100)
    && (forall x :: |lib.formatNumber(x)| <= 10000)
    && (forall s | lib.validDate(s) :: |s| == 10)
  }

  // ----- one value -----

  function ActiveIds(c: SelectConfig): set<string> {
    set o | o in c.options :: o.id
  }

  function DeletedIds(c: SelectConfig): set<string> {
    set o | o in c.deletedOptions :: o.id
  }

  function ConfigOf(f: Field): SelectConfig {
    if f.config.Choices? then f.config.select else SelectConfig([], [])
  }

  function TextLimit(t: FieldType): nat {
    if t == LongText then 100000 else 10000
  }

  /** The option identifiers a stored value holds. */
  predicate HoldsOption(previous: Value, id: string) {
    previous == Str(id) || (previous.List? && Str(id) in previous.items)
  }

  /** An identifier may be written: it is active, or deleted but already in the cell. */
  predicate Selectable(c: SelectConfig, held: bool, id: string) {
    id in ActiveIds(c) || (held && id in DeletedIds(c))
  }

  predicate AcceptableList(lib: Library, c: SelectConfig, previous: Value, items: seq<Value>) {
    && |items| <= 100
    && (forall i | 0 <= i < |items| ::
          items[i].Str? && lib.optionId(items[i].text)
          && Selectable(c, previous.List? && items[i] in previous.items, items[i].text))
    && (forall i, j | 0 <= i < j < |items| :: items[i] != items[j])
  }

  /** The canonical form of a submitted value, or None when it is rejected. */
  function NormalizeValue(lib: Library, value: Value, previous: Value, field: Field): Option<Value> {
    if value == Null then Some(Null)
    else match field.fieldType
    case Text => if value.Str? && |value.text| <= 10000 then Some(value) else None
    case LongText => if value.Str? && |value.text| <= 100000 then Some(value) else None
    case Number => if value.Num? then Some(value) else None
    case Checkbox => if value.Bool? then Some(value) else None
    case Date => if value.Str? && lib.validDate(value.text) then Some(value) else None
    case Url => if value.Str? && value.text != "" && |value.text| <= 2048 && lib.validUrl(value.text) then Some(value) else None
    case Select =>
      if value.Str? && lib.optionId(value.text)
         && Selectable(ConfigOf(field), previous == value, value.text) then Some(value) else None
    case MultiSelect =>
      if value.List? && AcceptableList(lib, ConfigOf(field), previous, value.items) then Some(value) else None
    case Attachment =>
      if field.config.Files? && 1 <= field.config.maxCount <= 100 then lib.attachments(value, field.config.maxCount) else None
    case Location => lib.location(value)
  }

  /** The multi-select scan, item by item. */
  method CheckList(lib: Library, c: SelectConfig, previous: Value, items: seq<Value>) returns (ok: bool)
    ensures ok <==> AcceptableList(lib, c, previous, items)
  {
    if |items| > 100 {
      return false;
    }
    var seen: set<Value> := {};
    ok := true;
    var i := 0;
    while i < |items|
      invariant 0 <= i <= |items|
      invariant ok ==> AcceptableList(lib, c, previous, items[..i]) && seen == set x | x in items[..i]
      invariant !ok ==> !AcceptableList(lib, c, previous, items)
    {
      var entry := items[i];
      assert items[..i + 1] == items[..i] + [entry];
      if !entry.Str? || !lib.optionId(entry.text) {
        ok := false;
      } else if entry in seen {
        ok := false;
      } else {
        seen := seen + {entry};
        if !Selectable(c, previous.List? && entry in previous.items, entry.text) {
          ok := false;
        }
      }
      i := i + 1;
    }
    assert items[..i] == items;
  }

  /** What a stored value of a field may look like. Options may be active or deleted. */
  ghost predicate Stored(lib: Library, v: Value, t: FieldType, config: Config) {
    v == Null ||
    match t
    case Text => v.Str? && |v.text| <= 10000
    case LongText => v.Str? && |v.text| <= 100000
    case Number => v.Num?
    case Checkbox => v.Bool?
    case Date => v.Str? && lib.validDate(v.text)
    case Url => v.Str? && v.text != "" && |v.text| <= 2048 && lib.validUrl(v.text)
    case Select => v.Str? && lib.optionId(v.text) && config.Choices? && KnownOption(config.select, v.text)
    case MultiSelect =>
      && v.List? && |v.items| <= 100 && config.Choices?
      && (forall i | 0 <= i < |v.items| ::
            v.items[i].Str? && lib.optionId(v.items[i].text) && KnownOption(config.select, v.items[i].text))
      && (forall i, j | 0 <= i < j < |v.items| :: v.items[i] != v.items[j])
    case Attachment => config.Files? && exists w :: lib.attachments(w, config.maxCount) == Some(v)
    case Location => exists w :: lib.location(w) == Some(v)
  }

  predicate KnownOption(c: SelectConfig, id: string) {
    id in ActiveIds(c) || id in DeletedIds(c)
  }

  /** Whatever the writer accepts is storable. */
  lemma NormalizedIsStored(lib: Library, value: Value, previous: Value, field: Field)
    requires NormalizeValue(lib, value, previous, field).Some?
    requires IsChoice(field.fieldType) ==> field.config.Choices?
    ensures Stored(lib, NormalizeValue(lib, value, previous, field).value, field.fieldType, field.config)
  {
  }

  /** Writing back what a cell already holds is always accepted and changes nothing (outside the two types whose
      normalisers are library code). */
  lemma StoredIsAccepted(lib: Library, v: Value, field: Field)
    requires Stored(lib, v, field.fieldType, field.config)
    requires field.fieldType != Attachment && field.fieldType != Location
    ensures NormalizeValue(lib, v, v, field) == Some(v)
  {
    if field.fieldType == MultiSelect && v != Null {
      assert forall i | 0 <= i < |v.items| :: v.items[i] in v.items;
    }
  }

  /** The cell held this option before the write. */
  predicate HeldBefore(t: FieldType, previous: Value, id: string) {
    if t == MultiSelect then previous.List? && Str(id) in previous.items else previous == Str(id)
  }

  /** The writer accepts exactly what may be stored and names no deleted option that the cell did not hold already, and
      takes it as it is (outside the two types whose normalisers are library code). */
  lemma AcceptedExactly(lib: Library, v: Value, previous: Value, field: Field)
    requires field.fieldType != Attachment && field.fieldType != Location
    requires IsChoice(field.fieldType) ==> field.config.Choices?
    ensures NormalizeValue(lib, v, previous, field) ==
            if Stored(lib, v, field.fieldType, field.config)
               && (IsChoice(field.fieldType) ==>
                     forall id | HoldsOption(v, id) && id !in ActiveIds(field.config.select) :: HeldBefore(field.fieldType, previous, id))
            then Some(v) else None
  {
    if field.fieldType == MultiSelect && v.List? {
      assert forall i | 0 <= i < |v.items| :: v.items[i] in v.items;
      assert forall i | 0 <= i < |v.items| && v.items[i].Str? :: HoldsOption(v, v.items[i].text);
    } else if field.fieldType == Select && v.Str? {
      assert HoldsOption(v, v.text);
    }
  }

  // ----- all values of a record -----

  type Fields = map<string, Field>
  type Cells = map<string, Value>

  predicate Writable(lib: Library, fields: Fields, id: string) {
    lib.fieldId(id) && id in fields && !fields[id].deleted
  }

  function Held(cells: Cells, id: string): Value {
    if id in cells then cells[id] else Null
  }

  predicate Accepts(lib: Library, submitted: Cells, current: Cells, fields: Fields, id: string)
    requires id in submitted
  {
    Writable(lib, fields, id) && NormalizeValue(lib, submitted[id], Held(current, id), fields[id]).Some?
  }

  predicate AcceptsAll(lib: Library, submitted: Cells, current: Cells, fields: Fields) {
    forall id | id in submitted :: Accepts(lib, submitted, current, fields, id)
  }

  function NormalizedAll(lib: Library, submitted: Cells, current: Cells, fields: Fields): Cells
    requires AcceptsAll(lib, submitted, current, fields)
  {
    map id | id in submitted :: NormalizeValue(lib, submitted[id], Held(current, id), fields[id]).value
  }

  function NormalizeCreate(lib: Library, submitted: Cells, fields: Fields): Option<Cells> {
    if AcceptsAll(lib, submitted, map[], fields) then Some(NormalizedAll(lib, submitted, map[], fields)) else None
  }

  predicate UnsetAllowed(lib: Library, set_: Cells, unset: seq<string>, fields: Fields) {
    && (forall i, j | 0 <= i < j < |unset| :: unset[i] != unset[j])
    && (forall id | id in unset :: id !in set_ && Writable(lib, fields, id))
  }

  function NormalizeUpdate(lib: Library, current: Cells, set_: Cells, unset: seq<string>, fields: Fields): Option<Cells> {
    if UnsetAllowed(lib, set_, unset, fields) && AcceptsAll(lib, set_, current, fields) then
      Some((current - (set id | id in unset)) + NormalizedAll(lib, set_, current, fields))
    else None
  }

  /** The unset loop. */
  method UnsetFields(lib: Library, current: Cells, set_: Cells, unset: seq<string>, fields: Fields)
    returns (target: Cells, ok: bool)
    ensures ok <==> UnsetAllowed(lib, set_, unset, fields)
    ensures ok ==> target == current - (set id | id in unset)
  {
    target, ok := current, true;
    var seenUnset: set<string> := {};
    var i := 0;
    while i < |unset|
      invariant 0 <= i <= |unset|
      invariant ok ==> UnsetAllowed(lib, set_, unset[..i], fields) && target == current - (set id | id in unset[..i])
      invariant seenUnset == set id | id in unset[..i]
      invariant !ok ==> !UnsetAllowed(lib, set_, unset, fields)
    {
      assert unset[..i + 1] == unset[..i] + [unset[i]];
      if unset[i] in seenUnset {
        ok := false;
      } else {
        seenUnset := seenUnset + {unset[i]};
        if unset[i] in set_ || !Writable(lib, fields, unset[i]) {
          ok := false;
        } else {
          target := target - {unset[i]};
        }
      }
      i := i + 1;
    }
    assert unset[..i] == unset;
  }

  /** `target` is `base` with the normalised entries of `part` written over it. */
  ghost predicate SetSoFar(lib: Library, base: Cells, part: Cells, current: Cells, fields: Fields, target: Cells) {
    AcceptsAll(lib, part, current, fields) && target == base + NormalizedAll(lib, part, current, fields)
  }

  lemma AcceptsStep(lib: Library, m: Cells, current: Cells, fields: Fields, keys: seq<string>, i: nat, base: Cells, target: Cells)
    requires i < |keys| && keys[i] in m && SetSoFar(lib, base, Part(m, keys, i), current, fields, target)
    requires Accepts(lib, m, current, fields, keys[i])
    ensures SetSoFar(lib, base, Part(m, keys, i + 1), current, fields,
                     target[keys[i] := NormalizeValue(lib, m[keys[i]], Held(current, keys[i]), fields[keys[i]]).value])
  {
    PartStep(m, keys, i);
    OneMoreAccepted(lib, base, Part(m, keys, i), current, fields, target, keys[i], m[keys[i]]);
  }

  lemma OneMoreAccepted(lib: Library, base: Cells, part: Cells, current: Cells, fields: Fields, target: Cells, id: string, v: Value)
    requires SetSoFar(lib, base, part, current, fields, target)
    requires Writable(lib, fields, id) && NormalizeValue(lib, v, Held(current, id), fields[id]).Some?
    ensures SetSoFar(lib, base, part[id := v], current, fields,
                     target[id := NormalizeValue(lib, v, Held(current, id), fields[id]).value])
  {
    var w := NormalizeValue(lib, v, Held(current, id), fields[id]).value;
    AcceptedMore(lib, part, current, fields, id, v);
    NormalizedMore(lib, part, current, fields, id, v, w);
    MergedMore(base, NormalizedAll(lib, part, current, fields), id, w);
  }

  lemma AcceptedMore(lib: Library, part: Cells, current: Cells, fields: Fields, id: string, v: Value)
    requires AcceptsAll(lib, part, current, fields)
    requires Writable(lib, fields, id) && NormalizeValue(lib, v, Held(current, id), fields[id]).Some?
    ensures AcceptsAll(lib, part[id := v], current, fields)
  {
    var more := part[id := v];
    forall k | k in more ensures Accepts(lib, more, current, fields, k) {
      assert k != id ==> Accepts(lib, part, current, fields, k);
    }
  }

  lemma NormalizedMore(lib: Library, part: Cells, current: Cells, fields: Fields, id: string, v: Value, w: Value)
    requires AcceptsAll(lib, part, current, fields) && AcceptsAll(lib, part[id := v], current, fields)
    requires Writable(lib, fields, id) && NormalizeValue(lib, v, Held(current, id), fields[id]) == Some(w)
    ensures NormalizedAll(lib, part[id := v], current, fields) == NormalizedAll(lib, part, current, fields)[id := w]
  {
  }

  lemma MergedMore(base: Cells, over: Cells, id: string, w: Value)
    ensures (base + over)[id := w] == base + over[id := w]
  {
  }

  /** The set loop, over the keys in order; it goes on after a rejection only to report more of them. */
  method SetFields(lib: Library, base: Cells, current: Cells, set_: Cells, fields: Fields)
    returns (target: Cells, ok: bool)
    ensures ok <==> AcceptsAll(lib, set_, current, fields)
    ensures ok ==> target == base + NormalizedAll(lib, set_, current, fields)
  {
    target, ok := base, true;
    var todo := SortedSet(set_.Keys);
    SortedSetMembers(set_.Keys);
    ghost var refused := "";
    var i := 0;
    while i < |todo|
      invariant 0 <= i <= |todo|
      invariant ok ==> SetSoFar(lib, base, Part(set_, todo, i), current, fields, target)
      invariant !ok ==> refused in set_ && !Accepts(lib, set_, current, fields, refused)
    {
      var id := todo[i];
      assert id in todo;
      if !Accepts(lib, set_, current, fields, id) {
        ok, refused := false, id;
      } else {
        if ok {
          AcceptsStep(lib, set_, current, fields, todo, i, base, target);
        }
        target := target[id := NormalizeValue(lib, set_[id], Held(current, id), fields[id]).value];
      }
      i := i + 1;
    }
    if ok {
      SetDone(lib, base, set_, current, fields, todo, target);
    }
  }

  lemma SetDone(lib: Library, base: Cells, m: Cells, current: Cells, fields: Fields, keys: seq<string>, target: Cells)
    requires SetSoFar(lib, base, Part(m, keys, |keys|), current, fields, target) && forall x :: x in keys <==> x in m
    ensures SetSoFar(lib, base, m, current, fields, target)
  {
    PartAll(m, keys);
  }

  lemma PartAll(m: Cells, keys: seq<string>)
    requires forall x :: x in keys <==> x in m
    ensures Part(m, keys, |keys|) == m
  {
    assert keys[..|keys|] == keys;
  }

  method NormalizeUpdatedValues(lib: Library, current: Cells, set_: Cells, unset: seq<string>, fields: Fields)
    returns (result: Option<Cells>)
    ensures result == NormalizeUpdate(lib, current, set_, unset, fields)
  {
    var target, ok := UnsetFields(lib, current, set_, unset, fields);
    if !ok {
      return None;
    }
    target, ok := SetFields(lib, target, current, set_, fields);
    return if ok then Some(target) else None;
  }

  lemma PartStep(m: Cells, keys: seq<string>, i: nat)
    requires i < |keys| && keys[i] in m
    ensures Part(m, keys, i + 1) == Part(m, keys, i)[keys[i] := m[keys[i]]]
  {
    assert keys[..i + 1] == keys[..i] + [keys[i]];
  }

  /** The entries of a map under the first n of a list of keys. */
  ghost function Part(m: Cells, keys: seq<string>, n: nat): Cells
    requires n <= |keys|
  {
    map id | id in m && id in keys[..n] :: m[id]
  }

  // ----- the query projection -----

  function ProjectedValue(lib: Library, t: FieldType, v: Value): Value {
    if IsTextual(t) && v.Str? then Str(lib.fold(v.text))
    else if t == Location && v.Obj? then
      Obj(map k | k in v.members ::
            if v.members[k].Str? && k != "precision" then Str(lib.fold(v.members[k].text)) else v.members[k])
    else v
  }

  function Projection(lib: Library, values: Cells, fields: Fields): Cells {
    map id | id in values && id in fields && !fields[id].deleted :: ProjectedValue(lib, fields[id].fieldType, values[id])
  }

  predicate Searched(values: Cells, fields: Fields, id: string) {
    id in values && values[id].Str? && id in fields && !fields[id].deleted && IsTextual(fields[id].fieldType)
  }

  function JoinParts(lib: Library, values: Cells, fields: Fields, ids: seq<string>): seq<string> {
    if ids == [] then []
    else
      var rest := JoinParts(lib, values, fields, ids[..|ids| - 1]);
      var id := ids[|ids| - 1];
      if Searched(values, fields, id) then rest + [lib.fold(values[id].text)] else rest
  }

  function Join(parts: seq<string>): string {
    if parts == [] then "" else if |parts| == 1 then parts[0]
    else Join(parts[..|parts| - 1]) + "\n" + parts[|parts| - 1]
  }

  function SearchText(lib: Library, values: Cells, fields: Fields): string {
    Join(JoinParts(lib, values, fields, SortedSet(values.Keys)))
  }

  lemma ProjectionStep(lib: Library, values: Cells, fields: Fields, keys: seq<string>, i: nat)
    requires i < |keys| && keys[i] in values
    ensures var before := Projection(lib, Part(values, keys, i), fields);
            var id := keys[i];
            Projection(lib, Part(values, keys, i + 1), fields) ==
              if id in fields && !fields[id].deleted
              then before[id := ProjectedValue(lib, fields[id].fieldType, values[id])] else before
  {
    PartStep(values, keys, i);
  }

  lemma JoinStep(lib: Library, values: Cells, fields: Fields, keys: seq<string>, i: nat)
    requires i < |keys|
    ensures JoinParts(lib, values, fields, keys[..i + 1]) ==
            JoinParts(lib, values, fields, keys[..i]) +
            if Searched(values, fields, keys[i]) then [lib.fold(values[keys[i]].text)] else []
  {
    assert keys[..i + 1][..i] == keys[..i];
  }

  method BuildQueryProjection(lib: Library, values: Cells, fields: Fields) returns (projection: Cells, searchText: string)
    ensures projection == Projection(lib, values, fields) && searchText == SearchText(lib, values, fields)
  {
    projection := map[];
    var searchParts: seq<string> := [];
    var todo := SortedSet(values.Keys);
    SortedSetMembers(values.Keys);
    var i := 0;
    while i < |todo|
      invariant 0 <= i <= |todo|
      invariant projection == Projection(lib, Part(values, todo, i), fields)
      invariant searchParts == JoinParts(lib, values, fields, todo[..i])
    {
      var id := todo[i];
      assert id in todo;
      JoinStep(lib, values, fields, todo, i);
      ProjectionStep(lib, values, fields, todo, i);
      if id in fields && !fields[id].deleted {
        projection := projection[id := ProjectedValue(lib, fields[id].fieldType, values[id])];
        if IsTextual(fields[id].fieldType) && values[id].Str? {
          searchParts := searchParts + [lib.fold(values[id].text)];
        }
      }
      i := i + 1;
    }
    PartAll(values, todo);
    assert todo[..i] == todo;
    searchText := Join(searchParts);
  }

  /** The shape the filter engine relies on: every projected value fits its field's type. */
  ghost predicate Shaped(t: FieldType, v: Value) {
    v == Null ||
    match t
    case Text => v.Str?
    case LongText => v.Str?
    case Url => v.Str?
    case Date => v.Str?
    case Select => v.Str?
    case Number => v.Num?
    case Checkbox => v.Bool?
    case MultiSelect => v.List?
    case Attachment => true
    case Location => true
  }

  lemma ProjectionShaped(lib: Library, values: Cells, fields: Fields, id: string)
    requires id in Projection(lib, values, fields)
    requires Stored(lib, values[id], fields[id].fieldType, fields[id].config)
    ensures Shaped(fields[id].fieldType, Projection(lib, values, fields)[id])
  {
  }
}
