/** The stored entities every other module works on. */
module Schema {
  import opened Results

  datatype FieldType =
    | Text | LongText | Url | Number | Date | Checkbox | Select | MultiSelect | Location | Attachment

  /** A decoded JSON value. */
  datatype Value =
    | Null
    | Str(text: string)
    | Num(number: real)
    | Bool(flag: bool)
    | List(items: seq<Value>)
    | Obj(members: map<string, Value>)

  datatype SelectOption = SelectOption(id: string, name: string, color: string)
  datatype DeletedOption = DeletedOption(id: string, name: string, color: string, deletedAt: int)
  datatype SelectConfig = SelectConfig(options: seq<SelectOption>, deletedOptions: seq<DeletedOption>)

  datatype Config = Plain | Choices(select: SelectConfig) | Files(maxCount: nat)

  datatype Field = Field(
    id: string, tableId: string, fieldType: FieldType, config: Config,
    deleted: bool, primary: bool, revision: nat)

  datatype Row = Row(
    tableId: string, revision: nat, values: map<string, Value>, queryValues: map<string, Value>,
    searchText: string, position: real, createdAt: int, deleted: bool)

  /** One field's previous and new value; None is "absent", which is not the same as null. */
  datatype FieldChange = FieldChange(fieldId: string, before: Option<Value>, after: Option<Value>)

  datatype ChangeKind =
    | RecordCreated | RecordUpdated | RecordDeleted | RecordRestored | RecordMoved | SchemaChanged | ViewChanged

  datatype Change = Change(
    sequence: nat, tableId: string, kind: ChangeKind, objectId: string, revision: nat,
    fields: seq<FieldChange>, occurredAt: int)

  predicate IsChoice(t: FieldType) {
    t == Select || t == MultiSelect
  }

  predicate IsTextual(t: FieldType) {
    t == Text || t == LongText || t == Url
  }

  function Lookup(values: map<string, Value>, fieldId: string): Option<Value> {
    if fieldId in values then Some(values[fieldId]) else None
  }
}
