/** The definition of how to build one type: its type, optional variant name, whether it
    overrides an earlier definition, and a name-keyed table of field definitions that the fluent
    builder methods change in place. */
module TypeDefinitions {
  import opened Wrappers
  import opened FieldDefinitions
  import opened FieldArrays

  /** The exception `getField` throws for a name that is not in the table; it carries the name. */
  datatype FieldNotFound = FieldNotFound(fieldName: string) {
    function Message(): string {
      "Unable to find field by name: " + fieldName
    }
  }

  class TypeDefinition {
    const typeName: string
    const name: Option<string>
    const overriding: bool
    /** The field table, in the order its keys were first written. */
    var fields: FieldArray

    /** The constructor as the tests call it (TypeDefinitionTest.php:38, 55, 71, 94), with type,
        name, overriding flag and fields, the last three optional: it stores each argument as
        given, so the getters return them and the table is exactly `fields`. */
    constructor (typeName: string, name: Option<string> := None, overriding: bool := false,
                 fields: FieldArray := FieldArrays.Empty)
      ensures GetType() == typeName && GetName() == name && IsOverriding() == overriding
      ensures GetFields() == fields
    {
      this.typeName := typeName;
      this.name := name;
      this.overriding := overriding;
      this.fields := fields;
    }

    function GetType(): string { typeName }

    function GetName(): Option<string> { name }

    function IsOverriding(): bool { overriding }

    function GetFields(): FieldArray
      reads this
    {
      fields
    }

    /** Replaces the whole table (never a union with the old one) and returns this same
        definition; type, name and flag do not change. */
    method SetFields(newFields: FieldArray) returns (self: TypeDefinition)
      modifies this
      ensures self == this
      ensures GetFields() == newFields
    {
      fields := newFields;
      self := this;
    }

    /** Stores `field` under `fieldName`, replacing a field stored there before (last write
        wins), and returns this same definition. The new table maps `fieldName` to `field`
        and every other name to what it mapped before; a new name is counted once more. */
    method AddField(fieldName: string, field: FieldDefinition) returns (self: TypeDefinition)
      modifies this
      ensures self == this
      ensures GetFields() == Put(old(GetFields()), fieldName, field)
      ensures Count(GetFields()) == Count(old(GetFields())) + (if fieldName in old(GetFields()).entries then 0 else 1)
    {
      PutCount(fields, fieldName, field);
      fields := Put(fields, fieldName, field);
      self := this;
    }

    /** The names of the stored fields: each stored name exactly once and nothing else, so as
        many names as there are fields; empty when there are none. */
    function GetFieldNames(): (names: seq<string>)
      reads this
      ensures forall n :: n in names <==> n in fields.entries
      ensures Distinct(names)
      ensures |names| == |fields.entries|
    {
      KeysCoverEntries(fields);
      fields.keys
    }

    /** The field stored under `fieldName`; when there is none, fails with `FieldNotFound`
        naming the missing field, whose message is "Unable to find field by name: " and the name. */
    function GetField(fieldName: string): (r: Result<FieldDefinition, FieldNotFound>)
      reads this
      ensures r.Success? <==> fieldName in fields.entries
      ensures r.Success? ==> r.value == fields.entries[fieldName]
      ensures r.Failure? ==> r.error.fieldName == fieldName
      ensures r.Failure? ==> r.error.Message() == "Unable to find field by name: " + fieldName
    {
      if fieldName in fields.entries then Success(fields.entries[fieldName])
      else Failure(FieldNotFound(fieldName))
    }
  }
}
