/** The immutable description of one field: its type, optional name, generation config,
    overrides and the two shape flags. */
module FieldDefinitions {
  import opened Wrappers
  import opened Values

  /** The private properties of a field definition. `config` and `overrides` are nullable
      arrays: `None` is an explicit `null`, which is not the same as `Some(map[])`. */
  datatype FieldDefinition = FieldDefinition(
    typeName: string,
    name: Option<string>,
    config: Option<ValueMap>,
    overrides: Option<ValueMap>,
    nullable: bool,
    arrayOf: bool)
  {
    function GetType(): string { typeName }
    function GetName(): Option<string> { name }
    function GetConfig(): Option<ValueMap> { config }
    function GetOverrides(): Option<ValueMap> { overrides }
    function IsNullable(): bool { nullable }
    function IsArray(): bool { arrayOf }
  }

  /** The constructor, with the defaults of its optional parameters: no name, an empty config,
      empty overrides, neither nullable nor an array. Each getter gives back exactly the
      argument passed for it, independently of all the other arguments. */
  function New(
    typeName: string,
    name: Option<string> := None,
    config: Option<ValueMap> := Some(map[]),
    overrides: Option<ValueMap> := Some(map[]),
    nullable: bool := false,
    arrayOf: bool := false): (f: FieldDefinition)
    ensures f.GetType() == typeName
    ensures f.GetName() == name
    ensures f.GetConfig() == config
    ensures f.GetOverrides() == overrides
    ensures f.IsNullable() == nullable
    ensures f.IsArray() == arrayOf
  {
    FieldDefinition(typeName, name, config, overrides, nullable, arrayOf)
  }

  /** Constructing with only a type gives the documented defaults. */
  lemma TypeOnlyDefaults(typeName: string)
    ensures New(typeName).GetType() == typeName
    ensures New(typeName).GetName() == None
    ensures New(typeName).GetConfig() == Some(map[])
    ensures New(typeName).GetOverrides() == Some(map[])
    ensures !New(typeName).IsNullable() && !New(typeName).IsArray()
  {
  }

  /** An explicit `null` config or overrides is returned as `null`, and a definition built with
      it differs from the one built with an empty array. */
  lemma NullIsNotEmpty(typeName: string, name: Option<string>, other: Option<ValueMap>,
                       nullable: bool, arrayOf: bool)
    ensures New(typeName, name, None, other, nullable, arrayOf).GetConfig() == None
    ensures New(typeName, name, other, None, nullable, arrayOf).GetOverrides() == None
    ensures New(typeName, name, None, other, nullable, arrayOf)
         != New(typeName, name, Some(map[]), other, nullable, arrayOf)
    ensures New(typeName, name, other, None, nullable, arrayOf)
         != New(typeName, name, other, Some(map[]), nullable, arrayOf)
  {
  }

  /** A definition is determined by its constructor arguments and determines them: two
      definitions are equal exactly when every getter agrees. */
  lemma EqualIffGettersAgree(f: FieldDefinition, g: FieldDefinition)
    ensures f == g <==>
      && f.GetType() == g.GetType()
      && f.GetName() == g.GetName()
      && f.GetConfig() == g.GetConfig()
      && f.GetOverrides() == g.GetOverrides()
      && f.IsNullable() == g.IsNullable()
      && f.IsArray() == g.IsArray()
  {
  }

  /** Every definition is the one its getters describe. */
  lemma NewOfGetters(f: FieldDefinition)
    ensures New(f.GetType(), f.GetName(), f.GetConfig(), f.GetOverrides(), f.IsNullable(), f.IsArray()) == f
  {
  }
}
