/** The behaviour that the type definition's unit tests assert, replayed as verified client code:
    each method builds definitions through the class's constructor and builder methods and
    asserts what the corresponding test asserts, using only the contracts. */
module TypeDefinitionScenarios {
  import opened Wrappers
  import opened FieldDefinitions
  import opened FieldArrays
  import opened TypeDefinitions

  const Simple := "SimpleType"

  method ConstructorWithTypeOnly() {
    var def := new TypeDefinition(Simple);
    assert def.GetType() == Simple;
    assert def.GetName() == None;
    assert !def.IsOverriding();
    assert def.GetFields().entries == map[];
    assert def.GetFieldNames() == [];
  }

  method ConstructorWithTypeAndName() {
    var def := new TypeDefinition(Simple, Some("MyProvider"));
    assert def.GetType() == Simple;
    assert def.GetName() == Some("MyProvider");
    assert !def.IsOverriding();
    assert def.GetFields().entries == map[];
  }

  method ConstructorWithTypeNameAndOverriding() {
    var def := new TypeDefinition(Simple, Some("MyProvider"), true);
    assert def.GetName() == Some("MyProvider");
    assert def.IsOverriding();
    assert def.GetFields().entries == map[];
  }

  method GettersReturnConstructorArguments() {
    var named := new TypeDefinition(Simple, Some("MyProvider"));
    assert named.GetType() == Simple && named.GetName() == Some("MyProvider");
    var unnamed := new TypeDefinition(Simple);
    assert unnamed.GetName() == None && !unnamed.IsOverriding();
    var overriding := new TypeDefinition(Simple, None, true);
    assert overriding.IsOverriding();
    var notOverriding := new TypeDefinition(Simple, None, false);
    assert !notOverriding.IsOverriding();
  }

  method ConstructorWithAllParameters() {
    var field1 := New(Simple);
    var field2 := New(Simple);
    var pairs := [("field1", field1), ("field2", field2)];
    var fields := FromPairs(pairs);
    FromPairsLastWins(pairs, 0);
    FromPairsLastWins(pairs, 1);
    FromPairsCount(pairs);
    assert KeysOf(pairs) == {"field1", "field2"};
    var def := new TypeDefinition(Simple, Some("MyProvider"), true, fields);
    assert def.GetType() == Simple && def.GetName() == Some("MyProvider") && def.IsOverriding();
    assert def.GetFields() == fields;
    assert Count(def.GetFields()) == 2;
    assert def.GetFields().entries["field1"] == field1;
    assert def.GetFields().entries["field2"] == field2;
  }

  method SetFieldsOnNewDefinition() {
    var def := new TypeDefinition(Simple);
    var pairs := [("field1", New(Simple)), ("field2", New(Simple, Some("second")))];
    FromPairsCount(pairs);
    assert KeysOf(pairs) == {"field1", "field2"};
    var fields := FromPairs(pairs);
    var result := def.SetFields(fields);
    assert result == def;
    assert Count(def.GetFields()) == 2;
    assert def.GetFields() == fields;
  }

  method SetFieldsReplacesExistingFields() {
    var field1 := New(Simple);
    var def := new TypeDefinition(Simple, None, false, FromPairs([("field1", field1)]));
    var newField := New(Simple, nullable := true);
    var result := def.SetFields(FromPairs([("field2", newField)]));
    assert result == def;
    assert Count(def.GetFields()) == 1;
    assert "field2" in def.GetFields().entries;
    assert "field1" !in def.GetFields().entries;
    assert def.GetFields().entries["field2"] == newField;
  }

  method AddFieldAddsField() {
    var def := new TypeDefinition(Simple);
    var field1 := New(Simple);
    var field2 := New(Simple, arrayOf := true);
    var result1 := def.AddField("field1", field1);
    var result2 := def.AddField("field2", field2);
    assert result1 == def && result2 == def;
    assert Count(def.GetFields()) == 2;
    assert def.GetFields().entries["field1"] == field1;
    assert def.GetFields().entries["field2"] == field2;
  }

  method AddFieldReplacesExistingField() {
    var def := new TypeDefinition(Simple);
    var field1 := New(Simple);
    var field2 := New(Simple, config := None);
    var _ := def.AddField("field1", field1);
    var _ := def.AddField("field1", field2);
    assert Count(def.GetFields()) == 1;
    assert def.GetFields().entries["field1"] == field2;
    assert def.GetFields().entries["field1"] != field1;
  }

  method GetFieldNamesListsAddedFields() {
    var def := new TypeDefinition(Simple);
    assert def.GetFieldNames() == [];
    var _ := def.AddField("field1", New(Simple));
    assert def.GetFields().entries.Keys == {"field1"};
    var _ := def.AddField("field2", New(Simple));
    assert def.GetFields().entries.Keys == {"field1", "field2"};
    var _ := def.AddField("field3", New(Simple));
    assert def.GetFields().entries.Keys == {"field1", "field2", "field3"};
    var names := def.GetFieldNames();
    assert |names| == 3;
    assert "field1" in names && "field2" in names && "field3" in names;
  }

  method GetFieldReturnsStoredField() {
    var field1 := New(Simple);
    var field2 := New(Simple, Some("second"));
    var pairs := [("field1", field1), ("field2", field2)];
    FromPairsLastWins(pairs, 0);
    FromPairsLastWins(pairs, 1);
    var def := new TypeDefinition(Simple, None, false, FromPairs(pairs));
    assert def.GetField("field1") == Success(field1);
    assert def.GetField("field2") == Success(field2);
  }

  method GetFieldFailsWhenFieldNotFound() {
    var def := new TypeDefinition(Simple);
    var r := def.GetField("nonexistent");
    assert r.Failure?;
    assert r.error.Message() == "Unable to find field by name: nonexistent";
    var s := def.GetField("missingField");
    assert s == Failure(FieldNotFound("missingField"));
  }

  /** Calling `AddField` for each pair in turn, names repeated or not, on a new definition gives
      the table the pairs write: the last field added under a name wins, and there is one entry
      per distinct name (see `FromPairsLastWins` and `FromPairsCount`). */
  method AddFieldsOf(ps: seq<(string, FieldDefinition)>) returns (def: TypeDefinition)
    ensures def.GetFields() == FromPairs(ps)
  {
    def := new TypeDefinition(Simple);
    assert ps[..0] == [];
    var i := 0;
    while i < |ps|
      invariant 0 <= i <= |ps|
      invariant def.GetFields() == FromPairs(ps[..i])
    {
      FromPairsStep(ps, i);
      var _ := def.AddField(ps[i].0, ps[i].1);
      i := i + 1;
    }
    assert ps[..|ps|] == ps;
  }

  /** Adding an array's fields one by one, in its key order, to a new definition gives a
      definition whose table is that array. */
  method AddFieldsRebuildsArray(a: FieldArray) returns (def: TypeDefinition)
    ensures def.GetFields() == a
  {
    def := AddFieldsOf(Pairs(a));
    FromPairsOfPairs(a);
  }
}
