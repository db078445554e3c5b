# Phodam type definitions in Dafny

Phodam generates test fixtures from declarative definitions. This project models the data side
of those definitions:

- **`FieldDefinition`** (`field_definition.dfy`, module `FieldDefinitions`) describes one field:
  its type, an optional name, a generation `config`, `overrides`, and the `nullable` and
  `array` shape flags. It is immutable, so it is a datatype. `New` is the PHP constructor with
  its default arguments. `config` and `overrides` are `Option<map<string, Value>>`, so an
  explicit `null` (`None`) stays distinct from the empty array (`Some(map[])`).
- **PHP arrays of fields** (`field_array.dfy`, module `FieldArrays`). A PHP
  `array<string, FieldDefinition>` is an ordered map, so `FieldArray` pairs the key order with
  the key-to-field `map`. Its keys are unique and are exactly the map's keys. `Put` is
  `$a[$k] = $v`: a new key goes at the end, and an existing key keeps its place but gets the new
  value. `FromPairs` is the array literal `[k0 => v0, ...]`, which writes each pair in turn.
  `Count` is `count()`.
- **`TypeDefinition`** (`type_definition.dfy`, module `TypeDefinitions`) is a class. It has the
  immutable type, variant name and `overriding` flag, and a mutable `fields` table. The fluent
  builders `SetFields` and `AddField` change the table in place and return `this`. The queries
  `GetFields`, `GetFieldNames` and `GetField` only read. A missing field is a
  `Failure(FieldNotFound(name))` whose message is `Unable to find field by name: <name>`.
- `type_definition_scenarios.dfy` replays the assertions of the `TypeDefinition` unit tests as
  verified client methods, covering every test method. They use only the contracts above. `AddFieldsOf` shows
  that any series of `AddField` calls, names repeated or not, builds the table `FromPairs` of
  those pairs. So `FromPairsLastWins` and `FromPairsCount` describe such a series: the last
  field added under a name wins, and there is one entry per distinct name.
  `AddFieldsRebuildsArray` shows that adding an array's pairs one by one rebuilds that array.

`TypeDefinition.php` is not part of this model. The class is modelled from the assertions in
`tests/Phodam/Types/TypeDefinitionTest.php`. The tests call `addField(name, FieldDefinition)`,
and the model follows that signature.

## Model

| member | source | states |
|---|---|---|
| `FieldDefinitions.New` | src/Phodam/Types/FieldDefinition.php:33-47 | each getter returns exactly the argument passed for it, whatever the other arguments are, so `config` and `overrides` are independent |
| `FieldDefinitions.TypeOnlyDefaults` | src/Phodam/Types/FieldDefinition.php:33-40 | with only a type: no name, empty config, empty overrides, not nullable, not an array |
| `FieldDefinitions.NullIsNotEmpty` | src/Phodam/Types/FieldDefinition.php:36-44 | an explicit `null` config or overrides is returned as `null`, and a definition built with it differs from one built with an empty array |
| `FieldDefinitions.EqualIffGettersAgree` | src/Phodam/Types/FieldDefinition.php:52-96 | two definitions are equal exactly when all six getters agree; getters are pure, so repeated calls agree |
| `FieldDefinitions.NewOfGetters` | src/Phodam/Types/FieldDefinition.php:41-96 | rebuilding a definition from its getters gives the same definition: the constructor loses nothing |
| `FieldArrays.Count` | tests/Phodam/Types/TypeDefinitionTest.php:179-180 | `count()` of a field array is the number of entries in its map |
| `FieldArrays.Put` | tests/Phodam/Types/TypeDefinitionTest.php:224-236 | after a write, the name maps to the new field and every other name keeps its field; the existing key order is a prefix of the new one |
| `FieldArrays.PutCount` | tests/Phodam/Types/TypeDefinitionTest.php:217 | writing a new name adds one to the count; rewriting an existing name leaves the count unchanged |
| `FieldArrays.PutTwice` | tests/Phodam/Types/TypeDefinitionTest.php:230-234 | writing a name twice is the same as writing only the second field: last write wins, one entry |
| `FieldArrays.FromPairs` | tests/Phodam/Types/TypeDefinitionTest.php:89-92 | an array literal's keys are exactly the keys its pairs mention, with at most one entry per pair |
| `FieldArrays.FromPairsLastWins` | tests/Phodam/Types/TypeDefinitionTest.php:230-234 | for each name, the last pair written with that name decides its field |
| `FieldArrays.FromPairsCount` | tests/Phodam/Types/TypeDefinitionTest.php:251-257 | after writing a list of pairs, the count is the number of distinct names used |
| `FieldArrays.FromPairsOfPairs` | tests/Phodam/Types/TypeDefinitionTest.php:94-101 | round trip: writing an array's pairs in order into `[]` gives back the same array, so a table given whole equals one built by adding its fields one by one |
| `FieldArrays.KeysCoverEntries` | tests/Phodam/Types/TypeDefinitionTest.php:255-257 | the key order has exactly as many names as the table has entries |
| `TypeDefinitions.TypeDefinition.constructor` | tests/Phodam/Types/TypeDefinitionTest.php:35-104 | type, name, overriding flag and field table are stored as given; the defaults are no name, not overriding and an empty table |
| `TypeDefinitions.TypeDefinition.SetFields` | tests/Phodam/Types/TypeDefinitionTest.php:164-199 | returns the same instance; afterwards the table is exactly the given one, so earlier fields that are absent from it are gone |
| `TypeDefinitions.TypeDefinition.AddField` | tests/Phodam/Types/TypeDefinitionTest.php:203-236 | returns the same instance; the table becomes `Put(old table, name, field)`, and the count grows by one only for a new name |
| `TypeDefinitionScenarios.AddFieldsOf` | tests/Phodam/Types/TypeDefinitionTest.php:224-257 | a series of `AddField` calls on a new definition, names repeated or not, leaves the table that writing the same pairs in order gives, so the last field added under a name wins and the count is the number of distinct names |
| `TypeDefinitionScenarios.AddFieldsRebuildsArray` | tests/Phodam/Types/TypeDefinitionTest.php:82-104 | adding an array's fields one by one with `AddField`, starting from a new definition, gives a table equal to that array, the same as passing the array to the constructor |
| `TypeDefinitions.TypeDefinition.GetFieldNames` | tests/Phodam/Types/TypeDefinitionTest.php:240-272 | holds exactly the stored names, each once, so its length is the number of fields; empty when there are none |
| `TypeDefinitions.TypeDefinition.GetField` | tests/Phodam/Types/TypeDefinitionTest.php:276-313 | succeeds exactly when the name is stored and then returns the stored field; otherwise fails with `FieldNotFound` carrying the name, whose message is `Unable to find field by name: ` followed by the name |

## Left out

- Resolution and value generation are not modelled. This covers overrides precedence, random null and array choices, recursion into nested types and the recursion limit. None of this code is part of the model, and generation is nondeterministic.
- The definition registry is not modelled: lookup, registration, and what `overriding` means there. The flag is only stored and returned.
- PHP object identity is not modelled. `assertSame` becomes value equality for fields and reference equality (`self == this`) for the returned builder. The test's `assertNotSame` on two equally constructed fields cannot be expressed with values, so the scenario methods use fields that differ.
- PHP's conversion of integer-like string keys (`"1"` stored as `1`) is not modelled. Field names stay strings.
- `New` accepts an empty type, because `FieldDefinition.php:33-47` does not check it.
- The key order of the `config` and `overrides` arrays is not kept, and neither are integer or mixed keys, because `ValueMap` is a `map<string, Value>`.
- `Value` covers null, booleans, integers, strings, lists and string-keyed arrays. Floats and objects inside `config` or `overrides` are not modelled, because the definitions never inspect these values.
- The `@template T` and `class-string<T>` annotations are not modelled. A type is a plain string.
- `TypeDefinitions.TypeDefinition.GetFieldNames` returns names in their first-insertion order. Its contract promises only membership, distinctness and count, because the tests assert nothing more.
