# json-schema-builder: keyword composition and rendering, in Dafny

This project models the core of the JavaScript JSON Schema (draft-04) builder.
A `Schema` object keeps an ordered list of keyword objects. Each accessor
(`type()`, `enum()`, `properties()`, ... `$ref()`, `format()`, `default()`)
works in one of two ways:

- called with arguments, it builds a keyword, whose constructor and `value`
  setter validate the value, and appends it to the list;
- called without arguments, it reads the value of the first keyword of its
  class.

`property` and `patternProperty` add entries to the first properties or
patternProperties keyword. They create that keyword when there is none, and
`property` also records required names. `json(context)` asks every keyword,
in insertion order, to write itself into one shared output object.

The project has seven files:

- `json.dfy` (module `Json`): the JavaScript values the builder handles.
  These are undefined, null, booleans, numbers, strings, arrays, plain objects
  with ordered own keys, and nested schemas (`Node`, a snapshot of a nested
  builder's keyword list). It also holds the keyword kinds, the errors and
  the object operations the code relies on:
  - `obj[k] = v` is `Put` and own-property `obj[k]` is `Lookup`.
  - `Object.keys` is `Keys`, and the entries `Object.keys(v)` walks are
    `Entries`. For an array, `Entries` keys each element by its index
    (`IndexEntries`).
  - `props[name]` in a getter (`src/lib/Schema.js:146-149`) is `Member`.
  - The conversion of a name to a property key (`src/lib/Schema.js:132`) is
    `PropertyKey`.
  - A keyword object, seen as an element of a schema's `_keywords` array, is
    `KeywordObject`: the own `_value` its setter stores.
- `keywords.dfy` (module `Keywords`): each keyword class's constructor and
  setter (`Construct`, `Assign`) and the `add` methods of Properties and
  PatternProperties. `WithDefaults` applies the default parameter
  `value = {}` of `Properties.add` (`src/lib/Properties.js:18`) to each entry
  of an object name.
- `render.dfy` (module `Rendering`): each keyword class's `json(context)`
  (`Contribute`) and `Schema.json` (`Render`).
- `schema.dfy` (module `SchemaBuilder`): the `Schema` class.
  - Its field is `keywords: seq<Keyword>`.
  - Its methods update that field in place.
  - Each method is proved against a function on keyword lists: `AccessStep`,
    `PropertyStep`, `PatternPropertyStep` and `RenderSchema`. Each function
    returns the new keyword list together with what the call returned or
    threw.
- `keyword_facts.dfy`, `render_facts.dfy` and `builder_facts.dfy`: lemmas
  about those functions. They cover the setters, `add`, rendering, and
  whole builder call sequences.

A thrown exception is a value. A setter returns `Failure(error)`, and a
builder call returns `Threw(error)` with the keyword list as the throw
leaves it. Each error the library can throw and each engine error the code
can provoke is a constructor of `Json.Error`. The engine errors are a member
read on null, a missing `map` or `push`, an `instanceof` whose right-hand side
is not callable, and an undeclared identifier.

Where the code and its design description disagree, the model follows the
code:

- **Throws after a partial update.** The description says no throw leaves a
  partial update. Three places in the code do:
  - `property(name, value, true)` adds the property first. Then
    `required().push` throws when the required value is truthy but not an
    array (`src/lib/Schema.js:127-141`). See `BuilderFacts.RequiredPush`.
    With an object name, the entries before the throwing one stay added
    (`SchemaBuilder.PropertyEachAt`).
  - `patternProperty` with an object name makes one call per entry
    (`src/lib/Schema.js:164-168`). A bad entry throws after the entries
    before it were added. See `SchemaBuilder.PatternPropertyEachAt` and
    `BuilderFacts.PatternPropertyKeepsAllStored`. `PatternProperties.add`
    does the same with an object name (`src/lib/PatternProperties.js:22-27`,
    `KeywordFacts.PatternAddAllStopsAtFirstBad`).
  - `json(context)` writes into the caller's object before a later keyword
    throws.
- **`definitions` never renders.** The description lists `definitions` as an
  output key. But `Definitions.json` reads an undeclared `value`, so any
  schema holding a definitions keyword fails to render.
- **`definitions` stores almost nothing.** The setter runs `prop instanceof
  Schema` for every key (`src/lib/Definitions.js:16-17`). Definitions.js is
  required by Schema.js (`src/lib/Schema.js:11`) before Schema.js assigns
  `module.exports` (`src/lib/Schema.js:42`). So `Schema` in Definitions.js is
  an empty object, and `instanceof` on it throws the engine's TypeError. The
  library's own "must be valid Schema instances" error is never thrown. Only
  null, an object with no keys, or a schema without keywords can be stored. A
  schema whose keyword list was read has the own key `_keywords`
  (`src/lib/Schema.js:48-51`), so it throws as well.
- **Unchecked classes.** The description gives integer bounds for
  minProperties, maxProperties, maxLength and minItems. Their classes, like
  Required and AnyOf, are not part of this model and are taken to accept any
  value.
- **`minProperties()` reads maxProperties.** Its getter reads the
  maxProperties keyword, as the code does (`src/lib/Schema.js:294`).

## Model

| member | source | states |
|---|---|---|
| Json.Lookup | src/lib/Properties.js:37-41 | `obj[k]` on own properties: present exactly when k is one of the keys, and then the value stored with it |
| Json.Put | src/lib/Properties.js:26-32 | `obj[k] = v`: an existing key keeps its place, a new key goes last, k then maps to v, every other key keeps its value |
| Json.PutFresh | src/lib/Properties.js:27 | assigning a key not yet present appends the entry at the end |
| Json.Entries | src/lib/Schema.js:118-124 | `Object.keys(name)` of an object name yields its entries in order, of an array its indexed elements; null and undefined throw and nothing else does; a schema holding keywords has exactly one own key, `_keywords` (set by its getter, `src/lib/Schema.js:48-51`), whose value is the array of its keyword objects, and a schema without keywords has none |
| Json.OutputKey | src/lib/Schema.js:396-404 | every keyword kind writes under the output key that names that kind |
| Json.OutputKeyInjective | src/lib/Schema.js:396-404 | two different kinds never write the same output key |
| Keywords.FirstNonPrimitive | src/lib/Type.js:25-31 | the first element of a type array that is not one of the seven primitive names; none exactly when every element is one |
| Keywords.UniqMembers | src/lib/Dependencies.js:23 | lodash `uniq` is no longer than its input and keeps exactly the same members |
| Keywords.UniqKeepsLength | src/lib/Dependencies.js:23 | `uniq(a).length != a.length` holds exactly when `a` repeats an element |
| Keywords.Insert | src/lib/Properties.js:26-32 | `add` on one name: the result is an object mapping the name to the value; into an object, other keys keep their values and a new key goes last; into a falsy value, a one-entry object |
| Keywords.InsertAll | src/lib/Properties.js:19-24 | successive adds leave an insertable value, an object once any entry was added |
| Keywords.PropertiesAdd | src/lib/Properties.js:18-33 | `Properties.add` throws exactly for a null name, and otherwise leaves the target or an object |
| Keywords.PatternAddOne | src/lib/PatternProperties.js:29-43 | one `add` with a non-object name leaves the target or an object |
| Keywords.PatternAddAll | src/lib/PatternProperties.js:22-27 | the adds of an object name leave the target or an object, also after a throw |
| Keywords.PatternPropertiesAdd | src/lib/PatternProperties.js:21-44 | `PatternProperties.add` leaves the target or an object, whatever it throws |
| KeywordFacts.CheckDependencyAgrees | src/lib/Dependencies.js:16-27 | the per-entry dependency check passes exactly for an acceptable entry |
| KeywordFacts.FirstDependencyErrorAgrees | src/lib/Dependencies.js:16-27 | the entries are checked in order; the error reported is that of the first unacceptable entry |
| KeywordFacts.DependenciesSetter | src/lib/Dependencies.js:14-29 | an object is stored exactly when every entry is acceptable; a non-object throws TypeMismatch |
| KeywordFacts.DependencyUniquenessCheckedFirst | src/lib/Dependencies.js:22-25 | a repeated element is reported before a non-string element |
| KeywordFacts.TypeSetter | src/lib/Type.js:20-34 | a string is stored unchecked; an array is stored exactly when every element is a primitive type name, and otherwise the first bad element is reported; anything else throws |
| KeywordFacts.TypeLooseCases | src/lib/Type.js:21-33 | a misspelt single type name and an empty array are stored; the same name inside an array is rejected |
| KeywordFacts.VarargsCollapse | src/lib/Type.js:17 | type, items, allOf, oneOf and anyOf (assumed) collect two or more arguments into one array, in order |
| KeywordFacts.ItemsSetter | src/lib/Items.js:13-25 | an object is stored, and an array only when each element is an object |
| KeywordFacts.CompositeSetter | src/lib/AllOf.js:14-26 | allOf and oneOf store exactly the non-empty arrays of objects; a non-array throws TypeMismatch, an empty array EmptyCollection |
| KeywordFacts.ObjectSetter | src/lib/Properties.js:13-16 | not, properties and patternProperties store exactly the objects, null included |
| KeywordFacts.DefinitionsSetter | src/lib/Definitions.js:14-25 | exactly null, an object without keys and a schema without keywords are stored, unchanged; an object with a key and a schema holding keywords (its `_keywords` key) throw the engine's TypeError from `instanceof` on the not-yet-exported Schema; other values throw TypeMismatch |
| KeywordFacts.DependenciesRejectsUsedSchema | src/lib/Dependencies.js:16-25 | a schema holding keywords is rejected as dependencies: its `_keywords` entry is an array of non-strings |
| KeywordFacts.FormatSetter | src/lib/Format.js:23-33 | exactly the six format names are stored; another string and a non-string throw different errors |
| KeywordFacts.FormatNames | src/lib/Format.js:4-11 | each of date-time, email, hostname, ipv4, ipv6 and uri is accepted |
| KeywordFacts.EnumConstruct | src/lib/Enum.js:5-27 | arguments not starting with an array are collected into one array; an array first argument is taken alone; an empty array throws |
| KeywordFacts.EnumSetter | src/lib/Enum.js:17-27 | the setter wraps a non-array in an array and rejects an empty array |
| KeywordFacts.BooleanSetter | src/lib/ExclusiveMaximum.js:13-19 | exclusiveMaximum, exclusiveMinimum and uniqueItems store booleans and nothing else |
| KeywordFacts.BooleanOrObjectSetter | src/lib/AdditionalProperties.js:13-18 | additionalProperties and additionalItems store a boolean or an object and nothing else |
| KeywordFacts.CountSetter | src/lib/MinLength.js:13-19 | minLength and maxItems store exactly the integers that are at least 0 |
| KeywordFacts.StringSetter | src/lib/Pattern.js:13-19 | pattern and $ref store any string and nothing else |
| KeywordFacts.MultipleOfSetter | src/lib/MultipleOf.js:9-15 | multipleOf stores exactly the numbers greater than 0 |
| KeywordFacts.NumberSetter | src/lib/Maximum.js:9-15 | maximum and minimum store exactly the numbers |
| KeywordFacts.DefaultSetter | src/lib/Default.js:13-15 | default stores anything |
| KeywordFacts.AssignIdempotent | src/lib/Schema.js:53-55 | a stored value passes its setter again unchanged |
| KeywordFacts.InsertAllFresh | src/lib/Properties.js:19-24 | adding entries with new distinct keys appends them in order |
| KeywordFacts.PropertiesAddSingle | src/lib/Properties.js:26-32 | `Properties.add` with a non-object name stores the value (or `{}` for undefined) under the key, unchecked; an existing key keeps its place, a new one goes last, other entries are untouched |
| KeywordFacts.PropertiesAddObjectName | src/lib/Properties.js:19-24 | an object name adds each entry in order; into an object without those keys, the entries are appended as they are |
| KeywordFacts.PatternAddOneChecks | src/lib/PatternProperties.js:29-43 | a non-string name or a non-object value throws and changes nothing; otherwise the value is stored under the name and other keys are untouched |
| KeywordFacts.PatternAddAllStopsAtFirstBad | src/lib/PatternProperties.js:22-27 | an object name's entries are added in order until the first non-object value, which throws; the entries before it stay added |
| SchemaBuilder.FirstIndex | src/lib/Schema.js:57-63 | `_.find` by class: the index of the first keyword of the kind, none exactly when there is no keyword of that kind |
| SchemaBuilder.GetValueAfterUpdate | src/lib/Properties.js:26-32 | updating a keyword's value where it stands moves no first match |
| SchemaBuilder.GetValueAfterAppend | src/lib/Schema.js:53-55 | appending a keyword moves no first match; the new keyword is read only when it is the first of its kind |
| SchemaBuilder.RequireStep | src/lib/Schema.js:136-142 | requiring a name leaves the properties and patternProperties values as they were |
| SchemaBuilder.AddProperty | src/lib/Schema.js:127-134 | after the add, the first properties value is an object, and patternProperties is untouched |
| SchemaBuilder.PropertySingle | src/lib/Schema.js:127-144 | a single `property` call keeps the first properties and patternProperties values addable |
| SchemaBuilder.PropertyEachConcat | src/lib/Schema.js:121-123 | the `forEach` over an object name's keys splits at any point: the calls for the first part, then, unless one threw, the calls for the rest from the keywords they left; after a throw no later entry is added and that throw is the result |
| SchemaBuilder.PatternPropertySingle | src/lib/Schema.js:171-180 | a single `patternProperty` call keeps the keyword list addable |
| SchemaBuilder.PatternPropertyEachConcat | src/lib/Schema.js:166-168 | the same for `patternProperty`: the calls for the first part, then, unless one threw, the rest; after a throw no later entry is added |
| SchemaBuilder.Schema.constructor | src/lib/Schema.js:44-51 | a new schema has no keywords |
| SchemaBuilder.Schema.AddKeyword | src/lib/Schema.js:53-55 | the keyword is appended at the end and nothing else changes |
| SchemaBuilder.Schema.Access | src/lib/Schema.js:65-72 | any accessor call leaves the keywords and reply of `AccessStep` |
| SchemaBuilder.Schema.Shortcut | src/lib/Schema.js:74-87 | a type shortcut appends a type keyword holding the type's name and returns the schema |
| SchemaBuilder.Schema.Property | src/lib/Schema.js:116-151 | `property(name, value, required)` leaves the keywords and reply of `PropertyStep` |
| SchemaBuilder.Schema.PropertyEntries | src/lib/Schema.js:118-124 | the loop over an object name's keys leaves what the chain of single calls leaves |
| SchemaBuilder.Schema.PropertyOne | src/lib/Schema.js:127-144 | one named call: the add, then the require when the flag is truthy |
| SchemaBuilder.Schema.PatternProperty | src/lib/Schema.js:162-187 | `patternProperty(name, value)` leaves the keywords and reply of `PatternPropertyStep` |
| SchemaBuilder.Schema.PatternPropertyEntries | src/lib/Schema.js:164-169 | the loop over an object name's keys leaves what the chain of single calls leaves |
| SchemaBuilder.Schema.PatternPropertyOne | src/lib/Schema.js:171-180 | one named call: `add` on the first patternProperties keyword, or a new one |
| SchemaBuilder.Schema.Json | src/lib/Schema.js:396-404 | the loop over the keywords returns `RenderSchema`: each keyword writes in order into the caller's context or `{}` |
| RenderFacts.RenderElemsPointwise | src/lib/AllOf.js:28-32 | the element-wise render keeps length and order and fails exactly when one element fails |
| RenderFacts.RenderFieldsPointwise | src/lib/Properties.js:35-46 | the member-wise render keeps keys and order and fails exactly when one value fails |
| RenderFacts.AssembleIntoFresh | src/lib/Properties.js:37-41 | the `reduce` appends entries with distinct new keys in order |
| RenderFacts.AssembleDistinct | src/lib/Properties.js:37-41 | the `reduce` into `{}` reproduces an object's entries, keys in insertion order |
| RenderFacts.PutWritesOnly | src/lib/Properties.js:37 | an assignment writes its own key only |
| RenderFacts.ContributeFrame | src/lib/Schema.js:399-401 | a keyword's `json` writes its own output key and no other |
| RenderFacts.AsIsContribute | src/lib/Type.js:40-43 | a scalar keyword never fails to render and writes its value verbatim under its key |
| RenderFacts.NestedContribute | src/lib/Not.js:20-23 | additionalItems, additionalProperties, not and default render a schema nested from `{}`, write a raw value as is, and throw on null or undefined |
| RenderFacts.CompositeContribute | src/lib/AllOf.js:28-32 | allOf, oneOf and anyOf (assumed) render an array element by element; fail exactly when an element fails |
| RenderFacts.ItemsContribute | src/lib/Items.js:27-40 | items writes nothing when falsy, nests a schema, and renders an array element by element |
| RenderFacts.CollectionContribute | src/lib/Properties.js:35-46 | dependencies, properties and patternProperties write nothing for null and a same-keyed, same-ordered object with each value rendered |
| RenderFacts.DefinitionsRenderFails | src/lib/Definitions.js:27-30 | any schema holding a definitions keyword fails to render |
| RenderFacts.RenderFrame | src/lib/Schema.js:396-404 | rendering into a caller's context keeps its keys in order; every new key is some keyword's output key; a key no keyword writes keeps its value |
| RenderFacts.RenderConcat | src/lib/Schema.js:399-401 | rendering a concatenation renders the first part, then the second into its result |
| RenderFacts.LastOfKindDecides | src/lib/Schema.js:399-401 | for any kind, the rendered key holds what the last keyword of that kind wrote into the render of the keywords before it |
| RenderFacts.ContributeLeaves | src/lib/Schema.js:399-401 | what one keyword's `json` leaves under its key: its value (scalar and exclusive kinds), its nested render (not, default, additionalItems, additionalProperties), the earlier content (a falsy value of a kind that skips it), some value otherwise |
| RenderFacts.LastOfKindWins | src/lib/Schema.js:399-401 | for any kind set several times, the rendered key holds the last keyword's contribution: its value, its nested render, or, for a skipped falsy value, what the keywords before it left |
| RenderFacts.Companion | src/lib/ExclusiveMaximum.js:22 | exclusiveMaximum needs `maximum`, exclusiveMinimum needs `minimum` |
| RenderFacts.ExclusiveContribute | src/lib/ExclusiveMaximum.js:21-28 | exclusiveMaximum/Minimum render exactly when the context holds the companion key, writing only their own key; otherwise MissingCompanionKeyword |
| RenderFacts.ExclusiveWithoutCompanionFails | src/lib/ExclusiveMinimum.js:21-28 | without a companion keyword before it or in the context, the schema fails to render, however the rest is arranged |
| RenderFacts.ExclusiveAfterCompanionPasses | src/lib/ExclusiveMaximum.js:21-28 | with a companion keyword anywhere before it, the check passes |
| RenderFacts.RenderKeepsKey | src/lib/Schema.js:399-401 | a key present before rendering is still present after it |
| BuilderFacts.SetterAppendsOne | src/lib/Schema.js:65-69 | a setter call appends exactly one keyword whose value its setter accepts again and returns the schema, or throws and appends nothing |
| BuilderFacts.ShortcutAppendsType | src/lib/Schema.js:74-87 | a type shortcut appends a type keyword with a primitive type name |
| BuilderFacts.GetterReadsFirst | src/lib/Schema.js:57-63 | a getter changes nothing and returns the first value of its kind, or undefined |
| BuilderFacts.SetThenGet | src/lib/Schema.js:65-72 | after setting, the getter returns the new value when the kind was unset, the earlier value otherwise |
| BuilderFacts.DuplicateKindFirstReadLastRendered | src/lib/Schema.js:57-72 | for any kind set twice, the getter reads the first value while the render holds what the second one writes: the value itself for scalar and exclusive kinds, its nested render for the nesting kinds |
| BuilderFacts.MultipleOfFalsyReads | src/lib/Schema.js:225-232 | `multipleOf(v)` with a falsy v reads instead of setting; a truthy v sets |
| BuilderFacts.MinPropertiesReadsMaxProperties | src/lib/Schema.js:288-295 | a value set by `minProperties(v)` is never read back by `minProperties()`; one set by `maxProperties(v)` is |
| BuilderFacts.MinPropertiesGetter | src/lib/Schema.js:294 | the getter `minProperties()` returns the first maxProperties value and changes nothing |
| BuilderFacts.AddPropertyExisting | src/lib/Schema.js:127-129 | with a properties keyword present, the add inserts into the first one where it stands |
| BuilderFacts.AddPropertyAbsent | src/lib/Schema.js:130-134 | without one, the add appends a properties keyword holding `{[name]: value \|\| {}}` |
| BuilderFacts.ObjectNameExpands | src/lib/Schema.js:118-124 | an object name makes one call per entry, its second argument becoming the required flag |
| BuilderFacts.RenderPropertyOfType | test/test.js:216-221 | a properties keyword whose one member is a typed schema renders that schema nested under its name |
| BuilderFacts.SetterThenRender | src/lib/Schema.js:396-404 | a schema after a setter call renders as before, then the new keyword writes into the same context |
| BuilderFacts.PropertyAddsInPlace | src/lib/Schema.js:127-129 | with a properties keyword present, `property` replaces it where it stands and the name maps to the value, or `{}` when undefined |
| BuilderFacts.PropertyAppendsWhenAbsent | src/lib/Schema.js:130-134 | without one, `property` appends `properties({[name]: value \|\| {}})` |
| BuilderFacts.PropertyFalsyValueDefaults | src/lib/Schema.js:127-134 | a first falsy value is stored as `{}`, a later one as itself |
| BuilderFacts.RequiredPush | src/lib/Schema.js:136-142 | with a truthy flag, the name is pushed onto a required array, or `required([name])` is appended, or a non-array required value throws |
| BuilderFacts.RequireStepCases | src/lib/Schema.js:137-141 | the three outcomes of requiring a name: append, push in place, or throw |
| BuilderFacts.RequiredKeepsDuplicates | src/lib/Schema.js:137-138 | requiring the same property twice records the name twice |
| BuilderFacts.ObjectNameActsAsName | src/lib/Schema.js:118-124 | `property({a: v}, required)` does what `property(a, v, required)` does |
| BuilderFacts.PropertySchemaNameAddsKeywords | src/lib/Schema.js:118-124 | `property(schema)` on a used schema adds one property named `_keywords` holding the array of its keyword objects |
| BuilderFacts.PropertyChainExtends | src/lib/Schema.js:127-129 | adding properties with new distinct keys to a sole properties keyword extends its object in order |
| BuilderFacts.PropertiesEqualsPropertyChain | test/test.js:216-229 | `property` with an object of distinct keys and truthy values builds what `properties(object)` builds |
| BuilderFacts.PatternPropertyAddsInPlace | src/lib/Schema.js:171-173 | with a patternProperties keyword present: a non-string name or non-object value throws with nothing changed, otherwise the keyword is updated in place |
| BuilderFacts.PatternPropertyWithoutValue | src/lib/Schema.js:174-178 | `patternProperty(name)` stores `{}` on a first call, and throws on an existing patternProperties keyword |
| BuilderFacts.AccessKeepsAllStored | src/lib/Schema.js:65-72 | after any accessor call, every keyword holds a value its own setter accepts |
| BuilderFacts.PropertyKeepsAllStored | src/lib/Schema.js:116-151 | `property` keeps every keyword's value acceptable to its setter |
| BuilderFacts.PatternPropertyKeepsAllStored | src/lib/Schema.js:162-187 | `patternProperty` keeps every keyword's value acceptable to its setter, even when it throws |
| BuilderFacts.TwoTypes | src/lib/Schema.js:65-72 | after `type(a).type(b)` the getter reads a and the render says b |
| BuilderFacts.RenderType | src/lib/Type.js:40-43 | `type('string')` renders `{type: 'string'}` |
| BuilderFacts.RenderMaximumThenExclusive | test/test.js:326 | `maximum(m).exclusiveMaximum(true)` renders both keys in order |
| BuilderFacts.RenderExclusiveThenMaximumFails | test/test.js:326 | the other order fails with MissingCompanionKeyword |
| BuilderFacts.RenderExclusiveIntoContext | src/lib/Schema.js:398 | a caller's context holding `maximum` satisfies the check |
| BuilderFacts.RenderMinimumThenExclusive | test/test.js:330 | `minimum(m).exclusiveMinimum(true)` renders both keys in order |
| BuilderFacts.RenderEnum | test/test.js:67-77 | `enum(1, 2, 3)` builds what `enum([1, 2, 3])` builds and renders the array as is |
| BuilderFacts.RenderOneProperty | src/lib/Properties.js:35-46 | a properties keyword with one schema renders that schema under its name |
| BuilderFacts.RenderPropertiesOfUsedSchema | src/lib/Properties.js:35-46 | a properties keyword holding a used schema renders `{_keywords: [...]}`, the keyword objects as they are |
| BuilderFacts.RenderRequiredProperty | test/test.js:470-473 | `property(n, string(), true)` on a fresh schema renders the nested schema, then `required: [n]` |
| BuilderFacts.RenderAdditionalItemsFalse | test/test.js:356 | `additionalItems(false)` renders with no items present |
| BuilderFacts.RenderNotEmptySchema | test/test.js:198 | `not(schema())` renders `{not: {}}` |
| BuilderFacts.RenderDefault | test/test.js:378-379 | `default(v)` renders the value as is |
| BuilderFacts.RenderFormat | test/test.js:370-375 | each format name is accepted and renders as `{format: name}` |

## Left out

- `save` and `saveSync` write files. They are not part of this model.
- `src/lib/Builder.js`, `Keyword.js` and `ObjectKeyword.js` are not part of this model.
- KeywordFacts.DefinitionsSetter: assumes Schema.js is loaded before Definitions.js, as the cited `require` order implies when the package is entered through Schema.js. The entry module `src/index.js` is not part of this model. If it loaded Definitions.js first, Schema.js would hold an empty object for Definitions, and every `definitions(v)` call would throw the engine's TypeError ("not a constructor").
- Json.Entries: a schema without keywords is taken as never read, so it has no own key. In JavaScript a getter or `json` call on an empty schema reads its keyword list and adds `_keywords: []`. The same holds for KeywordFacts.DefinitionsSetter and KeywordFacts.DependenciesRejectsUsedSchema.
- Json.KeywordObject: a keyword object is modelled as the plain object `{_value}`. Its inherited `json` method and any fields set by `Keyword.js` are not modelled, so a `_keywords` array renders as it is.
- Keywords.Insert: requires `Insertable` (undefined, null or a plain object). A stored array or schema would get an expando property in JavaScript; that is not modelled.
- Keywords.InsertAll: requires `Insertable`, for the same reason.
- Keywords.PatternAddOne: requires `Insertable`, for the same reason.
- Keywords.PatternAddAll: requires `Insertable`, for the same reason.
- Keywords.PatternPropertiesAdd: requires `Insertable`, for the same reason.
- AnyOf, Required, MaxLength, MinItems, MaxProperties and MinProperties are not part of this model. Their setters are taken to accept any value. AnyOf collects its arguments and renders element-wise, as allOf does; the others render their value as is.
- SchemaBuilder.Schema.Property: requires `Addable` and `NameModelled`, which the source does not demand. A properties value that is an array or a schema would get an expando property in JavaScript. A non-integral or exponent-form number name would need JavaScript's float-to-string conversion. Neither is modelled.
- SchemaBuilder.Schema.PatternProperty: requires `Addable` and `NameModelled`, for the same reasons.
- SchemaBuilder.Schema.PropertyOne: requires `Addable` and `KeyConvertible`, for the same reasons. Its callers, Schema.Property and Schema.PropertyEntries, already meet them.
- SchemaBuilder.Schema.PatternPropertyOne: requires `Addable` and `KeyConvertible`, for the same reasons. Its callers, Schema.PatternProperty and Schema.PatternPropertyEntries, already meet them.
- SchemaBuilder.Schema.PropertyEntries: requires `Addable`, for the same reasons.
- SchemaBuilder.Schema.PatternPropertyEntries: requires `Addable`, for the same reasons.
- SchemaBuilder.PropertySingle: requires `Addable` and a key-convertible name, for the same reasons; the same holds for SchemaBuilder.AddProperty and SchemaBuilder.PatternPropertySingle.
- Keywords.PropertiesAdd: requires an insertable target and a key-convertible or object name, for the same reasons.
- Aliasing is not modelled. A nested schema is a snapshot of its keyword list, so later changes to it are not seen by the outer schema. An object passed to a setter is not shared with the caller either.
- When `json(context)` throws, the caller's context keeps whatever was written before the throw. The model returns only the error.
- `Object.keys` puts integer-like keys first in ascending order. The model keeps insertion order for every key.
- Numbers are reals. -0, NaN, Infinity and float formatting of keys are not modelled.
- Error messages are not modelled. Each throw is an `Error` constructor naming its kind and keyword.
- `getKeyword` returns the keyword object itself. The model returns its index (`FirstIndex`), and `add` rewrites the keyword at that index.
- `json` with a context that is truthy but not an object is not modelled. The context is `None` or a plain object.
