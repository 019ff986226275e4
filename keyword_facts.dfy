/** What each keyword's constructor and setter accept, stated per keyword class in
    the terms of its source file, and the behaviour of the two `add` operations. */
module KeywordFacts {
  import opened Json
  import opened Keywords

  // ---------------------------------------------------------------- dependencies

  /** One entry of a `dependencies` object is acceptable: an object, and when it is an
      array, a non-empty array of distinct strings. */
  predicate DependencyOk(d: Value) {
    IsObjectType(d) &&
    (d.Arr? ==> |d.elems| > 0 && NoRepeats(d.elems) && forall i :: 0 <= i < |d.elems| ==> d.elems[i].Str?)
  }

  /** The per-entry check rejects exactly the entries that are not acceptable. */
  lemma CheckDependencyAgrees(d: Value)
    ensures CheckDependency(d).None? <==> DependencyOk(d)
  {
    if d.Arr? {
      UniqKeepsLength(d.elems);
    }
  }

  /** The entries are checked in order: the setter passes when every entry is
      acceptable, and otherwise throws the error of the first entry that is not. */
  lemma {:induction false} FirstDependencyErrorAgrees(es: Fields)
    ensures FirstDependencyError(es).None? <==> forall i :: 0 <= i < |es| ==> DependencyOk(es[i].1)
    ensures FirstDependencyError(es).Some? ==>
      exists i :: 0 <= i < |es| && CheckDependency(es[i].1) == FirstDependencyError(es) &&
        forall j :: 0 <= j < i ==> DependencyOk(es[j].1)
    decreases |es|
  {
    if es != [] {
      CheckDependencyAgrees(es[0].1);
      FirstDependencyErrorAgrees(es[1..]);
      if CheckDependency(es[0].1).None? {
        assert forall i :: 1 <= i < |es| ==> es[i] == es[1..][i - 1];
        if FirstDependencyError(es[1..]).Some? {
          var i :| 0 <= i < |es[1..]| && CheckDependency(es[1..][i].1) == FirstDependencyError(es[1..]) &&
            forall j :: 0 <= j < i ==> DependencyOk(es[1..][j].1);
          assert CheckDependency(es[i + 1].1) == FirstDependencyError(es);
        }
      }
    }
  }

  /** `dependencies(value)` (src/lib/Dependencies.js:14-29): an object whose every entry
      is acceptable is stored as it is; anything that is not an object throws before an
      entry is looked at. */
  lemma DependenciesSetter(v: Value)
    ensures Assign(Dependencies, v).Success? <==>
      IsObjectType(v) && !v.Null? &&
      forall i :: 0 <= i < |Entries(v).value| ==> DependencyOk(Entries(v).value[i].1)
    ensures Assign(Dependencies, v).Success? ==> Assign(Dependencies, v).value == v
    ensures !IsObjectType(v) ==> Assign(Dependencies, v) == Failure(TypeMismatch(Dependencies))
  {
    if IsObjectType(v) && !v.Null? {
      FirstDependencyErrorAgrees(Entries(v).value);
    }
  }

  /** Uniqueness is checked before the element types: `[1, 1]` is reported as a repeat,
      not as a non-string element (src/lib/Dependencies.js:22-25). */
  lemma DependencyUniquenessCheckedFirst()
    ensures CheckDependency(Arr([Num(1.0), Num(1.0)])) == Some(DuplicateArrayElement(Dependencies))
    ensures CheckDependency(Arr([Num(1.0), Num(2.0)])) == Some(MemberTypeMismatch(Dependencies))
  {
    assert Uniq([Num(1.0)]) == [Num(1.0)];
    assert SameValueZero(Num(1.0), Num(1.0));
    assert Uniq([Num(1.0), Num(1.0)]) == [Num(1.0)];
    assert !SameValueZero(Num(1.0), Num(2.0));
    assert Uniq([Num(1.0), Num(2.0)]) == [Num(1.0), Num(2.0)];
  }

  // ---------------------------------------------------------------- type

  /** `type(value)` (src/lib/Type.js:20-34): a string is stored unchecked; an array is
      stored when every element is one of the seven primitive type names, and otherwise
      the first element that is not is reported; anything else throws. */
  lemma TypeSetter(v: Value)
    ensures Assign(Type, v).Success? <==>
      v.Str? || (v.Arr? && forall i :: 0 <= i < |v.elems| ==> IncludedIn(PrimitiveTypes, v.elems[i]))
    ensures Assign(Type, v).Success? ==> Assign(Type, v).value == v
    ensures !v.Str? && !v.Arr? ==> Assign(Type, v) == Failure(TypeMismatch(Type))
    ensures v.Arr? && Assign(Type, v).Failure? ==>
      exists i :: 0 <= i < |v.elems| && Assign(Type, v).error == InvalidEnumValue(Type, v.elems[i]) &&
        !IncludedIn(PrimitiveTypes, v.elems[i]) &&
        forall j :: 0 <= j < i ==> IncludedIn(PrimitiveTypes, v.elems[j])
  {
  }

  /** A single string is not compared with the primitive names, and an empty array
      passes because its element loop never runs (src/lib/Type.js:21-33). */
  lemma TypeLooseCases()
    ensures Assign(Type, Str("strng")) == Success(Str("strng"))
    ensures Assign(Type, Arr([])) == Success(Arr([]))
    ensures Assign(Type, Arr([Str("strng")])) == Failure(InvalidEnumValue(Type, Str("strng")))
  {
    assert !IncludedIn(PrimitiveTypes, Str("strng"));
  }

  /** `type`, `items`, `allOf`, `oneOf` and `anyOf` collect two or more arguments into
      one array, in argument order: `items(a, b)` is `items([a, b])`
      (src/lib/Type.js:17, src/lib/Items.js:6, src/lib/AllOf.js:7, src/lib/OneOf.js:6). */
  lemma VarargsCollapse(kind: Kind, args: seq<Value>)
    requires kind == Type || kind == Items || kind == AllOf || kind == OneOf || kind == AnyOf
    requires |args| > 1
    ensures Construct(kind, args) == Construct(kind, [Arr(args)])
    ensures Construct(kind, args).Success? ==> Construct(kind, args).value == Arr(args)
  {
  }

  // ---------------------------------------------------------------- items, allOf, oneOf, not

  /** `items(value)` (src/lib/Items.js:13-25): an object is stored; when it is an array,
      every element must be an object too. */
  lemma ItemsSetter(v: Value)
    ensures Assign(Items, v).Success? <==>
      IsObjectType(v) && (v.Arr? ==> forall i :: 0 <= i < |v.elems| ==> IsObjectType(v.elems[i]))
    ensures Assign(Items, v).Success? ==> Assign(Items, v).value == v
  {
  }

  /** `allOf(value)` and `oneOf(value)` (src/lib/AllOf.js:14-26, src/lib/OneOf.js:13-25):
      only a non-empty array of objects is stored, so a single argument that is not an
      array is rejected. */
  lemma CompositeSetter(kind: Kind, v: Value)
    requires kind == AllOf || kind == OneOf
    ensures Assign(kind, v).Success? <==>
      v.Arr? && |v.elems| > 0 && forall i :: 0 <= i < |v.elems| ==> IsObjectType(v.elems[i])
    ensures Assign(kind, v).Success? ==> Assign(kind, v).value == v
    ensures !v.Arr? ==> Construct(kind, [v]) == Failure(TypeMismatch(kind))
    ensures v == Arr([]) ==> Assign(kind, v) == Failure(EmptyCollection(kind))
  {
  }

  /** `not(value)`, `properties(value)` and `patternProperties(value)`
      (src/lib/Not.js:13-18, src/lib/Properties.js:13-16,
      src/lib/PatternProperties.js:13-19): any object, null included, is stored. */
  lemma ObjectSetter(kind: Kind, v: Value)
    requires kind == Not || kind == Properties || kind == PatternProperties
    ensures Assign(kind, v) == if IsObjectType(v) then Success(v) else Failure(TypeMismatch(kind))
  {
  }

  // ---------------------------------------------------------------- definitions

  /** `definitions(value)` as written (src/lib/Definitions.js:14-25): arrays and
      non-objects throw the library's error. A value with any enumerable key reaches
      `instanceof Schema` with a `Schema` that is not callable (a cyclic require), so
      the engine throws: a plain object with a key, and a schema holding a keyword,
      whose own `_keywords` key is enumerated. Only null, an object without keys and a
      schema without keywords are stored. */
  lemma DefinitionsSetter(v: Value)
    ensures Assign(Definitions, v).Success? <==>
      v.Null? || (v.Node? && v.keywords == []) || (v.Obj? && v.fields == [])
    ensures Assign(Definitions, v).Success? ==> Assign(Definitions, v).value == v
    ensures (v.Obj? && v.fields != []) || (v.Node? && v.keywords != []) ==>
      Assign(Definitions, v) == Failure(EngineTypeError)
    ensures !IsObjectType(v) || v.Arr? ==> Assign(Definitions, v) == Failure(TypeMismatch(Definitions))
  {
  }

  /** `dependencies(schema)` with a schema holding a keyword throws
      (src/lib/Dependencies.js:16-25): its own `_keywords` entry is a non-empty array
      of keyword objects, which has no repeat but is not made of strings. */
  lemma DependenciesRejectsUsedSchema(ks: seq<Keyword>)
    requires ks != []
    ensures Assign(Dependencies, Node(ks)) == Failure(MemberTypeMismatch(Dependencies))
  {
    var objs := KeywordObjects(ks);
    assert Entries(Node(ks)).value == [("_keywords", Arr(objs))];
    assert NoRepeats(objs);
    UniqKeepsLength(objs);
    assert !objs[0].Str?;
    assert CheckDependency(Arr(objs)) == Some(MemberTypeMismatch(Dependencies));
  }

  // ---------------------------------------------------------------- format, enum

  /** `format(value)` (src/lib/Format.js:23-33): a string naming one of the six formats
      is stored; another string and a non-string throw different errors. */
  lemma FormatSetter(v: Value)
    ensures Assign(Format, v).Success? <==> v.Str? && v.s in ValidFormats
    ensures Assign(Format, v).Success? ==> Assign(Format, v).value == v
    ensures !v.Str? ==> Assign(Format, v) == Failure(TypeMismatch(Format))
    ensures v.Str? && v.s !in ValidFormats ==> Assign(Format, v) == Failure(InvalidEnumValue(Format, v))
  {
  }

  /** The six format names are accepted (src/lib/Format.js:4-11). */
  lemma FormatNames(name: string)
    requires name in ["date-time", "email", "hostname", "ipv4", "ipv6", "uri"]
    ensures Construct(Format, [Str(name)]) == Success(Str(name))
  {
  }

  /** `enum(...)` (src/lib/Enum.js:5-27): arguments whose first is not an array are
      collected into one array, so `enum(1, 2, 3)` is `enum([1, 2, 3])` and `enum(x)` is
      `enum([x])`; an array first argument is taken alone; an empty array throws. */
  lemma EnumConstruct(args: seq<Value>)
    requires |args| > 0
    ensures !args[0].Arr? ==> Construct(Enum, args) == Success(Arr(args))
    ensures !args[0].Arr? ==> Construct(Enum, args) == Construct(Enum, [Arr(args)])
    ensures args[0].Arr? ==>
      Construct(Enum, args) == if args[0].elems == [] then Failure(EmptyCollection(Enum)) else Success(args[0])
  {
  }

  /** The `enum` setter wraps a value that is not an array too (src/lib/Enum.js:17-27). */
  lemma EnumSetter(v: Value)
    ensures !v.Arr? ==> Assign(Enum, v) == Success(Arr([v]))
    ensures v.Arr? ==> Assign(Enum, v) == if v.elems == [] then Failure(EmptyCollection(Enum)) else Success(v)
  {
  }

  // ---------------------------------------------------------------- scalar keywords

  /** `exclusiveMaximum`, `exclusiveMinimum` and `uniqueItems` store booleans only
      (src/lib/ExclusiveMaximum.js:13-19, src/lib/ExclusiveMinimum.js:13-19,
      src/lib/UniqueItems.js:13-19). */
  lemma BooleanSetter(kind: Kind, v: Value)
    requires kind == ExclusiveMaximum || kind == ExclusiveMinimum || kind == UniqueItems
    ensures Assign(kind, v) == if v.Bool? then Success(v) else Failure(TypeMismatch(kind))
  {
  }

  /** `additionalProperties` and `additionalItems` store a boolean or any object
      (src/lib/AdditionalProperties.js:13-18, src/lib/AdditionalItems.js:13-18). */
  lemma BooleanOrObjectSetter(kind: Kind, v: Value)
    requires kind == AdditionalProperties || kind == AdditionalItems
    ensures Assign(kind, v) == if v.Bool? || IsObjectType(v) then Success(v) else Failure(TypeMismatch(kind))
  {
  }

  /** `minLength` and `maxItems` store an integer that is at least 0, zero included
      (src/lib/MinLength.js:13-19, src/lib/MaxItems.js:13-19). */
  lemma CountSetter(kind: Kind, v: Value)
    requires kind == MinLength || kind == MaxItems
    ensures Assign(kind, v).Success? <==> v.Num? && v.n >= 0.0 && v.n.Floor as real == v.n
    ensures Assign(kind, v).Success? ==> Assign(kind, v).value == v
    ensures Assign(kind, Num(0.0)) == Success(Num(0.0))
    ensures Assign(kind, Num(-1.0)).Failure? && Assign(kind, Num(0.5)).Failure?
  {
    assert (0.5).Floor == 0;
  }

  /** `pattern` and `$ref` store any string, with no regular-expression or URI check
      (src/lib/Pattern.js:13-19, src/lib/RefKeyword.js:13-20). */
  lemma StringSetter(kind: Kind, v: Value)
    requires kind == Pattern || kind == RefKeyword
    ensures Assign(kind, v) == if v.Str? then Success(v) else Failure(TypeMismatch(kind))
  {
  }

  /** `multipleOf` stores a number greater than 0 (src/lib/MultipleOf.js:9-15). */
  lemma MultipleOfSetter(v: Value)
    ensures Assign(MultipleOf, v) == if v.Num? && v.n > 0.0 then Success(v) else Failure(OutOfRange(MultipleOf))
  {
  }

  /** `maximum` and `minimum` store any number (src/lib/Maximum.js:9-15,
      src/lib/Minimum.js:9-15). */
  lemma NumberSetter(kind: Kind, v: Value)
    requires kind == Maximum || kind == Minimum
    ensures Assign(kind, v) == if v.Num? then Success(v) else Failure(TypeMismatch(kind))
  {
  }

  /** `default` stores anything (src/lib/Default.js:13-15). */
  lemma DefaultSetter(v: Value)
    ensures Assign(Default, v) == Success(v)
  {
  }

  /** A stored value passes its setter again unchanged: what the setter stores is a
      fixed point of it. */
  lemma AssignIdempotent(kind: Kind, v: Value)
    requires Assign(kind, v).Success?
    ensures Assign(kind, Assign(kind, v).value) == Assign(kind, v)
  {
  }

  // ---------------------------------------------------------------- the add operations

  /** Inserting entries with new, distinct keys into an object appends them in order. */
  lemma {:induction false} InsertAllFresh(f: Fields, es: Fields)
    requires DistinctKeys(f + es)
    ensures InsertAll(Obj(f), es) == Obj(f + es)
    decreases |es|
  {
    if es != [] {
      var k := es[0].0;
      var g := f + [es[0]];
      assert g + es[1..] == f + es;
      assert k !in Keys(f) by {
        forall i | 0 <= i < |f| ensures Keys(f)[i] != k {
          assert (f + es)[i] == f[i] && (f + es)[|f|] == es[0];
        }
      }
      PutFresh(f, k, es[0].1);
      assert Insert(Obj(f), k, es[0].1) == Obj(g);
      InsertAllFresh(g, es[1..]);
    }
  }

  /** `Properties.add(name, value)` with a name that is not an object
      (src/lib/Properties.js:18, 26-32): the value (or `{}` when it is undefined) is
      stored under the name's key without any check; an existing key keeps its place,
      a new one goes last, and every other entry is left alone. */
  lemma PropertiesAddSingle(target: Value, name: Value, value: Value)
    requires Insertable(target) && KeyConvertible(name) && !IsObjectType(name)
    ensures PropertiesAdd(target, name, value).Success?
    ensures var r := PropertiesAdd(target, name, value).value;
      r.Obj? &&
      Lookup(r.fields, PropertyKey(name)) == Some(if value.Undefined? then Obj([]) else value) &&
      (target.Obj? ==> forall k :: k != PropertyKey(name) ==> Lookup(r.fields, k) == Lookup(target.fields, k)) &&
      (target.Obj? && PropertyKey(name) in Keys(target.fields) ==> Keys(r.fields) == Keys(target.fields)) &&
      (target.Obj? && PropertyKey(name) !in Keys(target.fields) ==> r.fields == target.fields + [(PropertyKey(name), OrEmpty(value))]) &&
      (!target.Obj? ==> r == Obj([(PropertyKey(name), OrEmpty(value))]))
  {
    if target.Obj? && PropertyKey(name) !in Keys(target.fields) {
      PutFresh(target.fields, PropertyKey(name), OrEmpty(value));
    }
  }

  /** `Properties.add` with an object name adds each of its entries in order, `{}`
      standing for an undefined value (src/lib/Properties.js:19-24): into an object
      that has none of the keys, the entries are appended as they are. */
  lemma PropertiesAddObjectName(f: Fields, es: Fields)
    requires DistinctKeys(f + es)
    requires forall i :: 0 <= i < |es| ==> !es[i].1.Undefined?
    ensures PropertiesAdd(Obj(f), Obj(es), Undefined) == Success(Obj(f + es))
  {
    assert WithDefaults(es) == es;
    InsertAllFresh(f, es);
  }

  /** `PatternProperties.add(name, value)` with a name that is not an object
      (src/lib/PatternProperties.js:29-43): a name that is not a string, or a value that
      is not an object (undefined included), throws and changes nothing; otherwise the
      value is stored under the name. */
  lemma PatternAddOneChecks(target: Value, name: Value, value: Value)
    requires Insertable(target)
    ensures !name.Str? ==> PatternAddOne(target, name, value) == Added(target, Some(InvalidName(PatternProperties)))
    ensures name.Str? && !IsObjectType(value) ==>
      PatternAddOne(target, name, value) == Added(target, Some(TypeMismatch(PatternProperties)))
    ensures name.Str? && IsObjectType(value) ==>
      var r := PatternAddOne(target, name, value);
      r.thrown.None? && r.value.Obj? && Lookup(r.value.fields, name.s) == Some(value) &&
      (target.Obj? ==> forall k :: k != name.s ==> Lookup(r.value.fields, k) == Lookup(target.fields, k))
  {
  }

  /** The entries are added one by one in order: if every value is an object they are
      all added; otherwise the add of the first bad entry throws, and the entries
      before it stay added (src/lib/PatternProperties.js:22-27). */
  lemma {:induction false} PatternAddAllStopsAtFirstBad(target: Value, es: Fields, n: nat)
    requires Insertable(target)
    requires n <= |es|
    requires forall i :: 0 <= i < n ==> IsObjectType(es[i].1)
    requires n < |es| ==> !IsObjectType(es[n].1)
    ensures PatternAddAll(target, es).value == InsertAll(target, es[..n])
    ensures PatternAddAll(target, es).thrown == if n < |es| then Some(TypeMismatch(PatternProperties)) else None
    decreases n
  {
    if n == 0 {
      PatternAddAllFirstBad(target, es);
    } else {
      var t := Insert(target, es[0].0, es[0].1);
      var rest := es[1..];
      PatternAddAllHead(target, es);
      ShiftObjectTypes(es, n);
      PatternAddAllStopsAtFirstBad(t, rest, n - 1);
      InsertAllHead(target, es, n);
      assert n < |es| <==> n - 1 < |rest|;
    }
  }

  /** With no good entry in front, nothing is added and a bad first entry throws. */
  lemma PatternAddAllFirstBad(target: Value, es: Fields)
    requires Insertable(target)
    requires es != [] ==> !IsObjectType(es[0].1)
    ensures PatternAddAll(target, es).value == InsertAll(target, es[..0])
    ensures PatternAddAll(target, es).thrown == if 0 < |es| then Some(TypeMismatch(PatternProperties)) else None
  {
    assert es[..0] == [];
    if es != [] {
      assert PatternAddOne(target, Str(es[0].0), es[0].1) == Added(target, Some(TypeMismatch(PatternProperties)));
    }
  }

  /** A first entry whose value is an object is inserted, and the rest follow. */
  lemma PatternAddAllHead(target: Value, es: Fields)
    requires Insertable(target) && es != [] && IsObjectType(es[0].1)
    ensures PatternAddAll(target, es) == PatternAddAll(Insert(target, es[0].0, es[0].1), es[1..])
  {
    assert PatternAddOne(target, Str(es[0].0), es[0].1) == Added(Insert(target, es[0].0, es[0].1), None);
  }

  lemma InsertAllHead(target: Value, es: Fields, n: nat)
    requires Insertable(target) && 0 < n <= |es|
    ensures InsertAll(target, es[..n]) == InsertAll(Insert(target, es[0].0, es[0].1), es[1..][..n - 1])
  {
    assert es[..n][0] == es[0];
    assert es[..n][1..] == es[1..][..n - 1];
  }

  /** The conditions on the first `n` entries, moved one entry on. */
  lemma ShiftObjectTypes(es: Fields, n: nat)
    requires 0 < n <= |es|
    requires forall i :: 0 <= i < n ==> IsObjectType(es[i].1)
    requires n < |es| ==> !IsObjectType(es[n].1)
    ensures forall i :: 0 <= i < n - 1 ==> IsObjectType(es[1..][i].1)
    ensures n - 1 < |es[1..]| ==> !IsObjectType(es[1..][n - 1].1)
  {
    assert forall i :: 0 <= i < n - 1 ==> es[1..][i] == es[i + 1];
  }

}
