/** Properties of the builder (src/lib/Schema.js): what each call does to the keyword
    list, what a getter reads back, how `property` and `patternProperty` grow the first
    collection keyword in place, and what built schemas render to. */
module BuilderFacts {
  import opened Json
  import opened Keywords
  import opened Rendering
  import opened SchemaBuilder
  import KeywordFacts
  import RenderFacts

  // ---------------------------------------------------------------- setters and getters

  /** A setter call constructs its keyword before `addKeyword` sees it
      (src/lib/Schema.js:65-69 and every accessor like it): when the constructor accepts
      the arguments, exactly one keyword is appended at the end, holding a value its own
      setter accepts again, and the schema is returned; when it throws, nothing is
      appended. */
  lemma SetterAppendsOne(ks: seq<Keyword>, kind: Kind, args: seq<Value>)
    requires IsSetterCall(kind, args)
    ensures var c := Construct(kind, args);
      var s := AccessStep(ks, kind, args);
      if c.Success? then
        s.keywords == ks + [Keyword(kind, c.value)] && s.reply == Chained &&
        Assign(kind, c.value) == Success(c.value)
      else s.keywords == ks && s.reply == Threw(c.error)
  {
    if Construct(kind, args).Success? {
      KeywordFacts.AssignIdempotent(kind, Collapse(kind, args));
    }
  }

  /** `boolean()` ... `null()` (src/lib/Schema.js:74-87) append a `type` keyword holding
      the type's name and return the schema. */
  lemma ShortcutAppendsType(ks: seq<Keyword>, t: TypeName)
    ensures ShortcutStep(ks, t) == Step(ks + [Keyword(Type, Str(TypeNameString(t)))], Chained)
    ensures IncludedIn(PrimitiveTypes, Str(TypeNameString(t)))
  {
  }

  /** A getter call (src/lib/Schema.js:57-63, 71) changes nothing and returns the value
      of the first keyword of the kind it reads, or undefined when there is none. */
  lemma GetterReadsFirst(ks: seq<Keyword>, kind: Kind)
    ensures AccessStep(ks, kind, []).keywords == ks
    ensures forall i :: (0 <= i < |ks| && ks[i].kind == GetterKind(kind) &&
      (forall j :: 0 <= j < i ==> ks[j].kind != GetterKind(kind))) ==>
        AccessStep(ks, kind, []).reply == Returned(ks[i].value)
    ensures (forall i :: 0 <= i < |ks| ==> ks[i].kind != GetterKind(kind)) ==>
      AccessStep(ks, kind, []).reply == Returned(Undefined)
  {
    forall i | 0 <= i < |ks| && ks[i].kind == GetterKind(kind) &&
      (forall j :: 0 <= j < i ==> ks[j].kind != GetterKind(kind))
      ensures AccessStep(ks, kind, []).reply == Returned(ks[i].value)
    {
      FirstIndexIs(ks, GetterKind(kind), Some(i));
    }
  }

  /** Setting a kind and then reading it back: the getter returns the value just set
      when the kind was not set before, and the earlier value otherwise. */
  lemma SetThenGet(ks: seq<Keyword>, kind: Kind, args: seq<Value>)
    requires kind != MinProperties && IsSetterCall(kind, args) && Construct(kind, args).Success?
    ensures var s := AccessStep(ks, kind, args);
      AccessStep(s.keywords, kind, []).reply ==
        Returned(if FirstIndex(ks, kind).Some? then GetValue(ks, kind) else Construct(kind, args).value)
  {
    GetValueAfterAppend(ks, Keyword(kind, Construct(kind, args).value), kind);
  }

  /** With the same kind set twice, the getter reports the first value
      (src/lib/Schema.js:57-63), while the render holds what the second keyword writes:
      its `json` runs last and no other kind writes that key (src/lib/Schema.js:396-404).
      For the scalar and exclusive kinds that is the second value itself, for not,
      default, additionalItems and additionalProperties its nested render. */
  lemma DuplicateKindFirstReadLastRendered(ks: seq<Keyword>, kind: Kind, a: Value, b: Value, ctx: Fields)
    requires kind != MinProperties
    requires FirstIndex(ks, kind).None?
    requires IsSetterCall(kind, [a]) && Construct(kind, [a]).Success?
    requires IsSetterCall(kind, [b]) && Construct(kind, [b]).Success?
    ensures var s1 := AccessStep(ks, kind, [a]);
      var s2 := AccessStep(s1.keywords, kind, [b]);
      var vb := Construct(kind, [b]).value;
      AccessStep(s2.keywords, kind, []).reply == Returned(Construct(kind, [a]).value) &&
      (Render(s2.keywords, ctx).Success? ==>
        Render(s1.keywords, ctx).Success? &&
        Contribute(Keyword(kind, vb), Render(s1.keywords, ctx).value).Success? &&
        Lookup(Render(s2.keywords, ctx).value, OutputKey(kind)) ==
          Lookup(Contribute(Keyword(kind, vb), Render(s1.keywords, ctx).value).value, OutputKey(kind)) &&
        (RenderFacts.WritesAsIs(kind) || kind == ExclusiveMaximum || kind == ExclusiveMinimum ==>
          Lookup(Render(s2.keywords, ctx).value, OutputKey(kind)) == Some(vb)) &&
        (RenderFacts.NestsValue(kind) ==>
          Lookup(Render(s2.keywords, ctx).value, OutputKey(kind)) == Some(RenderNested(vb).value)))
  {
    var ka := Keyword(kind, Construct(kind, [a]).value);
    var kb := Keyword(kind, Construct(kind, [b]).value);
    SetThenGet(ks, kind, [a]);
    GetValueAfterAppend(ks, ka, kind);
    SetThenGet(ks + [ka], kind, [b]);
    var ks2 := ks + [ka] + [kb];
    assert ks2[|ks2| - 1] == kb && ks2[..|ks2| - 1] == ks + [ka];
    RenderFacts.LastOfKindDecides(ks2, |ks2| - 1, ctx);
    RenderFacts.LastOfKindWins(ks2, |ks2| - 1, ctx);
  }

  /** `multipleOf(value)` tests `if (value)` (src/lib/Schema.js:225-232): a falsy
      argument such as 0 reads instead of setting, and a truthy one sets. */
  lemma MultipleOfFalsyReads(ks: seq<Keyword>, v: Value)
    ensures !Truthy(v) ==> AccessStep(ks, MultipleOf, [v]) == Step(ks, Returned(GetValue(ks, MultipleOf)))
    ensures Truthy(v) ==> AccessStep(ks, MultipleOf, [v]) == SetStep(ks, MultipleOf, [v])
  {
  }

  /** `minProperties()` reads the maxProperties keyword (src/lib/Schema.js:288-295): a
      value set by `minProperties(v)` is never read back, and one set by
      `maxProperties(v)` is. */
  lemma MinPropertiesReadsMaxProperties(ks: seq<Keyword>, v: Value)
    ensures AccessStep(AccessStep(ks, MinProperties, [v]).keywords, MinProperties, []).reply ==
      AccessStep(ks, MinProperties, []).reply
    ensures FirstIndex(ks, MaxProperties).None? ==>
      AccessStep(AccessStep(ks, MaxProperties, [v]).keywords, MinProperties, []).reply == Returned(v)
  {
    var ka := ks + [Keyword(MinProperties, v)];
    var kb := ks + [Keyword(MaxProperties, v)];
    assert AccessStep(ka, MinProperties, []).reply == AccessStep(ks, MinProperties, []).reply by {
      MinPropertiesGetter(ks);
      MinPropertiesGetter(ka);
      GetValueAfterAppend(ks, Keyword(MinProperties, v), MaxProperties);
    }
    assert FirstIndex(ks, MaxProperties).None? ==> AccessStep(kb, MinProperties, []).reply == Returned(v) by {
      MinPropertiesGetter(kb);
      GetValueAfterAppend(ks, Keyword(MaxProperties, v), MaxProperties);
    }
    UncheckedStores(ks, MinProperties, v);
    UncheckedStores(ks, MaxProperties, v);
  }

  /** `minProperties(v)` and `maxProperties(v)` store any value: their classes are
      not part of this model and are taken to accept anything. */
  lemma UncheckedStores(ks: seq<Keyword>, kind: Kind, v: Value)
    requires kind == MinProperties || kind == MaxProperties
    ensures AccessStep(ks, kind, [v]) == Step(ks + [Keyword(kind, v)], Chained)
  {
    assert Collapse(kind, [v]) == v;
    assert Assign(kind, v) == Success(v);
  }

  /** The getter `minProperties()` returns the first maxProperties value. */
  lemma MinPropertiesGetter(ks: seq<Keyword>)
    ensures AccessStep(ks, MinProperties, []) == Step(ks, Returned(GetValue(ks, MaxProperties)))
  {
  }

  /** Each setter call renders as the schema before it, followed by the new keyword
      writing into the same context (src/lib/Schema.js:396-404). */
  lemma SetterThenRender(ks: seq<Keyword>, kind: Kind, args: seq<Value>, context: Option<Fields>)
    requires IsSetterCall(kind, args) && Construct(kind, args).Success?
    ensures var s := AccessStep(ks, kind, args);
      var r := RenderSchema(ks, context);
      RenderSchema(s.keywords, context) ==
        if r.Success? then Contribute(Keyword(kind, Construct(kind, args).value), r.value) else r
  {
    var kw := Keyword(kind, Construct(kind, args).value);
    var ctx := if context.Some? then context.value else [];
    RenderFacts.RenderConcat(ks, [kw], ctx);
    if Render(ks, ctx).Success? {
      var c := Render(ks, ctx).value;
      assert Render([kw], c) == (var d :- Contribute(kw, c); Render([], d));
    }
  }

  // ---------------------------------------------------------------- property

  /** The add of `property` on an existing properties keyword. */
  lemma AddPropertyExisting(ks: seq<Keyword>, name: Value, value: Value)
    requires Addable(ks) && KeyConvertible(name) && !name.Undefined?
    requires FirstIndex(ks, Properties).Some?
    ensures var i := FirstIndex(ks, Properties).value;
      Insertable(ks[i].value) &&
      AddProperty(ks, name, value) ==
        ks[i := Keyword(Properties, Insert(ks[i].value, PropertyKey(name), OrEmpty(value)))]
  {
    var i := FirstIndex(ks, Properties).value;
    assert GetValue(ks, Properties) == ks[i].value;
    assert PropertiesAdd(ks[i].value, name, value) == Success(Insert(ks[i].value, PropertyKey(name), OrEmpty(value)));
  }

  /** The add of `property` without a properties keyword. */
  lemma AddPropertyAbsent(ks: seq<Keyword>, name: Value, value: Value)
    requires Addable(ks) && KeyConvertible(name) && !name.Undefined?
    requires FirstIndex(ks, Properties).None?
    ensures AddProperty(ks, name, value) ==
      ks + [Keyword(Properties, Obj([(PropertyKey(name), OrEmptyIfFalsy(value))]))]
  {
  }

  /** `property(name, value)` with a properties keyword present calls `add` on the first
      one (src/lib/Schema.js:127-129, src/lib/Properties.js:18, 26-32): the keyword is
      replaced where it stands, nothing is appended, and the name maps to the value, or
      to `{}` when the value is undefined. */
  lemma PropertyAddsInPlace(ks: seq<Keyword>, name: Value, value: Value)
    requires Addable(ks) && KeyConvertible(name) && !name.Undefined?
    requires FirstIndex(ks, Properties).Some?
    ensures var i := FirstIndex(ks, Properties).value;
      var p := Insert(ks[i].value, PropertyKey(name), OrEmpty(value));
      PropertyStep(ks, name, value, Undefined) == Step(ks[i := Keyword(Properties, p)], Chained) &&
      Lookup(p.fields, PropertyKey(name)) == Some(OrEmpty(value))
  {
    AddPropertyExisting(ks, name, value);
  }

  /** Without a properties keyword, `property(name, value)` appends
      `properties({[name]: value || {}})` (src/lib/Schema.js:130-134). */
  lemma PropertyAppendsWhenAbsent(ks: seq<Keyword>, name: Value, value: Value)
    requires Addable(ks) && KeyConvertible(name) && !name.Undefined?
    requires FirstIndex(ks, Properties).None?
    ensures PropertyStep(ks, name, value, Undefined) ==
      Step(ks + [Keyword(Properties, Obj([(PropertyKey(name), OrEmptyIfFalsy(value))]))], Chained)
  {
    AddPropertyAbsent(ks, name, value);
  }

  /** The two paths default differently: a first `property(a, v)` with a falsy value
      such as 0 stores `{}` (`value || {}`), while a later `property(b, v)` stores v,
      since `add` only replaces an undefined value. */
  lemma PropertyFalsyValueDefaults(a: string, b: string, v: Value)
    requires a != b && !Truthy(v) && !v.Undefined?
    ensures var s1 := PropertyStep([], Str(a), v, Undefined);
      s1 == Step([Keyword(Properties, Obj([(a, Obj([]))]))], Chained) &&
      PropertyStep(s1.keywords, Str(b), v, Undefined) ==
        Step([Keyword(Properties, Obj([(a, Obj([])), (b, v)]))], Chained)
  {
    var f := [(a, Obj([]))];
    FalsyFirstCall(a, v);
    KeysOne(a, Obj([]));
    PropertyOnSole(f, b, v);
    PairAppend(a, Obj([]), b, v);
  }

  /** For `PropertyFalsyValueDefaults`: the keys of a one-entry object. */
  lemma KeysOne(k: string, v: Value)
    ensures Keys([(k, v)]) == [k]
  {
    KeysCons((k, v), []);
  }

  /** For `PropertyFalsyValueDefaults`: a second entry appended to a one-entry object. */
  lemma PairAppend(a: string, u: Value, b: string, v: Value)
    ensures [(a, u)] + [(b, v)] == [(a, u), (b, v)]
  {
  }

  /** The first call of `PropertyFalsyValueDefaults`. */
  lemma FalsyFirstCall(a: string, v: Value)
    requires !Truthy(v) && !v.Undefined?
    ensures PropertyStep([], Str(a), v, Undefined) == Step([Keyword(Properties, Obj([(a, Obj([]))]))], Chained)
  {
    var ks := [Keyword(Properties, Obj([(a, Obj([]))]))];
    PropertyAppendsWhenAbsent([], Str(a), v);
    assert [] + ks == ks;
  }

  /** `property(k, v)` on a schema whose only keyword is `properties(f)`, for a new key
      and a defined value, appends the entry to that object. */
  lemma PropertyOnSole(f: Fields, k: string, v: Value)
    requires k !in Keys(f) && !v.Undefined?
    ensures PropertyStep([Keyword(Properties, Obj(f))], Str(k), v, Undefined) ==
      Step([Keyword(Properties, Obj(f + [(k, v)]))], Chained)
  {
    SoleKeyword(Keyword(Properties, Obj(f)), Properties);
    SoleKeyword(Keyword(Properties, Obj(f)), PatternProperties);
    PropertyStepName([Keyword(Properties, Obj(f))], Str(k), v, Undefined);
    AddToSoleProperties(f, k, v);
  }

  /** A name that is neither undefined nor an object makes a single call. */
  lemma PropertyStepName(ks: seq<Keyword>, name: Value, value: Value, required: Value)
    requires Addable(ks) && KeyConvertible(name) && !name.Undefined?
    ensures PropertyStep(ks, name, value, required) == PropertySingle(ks, name, value, required)
  {
  }

  /** `property(name, value, true)` (src/lib/Schema.js:136-142): after the add, the name
      is pushed onto the first required array if there is a truthy one, or a
      `required([name])` keyword is appended; names already there are kept, duplicates
      included. A truthy required value that is not an array has no `push`. */
  lemma RequiredPush(ks: seq<Keyword>, name: Value, value: Value)
    requires Addable(ks) && KeyConvertible(name) && !name.Undefined?
    ensures var ks1 := AddProperty(ks, name, value);
      var s := PropertyStep(ks, name, value, Bool(true));
      var cur := GetValue(ks, Required);
      (!Truthy(cur) ==> s == Step(ks1 + [Keyword(Required, Arr([name]))], Chained)) &&
      (cur.Arr? ==> (FirstIndex(ks1, Required).Some? &&
        s == Step(ks1[FirstIndex(ks1, Required).value := Keyword(Required, Arr(cur.elems + [name]))], Chained))) &&
      (Truthy(cur) && !cur.Arr? ==> s == Step(ks1, Threw(EngineTypeError)))
  {
    var ks1 := AddProperty(ks, name, value);
    assert PropertyStep(ks, name, value, Bool(true)) == RequireStep(ks1, name) by {
      PropertyStepName(ks, name, value, Bool(true));
      PropertySingleIs(ks, name, value, Bool(true));
    }
    AddPropertyKeepsRequired(ks, name, value);
    RequireStepCases(ks1, name);
  }

  /** The add of `property` leaves the required value as it was. */
  lemma AddPropertyKeepsRequired(ks: seq<Keyword>, name: Value, value: Value)
    requires Addable(ks) && KeyConvertible(name) && !name.Undefined?
    ensures GetValue(AddProperty(ks, name, value), Required) == GetValue(ks, Required)
  {
    var ks1 := AddProperty(ks, name, value);
    if FirstIndex(ks, Properties).Some? {
      var i := FirstIndex(ks, Properties).value;
      AddPropertyExisting(ks, name, value);
      GetValueAfterUpdate(ks, i, ks1[i], Required);
    } else {
      AddPropertyAbsent(ks, name, value);
      GetValueAfterAppend(ks, ks1[|ks|], Required);
    }
  }

  /** The three outcomes of requiring a name. */
  lemma RequireStepCases(ks: seq<Keyword>, name: Value)
    ensures var cur := GetValue(ks, Required);
      var s := RequireStep(ks, name);
      (!Truthy(cur) ==> s == Step(ks + [Keyword(Required, Arr([name]))], Chained)) &&
      (cur.Arr? ==> (FirstIndex(ks, Required).Some? &&
        s == Step(ks[FirstIndex(ks, Required).value := Keyword(Required, Arr(cur.elems + [name]))], Chained))) &&
      (Truthy(cur) && !cur.Arr? ==> s == Step(ks, Threw(EngineTypeError)))
  {
    var cur := GetValue(ks, Required);
    if !Truthy(cur) {
      RequireFirst(ks, name);
    } else if cur.Arr? {
      RequirePushes(ks, name);
    } else {
      RequireThrows(ks, name);
    }
  }

  /** A required array gets the name pushed where it stands. */
  lemma RequirePushes(ks: seq<Keyword>, name: Value)
    requires GetValue(ks, Required).Arr?
    ensures FirstIndex(ks, Required).Some?
    ensures RequireStep(ks, name) == Step(ks[FirstIndex(ks, Required).value :=
      Keyword(Required, Arr(GetValue(ks, Required).elems + [name]))], Chained)
  {
    var cur := GetValue(ks, Required);
    assert FirstIndex(ks, Required).Some? && Truthy(cur);
  }

  /** A truthy required value that is not an array has no `push`. */
  lemma RequireThrows(ks: seq<Keyword>, name: Value)
    requires Truthy(GetValue(ks, Required)) && !GetValue(ks, Required).Arr?
    ensures RequireStep(ks, name) == Step(ks, Threw(EngineTypeError))
  {
  }

  /** Without a truthy required value, `required([name])` is appended. */
  lemma RequireFirst(ks: seq<Keyword>, name: Value)
    requires !Truthy(GetValue(ks, Required))
    ensures RequireStep(ks, name) == Step(ks + [Keyword(Required, Arr([name]))], Chained)
  {
    var v := Arr([name]);
    RequiredStoresAny(v);
    assert Construct(Required, [v]) == Success(v) by {
      assert Collapse(Required, [v]) == v;
    }
  }

  /** Requiring the same property twice records its name twice: the push of
      src/lib/Schema.js:137-138 does not look for the name first. */
  lemma RequiredKeepsDuplicates(n: string, v: Value)
    requires Truthy(v)
    ensures var s1 := PropertyStep([], Str(n), v, Bool(true));
      var s2 := PropertyStep(s1.keywords, Str(n), v, Bool(true));
      s2 == Step([Keyword(Properties, Obj([(n, v)])), Keyword(Required, Arr([Str(n), Str(n)]))], Chained)
  {
    var p := Keyword(Properties, Obj([(n, v)]));
    var ks := [p, Keyword(Required, Arr([Str(n)]))];
    RequiredFirstCall(n, v);
    SecondAddUnchanged(n, v);
    RequiredPush(ks, Str(n), v);
    PushSecond(p, Str(n));
  }

  /** For `RequiredKeepsDuplicates`: pushing a name onto a one-name required keyword in
      second place. */
  lemma PushSecond(p: Keyword, x: Value)
    ensures [p, Keyword(Required, Arr([x]))][1 := Keyword(Required, Arr([x] + [x]))] ==
      [p, Keyword(Required, Arr([x, x]))]
  {
    assert [x] + [x] == [x, x];
  }

  /** Adding the same name and value again leaves `[properties({n: v}), required([n])]`
      as it is. */
  lemma SecondAddUnchanged(n: string, v: Value)
    requires !v.Undefined?
    ensures var ks := [Keyword(Properties, Obj([(n, v)])), Keyword(Required, Arr([Str(n)]))];
      Addable(ks) && FirstIndex(ks, Required) == Some(1) && GetValue(ks, Required) == Arr([Str(n)]) &&
      AddProperty(ks, Str(n), v) == ks
  {
    var ks := [Keyword(Properties, Obj([(n, v)])), Keyword(Required, Arr([Str(n)]))];
    FirstIndexIs(ks, Properties, Some(0));
    FirstIndexIs(ks, Required, Some(1));
    FirstIndexIs(ks, PatternProperties, None);
    assert AddProperty(ks, Str(n), v) == ks by {
      AddPropertyExisting(ks, Str(n), v);
      PutAfter(n, v, n, v);
      assert ks[0 := Keyword(Properties, Obj([(n, v)]))] == ks;
    }
  }

  /** The first `property(n, v, true)` on a fresh schema. */
  lemma RequiredFirstCall(n: string, v: Value)
    requires Truthy(v)
    ensures PropertyStep([], Str(n), v, Bool(true)) ==
      Step([Keyword(Properties, Obj([(n, v)])), Keyword(Required, Arr([Str(n)]))], Chained)
  {
    AddPropertyAbsent([], Str(n), v);
    RequiredPush([], Str(n), v);
    AppendTwo(Keyword(Properties, Obj([(n, v)])), Keyword(Required, Arr([Str(n)])));
  }

  /** For `RequiredFirstCall`: two appends to an empty list. */
  lemma AppendTwo(p: Keyword, r: Keyword)
    ensures ([] + [p]) + [r] == [p, r]
  {
  }

  /** An object first argument is expanded key by key, its second argument being the
      required flag and its third ignored (src/lib/Schema.js:118-124): `property({a: v},
      required)` does what `property(a, v, required)` does, so the object forms of
      test/test.js:102-108 build what the named forms of test/test.js:94-100 build. */
  lemma ObjectNameActsAsName(ks: seq<Keyword>, a: string, v: Value, required: Value, ignored: Value)
    requires Addable(ks)
    ensures PropertyStep(ks, Obj([(a, v)]), required, ignored) == PropertyStep(ks, Str(a), v, required)
  {
    PropertyEachOne(ks, (a, v), required);
  }

  /** A one-entry expansion is the single call it makes. */
  lemma PropertyEachOne(ks: seq<Keyword>, e: (string, Value), required: Value)
    requires Addable(ks)
    ensures PropertyEach(ks, [e], required) == PropertySingle(ks, Str(e.0), e.1, required)
  {
    var s := PropertySingle(ks, Str(e.0), e.1, required);
    PropertySingleReplies(ks, Str(e.0), e.1, required);
    assert [e][1..] == [];
  }

  /** A single `property` call either returns the schema or throws. */
  lemma PropertySingleReplies(ks: seq<Keyword>, name: Value, value: Value, required: Value)
    requires Addable(ks) && KeyConvertible(name) && !name.Undefined?
    ensures PropertySingle(ks, name, value, required).reply.Chained? ||
      PropertySingle(ks, name, value, required).reply.Threw?
  {
    PropertySingleIs(ks, name, value, required);
    if Truthy(required) {
      RequireStepCases(AddProperty(ks, name, value), name);
    }
  }

  /** Adding properties with new, distinct keys, none of them undefined, to a schema
      whose only keyword is `properties(f)` extends that object in order. */
  lemma {:induction false} PropertyChainExtends(f: Fields, es: Fields)
    requires DistinctKeys(f + es)
    requires forall i :: 0 <= i < |es| ==> !es[i].1.Undefined?
    ensures PropertyEach([Keyword(Properties, Obj(f))], es, Undefined) ==
      Step([Keyword(Properties, Obj(f + es))], Chained)
    decreases |es|
  {
    if es == [] {
      assert f + es == f;
    } else {
      var k := es[0].0;
      var g := f + [es[0]];
      assert g + es[1..] == f + es;
      assert k !in Keys(f) by {
        forall i | 0 <= i < |f| ensures Keys(f)[i] != k {
          assert (f + es)[i] == f[i] && (f + es)[|f|] == es[0];
        }
      }
      AddToSoleProperties(f, k, es[0].1);
      PropertyChainExtends(g, es[1..]);
    }
  }

  /** One `property(k, v)` on a schema whose only keyword is `properties(f)`, for a new
      key and a defined value. */
  lemma AddToSoleProperties(f: Fields, k: string, v: Value)
    requires k !in Keys(f) && !v.Undefined?
    ensures PropertySingle([Keyword(Properties, Obj(f))], Str(k), v, Undefined) ==
      Step([Keyword(Properties, Obj(f + [(k, v)]))], Chained)
  {
    AddToSoleAdd(f, k, v);
    PropertySingleIs([Keyword(Properties, Obj(f))], Str(k), v, Undefined);
  }

  /** The add behind `AddToSoleProperties`. */
  lemma AddToSoleAdd(f: Fields, k: string, v: Value)
    requires k !in Keys(f) && !v.Undefined?
    ensures AddProperty([Keyword(Properties, Obj(f))], Str(k), v) == [Keyword(Properties, Obj(f + [(k, v)]))]
  {
    var ks := [Keyword(Properties, Obj(f))];
    SoleKeyword(ks[0], Properties);
    SoleKeyword(ks[0], PatternProperties);
    AddPropertyExisting(ks, Str(k), v);
    InsertFresh(f, k, v);
    SoleUpdate(ks[0], Keyword(Properties, Obj(f + [(k, v)])));
  }

  /** Inserting a new key with a defined value appends the entry. */
  lemma InsertFresh(f: Fields, k: string, v: Value)
    requires k !in Keys(f) && !v.Undefined?
    ensures Insert(Obj(f), k, OrEmpty(v)) == Obj(f + [(k, v)])
  {
    PutFresh(f, k, v);
  }

  /** For `AddToSoleAdd`: replacing the only keyword of a list. */
  lemma SoleUpdate(a: Keyword, b: Keyword)
    ensures [a][0 := b] == [b]
  {
  }

  /** The first match in a one-keyword list. */
  lemma SoleKeyword(kw: Keyword, kind: Kind)
    ensures FirstIndex([kw], kind) == if kw.kind == kind then Some(0) else None
  {
    FirstIndexIs([kw], kind, if kw.kind == kind then Some(0) else None);
  }

  /** `properties({foo: a, bar: b})` builds the same schema as
      `property('foo', a).property('bar', b)` on a fresh schema (test/test.js:216-229),
      for any non-empty object with distinct keys and truthy values: the expansion of an
      object name is exactly that chain. */
  lemma PropertiesEqualsPropertyChain(es: Fields)
    requires es != [] && DistinctKeys(es)
    requires forall i :: 0 <= i < |es| ==> Truthy(es[i].1)
    ensures PropertyStep([], Obj(es), Undefined, Undefined) == AccessStep([], Properties, [Obj(es)])
  {
    var e, rest := es[0], es[1..];
    assert [e] + rest == es;
    TailDefined(es);
    FreshSetProperties(es);
    ObjectNameExpands([], es, Undefined, Undefined);
    ChainFromFresh(e, rest);
  }

  lemma TailDefined(es: Fields)
    requires es != []
    requires forall i :: 0 <= i < |es| ==> Truthy(es[i].1)
    ensures Truthy(es[0].1)
    ensures forall i :: 0 <= i < |es[1..]| ==> !es[1..][i].1.Undefined?
  {
    assert forall i :: 0 <= i < |es[1..]| ==> es[1..][i] == es[i + 1];
  }

  /** The whole chain of calls an object name makes on a fresh schema. */
  lemma ChainFromFresh(e: (string, Value), rest: Fields)
    requires DistinctKeys([e] + rest) && Truthy(e.1)
    requires forall i :: 0 <= i < |rest| ==> !rest[i].1.Undefined?
    ensures PropertyEach([], [e] + rest, Undefined) == Step([Keyword(Properties, Obj([e] + rest))], Chained)
  {
    PropertyEachOnFresh(e, rest);
    PropertyChainExtends([e], rest);
  }

  /** The first of the calls an object name makes on a fresh schema appends
      `properties` with that entry. */
  lemma PropertyEachOnFresh(e: (string, Value), rest: Fields)
    requires Truthy(e.1)
    ensures Addable([Keyword(Properties, Obj([e]))])
    ensures PropertyEach([], [e] + rest, Undefined) == PropertyEach([Keyword(Properties, Obj([e]))], rest, Undefined)
  {
    var kw := Keyword(Properties, Obj([e]));
    SoleKeyword(kw, Properties);
    SoleKeyword(kw, PatternProperties);
    assert ([e] + rest)[0] == e && ([e] + rest)[1..] == rest;
    assert PropertySingle([], Str(e.0), e.1, Undefined) == Step([kw], Chained) by {
      PropertySingleIs([], Str(e.0), e.1, Undefined);
      AddPropertyAbsent([], Str(e.0), e.1);
      assert [] + [kw] == [kw];
    }
  }

  /** `properties(f)` on a fresh schema stores the object. */
  lemma FreshSetProperties(f: Fields)
    ensures AccessStep([], Properties, [Obj(f)]) == Step([Keyword(Properties, Obj(f))], Chained)
  {
    KeywordFacts.ObjectSetter(Properties, Obj(f));
    SetterStores([], Properties, Obj(f));
    assert [] + [Keyword(Properties, Obj(f))] == [Keyword(Properties, Obj(f))];
  }

  /** An object name makes one call per entry, the second argument being the
      required flag. */
  lemma ObjectNameExpands(ks: seq<Keyword>, es: Fields, value: Value, required: Value)
    requires Addable(ks)
    ensures PropertyStep(ks, Obj(es), value, required) == PropertyEach(ks, es, value)
  {
  }

  /** A schema holding keywords, passed as the name, is expanded like any object
      (src/lib/Schema.js:118-124): its own `_keywords` key (src/lib/Schema.js:48-51)
      becomes a property holding its keyword objects. */
  lemma PropertySchemaNameAddsKeywords(ks: seq<Keyword>)
    requires ks != []
    ensures PropertyStep([], Node(ks), Undefined, Undefined) ==
      Step([Keyword(Properties, Obj([("_keywords", Arr(KeywordObjects(ks)))]))], Chained)
  {
    var e := ("_keywords", Arr(KeywordObjects(ks)));
    SchemaNameExpands(ks);
    PropertyEachOne([], e, Undefined);
    PropertyStepName([], Str(e.0), e.1, Undefined);
    PropertyAppendsWhenAbsent([], Str(e.0), e.1);
    assert OrEmptyIfFalsy(e.1) == e.1;
  }

  /** A schema name makes one call for its `_keywords` entry. */
  lemma SchemaNameExpands(ks: seq<Keyword>)
    requires ks != []
    ensures PropertyStep([], Node(ks), Undefined, Undefined) ==
      PropertyEach([], [("_keywords", Arr(KeywordObjects(ks)))], Undefined)
  {
    assert Entries(Node(ks)) == Success([("_keywords", Arr(KeywordObjects(ks)))]);
  }

  /** `properties(schema)` with a schema holding keywords stores the schema, and
      renders its `_keywords` entry as it is: an array has no `json`
      (src/lib/Properties.js:35-46). */
  lemma RenderPropertiesOfUsedSchema(ks: seq<Keyword>)
    requires ks != []
    ensures Contribute(Keyword(Properties, Node(ks)), []) ==
      Success([("properties", Obj([("_keywords", Arr(KeywordObjects(ks)))]))])
  {
    var e := ("_keywords", Arr(KeywordObjects(ks)));
    SchemaMembers(ks);
    NodeCollectionContribute(Properties, ks, []);
    AssembleOne(e.0, e.1);
    assert OutputKey(Properties) == "properties";
    assert Put([], "properties", Obj([e])) == [("properties", Obj([e]))];
  }

  /** The members of a schema holding keywords: its `_keywords` entry, unrendered. */
  lemma SchemaMembers(ks: seq<Keyword>)
    requires ks != []
    ensures RenderMembers(Node(ks)) == Success([("_keywords", Arr(KeywordObjects(ks)))])
  {
  }

  /** A collection keyword holding a schema renders the schema's members. */
  lemma NodeCollectionContribute(kind: Kind, ks: seq<Keyword>, ctx: Fields)
    requires kind == Dependencies || kind == Properties || kind == PatternProperties
    ensures Contribute(Keyword(kind, Node(ks)), ctx) ==
      (var f :- RenderMembers(Node(ks)); Success(Put(ctx, OutputKey(kind), Obj(Assemble(f)))))
  {
    assert Truthy(Node(ks));
  }

  // ---------------------------------------------------------------- patternProperty

  /** `patternProperty(name, value)` with a pattern properties keyword present calls
      `add` on the first one (src/lib/Schema.js:171-173, src/lib/PatternProperties.js:29-43):
      a non-string name or a non-object value throws and leaves the keywords as they
      were; otherwise the keyword is replaced where it stands with the value stored under
      the name. */
  lemma PatternPropertyAddsInPlace(ks: seq<Keyword>, name: Value, value: Value)
    requires Addable(ks) && KeyConvertible(name) && !name.Undefined?
    requires FirstIndex(ks, PatternProperties).Some?
    ensures var i := FirstIndex(ks, PatternProperties).value;
      var s := PatternPropertyStep(ks, name, value);
      (!name.Str? ==> s == Step(ks, Threw(InvalidName(PatternProperties)))) &&
      (name.Str? && !IsObjectType(value) ==> s == Step(ks, Threw(TypeMismatch(PatternProperties)))) &&
      (name.Str? && IsObjectType(value) ==>
        s == Step(ks[i := Keyword(PatternProperties, Insert(ks[i].value, name.s, value))], Chained))
  {
    var i := FirstIndex(ks, PatternProperties).value;
    assert GetValue(ks, PatternProperties) == ks[i].value;
    assert ks[i := Keyword(PatternProperties, ks[i].value)] == ks;
  }

  /** The asymmetry of `patternProperty(name)` with no value: the first call stores `{}`
      under the name (`value || {}`, src/lib/Schema.js:174-178), while a call on an
      existing pattern properties keyword hands undefined to `add`, which throws
      (src/lib/PatternProperties.js:33-35). */
  lemma PatternPropertyWithoutValue(ks: seq<Keyword>, name: string)
    requires Addable(ks)
    ensures FirstIndex(ks, PatternProperties).None? ==>
      PatternPropertyStep(ks, Str(name), Undefined) ==
        Step(ks + [Keyword(PatternProperties, Obj([(name, Obj([]))]))], Chained)
    ensures FirstIndex(ks, PatternProperties).Some? ==>
      PatternPropertyStep(ks, Str(name), Undefined) == Step(ks, Threw(TypeMismatch(PatternProperties)))
  {
    if FirstIndex(ks, PatternProperties).Some? {
      PatternLaterWithoutValue(ks, name);
    } else {
      PatternFirstWithoutValue(ks, name);
    }
  }

  lemma PatternLaterWithoutValue(ks: seq<Keyword>, name: string)
    requires Addable(ks) && FirstIndex(ks, PatternProperties).Some?
    ensures PatternPropertyStep(ks, Str(name), Undefined) == Step(ks, Threw(TypeMismatch(PatternProperties)))
  {
    assert !IsObjectType(Undefined);
    PatternPropertyAddsInPlace(ks, Str(name), Undefined);
  }

  lemma PatternFirstWithoutValue(ks: seq<Keyword>, name: string)
    requires Addable(ks) && FirstIndex(ks, PatternProperties).None?
    ensures PatternPropertyStep(ks, Str(name), Undefined) ==
      Step(ks + [Keyword(PatternProperties, Obj([(name, Obj([]))]))], Chained)
  {
    var v := Obj([(name, Obj([]))]);
    assert PatternPropertyStep(ks, Str(name), Undefined) == PatternPropertySingle(ks, Str(name), Undefined);
    assert OrEmptyIfFalsy(Undefined) == Obj([]);
    CollectionConstructs(PatternProperties, v);
  }

  /** A collection keyword built from one object holds that object. */
  lemma CollectionConstructs(kind: Kind, v: Value)
    requires (kind == Properties || kind == PatternProperties) && v.Obj?
    ensures Construct(kind, [v]) == Success(v)
  {
    assert Collapse(kind, [v]) == v;
    KeywordFacts.ObjectSetter(kind, v);
  }

  // ---------------------------------------------------------------- every keyword holds a value its setter accepts

  /** Every keyword of the list holds a value its own setter would store unchanged. */
  predicate AllStored(ks: seq<Keyword>) {
    forall i :: 0 <= i < |ks| ==> Assign(ks[i].kind, ks[i].value) == Success(ks[i].value)
  }

  lemma AppendKeepsAllStored(ks: seq<Keyword>, kw: Keyword)
    requires AllStored(ks) && Assign(kw.kind, kw.value) == Success(kw.value)
    ensures AllStored(ks + [kw])
  {
    assert forall i :: 0 <= i < |ks| ==> (ks + [kw])[i] == ks[i];
  }

  lemma UpdateKeepsAllStored(ks: seq<Keyword>, i: nat, kw: Keyword)
    requires i < |ks| && AllStored(ks) && Assign(kw.kind, kw.value) == Success(kw.value)
    ensures AllStored(ks[i := kw])
  {
  }

  /** An accessor call keeps every keyword acceptable to its setter. */
  lemma AccessKeepsAllStored(ks: seq<Keyword>, kind: Kind, args: seq<Value>)
    requires AllStored(ks)
    ensures AllStored(AccessStep(ks, kind, args).keywords)
  {
    if IsSetterCall(kind, args) && Construct(kind, args).Success? {
      SetterAppendsOne(ks, kind, args);
      AppendKeepsAllStored(ks, Keyword(kind, Construct(kind, args).value));
    }
  }

  /** The in-place adds of `property` never leave the properties or required keyword
      holding a value their setters reject. */
  lemma PropertySingleKeepsAllStored(ks: seq<Keyword>, name: Value, value: Value, required: Value)
    requires Addable(ks) && KeyConvertible(name) && !name.Undefined? && AllStored(ks)
    ensures AllStored(PropertySingle(ks, name, value, required).keywords)
  {
    AddPropertyKeepsAllStored(ks, name, value);
    PropertySingleIs(ks, name, value, required);
    if Truthy(required) {
      RequireStepKeepsAllStored(AddProperty(ks, name, value), name);
    }
  }

  lemma AddPropertyKeepsAllStored(ks: seq<Keyword>, name: Value, value: Value)
    requires Addable(ks) && KeyConvertible(name) && !name.Undefined? && AllStored(ks)
    ensures AllStored(AddProperty(ks, name, value))
  {
    if FirstIndex(ks, Properties).Some? {
      var i := FirstIndex(ks, Properties).value;
      AddPropertyExisting(ks, name, value);
      UpdateKeepsAllStored(ks, i, Keyword(Properties, Insert(ks[i].value, PropertyKey(name), OrEmpty(value))));
    } else {
      AddPropertyAbsent(ks, name, value);
      AppendKeepsAllStored(ks, Keyword(Properties, Obj([(PropertyKey(name), OrEmptyIfFalsy(value))])));
    }
  }

  lemma RequireStepKeepsAllStored(ks: seq<Keyword>, name: Value)
    requires AllStored(ks)
    ensures AllStored(RequireStep(ks, name).keywords)
  {
    RequireStepCases(ks, name);
    var cur := GetValue(ks, Required);
    if !Truthy(cur) {
      RequiredStoresAny(Arr([name]));
      AppendKeepsAllStored(ks, Keyword(Required, Arr([name])));
    } else if cur.Arr? {
      RequiredStoresAny(Arr(cur.elems + [name]));
      UpdateKeepsAllStored(ks, FirstIndex(ks, Required).value, Keyword(Required, Arr(cur.elems + [name])));
    }
  }

  /** The required setter stores any value: its class is not part of this model. */
  lemma RequiredStoresAny(v: Value)
    ensures Assign(Required, v) == Success(v)
  {
  }

  lemma {:induction false} PropertyEachKeepsAllStored(ks: seq<Keyword>, es: Fields, required: Value)
    requires Addable(ks) && AllStored(ks)
    ensures AllStored(PropertyEach(ks, es, required).keywords)
    decreases |es|
  {
    if es != [] {
      var s := PropertySingle(ks, Str(es[0].0), es[0].1, required);
      PropertySingleKeepsAllStored(ks, Str(es[0].0), es[0].1, required);
      if !s.reply.Threw? {
        PropertyEachKeepsAllStored(s.keywords, es[1..], required);
      }
    }
  }

  /** `property` keeps every keyword acceptable to its setter, whatever its arguments. */
  lemma PropertyKeepsAllStored(ks: seq<Keyword>, name: Value, value: Value, required: Value)
    requires Addable(ks) && NameModelled(name) && AllStored(ks)
    ensures AllStored(PropertyStep(ks, name, value, required).keywords)
  {
    if !name.Undefined? {
      if IsObjectType(name) {
        if Entries(name).Success? {
          PropertyEachKeepsAllStored(ks, Entries(name).value, value);
        }
      } else {
        PropertySingleKeepsAllStored(ks, name, value, required);
      }
    }
  }

  lemma PatternPropertySingleKeepsAllStored(ks: seq<Keyword>, name: Value, value: Value)
    requires Addable(ks) && KeyConvertible(name) && !name.Undefined? && AllStored(ks)
    ensures AllStored(PatternPropertySingle(ks, name, value).keywords)
  {
    match FirstIndex(ks, PatternProperties)
    case Some(i) =>
      var a := PatternPropertiesAdd(ks[i].value, name, value);
      var kw := Keyword(PatternProperties, a.value);
      assert PatternPropertySingle(ks, name, value).keywords == ks[i := kw];
      assert Assign(PatternProperties, a.value) == Success(a.value) by {
        KeywordFacts.ObjectSetter(PatternProperties, a.value);
        assert Assign(ks[i].kind, ks[i].value) == Success(ks[i].value);
      }
      UpdateKeepsAllStored(ks, i, kw);
    case None =>
      var v := Obj([(PropertyKey(name), OrEmptyIfFalsy(value))]);
      assert PatternPropertySingle(ks, name, value).keywords == AccessStep(ks, PatternProperties, [v]).keywords;
      AccessKeepsAllStored(ks, PatternProperties, [v]);
  }

  lemma {:induction false} PatternPropertyEachKeepsAllStored(ks: seq<Keyword>, es: Fields)
    requires Addable(ks) && AllStored(ks)
    ensures AllStored(PatternPropertyEach(ks, es).keywords)
    decreases |es|
  {
    if es != [] {
      var s := PatternPropertySingle(ks, Str(es[0].0), es[0].1);
      PatternPropertySingleKeepsAllStored(ks, Str(es[0].0), es[0].1);
      if !s.reply.Threw? {
        PatternPropertyEachKeepsAllStored(s.keywords, es[1..]);
      }
    }
  }

  /** `patternProperty` keeps every keyword acceptable to its setter, whatever its
      arguments; a throwing `add` leaves what it already inserted. */
  lemma PatternPropertyKeepsAllStored(ks: seq<Keyword>, name: Value, value: Value)
    requires Addable(ks) && NameModelled(name) && AllStored(ks)
    ensures AllStored(PatternPropertyStep(ks, name, value).keywords)
  {
    if !name.Undefined? {
      if IsObjectType(name) {
        if Entries(name).Success? {
          PatternPropertyEachKeepsAllStored(ks, Entries(name).value);
        }
      } else {
        PatternPropertySingleKeepsAllStored(ks, name, value);
      }
    }
  }

  // ---------------------------------------------------------------- rendered schemas

  /** Rendering one keyword is its contribution. */
  lemma RenderOne(a: Keyword, ctx: Fields)
    ensures Render([a], ctx) == Contribute(a, ctx)
  {
    assert [a][1..] == [];
  }

  /** Rendering two keywords: the second writes into what the first produced. */
  lemma RenderTwo(a: Keyword, b: Keyword, ctx: Fields)
    ensures Render([a, b], ctx) == (var c :- Contribute(a, ctx); Contribute(b, c))
  {
    assert [a, b][1..] == [b];
    if Contribute(a, ctx).Success? {
      RenderOne(b, Contribute(a, ctx).value);
    }
  }

  /** `type('string')` renders `{type: 'string'}`. */
  lemma RenderType()
    ensures RenderSchema(AccessStep([], Type, [Str("string")]).keywords, None) == Success([("type", Str("string"))])
  {
    var k := Keyword(Type, Str("string"));
    assert AccessStep([], Type, [Str("string")]).keywords == [k];
    RenderOne(k, []);
    RenderFacts.AsIsContribute(k, []);
  }

  /** `type(a).type(b)`: the getter `type()` reads the first type written, the render
      shows the last one. */
  lemma TwoTypes(a: TypeName, b: TypeName)
    ensures var s1 := ShortcutStep([], a);
      var s2 := ShortcutStep(s1.keywords, b);
      AccessStep(s2.keywords, Type, []).reply == Returned(Str(TypeNameString(a))) &&
      RenderSchema(s2.keywords, None) == Success([("type", Str(TypeNameString(b)))])
  {
    var k1 := Keyword(Type, Str(TypeNameString(a)));
    var k2 := Keyword(Type, Str(TypeNameString(b)));
    TwoTypesKeywords(a, b);
    TwoTypesRead(k1, k2);
    TwoTypesRender(k1, k2);
  }

  lemma TwoTypesKeywords(a: TypeName, b: TypeName)
    ensures ShortcutStep([], a).keywords == [Keyword(Type, Str(TypeNameString(a)))]
    ensures ShortcutStep([Keyword(Type, Str(TypeNameString(a)))], b).keywords ==
      [Keyword(Type, Str(TypeNameString(a))), Keyword(Type, Str(TypeNameString(b)))]
  {
    ShortcutAppendsType([], a);
    ShortcutAppendsType([Keyword(Type, Str(TypeNameString(a)))], b);
  }

  lemma TwoTypesRead(k1: Keyword, k2: Keyword)
    requires k1.kind == Type
    ensures AccessStep([k1, k2], Type, []).reply == Returned(k1.value)
  {
    FirstIndexIs([k1, k2], Type, Some(0));
  }

  lemma TwoTypesRender(k1: Keyword, k2: Keyword)
    requires k1.kind == Type && k2.kind == Type
    ensures RenderSchema([k1, k2], None) == Success([("type", k2.value)])
  {
    RenderTwo(k1, k2, []);
    RenderFacts.AsIsContribute(k1, []);
    RenderFacts.AsIsContribute(k2, [("type", k1.value)]);
    PutAfter("type", k1.value, "type", k2.value);
  }

  /** Writing a second key into a one-key object appends it; writing the same key
      replaces the value. */
  lemma PutAfter(k1: string, v1: Value, k2: string, v2: Value)
    ensures Put([(k1, v1)], k2, v2) == if k1 == k2 then [(k2, v2)] else [(k1, v1), (k2, v2)]
  {
    var f := [(k1, v1)];
    assert f[1..] == [];
    if k1 != k2 {
      assert Put(f, k2, v2) == [f[0]] + Put([], k2, v2);
    }
  }

  /** A setter whose constructor stores its single argument as is appends it. */
  lemma SetterStores(ks: seq<Keyword>, kind: Kind, v: Value)
    requires IsSetterCall(kind, [v]) && Construct(kind, [v]) == Success(v)
    ensures AccessStep(ks, kind, [v]) == Step(ks + [Keyword(kind, v)], Chained)
  {
  }

  /** `maximum(3).exclusiveMaximum(true)` renders both keys (test/test.js:326). */
  lemma RenderMaximumThenExclusive(m: real)
    ensures var s := AccessStep(AccessStep([], Maximum, [Num(m)]).keywords, ExclusiveMaximum, [Bool(true)]);
      RenderSchema(s.keywords, None) == Success([("maximum", Num(m)), ("exclusiveMaximum", Bool(true))])
  {
    var mx := Keyword(Maximum, Num(m));
    var ex := Keyword(ExclusiveMaximum, Bool(true));
    SetterStores([], Maximum, Num(m));
    SetterStores([mx], ExclusiveMaximum, Bool(true));
    assert [] + [mx] == [mx] && [mx] + [ex] == [mx, ex];
    RenderTwo(mx, ex, []);
    RenderFacts.AsIsContribute(mx, []);
    PutAfter("maximum", Num(m), "exclusiveMaximum", Bool(true));
  }

  /** The other order, `exclusiveMaximum(true).maximum(3)`, fails at render: the
      exclusiveMaximum keyword finds no `maximum` yet (test/test.js:326). */
  lemma RenderExclusiveThenMaximumFails(m: real)
    ensures var s := AccessStep(AccessStep([], ExclusiveMaximum, [Bool(true)]).keywords, Maximum, [Num(m)]);
      RenderSchema(s.keywords, None) == Failure(MissingCompanionKeyword(ExclusiveMaximum))
  {
    var mx := Keyword(Maximum, Num(m));
    var ex := Keyword(ExclusiveMaximum, Bool(true));
    SetterStores([], ExclusiveMaximum, Bool(true));
    SetterStores([ex], Maximum, Num(m));
    assert [] + [ex] == [ex] && [ex] + [mx] == [ex, mx];
    RenderTwo(ex, mx, []);
  }

  /** A caller's context that already holds `maximum` satisfies the check
      (src/lib/Schema.js:398, src/lib/ExclusiveMaximum.js:22). */
  lemma RenderExclusiveIntoContext(n: real)
    ensures RenderSchema(AccessStep([], ExclusiveMaximum, [Bool(true)]).keywords, Some([("maximum", Num(n))])) ==
      Success([("maximum", Num(n)), ("exclusiveMaximum", Bool(true))])
  {
    var ex := Keyword(ExclusiveMaximum, Bool(true));
    SetterStores([], ExclusiveMaximum, Bool(true));
    assert [] + [ex] == [ex];
    RenderOne(ex, [("maximum", Num(n))]);
    PutAfter("maximum", Num(n), "exclusiveMaximum", Bool(true));
  }

  /** `minimum(1.1).exclusiveMinimum(true)` renders both keys (test/test.js:330). */
  lemma RenderMinimumThenExclusive(m: real)
    ensures var s := AccessStep(AccessStep([], Minimum, [Num(m)]).keywords, ExclusiveMinimum, [Bool(true)]);
      RenderSchema(s.keywords, None) == Success([("minimum", Num(m)), ("exclusiveMinimum", Bool(true))])
  {
    var mn := Keyword(Minimum, Num(m));
    var ex := Keyword(ExclusiveMinimum, Bool(true));
    SetterStores([], Minimum, Num(m));
    SetterStores([mn], ExclusiveMinimum, Bool(true));
    assert [] + [mn] == [mn] && [mn] + [ex] == [mn, ex];
    RenderTwo(mn, ex, []);
    RenderFacts.AsIsContribute(mn, []);
    PutAfter("minimum", Num(m), "exclusiveMinimum", Bool(true));
  }

  /** `enum(1, 2, 3)` builds what `enum([1, 2, 3])` builds (test/test.js:67-77), and
      renders the array as is. */
  lemma RenderEnum()
    ensures var xs := [Num(1.0), Num(2.0), Num(3.0)];
      AccessStep([], Enum, xs) == AccessStep([], Enum, [Arr(xs)]) &&
      RenderSchema(AccessStep([], Enum, xs).keywords, None) == Success([("enum", Arr(xs))])
  {
    var xs := [Num(1.0), Num(2.0), Num(3.0)];
    var k := Keyword(Enum, Arr(xs));
    assert AccessStep([], Enum, xs).keywords == [k];
    RenderOne(k, []);
    RenderFacts.AsIsContribute(k, []);
  }

  /** A properties keyword holding one schema renders that schema under its name. */
  lemma RenderOneProperty(name: string, ks: seq<Keyword>)
    requires Render(ks, []).Success?
    ensures Contribute(Keyword(Properties, Obj([(name, Node(ks))])), []) ==
      Success([("properties", Obj([(name, Obj(Render(ks, []).value))]))])
  {
    var w := Obj(Render(ks, []).value);
    assert RenderNested(Node(ks)) == Success(w);
    PropertiesObjContribute(Properties, [(name, Node(ks))], []);
    MembersOfOne(name, Node(ks));
    AssembleOne(name, w);
    assert OutputKey(Properties) == "properties";
    assert Put([], "properties", Obj([(name, w)])) == [("properties", Obj([(name, w)]))];
  }

  /** A non-empty properties object renders its members and assigns them in order. */
  lemma PropertiesObjContribute(kind: Kind, f: Fields, ctx: Fields)
    requires kind == Dependencies || kind == Properties || kind == PatternProperties
    requires f != []
    ensures Contribute(Keyword(kind, Obj(f)), ctx) ==
      (var g :- RenderMembers(Obj(f)); Success(Put(ctx, OutputKey(kind), Obj(Assemble(g)))))
  {
  }

  /** For `RenderOneProperty`: an object with one entry renders to that entry with its
      value rendered. */
  lemma MembersOfOne(name: string, v: Value)
    requires RenderNested(v).Success?
    ensures RenderMembers(Obj([(name, v)])) == Success([(name, RenderNested(v).value)])
  {
    var f := [(name, v)];
    assert f[1..] == [];
    assert RenderFields(f[1..]) == Success([]);
    assert [(name, RenderNested(v).value)] + [] == [(name, RenderNested(v).value)];
  }

  /** For `RenderOneProperty` and `RenderPropertiesOfUsedSchema`: assigning one entry to
      `{}` gives that entry. */
  lemma AssembleOne(name: string, v: Value)
    ensures Assemble([(name, v)]) == [(name, v)]
  {
    assert [(name, v)][1..] == [];
    assert Put([], name, v) == [(name, v)];
    assert AssembleInto(Put([], name, v), []) == [(name, v)];
  }

  /** `property('foo', integer(), true)` renders the property's nested schema and the
      required name. */
  lemma RenderRequiredProperty(n: string, ty: string)
    ensures var s := PropertyStep([], Str(n), Node([Keyword(Type, Str(ty))]), Bool(true));
      RenderSchema(s.keywords, None) ==
        Success([("properties", Obj([(n, Obj([("type", Str(ty))]))])), ("required", Arr([Str(n)]))])
  {
    var t := Keyword(Type, Str(ty));
    var p := Keyword(Properties, Obj([(n, Node([t]))]));
    var r := Keyword(Required, Arr([Str(n)]));
    RequiredFirstCall(n, Node([t]));
    RenderPropertyOfType(n, ty);
    RequiredAfterProperties(Obj([(n, Obj([("type", Str(ty))]))]), n);
    RenderTwo(p, r, []);
  }

  /** `properties({[n]: schema().type(ty)})` renders the nested schema under n. */
  lemma RenderPropertyOfType(n: string, ty: string)
    ensures Contribute(Keyword(Properties, Obj([(n, Node([Keyword(Type, Str(ty))]))])), []) ==
      Success([("properties", Obj([(n, Obj([("type", Str(ty))]))]))])
  {
    var t := Keyword(Type, Str(ty));
    assert Render([t], []) == Success([("type", Str(ty))]) by {
      RenderOne(t, []);
      RenderFacts.AsIsContribute(t, []);
    }
    RenderOneProperty(n, [t]);
  }

  /** A required keyword after a rendered properties keyword adds its key second. */
  lemma RequiredAfterProperties(x: Value, n: string)
    ensures Contribute(Keyword(Required, Arr([Str(n)])), [("properties", x)]) ==
      Success([("properties", x), ("required", Arr([Str(n)]))])
  {
    RenderFacts.AsIsContribute(Keyword(Required, Arr([Str(n)])), [("properties", x)]);
    PutAfter("properties", x, "required", Arr([Str(n)]));
  }

  /** `additionalItems(false)` renders with no `items` present (test/test.js:356). */
  lemma RenderAdditionalItemsFalse()
    ensures RenderSchema(AccessStep([], AdditionalItems, [Bool(false)]).keywords, None) ==
      Success([("additionalItems", Bool(false))])
  {
    var k := Keyword(AdditionalItems, Bool(false));
    assert AccessStep([], AdditionalItems, [Bool(false)]).keywords == [k];
    RenderOne(k, []);
    assert RenderNested(Bool(false)) == Success(Bool(false));
    assert OutputKey(AdditionalItems) == "additionalItems";
  }

  /** `not(schema())` renders an empty nested schema as `{}` (test/test.js:198). */
  lemma RenderNotEmptySchema()
    ensures RenderSchema(AccessStep([], Not, [Node([])]).keywords, None) == Success([("not", Obj([]))])
  {
    var k := Keyword(Not, Node([]));
    assert AccessStep([], Not, [Node([])]).keywords == [k];
    RenderOne(k, []);
    RenderFacts.NestedContribute(k, []);
    assert Render([], []) == Success([]);
    assert OutputKey(Not) == "not";
  }

  /** `default([])` and `default('bad')` render their value as is (test/test.js:378-379). */
  lemma RenderDefault(v: Value)
    requires v.Bool? || v.Num? || v.Str? || v.Arr?
    ensures RenderSchema(AccessStep([], Default, [v]).keywords, None) == Success([("default", v)])
  {
    var k := Keyword(Default, v);
    assert AccessStep([], Default, [v]).keywords == [k];
    RenderOne(k, []);
    RenderFacts.NestedContribute(k, []);
  }

  /** Each of the six format names is accepted and renders as `{format: name}`
      (test/test.js:370-375). */
  lemma RenderFormat(name: string)
    requires name in ValidFormats
    ensures RenderSchema(AccessStep([], Format, [Str(name)]).keywords, None) == Success([("format", Str(name))])
  {
    var k := Keyword(Format, Str(name));
    assert Construct(Format, [Str(name)]) == Success(Str(name));
    assert AccessStep([], Format, [Str(name)]).keywords == [k];
    RenderOne(k, []);
    RenderFacts.AsIsContribute(k, []);
  }
}
