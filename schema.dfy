/** The `Schema` builder (src/lib/Schema.js): an append-only list of keywords, one
    get/set accessor per keyword kind, the incremental `property` and
    `patternProperty`, and `json`. Each call is specified by a function from the
    keyword list before the call to the list after it and the call's reply; the
    `Schema` class performs the same calls in place and is proved against them. */
module SchemaBuilder {
  import opened Json
  import opened Keywords
  import opened Rendering

  /** What an accessor call gives back: the value a getter reads, the schema itself
      (a setter returns `this` for chaining), or the error thrown. */
  datatype Reply = Returned(value: Value) | Chained | Threw(error: Error)

  /** The keyword list after a call, and the call's reply. */
  datatype Step = Step(keywords: seq<Keyword>, reply: Reply)

  /** `_.find(this.keywords, k => k instanceof Class)`, as an index. */
  function FirstIndex(ks: seq<Keyword>, kind: Kind): (r: Option<nat>)
    ensures r.None? <==> forall i :: 0 <= i < |ks| ==> ks[i].kind != kind
    ensures r.Some? ==> r.value < |ks| && ks[r.value].kind == kind
    ensures r.Some? ==> forall i :: 0 <= i < r.value ==> ks[i].kind != kind
  {
    if ks == [] then None
    else if ks[0].kind == kind then Some(0)
    else match FirstIndex(ks[1..], kind)
      case None => None
      case Some(j) => Some(j + 1)
  }

  /** `getKeywordValue(Class)` (src/lib/Schema.js:61-63): the value of the first
      keyword of the kind, or undefined when there is none. */
  function GetValue(ks: seq<Keyword>, kind: Kind): Value {
    match FirstIndex(ks, kind)
    case Some(i) => ks[i].value
    case None => Undefined
  }

  /** The first match is the index the ensures of `FirstIndex` describe. */
  lemma FirstIndexIs(ks: seq<Keyword>, kind: Kind, r: Option<nat>)
    requires r.None? ==> forall i :: 0 <= i < |ks| ==> ks[i].kind != kind
    requires r.Some? ==> r.value < |ks| && ks[r.value].kind == kind
    requires r.Some? ==> forall i :: 0 <= i < r.value ==> ks[i].kind != kind
    ensures FirstIndex(ks, kind) == r
  {
  }

  /** Replacing a keyword by one of the same kind moves no first match. */
  lemma GetValueAfterUpdate(ks: seq<Keyword>, i: nat, kw: Keyword, kind: Kind)
    requires i < |ks| && ks[i].kind == kw.kind
    ensures FirstIndex(ks[i := kw], kind) == FirstIndex(ks, kind)
    ensures GetValue(ks[i := kw], kind) == if FirstIndex(ks, kind) == Some(i) then kw.value else GetValue(ks, kind)
  {
    UpdateKeepsKinds(ks, i, kw, kind);
    var f := FirstIndex(ks, kind);
    if f.Some? {
      assert GetValue(ks[i := kw], kind) == ks[i := kw][f.value].value;
    }
  }

  lemma UpdateKeepsKinds(ks: seq<Keyword>, i: nat, kw: Keyword, kind: Kind)
    requires i < |ks| && ks[i].kind == kw.kind
    ensures FirstIndex(ks[i := kw], kind) == FirstIndex(ks, kind)
  {
    var ks' := ks[i := kw];
    assert forall j :: 0 <= j < |ks| ==> ks'[j].kind == ks[j].kind;
    FirstIndexIs(ks', kind, FirstIndex(ks, kind));
  }

  /** Appending a keyword moves no first match; it is the first of its kind only
      when there was none before. */
  lemma GetValueAfterAppend(ks: seq<Keyword>, kw: Keyword, kind: Kind)
    ensures FirstIndex(ks + [kw], kind) ==
      if FirstIndex(ks, kind).Some? then FirstIndex(ks, kind) else if kw.kind == kind then Some(|ks|) else None
    ensures GetValue(ks + [kw], kind) ==
      if FirstIndex(ks, kind).Some? then GetValue(ks, kind) else if kw.kind == kind then kw.value else Undefined
  {
    var ks' := ks + [kw];
    var f := FirstIndex(ks, kind);
    assert forall j :: 0 <= j < |ks| ==> ks'[j] == ks[j];
    assert ks'[|ks|] == kw;
    FirstIndexIs(ks', kind, if f.Some? then f else if kw.kind == kind then Some(|ks|) else None);
  }

  /** The kind an accessor's getter reads: `minProperties()` reads maxProperties
      (src/lib/Schema.js:294). */
  function GetterKind(kind: Kind): Kind {
    if kind == MinProperties then MaxProperties else kind
  }

  /** An accessor sets when called with an argument; `multipleOf(value)` tests
      `if (value)` instead, so a falsy argument reads (src/lib/Schema.js:225-232). */
  predicate IsSetterCall(kind: Kind, args: seq<Value>) {
    if kind == MultipleOf then |args| > 0 && Truthy(args[0]) else |args| > 0
  }

  /** `this.addKeyword(new Kind(...args)); return this`: the keyword is constructed,
      and so validated, before it is appended. */
  function SetStep(ks: seq<Keyword>, kind: Kind, args: seq<Value>): Step
    requires |args| > 0
  {
    match Construct(kind, args)
    case Success(v) => Step(ks + [Keyword(kind, v)], Chained)
    case Failure(e) => Step(ks, Threw(e))
  }

  /** One call of the accessor of a kind (`type()`, `enum()`, ..., `$ref()`,
      `format()`, `default()`), with its arguments. */
  function AccessStep(ks: seq<Keyword>, kind: Kind, args: seq<Value>): Step {
    if IsSetterCall(kind, args) then SetStep(ks, kind, args)
    else Step(ks, Returned(GetValue(ks, GetterKind(kind))))
  }

  /** The type shortcuts `boolean()` ... `null()` (src/lib/Schema.js:74-87). */
  datatype TypeName = BooleanType | IntegerType | NumberType | StringType | ObjectType | ArrayType | NullType

  function TypeNameString(t: TypeName): string {
    match t
    case BooleanType => "boolean"
    case IntegerType => "integer"
    case NumberType => "number"
    case StringType => "string"
    case ObjectType => "object"
    case ArrayType => "array"
    case NullType => "null"
  }

  function ShortcutStep(ks: seq<Keyword>, t: TypeName): Step {
    AccessStep(ks, Type, [Str(TypeNameString(t))])
  }

  /** The first properties and the first patternProperties keyword, where there is
      one, can be added to. */
  predicate Addable(ks: seq<Keyword>) {
    Insertable(GetValue(ks, Properties)) && Insertable(GetValue(ks, PatternProperties))
  }

  /** A name `property` and `patternProperty` can be called with: undefined, an
      object, or a value whose conversion to a property key is modelled. */
  predicate NameModelled(name: Value) {
    IsObjectType(name) || KeyConvertible(name)
  }

  /** `value || {}`. */
  function OrEmptyIfFalsy(v: Value): Value {
    if Truthy(v) then v else Obj([])
  }

  /** `this.required().push(name)` or `this.required([name])` (src/lib/Schema.js:136-142). */
  function RequireStep(ks: seq<Keyword>, name: Value): (r: Step)
    ensures GetValue(r.keywords, Properties) == GetValue(ks, Properties)
    ensures GetValue(r.keywords, PatternProperties) == GetValue(ks, PatternProperties)
  {
    var cur := GetValue(ks, Required);
    if !Truthy(cur) then
      var kw := Keyword(Required, Arr([name]));
      assert Construct(Required, [kw.value]) == Success(kw.value) by {
        assert Collapse(Required, [kw.value]) == kw.value;
      }
      GetValueAfterAppend(ks, kw, Properties);
      GetValueAfterAppend(ks, kw, PatternProperties);
      SetStep(ks, Required, [Arr([name])])
    else if cur.Arr? then
      var i := FirstIndex(ks, Required).value;
      var kw := Keyword(Required, Arr(cur.elems + [name]));
      GetValueAfterUpdate(ks, i, kw, Properties);
      GetValueAfterUpdate(ks, i, kw, PatternProperties);
      Step(ks[i := kw], Chained)
    else Step(ks, Threw(EngineTypeError))   // `push` is not a function
  }

  /** The first properties keyword after `properties.add(name, value)`, or after
      `this.properties({[name]: value || {}})` when there is none
      (src/lib/Schema.js:127-134). */
  function AddProperty(ks: seq<Keyword>, name: Value, value: Value): (r: seq<Keyword>)
    requires Addable(ks) && KeyConvertible(name) && !name.Undefined?
    ensures GetValue(r, Properties).Obj?
    ensures GetValue(r, PatternProperties) == GetValue(ks, PatternProperties)
  {
    match FirstIndex(ks, Properties)
    case Some(i) =>
      var a := PropertiesAdd(ks[i].value, name, value);
      assert a == Success(Insert(ks[i].value, PropertyKey(name), OrEmpty(value)));
      var kw := Keyword(Properties, a.value);
      GetValueAfterUpdate(ks, i, kw, Properties);
      GetValueAfterUpdate(ks, i, kw, PatternProperties);
      ks[i := kw]
    case None =>
      var kw := Keyword(Properties, Obj([(PropertyKey(name), OrEmptyIfFalsy(value))]));
      assert Construct(Properties, [kw.value]) == Success(kw.value) by {
        assert Collapse(Properties, [kw.value]) == kw.value;
      }
      GetValueAfterAppend(ks, kw, Properties);
      GetValueAfterAppend(ks, kw, PatternProperties);
      SetStep(ks, Properties, [kw.value]).keywords
  }

  /** `property(name, value, required)` for a name that is neither undefined nor an
      object (src/lib/Schema.js:127-144). */
  function PropertySingle(ks: seq<Keyword>, name: Value, value: Value, required: Value): (r: Step)
    requires Addable(ks) && KeyConvertible(name) && !name.Undefined?
    ensures Addable(r.keywords)
  {
    var ks1 := AddProperty(ks, name, value);
    if Truthy(required) then RequireStep(ks1, name) else Step(ks1, Chained)
  }

  /** The add, then the require when the flag is truthy. */
  lemma PropertySingleIs(ks: seq<Keyword>, name: Value, value: Value, required: Value)
    requires Addable(ks) && KeyConvertible(name) && !name.Undefined?
    ensures PropertySingle(ks, name, value, required) ==
      if Truthy(required) then RequireStep(AddProperty(ks, name, value), name)
      else Step(AddProperty(ks, name, value), Chained)
  {
  }

  /** `Object.keys(name).forEach(key => this.property(key, name[key], required))`: the
      calls stop at the first that throws, and what the earlier ones did stays. */
  function PropertyEach(ks: seq<Keyword>, es: Fields, required: Value): (r: Step)
    requires Addable(ks)
    ensures Addable(r.keywords)
    decreases |es|
  {
    if es == [] then Step(ks, Chained)
    else
      var s := PropertySingle(ks, Str(es[0].0), es[0].1, required);
      if s.reply.Threw? then s else PropertyEach(s.keywords, es[1..], required)
  }

  /** The calls from the entry at index `i` on: that entry's call, then the rest. */
  lemma PropertyEachAt(ks: seq<Keyword>, es: Fields, i: nat, required: Value)
    requires Addable(ks) && i < |es|
    ensures PropertyEach(ks, es[i..], required) ==
      var s := PropertySingle(ks, Str(es[i].0), es[i].1, required);
      if s.reply.Threw? then s else PropertyEach(s.keywords, es[i + 1..], required)
  {
    assert es[i..][0] == es[i] && es[i..][1..] == es[i + 1..];
  }

  /** The calls for `es + more` are the calls for `es`, then, unless one of them threw,
      the calls for `more` from the keywords they left. After a throw no later entry
      is added and the throw is what the whole call throws. */
  lemma {:induction false} PropertyEachConcat(ks: seq<Keyword>, es: Fields, more: Fields, required: Value)
    requires Addable(ks)
    ensures PropertyEach(ks, es + more, required) ==
      var s := PropertyEach(ks, es, required);
      if s.reply.Threw? then s else PropertyEach(s.keywords, more, required)
    decreases |es|
  {
    if es == [] {
      assert es + more == more;
    } else {
      assert (es + more)[0] == es[0] && (es + more)[1..] == es[1..] + more;
      var s := PropertySingle(ks, Str(es[0].0), es[0].1, required);
      if !s.reply.Threw? {
        PropertyEachConcat(s.keywords, es[1..], more, required);
      }
    }
  }

  /** `property(name, value, required)` (src/lib/Schema.js:116-151). An object name
      adds each of its entries, and its second argument is then the required flag. */
  function PropertyStep(ks: seq<Keyword>, name: Value, value: Value, required: Value): Step
    requires Addable(ks) && NameModelled(name)
  {
    if name.Undefined? then
      var props := GetValue(ks, Properties);
      Step(ks, Returned(if Truthy(props) then Member(props, "undefined") else Undefined))
    else if IsObjectType(name) then
      match Entries(name)
      case Failure(e) => Step(ks, Threw(e))
      case Success(es) => PropertyEach(ks, es, value)
    else PropertySingle(ks, name, value, required)
  }

  /** `patternProperty(name, value)` for a name that is neither undefined nor an
      object (src/lib/Schema.js:171-180). */
  function PatternPropertySingle(ks: seq<Keyword>, name: Value, value: Value): (r: Step)
    requires Addable(ks) && KeyConvertible(name) && !name.Undefined?
    ensures Addable(r.keywords)
  {
    match FirstIndex(ks, PatternProperties)
    case Some(i) =>
      var a := PatternPropertiesAdd(ks[i].value, name, value);
      var kw := Keyword(PatternProperties, a.value);
      GetValueAfterUpdate(ks, i, kw, Properties);
      GetValueAfterUpdate(ks, i, kw, PatternProperties);
      Step(ks[i := kw], if a.thrown.Some? then Threw(a.thrown.value) else Chained)
    case None =>
      var kw := Keyword(PatternProperties, Obj([(PropertyKey(name), OrEmptyIfFalsy(value))]));
      assert Construct(PatternProperties, [kw.value]) == Success(kw.value) by {
        assert Collapse(PatternProperties, [kw.value]) == kw.value;
      }
      GetValueAfterAppend(ks, kw, Properties);
      GetValueAfterAppend(ks, kw, PatternProperties);
      SetStep(ks, PatternProperties, [kw.value])
  }

  function PatternPropertyEach(ks: seq<Keyword>, es: Fields): (r: Step)
    requires Addable(ks)
    ensures Addable(r.keywords)
    decreases |es|
  {
    if es == [] then Step(ks, Chained)
    else
      var s := PatternPropertySingle(ks, Str(es[0].0), es[0].1);
      if s.reply.Threw? then s else PatternPropertyEach(s.keywords, es[1..])
  }

  lemma PatternPropertyEachAt(ks: seq<Keyword>, es: Fields, i: nat)
    requires Addable(ks) && i < |es|
    ensures PatternPropertyEach(ks, es[i..]) ==
      var s := PatternPropertySingle(ks, Str(es[i].0), es[i].1);
      if s.reply.Threw? then s else PatternPropertyEach(s.keywords, es[i + 1..])
  {
    assert es[i..][0] == es[i] && es[i..][1..] == es[i + 1..];
  }

  /** The calls for `es + more` are the calls for `es`, then, unless one of them threw,
      the calls for `more` from the keywords they left. After a throw no later entry
      is added and the throw is what the whole call throws. */
  lemma {:induction false} PatternPropertyEachConcat(ks: seq<Keyword>, es: Fields, more: Fields)
    requires Addable(ks)
    ensures PatternPropertyEach(ks, es + more) ==
      var s := PatternPropertyEach(ks, es);
      if s.reply.Threw? then s else PatternPropertyEach(s.keywords, more)
    decreases |es|
  {
    if es == [] {
      assert es + more == more;
    } else {
      assert (es + more)[0] == es[0] && (es + more)[1..] == es[1..] + more;
      var s := PatternPropertySingle(ks, Str(es[0].0), es[0].1);
      if !s.reply.Threw? {
        PatternPropertyEachConcat(s.keywords, es[1..], more);
      }
    }
  }

  /** `patternProperty(name, value)` (src/lib/Schema.js:162-187). */
  function PatternPropertyStep(ks: seq<Keyword>, name: Value, value: Value): Step
    requires Addable(ks) && NameModelled(name)
  {
    if name.Undefined? then
      var props := GetValue(ks, PatternProperties);
      Step(ks, Returned(if Truthy(props) then Member(props, "undefined") else Undefined))
    else if IsObjectType(name) then
      match Entries(name)
      case Failure(e) => Step(ks, Threw(e))
      case Success(es) => PatternPropertyEach(ks, es)
    else PatternPropertySingle(ks, name, value)
  }

  /** `json(context)`: `context || {}`, then every keyword in order. */
  function RenderSchema(ks: seq<Keyword>, context: Option<Fields>): Result<Fields> {
    Render(ks, if context.Some? then context.value else [])
  }

  /** Rendering from the keyword at index `i` on: that keyword writes, then the rest. */
  lemma RenderAt(ks: seq<Keyword>, i: nat, ctx: Fields)
    requires i < |ks|
    ensures Render(ks[i..], ctx) ==
      match Contribute(ks[i], ctx)
      case Failure(e) => Failure(e)
      case Success(c) => Render(ks[i + 1..], c)
  {
    assert ks[i..][0] == ks[i] && ks[i..][1..] == ks[i + 1..];
  }

  /** A schema under construction. */
  class Schema {
    var keywords: seq<Keyword>

    constructor ()
      ensures keywords == []
    {
      keywords := [];
    }

    /** `addKeyword(keyword)` (src/lib/Schema.js:53-55). */
    method AddKeyword(kw: Keyword)
      modifies this
      ensures keywords == old(keywords) + [kw]
    {
      keywords := keywords + [kw];
    }

    /** The accessor of a kind, called with the given arguments. */
    method Access(kind: Kind, args: seq<Value>) returns (reply: Reply)
      modifies this
      ensures Step(keywords, reply) == AccessStep(old(keywords), kind, args)
    {
      if IsSetterCall(kind, args) {
        var r := Construct(kind, args);
        if r.Success? {
          AddKeyword(Keyword(kind, r.value));
          reply := Chained;
        } else {
          reply := Threw(r.error);
        }
      } else {
        reply := Returned(GetValue(keywords, GetterKind(kind)));
      }
    }

    /** `boolean()`, `integer()`, ..., `null()`: `type` with the name. */
    method Shortcut(t: TypeName) returns (reply: Reply)
      modifies this
      ensures keywords == old(keywords) + [Keyword(Type, Str(TypeNameString(t)))]
      ensures reply == Chained
    {
      reply := Access(Type, [Str(TypeNameString(t))]);
    }

    /** `property(name, value, required)`. */
    method Property(name: Value, value: Value, required: Value) returns (reply: Reply)
      requires Addable(keywords) && NameModelled(name)
      modifies this
      ensures Step(keywords, reply) == PropertyStep(old(keywords), name, value, required)
    {
      if name.Undefined? {
        var props := GetValue(keywords, Properties);
        reply := Returned(if Truthy(props) then Member(props, "undefined") else Undefined);
      } else if IsObjectType(name) {
        var entries := Entries(name);
        if entries.Failure? {
          reply := Threw(entries.error);
          return;
        }
        reply := PropertyEntries(entries.value, value);
      } else {
        reply := PropertyOne(name, value, required);
      }
    }

    /** `Object.keys(name).forEach(...)`: one call per entry, stopping at the first throw. */
    method PropertyEntries(es: Fields, required: Value) returns (reply: Reply)
      requires Addable(keywords)
      modifies this
      ensures Step(keywords, reply) == PropertyEach(old(keywords), es, required)
    {
      var i := 0;
      while i < |es|
        invariant 0 <= i <= |es|
        invariant Addable(keywords)
        invariant PropertyEach(keywords, es[i..], required) == PropertyEach(old(keywords), es, required)
      {
        ghost var s := PropertySingle(keywords, Str(es[i].0), es[i].1, required);
        PropertyEachAt(keywords, es, i, required);
        reply := PropertyOne(Str(es[i].0), es[i].1, required);
        assert Step(keywords, reply) == s;
        if reply.Threw? {
          return;
        }
        i := i + 1;
      }
      assert es[i..] == [];
      reply := Chained;
    }

    /** One `property` call with a name that is neither undefined nor an object. */
    method PropertyOne(name: Value, value: Value, required: Value) returns (reply: Reply)
      requires Addable(keywords) && KeyConvertible(name) && !name.Undefined?
      modifies this
      ensures Step(keywords, reply) == PropertySingle(old(keywords), name, value, required)
    {
      ghost var ks0 := keywords;
      var i := FirstIndex(keywords, Properties);
      if i.Some? {
        var added := PropertiesAdd(keywords[i.value].value, name, value);
        keywords := keywords[i.value := Keyword(Properties, added.value)];
      } else {
        var _ := Access(Properties, [Obj([(PropertyKey(name), OrEmptyIfFalsy(value))])]);
      }
      assert keywords == AddProperty(ks0, name, value);
      reply := Chained;
      if Truthy(required) {
        ghost var ks1 := keywords;
        var cur := GetValue(keywords, Required);
        if !Truthy(cur) {
          reply := Access(Required, [Arr([name])]);
        } else if cur.Arr? {
          var r := FirstIndex(keywords, Required).value;
          keywords := keywords[r := Keyword(Required, Arr(cur.elems + [name]))];
        } else {
          reply := Threw(EngineTypeError);
        }
        assert Step(keywords, reply) == RequireStep(ks1, name);
      }
      PropertySingleIs(ks0, name, value, required);
    }

    /** `patternProperty(name, value)`. */
    method PatternProperty(name: Value, value: Value) returns (reply: Reply)
      requires Addable(keywords) && NameModelled(name)
      modifies this
      ensures Step(keywords, reply) == PatternPropertyStep(old(keywords), name, value)
    {
      if name.Undefined? {
        var props := GetValue(keywords, PatternProperties);
        reply := Returned(if Truthy(props) then Member(props, "undefined") else Undefined);
      } else if IsObjectType(name) {
        var entries := Entries(name);
        if entries.Failure? {
          reply := Threw(entries.error);
          return;
        }
        reply := PatternPropertyEntries(entries.value);
      } else {
        reply := PatternPropertyOne(name, value);
      }
    }

    /** `Object.keys(name).forEach(...)`: one call per entry, stopping at the first throw. */
    method PatternPropertyEntries(es: Fields) returns (reply: Reply)
      requires Addable(keywords)
      modifies this
      ensures Step(keywords, reply) == PatternPropertyEach(old(keywords), es)
    {
      var i := 0;
      while i < |es|
        invariant 0 <= i <= |es|
        invariant Addable(keywords)
        invariant PatternPropertyEach(keywords, es[i..]) == PatternPropertyEach(old(keywords), es)
      {
        ghost var s := PatternPropertySingle(keywords, Str(es[i].0), es[i].1);
        PatternPropertyEachAt(keywords, es, i);
        reply := PatternPropertyOne(Str(es[i].0), es[i].1);
        assert Step(keywords, reply) == s;
        if reply.Threw? {
          return;
        }
        i := i + 1;
      }
      assert es[i..] == [];
      reply := Chained;
    }

    /** One `patternProperty` call with a name that is neither undefined nor an object. */
    method PatternPropertyOne(name: Value, value: Value) returns (reply: Reply)
      requires Addable(keywords) && KeyConvertible(name) && !name.Undefined?
      modifies this
      ensures Step(keywords, reply) == PatternPropertySingle(old(keywords), name, value)
    {
      var i := FirstIndex(keywords, PatternProperties);
      if i.Some? {
        var added := PatternPropertiesAdd(keywords[i.value].value, name, value);
        keywords := keywords[i.value := Keyword(PatternProperties, added.value)];
        reply := if added.thrown.Some? then Threw(added.thrown.value) else Chained;
      } else {
        reply := Access(PatternProperties, [Obj([(PropertyKey(name), OrEmptyIfFalsy(value))])]);
      }
    }

    /** `json(context)`: the rendered document, written into the caller's context
        or into a fresh object. */
    method Json(context: Option<Fields>) returns (r: Result<Fields>)
      ensures r == RenderSchema(keywords, context)
    {
      var ctx := if context.Some? then context.value else [];
      var i := 0;
      assert keywords[0..] == keywords;
      while i < |keywords|
        invariant 0 <= i <= |keywords|
        invariant Render(keywords[i..], ctx) == RenderSchema(keywords, context)
      {
        RenderAt(keywords, i, ctx);
        var c := Contribute(keywords[i], ctx);
        if c.Failure? {
          return Failure(c.error);
        }
        ctx := c.value;
        i := i + 1;
      }
      assert keywords[i..] == [];
      return Success(ctx);
    }
  }
}
