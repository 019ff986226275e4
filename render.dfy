/** Rendering: each keyword's `json(context)` writes its own key into one shared
    output object, a nested schema renders through its own `json`, and
    `Schema.json` (src/lib/Schema.js:396-404) applies its keywords in order. A call
    that throws yields `Failure`; the nested renders start from a fresh `{}`. */
module Rendering {
  import opened Json

  /** Reading the member `json` gives a truthy value: a Schema instance, or a plain
      object with a truthy own `json` property. */
  predicate HasJson(v: Value) {
    v.Node? || Truthy(Member(v, "json"))
  }

  /** `v.json ? v.json({}) : v`. Reading `json` of null or undefined throws, and so
      does calling a `json` property of a plain object (the value model has no
      functions). */
  function RenderNested(v: Value): Result<Value>
    decreases v
  {
    match v
    case Undefined => Failure(EngineTypeError)
    case Null => Failure(EngineTypeError)
    case Node(ks) =>
      var r :- Render(ks, []);
      Success(Obj(r))
    case _ => if HasJson(v) then Failure(EngineTypeError) else Success(v)
  }

  /** `es.map(elem => elem.json ? elem.json() : elem)`. */
  function RenderElems(es: seq<Value>): Result<seq<Value>>
    decreases es
  {
    if es == [] then Success([])
    else
      var h :- RenderNested(es[0]);
      var t :- RenderElems(es[1..]);
      Success([h] + t)
  }

  /** The entries of an object, each value rendered as by `RenderNested`. */
  function RenderFields(f: Fields): Result<Fields>
    decreases f
  {
    if f == [] then Success([])
    else
      assert f[0] decreases to f[0].1;
      var h :- RenderNested(f[0].1);
      var t :- RenderFields(f[1..]);
      Success([(f[0].0, h)] + t)
  }

  /** `Object.keys(v)` paired with the rendered values: the entries the `reduce` of
      dependencies, properties and patternProperties assigns, in order. Rendering has
      no side effect, so rendering every value before the first assignment throws
      the same error as the interleaved `reduce`. */
  function RenderMembers(v: Value): Result<Fields>
    decreases v
  {
    match v
    case Obj(f) => RenderFields(f)
    case Arr(es) =>
      var rs :- RenderElems(es);
      Success(IndexEntries(rs))
    case _ => Entries(v)   // a string's characters and a schema's `_keywords` array have no `json`
  }

  /** The object the `reduce` builds: `acc[key] = value`, entry after entry, from `{}`. */
  function Assemble(f: Fields): Fields {
    AssembleInto([], f)
  }

  function AssembleInto(acc: Fields, f: Fields): Fields
    decreases |f|
  {
    if f == [] then acc else AssembleInto(Put(acc, f[0].0, f[0].1), f[1..])
  }

  /** `keyword.json(context)`: the output object after the keyword has written itself
      into `ctx` (src/lib/<Kind>.js). The kinds whose class is not part of this model
      write their value as is, except anyOf, which renders element-wise as allOf does. */
  function Contribute(kw: Keyword, ctx: Fields): Result<Fields>
    decreases kw
  {
    var v := kw.value;
    var key := OutputKey(kw.kind);
    match kw.kind
    case AdditionalItems | AdditionalProperties | Not | Default =>
      var r :- RenderNested(v);
      Success(Put(ctx, key, r))
    case AllOf | OneOf | AnyOf =>
      if !Truthy(v) then Success(ctx)
      else if v.Arr? then
        var rs :- RenderElems(v.elems);
        Success(Put(ctx, key, Arr(rs)))
      else Failure(EngineTypeError)   // `.map` is not a function
    case Items =>
      if !Truthy(v) then Success(ctx)
      else if HasJson(v) then
        var r :- RenderNested(v);
        Success(Put(ctx, key, r))
      else if v.Arr? then
        var rs :- RenderElems(v.elems);
        Success(Put(ctx, key, Arr(rs)))
      else Failure(EngineTypeError)
    case Dependencies | Properties | PatternProperties =>
      if !Truthy(v) then Success(ctx)
      else
        var f :- RenderMembers(v);
        Success(Put(ctx, key, Obj(Assemble(f))))
    case Definitions => Failure(EngineReferenceError("value"))
    case ExclusiveMaximum =>
      if "maximum" in Keys(ctx) then Success(Put(ctx, key, v))
      else Failure(MissingCompanionKeyword(ExclusiveMaximum))
    case ExclusiveMinimum =>
      if "minimum" in Keys(ctx) then Success(Put(ctx, key, v))
      else Failure(MissingCompanionKeyword(ExclusiveMinimum))
    case _ => Success(Put(ctx, key, v))
  }

  /** The `forEach` of `Schema.json`: each keyword writes into the same context, in
      insertion order; the first one that throws ends the render. */
  function Render(ks: seq<Keyword>, ctx: Fields): Result<Fields>
    decreases ks
  {
    if ks == [] then Success(ctx)
    else
      var c :- Contribute(ks[0], ctx);
      Render(ks[1..], c)
  }
}
