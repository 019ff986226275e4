/** Properties of rendering: element-wise and entry-wise rendering keep order and
    length, each keyword writes its own key and no other, keys of the context are
    never removed, the last keyword of a kind decides its key, and the deferred
    companion check of exclusiveMaximum and exclusiveMinimum. */
module RenderFacts {
  import opened Json
  import opened Rendering

  // ---------------------------------------------------------------- element-wise rendering

  /** `es.map(elem => elem.json ? elem.json() : elem)` keeps length and order, and
      throws exactly when one element's render throws. */
  lemma {:induction false} RenderElemsPointwise(es: seq<Value>)
    ensures RenderElems(es).Success? <==> forall i :: 0 <= i < |es| ==> RenderNested(es[i]).Success?
    ensures RenderElems(es).Success? ==>
      |RenderElems(es).value| == |es| &&
      forall i :: 0 <= i < |es| ==> RenderElems(es).value[i] == RenderNested(es[i]).value
    decreases |es|
  {
    if es != [] {
      RenderElemsPointwise(es[1..]);
      assert forall i :: 1 <= i < |es| ==> es[i] == es[1..][i - 1];
    }
  }

  /** The entries of an object keep their keys and order; each value is rendered. */
  lemma {:induction false} RenderFieldsPointwise(f: Fields)
    ensures RenderFields(f).Success? <==> forall i :: 0 <= i < |f| ==> RenderNested(f[i].1).Success?
    ensures RenderFields(f).Success? ==>
      |RenderFields(f).value| == |f| &&
      forall i :: 0 <= i < |f| ==> RenderFields(f).value[i] == (f[i].0, RenderNested(f[i].1).value)
    decreases |f|
  {
    if f != [] {
      RenderFieldsPointwise(f[1..]);
      assert forall i :: 1 <= i < |f| ==> f[i] == f[1..][i - 1];
    }
  }

  /** Assigning entries with distinct new keys one by one appends them in order. */
  lemma {:induction false} AssembleIntoFresh(acc: Fields, f: Fields)
    requires DistinctKeys(acc + f)
    ensures AssembleInto(acc, f) == acc + f
    decreases |f|
  {
    if f != [] {
      var k := f[0].0;
      var g := acc + [f[0]];
      assert g + f[1..] == acc + f;
      assert k !in Keys(acc) by {
        forall i | 0 <= i < |acc| ensures Keys(acc)[i] != k {
          assert (acc + f)[i] == acc[i] && (acc + f)[|acc|] == f[0];
        }
      }
      PutFresh(acc, k, f[0].1);
      AssembleIntoFresh(g, f[1..]);
    }
  }

  /** The `reduce` into `{}` over the entries of an object reproduces them, keys in
      insertion order. */
  lemma AssembleDistinct(f: Fields)
    requires DistinctKeys(f)
    ensures Assemble(f) == f
  {
    assert [] + f == f;
    AssembleIntoFresh([], f);
  }

  // ---------------------------------------------------------------- one keyword

  /** `r` is `ctx` with at most the key `key` written: the keys of `ctx` stay, in
      their order, the only key that may be new is `key`, and every other key keeps
      its value. */
  ghost predicate WritesOnly(ctx: Fields, r: Fields, key: string) {
    Keys(ctx) <= Keys(r) &&
    (forall k :: k in Keys(r) && k !in Keys(ctx) ==> k == key) &&
    (forall k :: k != key ==> Lookup(r, k) == Lookup(ctx, k))
  }

  lemma PutWritesOnly(ctx: Fields, key: string, w: Value)
    ensures WritesOnly(ctx, Put(ctx, key, w), key)
  {
  }

  /** A keyword's `json(context)` writes its own output key and no other. */
  lemma ContributeFrame(kw: Keyword, ctx: Fields)
    ensures Contribute(kw, ctx).Success? ==> WritesOnly(ctx, Contribute(kw, ctx).value, OutputKey(kw.kind))
  {
    var key := OutputKey(kw.kind);
    var v := kw.value;
    var c := Contribute(kw, ctx);
    match kw.kind
    case AdditionalItems | AdditionalProperties | Not | Default =>
      if RenderNested(v).Success? {
        assert c == Success(Put(ctx, key, RenderNested(v).value));
        PutWritesOnly(ctx, key, RenderNested(v).value);
      } else {
        assert c.Failure?;
      }
    case AllOf | OneOf | AnyOf =>
      if !Truthy(v) {
        assert c == Success(ctx);
      } else if v.Arr? && RenderElems(v.elems).Success? {
        assert c == Success(Put(ctx, key, Arr(RenderElems(v.elems).value)));
        PutWritesOnly(ctx, key, Arr(RenderElems(v.elems).value));
      } else {
        assert c.Failure?;
      }
    case Items =>
      if !Truthy(v) {
        assert c == Success(ctx);
      } else if HasJson(v) && RenderNested(v).Success? {
        assert c == Success(Put(ctx, key, RenderNested(v).value));
        PutWritesOnly(ctx, key, RenderNested(v).value);
      } else if !HasJson(v) && v.Arr? && RenderElems(v.elems).Success? {
        assert c == Success(Put(ctx, key, Arr(RenderElems(v.elems).value)));
        PutWritesOnly(ctx, key, Arr(RenderElems(v.elems).value));
      } else {
        assert c.Failure?;
      }
    case Dependencies | Properties | PatternProperties =>
      if !Truthy(v) {
        assert c == Success(ctx);
      } else if RenderMembers(v).Success? {
        assert c == Success(Put(ctx, key, Obj(Assemble(RenderMembers(v).value))));
        PutWritesOnly(ctx, key, Obj(Assemble(RenderMembers(v).value)));
      } else {
        assert c.Failure?;
      }
    case Definitions =>
      assert c.Failure?;
    case ExclusiveMaximum | ExclusiveMinimum =>
      ExclusiveContribute(kw, ctx);
      if c.Success? {
        PutWritesOnly(ctx, key, v);
      }
    case _ =>
      assert c == Success(Put(ctx, key, v));
      PutWritesOnly(ctx, key, v);
  }

  /** The kinds whose `json` writes the stored value as it is: type, enum, format,
      maximum, minimum, maxItems, minLength, pattern, multipleOf, uniqueItems, `$ref`,
      and the kinds whose class is not part of this model except anyOf. */
  predicate WritesAsIs(kind: Kind) {
    match kind
    case Type | Enum | Format | Maximum | Minimum | MaxItems | MinLength | Pattern | MultipleOf
       | UniqueItems | RefKeyword | Required | MaxLength | MinItems | MaxProperties | MinProperties => true
    case _ => false
  }

  /** Such a keyword never fails to render and writes its stored value verbatim under
      its key (src/lib/Type.js:40-43, src/lib/Enum.js:29-32, src/lib/Format.js:35-38,
      and the `json` of the other scalar keywords); the enum elements, in particular,
      are not rendered. */
  lemma AsIsContribute(kw: Keyword, ctx: Fields)
    requires WritesAsIs(kw.kind)
    ensures Contribute(kw, ctx) == Success(Put(ctx, OutputKey(kw.kind), kw.value))
    ensures Lookup(Contribute(kw, ctx).value, OutputKey(kw.kind)) == Some(kw.value)
  {
  }

  /** `additionalItems`, `additionalProperties`, `not` and `default`
      (src/lib/AdditionalItems.js:20-23, src/lib/AdditionalProperties.js:20-23,
      src/lib/Not.js:20-23, src/lib/Default.js:17-20): a schema is rendered from `{}`
      and nested, a raw value without its own `json` is written as it is, and reading
      `json` of null or undefined throws. */
  lemma NestedContribute(kw: Keyword, ctx: Fields)
    requires kw.kind == AdditionalItems || kw.kind == AdditionalProperties || kw.kind == Not || kw.kind == Default
    ensures kw.value.Node? ==>
      Contribute(kw, ctx) ==
        if Render(kw.value.keywords, []).Success?
        then Success(Put(ctx, OutputKey(kw.kind), Obj(Render(kw.value.keywords, []).value)))
        else Failure(Render(kw.value.keywords, []).error)
    ensures kw.value.Bool? || kw.value.Num? || kw.value.Str? || kw.value.Arr? ||
            (kw.value.Obj? && !Truthy(Member(kw.value, "json"))) ==>
      Contribute(kw, ctx) == Success(Put(ctx, OutputKey(kw.kind), kw.value))
    ensures kw.value.Null? || kw.value.Undefined? ==> Contribute(kw, ctx) == Failure(EngineTypeError)
  {
  }

  /** `allOf`, `oneOf` and `anyOf` (src/lib/AllOf.js:28-32, src/lib/OneOf.js:27-31): an
      array renders element by element into an array of the same length and order. */
  lemma CompositeContribute(kind: Kind, es: seq<Value>, ctx: Fields)
    requires kind == AllOf || kind == OneOf || kind == AnyOf
    ensures Contribute(Keyword(kind, Arr(es)), ctx).Success? <==>
      forall i :: 0 <= i < |es| ==> RenderNested(es[i]).Success?
    ensures Contribute(Keyword(kind, Arr(es)), ctx).Success? ==>
      var w := Lookup(Contribute(Keyword(kind, Arr(es)), ctx).value, OutputKey(kind));
      w.Some? && w.value.Arr? && |w.value.elems| == |es| &&
      forall i :: 0 <= i < |es| ==> w.value.elems[i] == RenderNested(es[i]).value
  {
    RenderElemsPointwise(es);
  }

  /** `items` (src/lib/Items.js:27-40): nothing is written for a falsy value; a schema
      is rendered and nested; an array renders element by element, keeping order. */
  lemma ItemsContribute(v: Value, ctx: Fields)
    ensures !Truthy(v) ==> Contribute(Keyword(Items, v), ctx) == Success(ctx)
    ensures v.Node? ==>
      Contribute(Keyword(Items, v), ctx) ==
        if Render(v.keywords, []).Success?
        then Success(Put(ctx, "items", Obj(Render(v.keywords, []).value)))
        else Failure(Render(v.keywords, []).error)
    ensures v.Arr? ==>
      (Contribute(Keyword(Items, v), ctx).Success? <==> forall i :: 0 <= i < |v.elems| ==> RenderNested(v.elems[i]).Success?)
    ensures v.Arr? && Contribute(Keyword(Items, v), ctx).Success? ==>
      var w := Lookup(Contribute(Keyword(Items, v), ctx).value, "items");
      w.Some? && w.value.Arr? && |w.value.elems| == |v.elems| &&
      forall i :: 0 <= i < |v.elems| ==> w.value.elems[i] == RenderNested(v.elems[i]).value
  {
    if v.Arr? {
      ItemsArrContribute(v.elems, ctx);
      RenderElemsPointwise(v.elems);
    } else if v.Node? {
      assert Truthy(v) && HasJson(v);
    }
  }

  /** An array of items renders element-wise. */
  lemma ItemsArrContribute(es: seq<Value>, ctx: Fields)
    ensures Contribute(Keyword(Items, Arr(es)), ctx) ==
      (var rs :- RenderElems(es); Success(Put(ctx, "items", Arr(rs))))
  {
    assert Truthy(Arr(es)) && !HasJson(Arr(es));
  }

  /** `dependencies`, `properties` and `patternProperties` (src/lib/Dependencies.js:31-40,
      src/lib/Properties.js:35-46, src/lib/PatternProperties.js:46-55): nothing is
      written for null; an object is written as a new object with the same keys in the
      same order, each value rendered. */
  lemma CollectionContribute(kind: Kind, v: Value, ctx: Fields)
    requires kind == Dependencies || kind == Properties || kind == PatternProperties
    requires v.Null? || (v.Obj? && DistinctKeys(v.fields))
    ensures v.Null? ==> Contribute(Keyword(kind, v), ctx) == Success(ctx)
    ensures v.Obj? ==>
      (Contribute(Keyword(kind, v), ctx).Success? <==> forall i :: 0 <= i < |v.fields| ==> RenderNested(v.fields[i].1).Success?)
    ensures v.Obj? && Contribute(Keyword(kind, v), ctx).Success? ==>
      var w := Lookup(Contribute(Keyword(kind, v), ctx).value, OutputKey(kind));
      w.Some? && w.value.Obj? && |w.value.fields| == |v.fields| &&
      forall i :: 0 <= i < |v.fields| ==> w.value.fields[i] == (v.fields[i].0, RenderNested(v.fields[i].1).value)
  {
    if v.Obj? {
      var f := v.fields;
      RenderFieldsPointwise(f);
      if RenderFields(f).Success? {
        var g := RenderFields(f).value;
        assert DistinctKeys(g) by {
          forall i, j | 0 <= i < j < |g| ensures g[i].0 != g[j].0 {
            assert g[i].0 == f[i].0 && g[j].0 == f[j].0;
          }
        }
        AssembleDistinct(g);
      }
    }
  }

  /** `definitions` renders as written (src/lib/Definitions.js:27-30): it reads an
      undeclared `value`, which throws a ReferenceError, so a schema holding a
      definitions keyword never renders. */
  lemma {:induction false} DefinitionsRenderFails(ks: seq<Keyword>, ctx: Fields)
    requires exists i :: 0 <= i < |ks| && ks[i].kind == Definitions
    ensures Render(ks, ctx).Failure?
    decreases |ks|
  {
    if ks[0].kind != Definitions {
      var i :| 0 <= i < |ks| && ks[i].kind == Definitions;
      assert ks[1..][i - 1] == ks[i];
      match Contribute(ks[0], ctx)
      case Failure(_) =>
      case Success(c) => DefinitionsRenderFails(ks[1..], c);
    }
  }

  // ---------------------------------------------------------------- the whole fold

  /** Some keyword of the list writes the key. */
  predicate Writes(ks: seq<Keyword>, k: string) {
    exists i :: 0 <= i < |ks| && OutputKey(ks[i].kind) == k
  }

  /** Rendering into a caller's context (src/lib/Schema.js:396-404) keeps every key the
      context had, in order; every new key is the output key of some keyword; a key no
      keyword writes keeps its value. */
  lemma {:induction false} RenderFrame(ks: seq<Keyword>, ctx: Fields)
    ensures Render(ks, ctx).Success? ==>
      var r := Render(ks, ctx).value;
      Keys(ctx) <= Keys(r) &&
      (forall k :: k in Keys(r) && k !in Keys(ctx) ==> Writes(ks, k)) &&
      (forall k :: !Writes(ks, k) ==> Lookup(r, k) == Lookup(ctx, k))
    decreases |ks|
  {
    if ks != [] && Contribute(ks[0], ctx).Success? {
      var c := Contribute(ks[0], ctx).value;
      ContributeFrame(ks[0], ctx);
      RenderFrame(ks[1..], c);
      if Render(ks, ctx).Success? {
        var r := Render(ks, ctx).value;
        assert r == Render(ks[1..], c).value;
        forall k | k in Keys(r) && k !in Keys(ctx) ensures Writes(ks, k) {
          if k in Keys(c) {
            assert OutputKey(ks[0].kind) == k;
          } else {
            var i :| 0 <= i < |ks[1..]| && OutputKey(ks[1..][i].kind) == k;
            assert ks[i + 1] == ks[1..][i];
          }
        }
        forall k | !Writes(ks, k) ensures Lookup(r, k) == Lookup(ctx, k) {
          assert OutputKey(ks[0].kind) != k;
          assert !Writes(ks[1..], k) by {
            forall i | 0 <= i < |ks[1..]| ensures OutputKey(ks[1..][i].kind) != k {
              assert ks[1..][i] == ks[i + 1];
            }
          }
        }
      }
    }
  }

  /** Rendering a concatenation renders the first part, then the second into its result. */
  lemma {:induction false} RenderConcat(a: seq<Keyword>, b: seq<Keyword>, ctx: Fields)
    ensures Render(a + b, ctx) ==
      if Render(a, ctx).Success? then Render(b, Render(a, ctx).value) else Failure(Render(a, ctx).error)
    decreases |a|
  {
    if a == [] {
      assert a + b == b;
    } else {
      assert (a + b)[0] == a[0];
      assert (a + b)[1..] == a[1..] + b;
      match Contribute(a[0], ctx)
      case Failure(_) =>
      case Success(c) => RenderConcat(a[1..], b, c);
    }
  }

  /** A prefix cut around one of its elements. */
  lemma SplitAround<T>(s: seq<T>, j: nat, i: nat)
    requires j < i <= |s|
    ensures s[..i] == s[..j] + ([s[j]] + s[j + 1..i])
  {
  }

  /** The kinds whose `json` nests its value (`value.json ? value.json({}) : value`). */
  predicate NestsValue(kind: Kind) {
    kind == AdditionalItems || kind == AdditionalProperties || kind == Not || kind == Default
  }

  /** The kinds whose `json` writes nothing when the value is falsy (`if (this.value)`). */
  predicate SkipsFalsy(kind: Kind) {
    kind == AllOf || kind == OneOf || kind == AnyOf || kind == Items ||
    kind == Dependencies || kind == Properties || kind == PatternProperties
  }

  /** Whatever the kind, the rendered key holds what the last keyword of that kind left
      there: the keywords after it write other keys (src/lib/Schema.js:399-401). */
  lemma LastOfKindDecides(ks: seq<Keyword>, i: nat, ctx: Fields)
    requires i < |ks|
    requires forall j :: i < j < |ks| ==> ks[j].kind != ks[i].kind
    ensures Render(ks, ctx).Success? ==>
      Render(ks[..i], ctx).Success? &&
      Contribute(ks[i], Render(ks[..i], ctx).value).Success? &&
      Lookup(Render(ks, ctx).value, OutputKey(ks[i].kind)) ==
        Lookup(Contribute(ks[i], Render(ks[..i], ctx).value).value, OutputKey(ks[i].kind))
  {
    var key := OutputKey(ks[i].kind);
    var rest := ks[i + 1..];
    SplitAround(ks, i, |ks|);
    assert ks[..|ks|] == ks && ks[i + 1..|ks|] == rest;
    RenderConcat(ks[..i], [ks[i]] + rest, ctx);
    if Render(ks[..i], ctx).Success? {
      var c := Render(ks[..i], ctx).value;
      assert ([ks[i]] + rest)[0] == ks[i] && ([ks[i]] + rest)[1..] == rest;
      if Contribute(ks[i], c).Success? {
        var d := Contribute(ks[i], c).value;
        assert Render([ks[i]] + rest, c) == Render(rest, d);
        RenderFrame(rest, d);
        assert !Writes(rest, key) by {
          forall j | 0 <= j < |rest| ensures OutputKey(rest[j].kind) != key {
            assert rest[j] == ks[i + 1 + j];
            OutputKeyInjective(rest[j].kind, ks[i].kind);
          }
        }
      }
    }
  }

  /** What one keyword leaves under its key, family by family: its value for the
      scalar and exclusive kinds, its nested render for the nesting kinds, the earlier
      content for a falsy value of a kind that skips it, and some value otherwise. */
  lemma ContributeLeaves(kw: Keyword, ctx: Fields)
    ensures Contribute(kw, ctx).Success? && (WritesAsIs(kw.kind) || kw.kind == ExclusiveMaximum || kw.kind == ExclusiveMinimum) ==>
      Lookup(Contribute(kw, ctx).value, OutputKey(kw.kind)) == Some(kw.value)
    ensures Contribute(kw, ctx).Success? && NestsValue(kw.kind) ==>
      RenderNested(kw.value).Success? &&
      Lookup(Contribute(kw, ctx).value, OutputKey(kw.kind)) == Some(RenderNested(kw.value).value)
    ensures Contribute(kw, ctx).Success? && SkipsFalsy(kw.kind) && !Truthy(kw.value) ==>
      Lookup(Contribute(kw, ctx).value, OutputKey(kw.kind)) == Lookup(ctx, OutputKey(kw.kind))
    ensures Contribute(kw, ctx).Success? && SkipsFalsy(kw.kind) && Truthy(kw.value) ==>
      Lookup(Contribute(kw, ctx).value, OutputKey(kw.kind)).Some?
  {
    AsIsLeaves(kw, ctx);
    NestedLeaves(kw, ctx);
    FalsySkipped(kw, ctx);
    TruthyLeaves(kw, ctx);
  }

  /** A scalar or exclusive keyword that renders leaves its value under its key. */
  lemma AsIsLeaves(kw: Keyword, ctx: Fields)
    ensures Contribute(kw, ctx).Success? && (WritesAsIs(kw.kind) || kw.kind == ExclusiveMaximum || kw.kind == ExclusiveMinimum) ==>
      Lookup(Contribute(kw, ctx).value, OutputKey(kw.kind)) == Some(kw.value)
  {
    if WritesAsIs(kw.kind) {
      AsIsContribute(kw, ctx);
    } else if kw.kind == ExclusiveMaximum || kw.kind == ExclusiveMinimum {
      ExclusiveContribute(kw, ctx);
    }
  }

  /** A nesting keyword that renders leaves its nested render under its key. */
  lemma NestedLeaves(kw: Keyword, ctx: Fields)
    ensures Contribute(kw, ctx).Success? && NestsValue(kw.kind) ==>
      RenderNested(kw.value).Success? &&
      Lookup(Contribute(kw, ctx).value, OutputKey(kw.kind)) == Some(RenderNested(kw.value).value)
  {
    var r, key := RenderNested(kw.value), OutputKey(kw.kind);
    if r.Success? {
      match kw.kind
      case AdditionalItems => assert Contribute(kw, ctx) == Success(Put(ctx, key, r.value));
      case AdditionalProperties => assert Contribute(kw, ctx) == Success(Put(ctx, key, r.value));
      case Not => assert Contribute(kw, ctx) == Success(Put(ctx, key, r.value));
      case Default => assert Contribute(kw, ctx) == Success(Put(ctx, key, r.value));
      case _ =>
    }
  }

  /** A falsy value of a kind that skips it writes nothing. */
  lemma FalsySkipped(kw: Keyword, ctx: Fields)
    ensures SkipsFalsy(kw.kind) && !Truthy(kw.value) ==> Contribute(kw, ctx) == Success(ctx)
  {
  }

  /** A truthy value of a kind that skips falsy ones writes its key when it renders. */
  lemma TruthyLeaves(kw: Keyword, ctx: Fields)
    ensures Contribute(kw, ctx).Success? && SkipsFalsy(kw.kind) && Truthy(kw.value) ==>
      Lookup(Contribute(kw, ctx).value, OutputKey(kw.kind)).Some?
  {
    var v, key := kw.value, OutputKey(kw.kind);
    if Contribute(kw, ctx).Success? && Truthy(v) {
      match kw.kind
      case AllOf => assert Contribute(kw, ctx) == Success(Put(ctx, key, Arr(RenderElems(v.elems).value)));
      case OneOf => assert Contribute(kw, ctx) == Success(Put(ctx, key, Arr(RenderElems(v.elems).value)));
      case AnyOf => assert Contribute(kw, ctx) == Success(Put(ctx, key, Arr(RenderElems(v.elems).value)));
      case Items =>
        if HasJson(v) {
          assert Contribute(kw, ctx) == Success(Put(ctx, key, RenderNested(v).value));
        } else {
          assert Contribute(kw, ctx) == Success(Put(ctx, key, Arr(RenderElems(v.elems).value)));
        }
      case Dependencies => assert Contribute(kw, ctx) == Success(Put(ctx, key, Obj(Assemble(RenderMembers(v).value))));
      case Properties => assert Contribute(kw, ctx) == Success(Put(ctx, key, Obj(Assemble(RenderMembers(v).value))));
      case PatternProperties => assert Contribute(kw, ctx) == Success(Put(ctx, key, Obj(Assemble(RenderMembers(v).value))));
      case _ =>
    }
  }

  /** When the same kind is set more than once, the rendered key holds what the last
      keyword of that kind writes: its value as is for the scalar and exclusive kinds,
      its nested render for not, default, additionalItems and additionalProperties;
      for the kinds that skip a falsy value, a falsy last value leaves the key as the
      keywords before it left it. */
  lemma LastOfKindWins(ks: seq<Keyword>, i: nat, ctx: Fields)
    requires i < |ks|
    requires forall j :: i < j < |ks| ==> ks[j].kind != ks[i].kind
    ensures Render(ks, ctx).Success? ==>
      var v := ks[i].value;
      var got := Lookup(Render(ks, ctx).value, OutputKey(ks[i].kind));
      Render(ks[..i], ctx).Success? &&
      (WritesAsIs(ks[i].kind) || ks[i].kind == ExclusiveMaximum || ks[i].kind == ExclusiveMinimum ==> got == Some(v)) &&
      (NestsValue(ks[i].kind) ==> RenderNested(v).Success? && got == Some(RenderNested(v).value)) &&
      (SkipsFalsy(ks[i].kind) && !Truthy(v) ==> got == Lookup(Render(ks[..i], ctx).value, OutputKey(ks[i].kind))) &&
      (SkipsFalsy(ks[i].kind) && Truthy(v) ==> got.Some?)
  {
    LastOfKindDecides(ks, i, ctx);
    if Render(ks, ctx).Success? {
      ContributeLeaves(ks[i], Render(ks[..i], ctx).value);
    }
  }

  // ---------------------------------------------------------------- exclusiveMaximum / exclusiveMinimum

  /** The keyword whose key exclusiveMaximum and exclusiveMinimum need. */
  function Companion(kind: Kind): (c: Kind)
    requires kind == ExclusiveMaximum || kind == ExclusiveMinimum
    ensures OutputKey(c) == if kind == ExclusiveMaximum then "maximum" else "minimum"
  {
    if kind == ExclusiveMaximum then
      assert OutputKey(Maximum) == "maximum";
      Maximum
    else
      assert OutputKey(Minimum) == "minimum";
      Minimum
  }

  /** `exclusiveMaximum.json(context)` (src/lib/ExclusiveMaximum.js:21-28) and its
      exclusiveMinimum twin: it succeeds exactly when the context already has the
      companion key, and then writes its own key only. */
  lemma ExclusiveContribute(kw: Keyword, ctx: Fields)
    requires kw.kind == ExclusiveMaximum || kw.kind == ExclusiveMinimum
    ensures Contribute(kw, ctx).Success? <==> OutputKey(Companion(kw.kind)) in Keys(ctx)
    ensures Contribute(kw, ctx).Failure? ==> Contribute(kw, ctx).error == MissingCompanionKeyword(kw.kind)
    ensures Contribute(kw, ctx).Success? ==>
      var r := Contribute(kw, ctx).value;
      Lookup(r, OutputKey(kw.kind)) == Some(kw.value) &&
      forall k :: k != OutputKey(kw.kind) ==> Lookup(r, k) == Lookup(ctx, k)
  {
  }

  /** Without a companion keyword before it, and without the companion key in the
      caller's context, a schema holding exclusiveMaximum (exclusiveMinimum) fails to
      render, however the other keywords are arranged. */
  lemma ExclusiveWithoutCompanionFails(ks: seq<Keyword>, i: nat, ctx: Fields)
    requires i < |ks| && (ks[i].kind == ExclusiveMaximum || ks[i].kind == ExclusiveMinimum)
    requires forall j :: 0 <= j < i ==> ks[j].kind != Companion(ks[i].kind)
    requires OutputKey(Companion(ks[i].kind)) !in Keys(ctx)
    ensures Render(ks, ctx).Failure?
  {
    var key := OutputKey(Companion(ks[i].kind));
    var pre, post := ks[..i], ks[i..];
    assert ks == pre + post;
    RenderConcat(pre, post, ctx);
    if Render(pre, ctx).Success? {
      var c := Render(pre, ctx).value;
      RenderFrame(pre, ctx);
      assert !Writes(pre, key) by {
        forall j | 0 <= j < |pre| ensures OutputKey(pre[j].kind) != key {
          OutputKeyInjective(pre[j].kind, Companion(ks[i].kind));
        }
      }
      assert Lookup(c, key) == None;
      assert post[0] == ks[i];
      ExclusiveContribute(ks[i], c);
      assert Render(post, c).Failure?;
    }
  }

  /** With a companion keyword anywhere before it, the check passes: a key once written
      is never removed. */
  lemma ExclusiveAfterCompanionPasses(ks: seq<Keyword>, j: nat, i: nat, ctx: Fields)
    requires j < i < |ks| && (ks[i].kind == ExclusiveMaximum || ks[i].kind == ExclusiveMinimum)
    requires ks[j].kind == Companion(ks[i].kind)
    requires Render(ks[..i], ctx).Success?
    ensures Contribute(ks[i], Render(ks[..i], ctx).value).Success?
  {
    var key := OutputKey(Companion(ks[i].kind));
    var mid := ks[j + 1..i];
    SplitAround(ks, j, i);
    RenderConcat(ks[..j], [ks[j]] + mid, ctx);
    var c := Render(ks[..j], ctx).value;
    RenderConsAsIs(ks[j], mid, c);
    RenderKeepsKey(mid, Put(c, key, ks[j].value), key);
    ExclusiveContribute(ks[i], Render(ks[..i], ctx).value);
  }

  /** A keyword written as is, followed by more keywords. */
  lemma RenderConsAsIs(kw: Keyword, rest: seq<Keyword>, c: Fields)
    requires WritesAsIs(kw.kind)
    ensures Render([kw] + rest, c) == Render(rest, Put(c, OutputKey(kw.kind), kw.value))
  {
    assert ([kw] + rest)[0] == kw && ([kw] + rest)[1..] == rest;
    AsIsContribute(kw, c);
  }

  /** A key present before rendering is still present after it. */
  lemma RenderKeepsKey(ks: seq<Keyword>, d: Fields, key: string)
    requires key in Keys(d) && Render(ks, d).Success?
    ensures key in Keys(Render(ks, d).value)
  {
    RenderFrame(ks, d);
  }
}
