/** The value domain of the builder: JavaScript values as the keyword classes see
    them, the keyword kinds, the errors they throw, and the few JavaScript object
    operations the keywords rely on (typeof, truthiness, own keys, property
    assignment). A nested `Schema` builder is held as a snapshot of its keyword
    list (`Node`), so that rendering is a function of values. */
module Json {

  datatype Option<T> = None | Some(value: T)

  /** A JavaScript value. An object is its ordered list of own properties; the keys
      of one object are distinct, as they are for every JavaScript object. */
  datatype Value =
    | Undefined
    | Null
    | Bool(b: bool)
    | Num(n: real)
    | Str(s: string)
    | Arr(elems: seq<Value>)
    | Obj(fields: seq<(string, Value)>)
    | Node(keywords: seq<Keyword>)

  type Fields = seq<(string, Value)>

  /** One keyword class of the library (src/lib/<Kind>.js). */
  datatype Kind =
    | AdditionalItems | AdditionalProperties | AllOf | AnyOf | Default | Definitions
    | Dependencies | Enum | ExclusiveMaximum | ExclusiveMinimum | Format | Items
    | Maximum | MaxItems | MaxLength | MaxProperties | Minimum | MinItems | MinLength
    | MinProperties | MultipleOf | Not | OneOf | Pattern | PatternProperties
    | Properties | RefKeyword | Required | Type | UniqueItems

  /** A keyword instance: its class and its stored `_value`. */
  datatype Keyword = Keyword(kind: Kind, value: Value)

  /** What a setter, an `add` or a `json` call can throw. */
  datatype Error =
    | TypeMismatch(keyword: Kind)                   // the value has the wrong JavaScript type
    | MemberTypeMismatch(keyword: Kind)             // an element or entry of the value has the wrong type
    | OutOfRange(keyword: Kind)                     // not a number in the keyword's range
    | InvalidName(keyword: Kind)                    // a patternProperties name that is not a string
    | EmptyCollection(keyword: Kind)                // an enum, allOf, oneOf or dependency array with no element
    | InvalidEnumValue(keyword: Kind, token: Value) // a type or format name outside the allowed list
    | DuplicateArrayElement(keyword: Kind)          // a dependency array with a repeated element
    | MissingCompanionKeyword(keyword: Kind)        // exclusiveMaximum/Minimum rendered without its companion
    | EngineTypeError                               // the engine's TypeError: member of null/undefined, missing map/push, `instanceof` a non-callable
    | EngineReferenceError(name: string)            // the engine's ReferenceError for an undeclared identifier

  /** The outcome of a call that may throw. */
  datatype Result<T> = Success(value: T) | Failure(error: Error) {
    predicate IsFailure() { Failure? }
    function PropagateFailure<U>(): Result<U> requires Failure? { Failure(error) }
    function Extract(): T requires Success? { value }
  }

  /** `typeof v == 'object'`: true for null, arrays, plain objects and Schema instances. */
  predicate IsObjectType(v: Value) {
    v.Null? || v.Arr? || v.Obj? || v.Node?
  }

  /** JavaScript truthiness (NaN is not part of the number model). */
  predicate Truthy(v: Value) {
    match v
    case Undefined => false
    case Null => false
    case Bool(b) => b
    case Num(n) => n != 0.0
    case Str(s) => s != ""
    case _ => true
  }

  /** `Number.isInteger`, on the rational number model. */
  predicate IsInteger(x: real) {
    x.Floor as real == x
  }

  function DigitChar(d: nat): char
    requires d < 10
  {
    "0123456789"[d]
  }

  /** Decimal spelling of a natural number, as JavaScript converts an array index to a key. */
  function NatToString(n: nat): (s: string)
    ensures |s| > 0
    decreases n
  {
    if n < 10 then [DigitChar(n)] else NatToString(n / 10) + [DigitChar(n % 10)]
  }

  function IntToString(i: int): string {
    if i < 0 then "-" + NatToString(-i) else NatToString(i)
  }

  /** The non-object values whose conversion to a property key is modelled: undefined,
      strings, booleans and integral numbers that JavaScript prints without an exponent. */
  predicate KeyConvertible(v: Value) {
    v.Undefined? || v.Str? || v.Bool? || (v.Num? && IsInteger(v.n) && -1e21 < v.n < 1e21)
  }

  /** The property key JavaScript derives from a non-object value used as `obj[name]`. */
  function PropertyKey(v: Value): (k: string)
    requires KeyConvertible(v)
    ensures v.Str? ==> k == v.s
  {
    match v
    case Undefined => "undefined"
    case Str(s) => s
    case Bool(b) => if b then "true" else "false"
    case Num(n) => IntToString(n.Floor)
  }

  /** The own keys of an object, in order. */
  function Keys(f: Fields): (ks: seq<string>)
    ensures |ks| == |f|
    ensures forall i :: 0 <= i < |f| ==> ks[i] == f[i].0
  {
    seq(|f|, i requires 0 <= i < |f| => f[i].0)
  }

  /** No key occurs twice. */
  predicate DistinctKeys(f: Fields) {
    forall i, j :: 0 <= i < j < |f| ==> f[i].0 != f[j].0
  }

  /** `obj[k]` on an object's own properties, `None` standing for absence. */
  function Lookup(f: Fields, k: string): (r: Option<Value>)
    ensures r.Some? <==> k in Keys(f)
    ensures r.Some? ==> exists i :: 0 <= i < |f| && f[i] == (k, r.value)
  {
    if f == [] then None
    else if f[0].0 == k then Some(f[0].1)
    else
      var r := Lookup(f[1..], k);
      assert r.Some? ==> exists i :: 0 <= i < |f[1..]| && f[1..][i] == (k, r.value);
      assert Keys(f) == [f[0].0] + Keys(f[1..]);
      r
  }

  /** Property assignment `obj[k] = v`: an existing key keeps its place and takes the
      new value; a new key is appended; every other property is left as it was. */
  function Put(f: Fields, k: string, v: Value): (r: Fields)
    ensures Keys(r) == if k in Keys(f) then Keys(f) else Keys(f) + [k]
    ensures Lookup(r, k) == Some(v)
    ensures forall k' :: k' != k ==> Lookup(r, k') == Lookup(f, k')
    decreases |f|
  {
    if f == [] then
      KeysCons((k, v), []);
      [(k, v)]
    else if f[0].0 == k then
      PutFront(f, k, v);
      [(k, v)] + f[1..]
    else
      var t := Put(f[1..], k, v);
      PutBehind(f, k, v, t);
      [f[0]] + t
  }

  /** The assignment to the front key replaces the front entry. */
  lemma PutFront(f: Fields, k: string, v: Value)
    requires f != [] && f[0].0 == k
    ensures Keys([(k, v)] + f[1..]) == Keys(f) && k in Keys(f)
    ensures Lookup([(k, v)] + f[1..], k) == Some(v)
    ensures forall k' :: k' != k ==> Lookup([(k, v)] + f[1..], k') == Lookup(f, k')
  {
    assert [f[0]] + f[1..] == f;
    KeysCons(f[0], f[1..]);
    KeysCons((k, v), f[1..]);
    LookupConsFrame((k, v), f[0], f[1..], k);
  }

  /** An assignment to a key behind the front entry keeps that entry in front. */
  lemma PutBehind(f: Fields, k: string, v: Value, t: Fields)
    requires f != [] && f[0].0 != k
    requires Keys(t) == if k in Keys(f[1..]) then Keys(f[1..]) else Keys(f[1..]) + [k]
    requires Lookup(t, k) == Some(v)
    requires forall k' :: k' != k ==> Lookup(t, k') == Lookup(f[1..], k')
    ensures Keys([f[0]] + t) == if k in Keys(f) then Keys(f) else Keys(f) + [k]
    ensures Lookup([f[0]] + t, k) == Some(v)
    ensures forall k' :: k' != k ==> Lookup([f[0]] + t, k') == Lookup(f, k')
  {
    PutBehindKeys(f, k, t);
    PutBehindLookups(f, k, v, t);
  }

  lemma PutBehindKeys(f: Fields, k: string, t: Fields)
    requires f != [] && f[0].0 != k
    requires Keys(t) == if k in Keys(f[1..]) then Keys(f[1..]) else Keys(f[1..]) + [k]
    ensures Keys([f[0]] + t) == if k in Keys(f) then Keys(f) else Keys(f) + [k]
  {
    assert [f[0]] + f[1..] == f;
    KeysCons(f[0], f[1..]);
    KeysCons(f[0], t);
    assert k in Keys(f) <==> k in Keys(f[1..]);
    if k !in Keys(f[1..]) {
      assert [f[0].0] + (Keys(f[1..]) + [k]) == ([f[0].0] + Keys(f[1..])) + [k];
    }
  }

  lemma PutBehindLookups(f: Fields, k: string, v: Value, t: Fields)
    requires f != [] && f[0].0 != k
    requires Lookup(t, k) == Some(v)
    requires forall k' :: k' != k ==> Lookup(t, k') == Lookup(f[1..], k')
    ensures Lookup([f[0]] + t, k) == Some(v)
    ensures forall k' :: k' != k ==> Lookup([f[0]] + t, k') == Lookup(f, k')
  {
    assert [f[0]] + f[1..] == f;
    LookupCons(f[0], t);
    LookupConsSame(f[0], t, f[1..], k);
  }

  /** Replacing the front entry of a list by one with the same key changes no other
      lookup. */
  lemma LookupConsFrame(e: (string, Value), d: (string, Value), f: Fields, k: string)
    requires e.0 == k && d.0 == k
    ensures forall k' :: k' != k ==> Lookup([e] + f, k') == Lookup([d] + f, k')
  {
    LookupCons(e, f);
    LookupCons(d, f);
  }

  /** Lists that agree on every lookup but k still agree after the same entry is put
      in front of both. */
  lemma LookupConsSame(e: (string, Value), g: Fields, f: Fields, k: string)
    requires forall k' :: k' != k ==> Lookup(g, k') == Lookup(f, k')
    ensures forall k' :: k' != k ==> Lookup([e] + g, k') == Lookup([e] + f, k')
  {
    LookupCons(e, g);
    LookupCons(e, f);
  }

  /** The keys of a list with one more entry in front. */
  lemma KeysCons(e: (string, Value), f: Fields)
    ensures Keys([e] + f) == [e.0] + Keys(f)
  {
  }

  /** A lookup in a list with one more entry in front. */
  lemma LookupCons(e: (string, Value), f: Fields)
    ensures forall k :: Lookup([e] + f, k) == if e.0 == k then Some(e.1) else Lookup(f, k)
  {
    assert ([e] + f)[0] == e && ([e] + f)[1..] == f;
  }

  /** A key not yet present is appended at the end. */
  lemma {:induction false} PutFresh(f: Fields, k: string, v: Value)
    requires k !in Keys(f)
    ensures Put(f, k, v) == f + [(k, v)]
    decreases |f|
  {
    if f != [] {
      assert f[0].0 != k && k !in Keys(f[1..]) by {
        KeysCons(f[0], f[1..]);
        assert [f[0]] + f[1..] == f;
      }
      PutFresh(f[1..], k, v);
      assert [f[0]] + (f[1..] + [(k, v)]) == f + [(k, v)] by {
        assert [f[0]] + f[1..] == f;
      }
    }
  }

  /** A keyword instance as an element of a schema's `_keywords` array: an object whose
      own enumerable property is the `_value` its setter stored. */
  function KeywordObject(kw: Keyword): (r: Value)
    ensures r.Obj? && Keys(r.fields) == ["_value"] && Lookup(r.fields, "_value") == Some(kw.value)
  {
    Obj([("_value", kw.value)])
  }

  /** The `_keywords` array of a schema: one keyword object per keyword, in order. */
  function KeywordObjects(ks: seq<Keyword>): (r: seq<Value>)
    ensures |r| == |ks|
    ensures forall i :: 0 <= i < |ks| ==> r[i] == KeywordObject(ks[i])
  {
    seq(|ks|, i requires 0 <= i < |ks| => KeywordObject(ks[i]))
  }

  /** The own enumerable entries `Object.keys(v).map(k => [k, v[k]])`: array indices in
      order, a string's characters, no entry for a boolean or a number; null and
      undefined make the engine throw. A Schema instance has the own property
      `_keywords` once its keyword list has been read (src/lib/Schema.js:48-51), which
      every schema holding a keyword has been; a schema without keywords is taken as
      one whose list was never read. */
  function Entries(v: Value): (r: Result<Fields>)
    ensures r.Failure? <==> v.Null? || v.Undefined?
    ensures v.Obj? ==> r == Success(v.fields)
    ensures v.Arr? ==> r == Success(IndexEntries(v.elems))
    ensures v.Node? ==> Keys(r.value) == if v.keywords == [] then [] else ["_keywords"]
    ensures v.Node? && v.keywords != [] ==> Lookup(r.value, "_keywords") == Some(Arr(KeywordObjects(v.keywords)))
  {
    match v
    case Undefined => Failure(EngineTypeError)
    case Null => Failure(EngineTypeError)
    case Bool(_) => Success([])
    case Num(_) => Success([])
    case Str(s) => Success(seq(|s|, i requires 0 <= i < |s| => (NatToString(i), Str([s[i]]))))
    case Arr(es) => Success(IndexEntries(es))
    case Obj(f) => Success(f)
    case Node(ks) => Success(if ks == [] then [] else [("_keywords", Arr(KeywordObjects(ks)))])
  }

  /** An array's elements keyed by their indices. */
  function IndexEntries(es: seq<Value>): (r: Fields)
    ensures |r| == |es|
    ensures forall i :: 0 <= i < |es| ==> r[i] == (NatToString(i), es[i])
  {
    seq(|es|, i requires 0 <= i < |es| => (NatToString(i), es[i]))
  }

  /** `v[key]` for a getter: an own property of a plain object, otherwise undefined. */
  function Member(v: Value, key: string): (r: Value)
    ensures v.Obj? && Lookup(v.fields, key).Some? ==> r == Lookup(v.fields, key).value
    ensures !v.Obj? || Lookup(v.fields, key).None? ==> r == Undefined
  {
    match v
    case Obj(f) => (match Lookup(f, key) case Some(x) => x case None => Undefined)
    case _ => Undefined
  }

  /** The key under which a keyword writes itself into the output document. */
  function OutputKey(kind: Kind): (k: string)
    ensures KindOfKey(k) == Some(kind)
  {
    match kind
    case AdditionalItems => "additionalItems"
    case AdditionalProperties => "additionalProperties"
    case AllOf => "allOf"
    case AnyOf => "anyOf"
    case Default => "default"
    case Definitions => "definitions"
    case Dependencies => "dependencies"
    case Enum => "enum"
    case ExclusiveMaximum => "exclusiveMaximum"
    case ExclusiveMinimum => "exclusiveMinimum"
    case Format => "format"
    case Items => "items"
    case Maximum => "maximum"
    case MaxItems => "maxItems"
    case MaxLength => "maxLength"
    case MaxProperties => "maxProperties"
    case Minimum => "minimum"
    case MinItems => "minItems"
    case MinLength => "minLength"
    case MinProperties => "minProperties"
    case MultipleOf => "multipleOf"
    case Not => "not"
    case OneOf => "oneOf"
    case Pattern => "pattern"
    case PatternProperties => "patternProperties"
    case Properties => "properties"
    case RefKeyword => "$ref"
    case Required => "required"
    case Type => "type"
    case UniqueItems => "uniqueItems"
  }

  /** The keyword kind that owns an output key, if any. */
  function KindOfKey(k: string): Option<Kind> {
    if k == "additionalItems" then Some(AdditionalItems)
    else if k == "additionalProperties" then Some(AdditionalProperties)
    else if k == "allOf" then Some(AllOf)
    else if k == "anyOf" then Some(AnyOf)
    else if k == "default" then Some(Default)
    else if k == "definitions" then Some(Definitions)
    else if k == "dependencies" then Some(Dependencies)
    else if k == "enum" then Some(Enum)
    else if k == "exclusiveMaximum" then Some(ExclusiveMaximum)
    else if k == "exclusiveMinimum" then Some(ExclusiveMinimum)
    else if k == "format" then Some(Format)
    else if k == "items" then Some(Items)
    else if k == "maximum" then Some(Maximum)
    else if k == "maxItems" then Some(MaxItems)
    else if k == "maxLength" then Some(MaxLength)
    else if k == "maxProperties" then Some(MaxProperties)
    else if k == "minimum" then Some(Minimum)
    else if k == "minItems" then Some(MinItems)
    else if k == "minLength" then Some(MinLength)
    else if k == "minProperties" then Some(MinProperties)
    else if k == "multipleOf" then Some(MultipleOf)
    else if k == "not" then Some(Not)
    else if k == "oneOf" then Some(OneOf)
    else if k == "pattern" then Some(Pattern)
    else if k == "patternProperties" then Some(PatternProperties)
    else if k == "properties" then Some(Properties)
    else if k == "$ref" then Some(RefKeyword)
    else if k == "required" then Some(Required)
    else if k == "type" then Some(Type)
    else if k == "uniqueItems" then Some(UniqueItems)
    else None
  }

  /** Distinct kinds write distinct keys. */
  lemma OutputKeyInjective(a: Kind, b: Kind)
    ensures OutputKey(a) == OutputKey(b) ==> a == b
  {
    assert KindOfKey(OutputKey(a)) == Some(a);
    assert KindOfKey(OutputKey(b)) == Some(b);
  }
}
