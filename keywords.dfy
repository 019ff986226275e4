/** The keyword classes' constructors and `value` setters (src/lib/<Kind>.js): how a
    constructor turns its arguments into one value, the check each setter makes
    before it stores `_value`, and the `add` of the two collection keywords. A setter
    is modelled as a function from the proposed value to the value stored or the
    error thrown; nothing is stored when it throws. */
module Keywords {
  import opened Json

  /** The names an array given to `type` may hold (src/lib/Type.js:4-12). */
  const PrimitiveTypes: seq<string> := ["array", "object", "boolean", "integer", "number", "string", "null"]

  /** The names `format` accepts (src/lib/Format.js:4-11). */
  const ValidFormats: seq<string> := ["date-time", "email", "hostname", "ipv4", "ipv6", "uri"]

  /** `_.includes(names, v)`: v is one of the given strings. */
  predicate IncludedIn(names: seq<string>, v: Value) {
    v.Str? && v.s in names
  }

  /** The index of the first element of a `type` array that is not a primitive type
      name: the element whose check throws first. */
  function FirstNonPrimitive(es: seq<Value>): (r: Option<nat>)
    ensures r.None? <==> forall i :: 0 <= i < |es| ==> IncludedIn(PrimitiveTypes, es[i])
    ensures r.Some? ==> r.value < |es| && !IncludedIn(PrimitiveTypes, es[r.value])
    ensures r.Some? ==> forall i :: 0 <= i < r.value ==> IncludedIn(PrimitiveTypes, es[i])
  {
    if es == [] then None
    else if !IncludedIn(PrimitiveTypes, es[0]) then Some(0)
    else match FirstNonPrimitive(es[1..])
      case None => None
      case Some(j) => Some(j + 1)
  }

  /** lodash's SameValueZero comparison, used by `_.uniq`. Arrays, objects and schemas
      are compared by reference; values carry no identity here, so two of them are
      never taken for the same one. */
  predicate SameValueZero(a: Value, b: Value) {
    !(a.Arr? || a.Obj? || a.Node?) && a == b
  }

  /** `_.uniq(s)`: the first occurrence of each value, in order. */
  function Uniq(s: seq<Value>): seq<Value>
    decreases |s|
  {
    if s == [] then []
    else
      var p := Uniq(s[..|s| - 1]);
      if exists j :: 0 <= j < |p| && SameValueZero(p[j], s[|s| - 1]) then p else p + [s[|s| - 1]]
  }

  /** No two elements are SameValueZero-equal. */
  predicate NoRepeats(s: seq<Value>) {
    forall i, j :: 0 <= i < j < |s| ==> !SameValueZero(s[i], s[j])
  }

  lemma {:induction false} UniqMembers(s: seq<Value>)
    ensures |Uniq(s)| <= |s|
    ensures forall x :: x in Uniq(s) <==> x in s
    decreases |s|
  {
    if s != [] {
      var q := s[..|s| - 1];
      UniqMembers(q);
      assert s == q + [s[|s| - 1]];
    }
  }

  /** `uniq(a).length != a.length` detects exactly the arrays with a repeated element. */
  lemma {:induction false} UniqKeepsLength(s: seq<Value>)
    ensures |Uniq(s)| == |s| <==> NoRepeats(s)
    decreases |s|
  {
    if s != [] {
      var n := |s| - 1;
      var q := s[..n];
      var p := Uniq(q);
      UniqKeepsLength(q);
      UniqMembers(q);
      if NoRepeats(s) {
        assert NoRepeats(q) by {
          forall i, j | 0 <= i < j < |q| ensures !SameValueZero(q[i], q[j]) {
            assert q[i] == s[i] && q[j] == s[j];
          }
        }
        forall j | 0 <= j < |p| ensures !SameValueZero(p[j], s[n]) {
          assert p[j] in q;
          var i :| 0 <= i < |q| && q[i] == p[j];
          assert s[i] == q[i];
        }
      } else {
        var i, j :| 0 <= i < j < |s| && SameValueZero(s[i], s[j]);
        if j < n {
          assert q[i] == s[i] && q[j] == s[j];
          assert !NoRepeats(q);
        } else {
          assert s[i] == q[i] && q[i] in p;
          var k :| 0 <= k < |p| && p[k] == q[i];
          assert SameValueZero(p[k], s[n]);
        }
      }
    }
  }

  /** The check made on one entry of a `dependencies` object
      (src/lib/Dependencies.js:17-25), in the order the source makes it. */
  function CheckDependency(d: Value): Option<Error> {
    if !IsObjectType(d) then Some(MemberTypeMismatch(Dependencies))
    else if d.Arr? then
      if |d.elems| == 0 then Some(EmptyCollection(Dependencies))
      else if |Uniq(d.elems)| != |d.elems| then Some(DuplicateArrayElement(Dependencies))
      else if exists i :: 0 <= i < |d.elems| && !d.elems[i].Str? then Some(MemberTypeMismatch(Dependencies))
      else None
    else None
  }

  /** The error of the first entry that fails its check, if any. */
  function FirstDependencyError(es: Fields): Option<Error> {
    if es == [] then None
    else match CheckDependency(es[0].1)
      case Some(e) => Some(e)
      case None => FirstDependencyError(es[1..])
  }

  function CheckDependencies(v: Value): Option<Error> {
    if !IsObjectType(v) then Some(TypeMismatch(Dependencies))
    else match Entries(v)
      case Failure(e) => Some(e)
      case Success(es) => FirstDependencyError(es)
  }

  /** `definitions` as written (src/lib/Definitions.js:15-24): an object that is not an
      array, whose `for...in` loop throws on the first key. The loop applies
      `instanceof Schema`, and `Schema` there is the empty exports object of a module
      still loading: src/lib/Schema.js:11 requires Definitions.js before
      src/lib/Schema.js:42 assigns `module.exports`. An `instanceof` whose right-hand
      side is not callable is the engine's TypeError. */
  function CheckDefinitions(v: Value): Option<Error> {
    if IsObjectType(v) && !v.Arr? then
      if v.Null? then None   // for...in over null enumerates nothing
      else if |Entries(v).value| > 0 then Some(EngineTypeError)
      else None
    else Some(TypeMismatch(Definitions))
  }

  function CheckType(v: Value): Option<Error> {
    if !v.Str? && !v.Arr? then Some(TypeMismatch(Type))
    else if v.Arr? then
      match FirstNonPrimitive(v.elems)
      case Some(i) => Some(InvalidEnumValue(Type, v.elems[i]))
      case None => None
    else None
  }

  function CheckItems(v: Value): Option<Error> {
    if !IsObjectType(v) then Some(TypeMismatch(Items))
    else if v.Arr? && exists i :: 0 <= i < |v.elems| && !IsObjectType(v.elems[i]) then Some(MemberTypeMismatch(Items))
    else None
  }

  /** allOf and oneOf: a non-empty array of objects. */
  function CheckComposite(kind: Kind, v: Value): Option<Error> {
    if !v.Arr? then Some(TypeMismatch(kind))
    else if |v.elems| == 0 then Some(EmptyCollection(kind))
    else if exists i :: 0 <= i < |v.elems| && !IsObjectType(v.elems[i]) then Some(MemberTypeMismatch(kind))
    else None
  }

  function CheckFormat(v: Value): Option<Error> {
    if !v.Str? then Some(TypeMismatch(Format))
    else if !IncludedIn(ValidFormats, v) then Some(InvalidEnumValue(Format, v))
    else None
  }

  /** A non-negative integer, as `value >= 0 && Number.isInteger(value)` demands. */
  predicate IsCount(v: Value) {
    v.Num? && v.n >= 0.0 && IsInteger(v.n)
  }

  /** The check a setter makes on the value it is handed, `None` when it stores it.
      The kinds whose class is not part of this model (anyOf, required, maxLength,
      minItems, maxProperties, minProperties) are taken to accept anything. */
  function Check(kind: Kind, v: Value): Option<Error> {
    match kind
    case AdditionalItems | AdditionalProperties =>
      if v.Bool? || IsObjectType(v) then None else Some(TypeMismatch(kind))
    case AllOf | OneOf => CheckComposite(kind, v)
    case Definitions => CheckDefinitions(v)
    case Dependencies => CheckDependencies(v)
    case Enum => if v.Arr? && |v.elems| > 0 then None else Some(EmptyCollection(Enum))
    case ExclusiveMaximum | ExclusiveMinimum | UniqueItems =>
      if v.Bool? then None else Some(TypeMismatch(kind))
    case Format => CheckFormat(v)
    case Items => CheckItems(v)
    case Maximum | Minimum => if v.Num? then None else Some(TypeMismatch(kind))
    case MaxItems | MinLength => if IsCount(v) then None else Some(OutOfRange(kind))
    case MultipleOf => if v.Num? && v.n > 0.0 then None else Some(OutOfRange(kind))
    case Not | Properties | PatternProperties =>
      if IsObjectType(v) then None else Some(TypeMismatch(kind))
    case Pattern | RefKeyword => if v.Str? then None else Some(TypeMismatch(kind))
    case Type => CheckType(v)
    case Default | AnyOf | Required | MaxLength | MinItems | MaxProperties | MinProperties => None
  }

  /** The `enum` setter wraps a value that is not an array into a one-element array
      before it checks it (src/lib/Enum.js:18-20); no other setter rewrites its value. */
  function Normalize(kind: Kind, v: Value): Value {
    if kind == Enum && !v.Arr? then Arr([v]) else v
  }

  /** `keyword.value = v`: the value stored, or the error thrown. */
  function Assign(kind: Kind, v: Value): Result<Value> {
    var w := Normalize(kind, v);
    match Check(kind, w)
    case Some(e) => Failure(e)
    case None => Success(w)
  }

  /** The value a constructor hands its setter: type, items, allOf, oneOf and anyOf
      collect two or more arguments into an array; enum collects all of its arguments
      unless the first is an array; every other keyword takes its first argument. */
  function Collapse(kind: Kind, args: seq<Value>): Value
    requires |args| > 0
  {
    match kind
    case Type | Items | AllOf | OneOf | AnyOf => if |args| > 1 then Arr(args) else args[0]
    case Enum => if args[0].Arr? then args[0] else Arr(args)
    case _ => args[0]
  }

  /** `new <Kind>(...args)`: the keyword's value, or the error its constructor throws. */
  function Construct(kind: Kind, args: seq<Value>): Result<Value>
    requires |args| > 0
  {
    Assign(kind, Collapse(kind, args))
  }

  /** A collection keyword's value that `add` assigns an ordinary property to: a plain
      object, or a falsy value that `add` replaces with a new object. */
  predicate Insertable(v: Value) {
    v.Undefined? || v.Null? || v.Obj?
  }

  /** `this.value[name] = v` on a collection keyword whose value is an object, or
      `this.value = {name: v}` when its value is falsy. */
  function Insert(target: Value, key: string, v: Value): (r: Value)
    requires Insertable(target)
    ensures r.Obj? && Lookup(r.fields, key) == Some(v)
    ensures !target.Obj? ==> r == Obj([(key, v)])
    ensures target.Obj? ==>
      Keys(r.fields) == (if key in Keys(target.fields) then Keys(target.fields) else Keys(target.fields) + [key])
    ensures target.Obj? ==> forall k :: k != key ==> Lookup(r.fields, k) == Lookup(target.fields, k)
  {
    if target.Obj? then Obj(Put(target.fields, key, v)) else Obj([(key, v)])
  }

  /** Successive inserts, one per entry, in order. */
  function InsertAll(target: Value, es: Fields): (r: Value)
    requires Insertable(target)
    ensures Insertable(r)
    ensures r == target || r.Obj?
    ensures es != [] ==> r.Obj?
    decreases |es|
  {
    if es == [] then target else InsertAll(Insert(target, es[0].0, es[0].1), es[1..])
  }

  /** The default parameter `value = {}` of `Properties.add`. */
  function OrEmpty(v: Value): Value {
    if v.Undefined? then Obj([]) else v
  }

  function WithDefaults(es: Fields): (r: Fields)
    ensures |r| == |es|
    ensures forall i :: 0 <= i < |es| ==> r[i] == (es[i].0, OrEmpty(es[i].1))
  {
    seq(|es|, i requires 0 <= i < |es| => (es[i].0, OrEmpty(es[i].1)))
  }

  /** `Properties.add(name, value)` (src/lib/Properties.js:18-33): the keyword's new
      value. An object name adds each of its entries; anything else is converted to a
      property key and stored, with `{}` for an undefined value, without any check. */
  function PropertiesAdd(target: Value, name: Value, value: Value): (r: Result<Value>)
    requires Insertable(target)
    requires IsObjectType(name) || KeyConvertible(name)
    ensures r.Failure? <==> name.Null?
    ensures r.Success? ==> Insertable(r.value) && (r.value == target || r.value.Obj?)
  {
    if IsObjectType(name) then
      var es :- Entries(name);
      Success(InsertAll(target, WithDefaults(es)))
    else Success(Insert(target, PropertyKey(name), OrEmpty(value)))
  }

  /** The keyword's value after an `add`, and what the `add` threw. */
  datatype Added = Added(value: Value, thrown: Option<Error>)

  /** One `PatternProperties.add(name, value)` with a name that is not an object
      (src/lib/PatternProperties.js:29-43). */
  function PatternAddOne(target: Value, name: Value, value: Value): (r: Added)
    requires Insertable(target)
    ensures Insertable(r.value)
    ensures r.value == target || r.value.Obj?
  {
    if !name.Str? then Added(target, Some(InvalidName(PatternProperties)))
    else if !IsObjectType(value) then Added(target, Some(TypeMismatch(PatternProperties)))
    else Added(Insert(target, name.s, value), None)
  }

  /** One add per entry, in order, stopping at the first that throws; the entries added
      before it stay added. */
  function PatternAddAll(target: Value, es: Fields): (r: Added)
    requires Insertable(target)
    ensures Insertable(r.value)
    ensures r.value == target || r.value.Obj?
    decreases |es|
  {
    if es == [] then Added(target, None)
    else
      var a := PatternAddOne(target, Str(es[0].0), es[0].1);
      if a.thrown.Some? then a else PatternAddAll(a.value, es[1..])
  }

  /** `PatternProperties.add(name, value)` (src/lib/PatternProperties.js:21-44). */
  function PatternPropertiesAdd(target: Value, name: Value, value: Value): (r: Added)
    requires Insertable(target)
    ensures Insertable(r.value)
    ensures r.value == target || r.value.Obj?
  {
    if IsObjectType(name) then
      match Entries(name)
      case Failure(e) => Added(target, Some(e))
      case Success(es) => PatternAddAll(target, es)
    else PatternAddOne(target, name, value)
  }
}
