/**
  The JavaScript values that the matching engine inspects, the host that runs the
  caller's functions and regular expressions, and the two value-level rules the
  engine relies on: ToBoolean (section 7.1.2 of ECMA-262, 7th edition) and
  SameValueZero (section 7.2.10 of ECMA-262, 7th edition).
*/
module JsValues {

  /** Identity of a function object. */
  type FnId = nat
  /** Identity of a RegExp object. */
  type RegExpId = nat
  /** Identity of any other object (arrays, plain objects, ...). */
  type ObjId = nat

  /**
    A JavaScript value. Objects are compared by identity, so an object is its id.
    Numbers are the integral finite ones (`Num`), negative zero and NaN; these are
    enough for the equality and truthiness rules the engine uses.
  */
  datatype Value =
    | Undefined
    | Null
    | Bool(b: bool)
    | Num(n: int)
    | NegZero
    | NaN
    | Str(s: string)
    | Obj(obj: ObjId)
    | Fn(fn: FnId)
    | RegExp(re: RegExpId)

  /**
    What the engine cannot see into: calling a caller-supplied function with a list
    of arguments, and running `RegExp.prototype.test` of a regular expression on a
    subject. Both are total and free of side effects in this model.
  */
  datatype Host = Host(call: (FnId, seq<Value>) -> Value, regExpTest: (RegExpId, Value) -> bool)

  /** ToBoolean: is `v` truthy? */
  predicate Truthy(v: Value) {
    match v
    case Undefined => false
    case Null => false
    case Bool(b) => b
    case Num(n) => n != 0
    case NegZero => false
    case NaN => false
    case Str(s) => s != ""
    case Obj(_) => true
    case Fn(_) => true
    case RegExp(_) => true
  }

  /** +0 or -0. */
  predicate IsZero(v: Value) {
    v == Num(0) || v == NegZero
  }

  /** Strict equality `a === b`: NaN equals nothing, +0 equals -0, objects by identity. */
  predicate StrictEquals(a: Value, b: Value) {
    if a.NaN? || b.NaN? then false
    else if IsZero(a) && IsZero(b) then true
    else a == b
  }

  /**
    SameValueZero as the engine writes it: `a === b`, or both operands are not
    equal to themselves. The contract gives the standard's definition: identical
    values, NaN against NaN, or +0 against -0.
  */
  function SameValueZero(a: Value, b: Value): (r: bool)
    ensures r <==> StrictEquals(a, b) || (a.NaN? && b.NaN?)
    ensures r <==> a == b || (IsZero(a) && IsZero(b))
  {
    StrictEquals(a, b) || (!StrictEquals(a, a) && !StrictEquals(b, b))
  }

  /** SameValueZero is an equivalence relation, unlike `===`, which is not reflexive on NaN. */
  lemma SameValueZeroIsEquivalence(a: Value, b: Value, c: Value)
    ensures SameValueZero(a, a)
    ensures SameValueZero(a, b) == SameValueZero(b, a)
    ensures SameValueZero(a, b) && SameValueZero(b, c) ==> SameValueZero(a, c)
    ensures !StrictEquals(NaN, NaN)
  {
  }

  /** The cases the engine's own tests check. */
  lemma SameValueZeroExamples()
    ensures SameValueZero(Str("foo"), Str("foo"))
    ensures !SameValueZero(Str("foo"), Str("bar"))
    ensures SameValueZero(NaN, NaN)
    ensures !SameValueZero(NaN, Num(12))
    ensures SameValueZero(Num(0), NegZero)
  {
  }
}
