/** JavaScript values as the application's rows and form states hold them,
    and the few operators of the language that the core relies on. */
module JsValues {

  datatype Option<+T> = None | Some(value: T)

  /** A JavaScript value that can sit in a row or a form state: `undefined`,
      `null`, a boolean, a finite number, `NaN`, or a string. Numbers are
      reals because the code never rounds. */
  datatype Val = Undefined | Null | Bool(b: bool) | Num(n: real) | NaN | Str(s: string)

  /** A plain JavaScript object. A key that is absent reads as `undefined`;
      a key may also hold `undefined` explicitly, as after `{ k: undefined }`. */
  type Obj = map<string, Val>

  /** Property read `o.k`. */
  function Get(o: Obj, k: string): Val
  {
    if k in o then o[k] else Undefined
  }

  /** JavaScript truthiness, `!!v`: every value but the six falsy ones. */
  predicate Truthy(v: Val): (r: bool)
    ensures r <==> v !in {Undefined, Null, Bool(false), Num(0.0), NaN, Str("")}
  {
    match v
    case Undefined => false
    case Null => false
    case Bool(b) => b
    case Num(n) => n != 0.0
    case NaN => false
    case Str(s) => s != ""
  }

  /** `a || b`: the first operand when it is truthy, else the second, so
      truthy exactly when either is. */
  function Or(a: Val, b: Val): (r: Val)
    ensures Truthy(a) ==> r == a
    ensures !Truthy(a) ==> r == b
    ensures Truthy(r) <==> Truthy(a) || Truthy(b)
  {
    if Truthy(a) then a else b
  }

  /** Strict equality `a === b` between the values above: structural,
      except that `NaN` equals nothing. */
  predicate StrictEq(a: Val, b: Val): (r: bool)
    ensures r ==> a == b
    ensures a == b && a != NaN ==> r
    ensures a == NaN || b == NaN ==> !r
  {
    a == b && a != NaN
  }

  /** `Number(v)`: the result is a `Num` or `NaN`. Strings are not converted
      (see README). */
  function ToNumber(v: Val): (r: Val)
    ensures r.Num? || r == NaN
    ensures v.Num? ==> r == v
    ensures v == Null || v == Bool(false) ==> r == Num(0.0)
    ensures v == Bool(true) ==> r == Num(1.0)
    ensures v == Undefined || v == NaN || v.Str? ==> r == NaN
  {
    match v
    case Undefined => NaN
    case Null => Num(0.0)
    case Bool(b) => Num(if b then 1.0 else 0.0)
    case Num(n) => v
    case NaN => NaN
    case Str(_) => NaN
  }

  /** Numeric `a + b`: `NaN` absorbs, numbers add. */
  function Plus(a: Val, b: Val): (r: Val)
    ensures r.Num? || r == NaN
    ensures a.Num? && b.Num? ==> r == Num(a.n + b.n)
    ensures a == NaN || b == NaN || a == Undefined || b == Undefined ==> r == NaN
  {
    var x, y := ToNumber(a), ToNumber(b);
    if x.Num? && y.Num? then Num(x.n + y.n) else NaN
  }

  /** Numeric `a * b`. */
  function Times(a: Val, b: Val): Val
  {
    var x, y := ToNumber(a), ToNumber(b);
    if x.Num? && y.Num? then Num(x.n * y.n) else NaN
  }

  /** Numeric `a / 100`. */
  function Percent(a: Val): Val
  {
    match ToNumber(a)
    case Num(x) => Num(x / 100.0)
    case _ => NaN
  }

  /** Numeric `a <= 0`: false when `a` is `NaN`. */
  predicate AtMostZero(a: Val)
  {
    ToNumber(a).Num? && ToNumber(a).n <= 0.0
  }

  /** An object literal property `k: v` written over `o`. */
  function Put(o: Obj, k: string, v: Val): Obj
  {
    o[k := v]
  }

  /** Object spread `{ ...a, ...b }`: every own property of `b`, including one
      that holds `undefined`, overrides the property of `a`. */
  function Spread(a: Obj, b: Obj): (r: Obj)
    ensures r.Keys == a.Keys + b.Keys
    ensures forall k :: Get(r, k) == if k in b then b[k] else Get(a, k)
  {
    a + b
  }

  /** What the remote store receives for `o`: JSON serialization drops the
      properties that hold `undefined` and writes `NaN` as `null`. */
  function Serialized(o: Obj): (r: Obj)
    ensures forall k :: k in r <==> k in o && o[k] != Undefined
    ensures forall k :: k in r ==> r[k] == (if o[k] == NaN then Null else o[k])
  {
    map k | k in o && o[k] != Undefined :: if o[k] == NaN then Null else o[k]
  }

  /** Reading a serialized object gives what was written, except that
      `undefined` is absent either way and `NaN` has become `null`. */
  lemma SerializedGet(o: Obj, k: string)
    ensures Get(Serialized(o), k) == (if Get(o, k) == NaN then Null else Get(o, k))
  {
  }
}
