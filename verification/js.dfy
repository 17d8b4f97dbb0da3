/**
 * The few JavaScript values and operations the factory's configuration
 * handling depends on: truthiness (`!!v`, `a || b`), `typeof v === 'function'`,
 * property reads through the prototype chain, and tslib's `__assign`, which
 * copies the OWN enumerable properties of each source onto the target, later
 * sources overriding earlier ones.
 */
module Js {

  /** A JavaScript value. Numbers are integers here; an object carries its own
      properties and the properties it inherits from its prototype chain
      (already flattened, nearer prototypes first). A function is an opaque
      identity. */
  datatype Value =
    | Undefined
    | Null
    | Bool(b: bool)
    | Number(n: int)
    | Str(s: string)
    | Func(id: nat)
    | Obj(own: map<string, Value>, inherited: map<string, Value>)

  /** `!!v`: everything is truthy except `undefined`, `null`, `false`, `0` and `""`. */
  predicate Truthy(v: Value) {
    match v
    case Undefined => false
    case Null => false
    case Bool(b) => b
    case Number(n) => n != 0
    case Str(s) => s != ""
    case Func(_) => true
    case Obj(_, _) => true
  }

  /** `typeof v === 'function'` */
  predicate IsFunction(v: Value) {
    v.Func?
  }

  /** `v[p]` for a value whose property read does not throw (anything but
      `undefined` and `null`): own property first, then the prototype chain.
      Booleans, numbers and strings have none of the property names this
      model reads, so they read `undefined`. */
  function Read(v: Value, p: string): (r: Value)
    ensures r != Undefined ==> v.Obj? && (p in v.own || p in v.inherited)
    ensures v.Obj? && p in v.own ==> r == v.own[p]
  {
    if v.Obj? then
      if p in v.own then v.own[p]
      else if p in v.inherited then v.inherited[p]
      else Undefined
    else Undefined
  }

  /** The own enumerable properties `for (p in v) if (hasOwnProperty(v, p))` visits. */
  function OwnProps(v: Value): map<string, Value> {
    if v.Obj? then v.own else map[]
  }

  /** tslib `__assign(target, source)`: every own enumerable property of
      `source` is written onto `target`, overriding what was there, and every
      other property of `target` is left as it was. A missing source
      (`undefined`, `null`) contributes nothing. */
  function Assign(target: map<string, Value>, source: Value): (r: map<string, Value>)
    ensures r.Keys == target.Keys + OwnProps(source).Keys
    ensures forall p :: p in OwnProps(source) ==> r[p] == OwnProps(source)[p]
    ensures forall p :: p in target && p !in OwnProps(source) ==> r[p] == target[p]
  {
    target + OwnProps(source)
  }

  /** A plain object literal: own properties only, and an `Object.prototype`
      that defines none of the names this model reads. */
  function Plain(props: map<string, Value>): Value {
    Obj(props, map[])
  }
}
