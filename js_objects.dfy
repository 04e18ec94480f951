/** The part of the JavaScript object model that the history wrapper relies on:
    property keys, values, property descriptors, and the ordinary object
    operations reached through `Reflect.has`, `Reflect.get`, `Reflect.set`,
    `Reflect.deleteProperty`, `Reflect.getOwnPropertyDescriptor` and
    `Object.defineProperty`. Getters and setters are opaque function ids that
    are never run; the prototype chain is flattened into one fixed map. */
module JsObjects {

  datatype Option<T> = None | Some(value: T)

  /** The only error the wrapper ever raises or lets escape. */
  datatype ErrorKind = TypeError

  datatype Result<T> = Ok(value: T) | Err(error: ErrorKind)

  /** A property key: a string or a symbol (symbols by identity). */
  datatype Key = StringKey(name: string) | SymbolKey(id: nat)

  /** A JavaScript number; finite numbers are kept as exact reals. */
  datatype Number = Finite(x: real) | PosInfinity | NegInfinity | NaN

  /** A JavaScript value. Functions are opaque ids; objects are `Target`s. */
  datatype Value =
    | Undefined
    | Null
    | Boolean(b: bool)
    | NumberValue(n: Number)
    | StringValue(s: string)
    | SymbolValue(id: nat)
    | FunctionValue(fn: nat)
    | ObjectValue(obj: Target)

  /** A complete property descriptor, as `Reflect.getOwnPropertyDescriptor`
      returns it: a data property or an accessor property. */
  datatype Descriptor =
    | DataDescriptor(value: Value, writable: bool, enumerable: bool, configurable: bool)
    | AccessorDescriptor(getter: Option<nat>, setter: Option<nat>, enumerable: bool, configurable: bool)

  type Properties = map<Key, Descriptor>

  /** The descriptor a plain assignment gives a property it creates. */
  function FreshData(v: Value): Descriptor {
    DataDescriptor(v, true, true, true)
  }

  /** The outcome of one ordinary operation: whether it succeeded, and the own
      properties afterwards. */
  datatype Update = Update(ok: bool, props: Properties)

  /** What a property read yields: a value, or a call of the getter, which
      this model does not run. */
  datatype Lookup = Found(value: Value) | CallsGetter(fn: nat)

  /** An object whose own properties change in place. The prototype chain and
      the extensibility flag are fixed for the object's lifetime. */
  class Target {
    var props: Properties
    const proto: Properties
    const extensible: bool

    constructor (props: Properties, proto: Properties, extensible: bool)
      ensures this.props == props && this.proto == proto && this.extensible == extensible
    {
      this.props := props;
      this.proto := proto;
      this.extensible := extensible;
    }
  }

  /** `Reflect.has`: an own or an inherited property. A key it denies reads
      as `undefined`. */
  predicate HasProperty(own: Properties, proto: Properties, k: Key)
    ensures !HasProperty(own, proto, k) ==> Get(own, proto, k) == Found(Undefined)
  {
    k in own || k in proto
  }

  /** Reading through one descriptor. */
  function ReadDescriptor(d: Descriptor): Lookup {
    match d
    case DataDescriptor(v, _, _, _) => Found(v)
    case AccessorDescriptor(g, _, _, _) => if g.Some? then CallsGetter(g.value) else Found(Undefined)
  }

  /** `Reflect.get(target, k)`: an own property shadows an inherited one, and a
      missing property reads as `undefined`. */
  function Get(own: Properties, proto: Properties, k: Key): Lookup {
    if k in own then ReadDescriptor(own[k])
    else if k in proto then ReadDescriptor(proto[k])
    else Found(Undefined)
  }

  /** `Reflect.set(target, k, v)` with the target as receiver (OrdinarySet).
      A writable own data property gets the new value and keeps its attributes;
      an accessor succeeds exactly when it has a setter (which is not run); a
      missing or inherited writable data property is created as a fresh own
      data property when the object is extensible. */
  function OrdinarySet(own: Properties, proto: Properties, extensible: bool, k: Key, v: Value): (r: Update)
    ensures r.props - {k} == own - {k}
    ensures !r.ok ==> r.props == own
    ensures k in own ==> k in r.props && r.props[k].configurable == own[k].configurable
    ensures k in own && own[k].DataDescriptor? ==>
              (r.ok <==> own[k].writable) && (r.ok ==> r.props[k] == own[k].(value := v))
    ensures k in own && own[k].AccessorDescriptor? ==> r.ok == own[k].setter.Some? && r.props == own
    ensures !HasProperty(own, proto, k) ==>
              (r.ok <==> extensible) && (r.ok ==> r.props == own[k := FreshData(v)])
  {
    if k in own then
      match own[k]
      case DataDescriptor(_, writable, enumerable, configurable) =>
        if writable then Update(true, own[k := DataDescriptor(v, writable, enumerable, configurable)])
        else Update(false, own)
      case AccessorDescriptor(_, setter, _, _) => Update(setter.Some?, own)
    else if k in proto then
      match proto[k]
      case DataDescriptor(_, writable, _, _) =>
        if writable && extensible then Update(true, own[k := FreshData(v)]) else Update(false, own)
      case AccessorDescriptor(_, setter, _, _) => Update(setter.Some?, own)
    else if extensible then Update(true, own[k := FreshData(v)])
    else Update(false, own)
  }

  /** `Reflect.deleteProperty(target, k)` and the sloppy-mode `delete` operator
      (OrdinaryDelete): a configurable own property is removed, a
      non-configurable one stays and the delete fails, and a key that is not
      own is "deleted" successfully without any change. */
  function OrdinaryDelete(own: Properties, k: Key): (r: Update)
    ensures r.ok <==> k !in own || own[k].configurable
    ensures r.props == if r.ok then own - {k} else own
    ensures k !in r.props <==> r.ok
  {
    if k !in own then Update(true, own)
    else if own[k].configurable then Update(true, own - {k})
    else Update(false, own)
  }

  /** Whether a complete descriptor `d` may replace the current own property
      `cur` (ValidateAndApplyPropertyDescriptor): anything may replace a
      configurable property; a non-configurable one only accepts a
      non-configurable descriptor with the same enumerability, and then only a
      writable data property may change its value or drop its writability. */
  predicate Compatible(cur: Descriptor, d: Descriptor) {
    cur.configurable ||
    (!d.configurable && d.enumerable == cur.enumerable &&
     match (cur, d)
     case (DataDescriptor(cv, cw, _, _), DataDescriptor(dv, dw, _, _)) => cw || (!dw && dv == cv)
     case (AccessorDescriptor(cg, cs, _, _), AccessorDescriptor(dg, ds, _, _)) => cg == dg && cs == ds
     case _ => false)
  }

  /** `Object.defineProperty(target, k, d)` with a complete descriptor. A
      failure (`ok` false) is the TypeError that `Object.defineProperty` throws;
      the object is then unchanged. */
  function DefineOwnProperty(own: Properties, extensible: bool, k: Key, d: Descriptor): (r: Update)
    ensures r.props == if r.ok then own[k := d] else own
    ensures k !in own ==> (r.ok <==> extensible)
    ensures k in own && own[k].configurable ==> r.ok
    ensures k in own && own[k] == d && !d.configurable ==> r.ok
  {
    if k !in own then
      if extensible then Update(true, own[k := d]) else Update(false, own)
    else if Compatible(own[k], d) then Update(true, own[k := d])
    else Update(false, own)
  }

  /** Deleting a configurable own property and defining it again with the
      descriptor it had restores the object exactly, provided the object is
      extensible. */
  lemma DeleteThenDefineRestores(own: Properties, extensible: bool, k: Key)
    requires k in own && own[k].configurable && extensible
    ensures OrdinaryDelete(own, k).ok
    ensures DefineOwnProperty(OrdinaryDelete(own, k).props, extensible, k, own[k]) == Update(true, own)
  {
  }

  /** Read after write: a write that goes to a writable own data property, or
      that creates a missing key on an extensible object, succeeds, and reading
      the key afterwards yields the written value. */
  lemma ReadAfterWrite(own: Properties, proto: Properties, extensible: bool, k: Key, v: Value)
    requires (k in own && own[k].DataDescriptor? && own[k].writable) || (!HasProperty(own, proto, k) && extensible)
    ensures OrdinarySet(own, proto, extensible, k, v).ok
    ensures Get(OrdinarySet(own, proto, extensible, k, v).props, proto, k) == Found(v)
  {
  }

}
