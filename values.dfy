/** JavaScript values as the middleware library sees them, the handlers it
    invokes, and the few lodash predicates it relies on. */
module Values {

  datatype Option<+T> = None | Some(value: T)

  /** A reference to a function object. The behaviour of the function is not
      part of the value: it is looked up by `id` in an environment (`Env`).
      `isMain` is the tag that `make` sets on the main callback. */
  datatype Handler = Handler(id: nat, isMain: bool)

  /** The values that can flow through a middleware chain. A `Thenable` is a
      promise-like object, described by the way it eventually settles. */
  datatype Value =
    | Undefined
    | Null
    | Bool(b: bool)
    | Num(n: int)
    | Str(s: string)
    | Arr(items: seq<Value>)
    | Obj(props: map<string, Value>)
    | Fn(fn: Handler)
    | Thenable(settles: Outcome)
    | TypeErr(message: string)

  /** How a call finishes: it returns a value or it throws one. For a promise
      this is how it settles: fulfilled with a value or rejected with a reason. */
  datatype Outcome = Ret(value: Value) | Throw(error: Value)

  /** The behaviour of every user function, by id: what it returns or throws
      when called with the given arguments. */
  type Env = nat -> seq<Value> -> Outcome

  /** The library's own no-op main callback has this id; the environment is
      never consulted for it. User functions have other ids: a `Handler`
      with this id always behaves as the no-op. */
  const NoopId: nat := 0

  /** `noopMidd`, already tagged as main (make.js:12-16, 78-84). */
  const NoopMidd: Handler := Handler(NoopId, true)

  /** Calling handler `h` with `args`. The no-op calls its first argument
      with no arguments when that argument is a function, ignores what it
      returns, and lets what it throws escape. */
  function Apply(env: Env, h: Handler, args: seq<Value>): (o: Outcome)
    ensures h.id != NoopId ==> o == env(h.id)(args)
    ensures h.id == NoopId && o.Ret? ==> o.value == Undefined
    decreases |args|
  {
    if h.id == NoopId then
      if |args| > 0 && args[0].Fn? then
        match Apply(env, args[0].fn, [])
        case Throw(e) => Throw(e)
        case Ret(_) => Ret(Undefined)
      else Ret(Undefined)
    else env(h.id)(args)
  }

  /** `await v`: a thenable is followed until it settles; anything else is
      the value itself. A rejected promise throws its reason, and a fulfilled
      one yields its value. */
  function Await(v: Value): (o: Outcome)
    ensures o.Ret? ==> !o.value.Thenable?
    ensures !v.Thenable? ==> o == Ret(v)
    ensures v.Thenable? && v.settles.Throw? ==> o == v.settles
    ensures v.Thenable? && v.settles.Ret? && !v.settles.value.Thenable? ==> o == v.settles
  {
    match v
    case Thenable(Ret(w)) => Await(w)
    case Thenable(Throw(e)) => Throw(e)
    case _ => Ret(v)
  }

  /** JavaScript truthiness (NaN is not modelled: numbers are integers). */
  predicate Truthy(v: Value) {
    match v
    case Undefined => false
    case Null => false
    case Bool(b) => b
    case Num(n) => n != 0
    case Str(s) => s != ""
    case _ => true
  }

  /** `x === true` */
  predicate IsTrue(v: Value) {
    v.Bool? && v.b
  }

  /** lodash `isFunction` */
  predicate IsFunction(v: Value) {
    v.Fn?
  }

  /** lodash `isObject`: objects, arrays, functions and promises; not null. */
  predicate IsObject(v: Value) {
    v.Arr? || v.Obj? || v.Fn? || v.Thenable? || v.TypeErr?
  }

  /** Property read `o[key]` on a record: a missing key reads as undefined. */
  function Get(o: map<string, Value>, key: string): (v: Value)
    ensures key !in o ==> v == Undefined
  {
    if key in o then o[key] else Undefined
  }
}
