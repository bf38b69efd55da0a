/** Construction: `make` decorates a property of a target object with a new
    middleware object, its main callback, its parameters and its
    registration entry points. */
module Make {
  import opened Values
  import opened MiddObject
  import opened Registration

  /** The parameters every middleware object starts from. */
  const Defaults: map<string, Value> :=
    map[BeforeAfterKey := Bool(false), CatchAllKey := Null, AsyncKey := Bool(false)]

  /** The property `make` sets on the main callback it tags. */
  const IsMainKey := "isMain"

  /** The properties lodash `extend` copies from a parameters source: those
      of a record, and the `isMain` tag of a tagged function. */
  function PropsOf(v: Value): (props: map<string, Value>)
    ensures v.Obj? ==> props == v.props
    ensures v.Fn? ==> (IsMainKey in props <==> v.fn.isMain) && props.Keys <= {IsMainKey}
    ensures !v.Obj? && !v.Fn? ==> props == map[]
  {
    if v.Obj? then v.props
    else if v.Fn? && v.fn.isMain then map[IsMainKey := Bool(true)]
    else map[]
  }

  /** The main-callback slot once `make` has tagged it: a function is the
      same function object, now carrying `isMain`. */
  function Tagged(optFinalCb: Value): (v: Value)
    ensures optFinalCb.Fn? ==> v == Fn(Handler(optFinalCb.fn.id, true))
    ensures !optFinalCb.Fn? ==> v == optFinalCb
  {
    if optFinalCb.Fn? then Fn(optFinalCb.fn.(isMain := true)) else optFinalCb
  }

  /** Where the parameters come from: the options slot when it holds an
      object, else the main-callback slot when that holds one. */
  function ParamsSource(optFinalCb: Value, optParams: Value): (src: Value)
    ensures IsObject(src) || src == Undefined
    ensures IsObject(optParams) ==> src == optParams
    ensures !IsObject(optParams) ==> src == if IsObject(optFinalCb) then optFinalCb else Undefined
  {
    if IsObject(optParams) then optParams
    else if IsObject(optFinalCb) then optFinalCb
    else Undefined
  }

  /** `extend(defaultParams, params)`, with the main callback already
      tagged: each key of the source overrides the default; the other
      defaults stay. */
  function ResolveParams(optFinalCb: Value, optParams: Value): (params: map<string, Value>)
    ensures var src := PropsOf(ParamsSource(Tagged(optFinalCb), optParams));
      && params.Keys == Defaults.Keys + src.Keys
      && forall k :: k in params ==> params[k] == if k in src then src[k] else Defaults[k]
  {
    Defaults + PropsOf(ParamsSource(Tagged(optFinalCb), optParams))
  }

  /** The options object may be given in either positional slot; when both
      slots hold objects, the second wins. A main callback alone is the
      source itself: it adds its `isMain` tag, and every other key keeps its
      default. */
  lemma ParamsFromEitherSlot(opts: map<string, Value>, other: Value, h: Handler, first: map<string, Value>)
    requires !IsObject(other)
    ensures ResolveParams(Obj(opts), other) == ResolveParams(other, Obj(opts)) == Defaults + opts
    ensures ResolveParams(Fn(h), Obj(opts)) == Defaults + opts
    ensures ResolveParams(Obj(first), Obj(opts)) == Defaults + opts
    ensures ResolveParams(Fn(h), other) == Defaults[IsMainKey := Bool(true)]
    ensures forall k :: k != IsMainKey ==> Get(ResolveParams(Fn(h), other), k) == Get(Defaults, k)
  {
    assert Defaults + map[IsMainKey := Bool(true)] == Defaults[IsMainKey := Bool(true)];
  }

  /** `noopMidd`: it calls its first argument, with no arguments, exactly
      when that argument is a function, lets a throw from it escape, and
      otherwise returns undefined, whatever it is given. */
  lemma NoopBehaviour(env: Env, args: seq<Value>)
    ensures var o := Apply(env, NoopMidd, args);
      && (o.Ret? ==> o.value == Undefined)
      && (o.Throw? <==> |args| > 0 && args[0].Fn? && Apply(env, args[0].fn, []).Throw?)
      && (o.Throw? ==> o == Apply(env, args[0].fn, []))
  {
  }

  /** The defaults select the synchronous, flat, non-concurrent mode without
      a catch-all. */
  lemma DefaultsMode()
    ensures !IsTrue(Get(Defaults, AsyncKey)) && !Truthy(Get(Defaults, BeforeAfterKey))
    ensures !Get(Defaults, CatchAllKey).Fn? && !Truthy(Get(Defaults, ConcurrentKey))
  {
  }

  /** The registration entry points `make` attaches, by property name, with
      the type each is bound to. */
  function EntryPoints(phased: bool): (e: map<string, string>)
    ensures phased ==> e.Keys == {Before, After, Last} && "use" !in e
    ensures !phased ==> e.Keys == {UseKind}
    ensures forall name :: name in e ==> e[name] == name
  {
    if phased then map[Before := Before, After := After, Last := Last] else map[UseKind := UseKind]
  }

  /** A decorated property: calling it invokes the middleware of `store`;
      its own properties are the entry points. */
  datatype Decorated = Decorated(store: MiddObj, entryPoints: map<string, string>)

  /** The object whose property `make` decorates. */
  class Target {
    var decorated: map<string, Decorated>

    constructor ()
      ensures decorated == map[]
    {
      decorated := map[];
    }
  }

  /** The list-creating part of `make`: the three phase lists in the
      `beforeAfter` mode, else the single `use` list, all empty. */
  method CreateLists(m: MiddObj)
    requires m.mainCallback.isMain
    modifies m
    ensures m.mainCallback == old(m.mainCallback) && m.params == old(m.params) && m.Valid()
    ensures m.Phased() ==>
      m.beforeMidds == Some([]) && m.afterMidds == Some([]) && m.lastMidds == Some([]) && m.midds == None
    ensures !m.Phased() ==>
      m.midds == Some([]) && m.beforeMidds == None && m.afterMidds == None && m.lastMidds == None
  {
    if m.Phased() {
      m.beforeMidds, m.afterMidds, m.lastMidds, m.midds := Some([]), Some([]), Some([]), None;
    } else {
      m.beforeMidds, m.afterMidds, m.lastMidds, m.midds := None, None, None, Some([]);
    }
  }

  /** `make`: a fresh middleware object whose main callback is the given
      function (tagged) or the tagged no-op, whose parameters are the
      defaults overridden by the options, and which has either the three
      phase lists and their entry points or the `use` list and its entry
      point. `obj[prop]` is the decorated property; nothing else of `obj`
      changes. */
  method Make(obj: Target, prop: string, optFinalCb: Value, optParams: Value) returns (m: MiddObj)
    modifies obj
    ensures fresh(m) && m.Valid()
    ensures optFinalCb.Fn? ==> m.mainCallback == Handler(optFinalCb.fn.id, true)
    ensures !optFinalCb.Fn? ==> m.mainCallback == NoopMidd
    ensures m.params == ResolveParams(optFinalCb, optParams)
    ensures m.Phased() ==>
      m.beforeMidds == Some([]) && m.afterMidds == Some([]) && m.lastMidds == Some([]) && m.midds == None
    ensures !m.Phased() ==>
      m.midds == Some([]) && m.beforeMidds == None && m.afterMidds == None && m.lastMidds == None
    ensures obj.decorated == old(obj.decorated)[prop := Decorated(m, EntryPoints(m.Phased()))]
  {
    m := new MiddObj();
    // `finalCb` is the function object of `optFinalCb`, carrying the tag
    // `make` has just set on it.
    var finalCb := optFinalCb;
    if IsFunction(optFinalCb) {
      m.mainCallback := optFinalCb.fn.(isMain := true);
      finalCb := Fn(m.mainCallback);
    }
    assert optFinalCb.Fn? ==> m.mainCallback == Handler(optFinalCb.fn.id, true);
    var params := Undefined;
    if IsObject(finalCb) {
      params := finalCb;
    }
    if IsObject(optParams) {
      params := optParams;
    }
    assert params == ParamsSource(Tagged(optFinalCb), optParams);
    m.params := Defaults + PropsOf(params);
    assert m.params == ResolveParams(optFinalCb, optParams);
    CreateLists(m);
    var entries := EntryPoints(m.Phased());
    obj.decorated := obj.decorated[prop := Decorated(m, entries)];
  }

  const NotAFunction := "is not a function"

  /** Calling the entry point `name` of a decorated property: the `use` bound
      to its middleware object and type. A name that is not an entry point
      is not a function (TypeError) and changes nothing. */
  method CallEntryPoint(d: Decorated, name: string, middlewares: seq<Value>) returns (r: Outcome)
    requires d.store.Valid() && d.entryPoints == EntryPoints(d.store.Phased())
    modifies d.store
    ensures d.store.Valid()
    ensures d.store.mainCallback == old(d.store.mainCallback) && d.store.params == old(d.store.params)
    ensures name !in d.entryPoints ==> r == Throw(TypeErr(NotAFunction)) && RegistryOf(d.store) == old(RegistryOf(d.store))
    ensures name in d.entryPoints ==>
      r == Ret(Undefined) && RegistryOf(d.store) == Register(old(RegistryOf(d.store)), name, Flatten(middlewares))
  {
    if name !in d.entryPoints {
      return Throw(TypeErr(NotAFunction));
    }
    r := Use(d.store, d.entryPoints[name], middlewares);
  }

  /** Each `make` creates its own middleware object: registering on one
      decorated property leaves another one's lists as `make` left them. */
  method IndependentDecorations(obj: Target, p1: string, p2: string, cb: Value, opts: Value, ms: seq<Value>)
    returns (m1: MiddObj, m2: MiddObj)
    modifies obj
    ensures m1 != m2
    ensures !m2.Phased() ==> m2.midds == Some([])
    ensures m2.Phased() ==> m2.beforeMidds == Some([]) && m2.afterMidds == Some([]) && m2.lastMidds == Some([])
  {
    m1 := Make(obj, p1, cb, opts);
    m2 := Make(obj, p2, cb, opts);
    var d1 := Decorated(m1, EntryPoints(m1.Phased()));
    var r := CallEntryPoint(d1, if m1.Phased() then Before else UseKind, ms);
  }
}
