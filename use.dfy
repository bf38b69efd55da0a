/** Registration: `use` appends the function arguments (arrays flattened one
    level, non-functions skipped) to the list its type selects. */
module Registration {
  import opened Values
  import opened MiddObject

  /** `UseType` */
  const Before := "before"
  const After := "after"
  const Last := "last"
  const UseKind := "use"

  /** The functions among `items`, in order; everything else is skipped. */
  function Functions(items: seq<Value>): (r: seq<Handler>)
    ensures |r| <= |items|
  {
    if items == [] then []
    else (if items[0].Fn? then [items[0].fn] else []) + Functions(items[1..])
  }

  /** What one argument of `use` registers: the functions of an array (one
      level deep), a function itself, or nothing. */
  function Registered(v: Value): (r: seq<Handler>)
    ensures forall h {:trigger h in r} :: h in r <==> v == Fn(h) || (v.Arr? && Fn(h) in v.items)
  {
    match v
    case Arr(items) =>
      assert forall h :: h in Functions(items) <==> Fn(h) in items by {
        forall h ensures h in Functions(items) <==> Fn(h) in items {
          FunctionsMembers(items, h);
        }
      }
      Functions(items)
    case Fn(h) => [h]
    case _ => []
  }

  /** Everything a call of `use` with arguments `ms` registers, in order;
      nothing exactly when no argument registers anything. */
  function Flatten(ms: seq<Value>): (r: seq<Handler>)
    ensures r == [] <==> forall i {:trigger Registered(ms[i])} :: 0 <= i < |ms| ==> Registered(ms[i]) == []
  {
    if ms == [] then []
    else
      assert forall i :: 1 <= i < |ms| ==> ms[i] == ms[1..][i - 1];
      Registered(ms[0]) + Flatten(ms[1..])
  }

  lemma {:induction false} FunctionsAppend(a: seq<Value>, b: seq<Value>)
    ensures Functions(a + b) == Functions(a) + Functions(b)
    decreases |a|
  {
    if a == [] {
      assert a + b == b;
    } else {
      assert (a + b)[0] == a[0] && (a + b)[1..] == a[1..] + b;
      FunctionsAppend(a[1..], b);
      SeqAssoc(if a[0].Fn? then [a[0].fn] else [], Functions(a[1..]), Functions(b));
    }
  }

  /** A prefix of `items` holding a function makes `items` hold one. */
  lemma FunctionsPrefixNonEmpty(items: seq<Value>, k: nat)
    requires k <= |items|
    ensures Functions(items[..k]) != [] ==> Functions(items) != []
  {
    assert items == items[..k] + items[k..];
    FunctionsAppend(items[..k], items[k..]);
  }

  /** Registering `a` and then `b` registers what registering `a + b` does. */
  lemma {:induction false} FlattenAppend(a: seq<Value>, b: seq<Value>)
    ensures Flatten(a + b) == Flatten(a) + Flatten(b)
    decreases |a|
  {
    if a == [] {
      assert a + b == b;
    } else {
      FlattenAppendStep(a, b);
      FlattenAppend(a[1..], b);
      SeqAssoc(Registered(a[0]), Flatten(a[1..]), Flatten(b));
    }
  }

  /** Concatenation is associative. */
  lemma SeqAssoc(x: seq<Handler>, y: seq<Handler>, z: seq<Handler>)
    ensures x + (y + z) == (x + y) + z
  {
  }

  /** The first argument of `a + b` is the first of `a`. */
  lemma FlattenAppendStep(a: seq<Value>, b: seq<Value>)
    requires a != []
    ensures Flatten(a + b) == Registered(a[0]) + Flatten(a[1..] + b)
  {
    assert (a + b)[0] == a[0] && (a + b)[1..] == a[1..] + b;
  }

  /** A handler is registered exactly when it is one of the arguments or an
      element of an array argument. */
  lemma {:induction false} FlattenMembers(ms: seq<Value>, h: Handler)
    ensures h in Flatten(ms) <==>
      exists i :: 0 <= i < |ms| && (ms[i] == Fn(h) || (ms[i].Arr? && Fn(h) in ms[i].items))
    decreases |ms|
  {
    if ms != [] {
      FlattenMembers(ms[1..], h);
      assert h in Registered(ms[0]) <==> (ms[0] == Fn(h) || (ms[0].Arr? && Fn(h) in ms[0].items)) by {
        if ms[0].Arr? { FunctionsMembers(ms[0].items, h); }
      }
      if h in Flatten(ms[1..]) {
        var i :| 0 <= i < |ms[1..]| && (ms[1..][i] == Fn(h) || (ms[1..][i].Arr? && Fn(h) in ms[1..][i].items));
        assert ms[i + 1] == ms[1..][i];
      }
      if exists i :: 0 <= i < |ms| && (ms[i] == Fn(h) || (ms[i].Arr? && Fn(h) in ms[i].items)) {
        var i :| 0 <= i < |ms| && (ms[i] == Fn(h) || (ms[i].Arr? && Fn(h) in ms[i].items));
        if i > 0 { assert ms[1..][i - 1] == ms[i]; }
      }
    }
  }

  lemma {:induction false} FunctionsMembers(items: seq<Value>, h: Handler)
    ensures h in Functions(items) <==> Fn(h) in items
    decreases |items|
  {
    if items != [] {
      FunctionsMembers(items[1..], h);
      assert items == [items[0]] + items[1..];
    }
  }

  lemma {:induction false} FunctionsNone(items: seq<Value>)
    requires forall j :: 0 <= j < |items| ==> !items[j].Fn?
    ensures Functions(items) == []
    decreases |items|
  {
    if items != [] {
      assert forall j :: 0 <= j < |items[1..]| ==> items[1..][j] == items[j + 1];
      FunctionsNone(items[1..]);
    }
  }

  /** Arrays nested two deep (or any array without functions in it)
      register nothing. */
  lemma {:induction false} FlattenSkipsNested(ms: seq<Value>)
    requires forall i, j :: 0 <= i < |ms| && ms[i].Arr? && 0 <= j < |ms[i].items| ==> !ms[i].items[j].Fn?
    requires forall i :: 0 <= i < |ms| ==> !ms[i].Fn?
    ensures Flatten(ms) == []
    decreases |ms|
  {
    if ms != [] {
      if ms[0].Arr? {
        FunctionsNone(ms[0].items);
      }
      assert forall i :: 0 <= i < |ms[1..]| ==> ms[1..][i] == ms[i + 1];
      FlattenSkipsNested(ms[1..]);
    }
  }

  /** The four handler lists of a middleware object. */
  datatype Registry = Registry(
    beforeMidds: Option<seq<Handler>>,
    afterMidds: Option<seq<Handler>>,
    lastMidds: Option<seq<Handler>>,
    midds: Option<seq<Handler>>)

  ghost function RegistryOf(m: MiddObj): (g: Registry)
    reads m
  {
    Registry(m.beforeMidds, m.afterMidds, m.lastMidds, m.midds)
  }

  /** The list `middType` selects; `None` for a type that selects none. */
  function Selected(g: Registry, middType: string): (l: Option<seq<Handler>>) {
    if middType == Before then g.beforeMidds
    else if middType == After then g.afterMidds
    else if middType == Last then g.lastMidds
    else if middType == UseKind then g.midds
    else None
  }

  predicate KnownType(middType: string) {
    middType == Before || middType == After || middType == Last || middType == UseKind
  }

  function Pushed(l: Option<seq<Handler>>, fns: seq<Handler>): (r: Option<seq<Handler>>) {
    match l
    case None => None
    case Some(s) => Some(s + fns)
  }

  /** The registry after `fns` are appended to the list `middType` selects;
      every other list, and everything for an unknown type, stays as it was. */
  function Register(g: Registry, middType: string, fns: seq<Handler>): (r: Registry)
    ensures Selected(r, middType) == if KnownType(middType) then Pushed(Selected(g, middType), fns) else None
    ensures r.beforeMidds == if middType == Before then Pushed(g.beforeMidds, fns) else g.beforeMidds
    ensures r.afterMidds == if middType == After then Pushed(g.afterMidds, fns) else g.afterMidds
    ensures r.lastMidds == if middType == Last then Pushed(g.lastMidds, fns) else g.lastMidds
    ensures r.midds == if middType == UseKind then Pushed(g.midds, fns) else g.midds
  {
    if middType == Before then g.(beforeMidds := Pushed(g.beforeMidds, fns))
    else if middType == After then g.(afterMidds := Pushed(g.afterMidds, fns))
    else if middType == Last then g.(lastMidds := Pushed(g.lastMidds, fns))
    else if middType == UseKind then g.(midds := Pushed(g.midds, fns))
    else g
  }

  /** Registration fails (with a TypeError on the first push) exactly when
      there is something to push and the selected list was never created. */
  predicate Fails(g: Registry, middType: string, fns: seq<Handler>) {
    KnownType(middType) && fns != [] && Selected(g, middType).None?
  }

  /** Two registrations of the same type are one registration of the
      concatenated handlers; registering nothing changes nothing. */
  lemma RegisterTwice(g: Registry, middType: string, a: seq<Handler>, b: seq<Handler>)
    ensures Register(Register(g, middType, a), middType, b) == Register(g, middType, a + b)
    ensures Register(g, middType, []) == g
  {
    assert forall s: seq<Handler> :: s + a + b == s + (a + b);
    assert forall s: seq<Handler> :: s + [] == s;
  }

  /** Registration is append-only: the selected list keeps its old entries
      as a prefix, in the same order. */
  lemma RegisterAppendOnly(g: Registry, middType: string, fns: seq<Handler>)
    requires Selected(g, middType).Some? && KnownType(middType)
    ensures var s := Selected(Register(g, middType, fns), middType).value;
      var old_ := Selected(g, middType).value;
      |s| == |old_| + |fns| && s[..|old_|] == old_ && s[|old_|..] == fns
  {
  }

  method PushMidd(m: MiddObj, middType: string, fn: Handler) returns (r: Outcome)
    modifies m
    ensures m.mainCallback == old(m.mainCallback) && m.params == old(m.params)
    ensures r.Ret? ==> r == Ret(Undefined)
    ensures r.Throw? ==> r.error.TypeErr?
    ensures r.Throw? <==> Fails(old(RegistryOf(m)), middType, [fn])
    ensures RegistryOf(m) == if r.Throw? then old(RegistryOf(m)) else Register(old(RegistryOf(m)), middType, [fn])
  {
    r := Ret(Undefined);
    var missing := TypeErr("Cannot read properties of undefined (reading 'push')");
    if middType == Before {
      if m.beforeMidds.None? { return Throw(missing); }
      m.beforeMidds := Some(m.beforeMidds.value + [fn]);
    } else if middType == After {
      if m.afterMidds.None? { return Throw(missing); }
      m.afterMidds := Some(m.afterMidds.value + [fn]);
    } else if middType == Last {
      if m.lastMidds.None? { return Throw(missing); }
      m.lastMidds := Some(m.lastMidds.value + [fn]);
    } else if middType == UseKind {
      if m.midds.None? { return Throw(missing); }
      m.midds := Some(m.midds.value + [fn]);
    }
  }

  /** Appending `done` then `more` fails exactly when appending `done + more`
      does, once appending `done` has not failed. */
  lemma FailsAfter(g: Registry, middType: string, done: seq<Handler>, more: seq<Handler>)
    requires !Fails(g, middType, done)
    ensures Fails(Register(g, middType, done), middType, more) <==> Fails(g, middType, done + more)
  {
    if done == [] {
      assert done + more == more;
      RegisterTwice(g, middType, [], []);
    }
  }

  /** The inner `forEach` of `use`: every function element of an array
      argument is pushed, in order. */
  method PushFunctions(m: MiddObj, middType: string, items: seq<Value>) returns (r: Outcome)
    modifies m
    ensures m.mainCallback == old(m.mainCallback) && m.params == old(m.params)
    ensures r.Ret? ==> r == Ret(Undefined)
    ensures r.Throw? ==> r.error.TypeErr?
    ensures r.Throw? <==> Fails(old(RegistryOf(m)), middType, Functions(items))
    ensures RegistryOf(m) == if r.Throw? then old(RegistryOf(m))
                             else Register(old(RegistryOf(m)), middType, Functions(items))
  {
    r := Ret(Undefined);
    ghost var g0 := RegistryOf(m);
    RegisterTwice(g0, middType, [], []);
    assert items[..0] == [];
    var j := 0;
    while j < |items|
      invariant 0 <= j <= |items|
      invariant r == Ret(Undefined)
      invariant m.mainCallback == old(m.mainCallback) && m.params == old(m.params)
      invariant !Fails(g0, middType, Functions(items[..j]))
      invariant RegistryOf(m) == Register(g0, middType, Functions(items[..j]))
    {
      var argFn := items[j];
      assert items[..j + 1] == items[..j] + [argFn];
      FunctionsAppend(items[..j], [argFn]);
      assert Functions([argFn]) == if argFn.Fn? then [argFn.fn] else [];
      if argFn.Fn? {
        ghost var done := Functions(items[..j]);
        r := PushMidd(m, middType, argFn.fn);
        RegisterTwice(g0, middType, done, [argFn.fn]);
        FailsAfter(g0, middType, done, [argFn.fn]);
        if r.Throw? {
          FunctionsPrefixNonEmpty(items, j + 1);
          return;
        }
      } else {
        assert Functions(items[..j + 1]) == Functions(items[..j]);
      }
      j := j + 1;
    }
    assert items[..|items|] == items;
  }

  /** The outer `forEach` callback of `use`: an array argument pushes its
      function elements, a function argument pushes itself, anything else is
      skipped. */
  method PushArgument(m: MiddObj, middType: string, middleware: Value) returns (r: Outcome)
    modifies m
    ensures m.mainCallback == old(m.mainCallback) && m.params == old(m.params)
    ensures r.Ret? ==> r == Ret(Undefined)
    ensures r.Throw? ==> r.error.TypeErr?
    ensures r.Throw? <==> Fails(old(RegistryOf(m)), middType, Registered(middleware))
    ensures RegistryOf(m) == if r.Throw? then old(RegistryOf(m))
                             else Register(old(RegistryOf(m)), middType, Registered(middleware))
  {
    r := Ret(Undefined);
    if middleware.Arr? {
      r := PushFunctions(m, middType, middleware.items);
    } else if middleware.Fn? {
      r := PushMidd(m, middType, middleware.fn);
    } else {
      RegisterTwice(RegistryOf(m), middType, [], []);
    }
  }

  /** Registering `more` after `done`: the two registrations are one, a
      throw on `more` is a throw of `done + more`, and when it throws,
      `done` registered nothing. */
  lemma UseStep(g0: Registry, middType: string, done: seq<Handler>, more: seq<Handler>)
    requires !Fails(g0, middType, done)
    ensures Register(Register(g0, middType, done), middType, more) == Register(g0, middType, done + more)
    ensures Fails(Register(g0, middType, done), middType, more) <==> Fails(g0, middType, done + more)
    ensures Fails(Register(g0, middType, done), middType, more) ==> Register(g0, middType, done) == g0
  {
    RegisterTwice(g0, middType, done, more);
    FailsAfter(g0, middType, done, more);
    if Fails(Register(g0, middType, done), middType, more) {
      assert done == [];
      RegisterTwice(g0, middType, [], []);
    }
  }

  /** One more argument adds what it registers at the end. */
  lemma FlattenPrefix(middlewares: seq<Value>, i: nat)
    requires i < |middlewares|
    ensures Flatten(middlewares[..i + 1]) == Flatten(middlewares[..i]) + Registered(middlewares[i])
  {
    assert middlewares[..i + 1] == middlewares[..i] + [middlewares[i]];
    FlattenAppend(middlewares[..i], [middlewares[i]]);
    assert Flatten([middlewares[i]]) == Registered(middlewares[i]);
  }

  /** A prefix of the arguments that registers something makes the whole
      call register something. */
  lemma FlattenPrefixNonEmpty(middlewares: seq<Value>, k: nat)
    requires k <= |middlewares|
    ensures Flatten(middlewares[..k]) != [] ==> Flatten(middlewares) != []
  {
    assert middlewares == middlewares[..k] + middlewares[k..];
    FlattenAppend(middlewares[..k], middlewares[k..]);
  }

  /** `use`: the lists become their old contents followed by what
      `Flatten(middlewares)` registers, on the list `middType` selects; a call
      with no middleware arguments changes nothing. */
  method Use(m: MiddObj, middType: string, middlewares: seq<Value>) returns (r: Outcome)
    modifies m
    ensures m.mainCallback == old(m.mainCallback) && m.params == old(m.params)
    ensures r.Ret? ==> r == Ret(Undefined)
    ensures r.Throw? ==> r.error.TypeErr?
    ensures r.Throw? <==> Fails(old(RegistryOf(m)), middType, Flatten(middlewares))
    ensures RegistryOf(m) == if r.Throw? then old(RegistryOf(m))
                             else Register(old(RegistryOf(m)), middType, Flatten(middlewares))
    ensures |middlewares| == 0 ==> r == Ret(Undefined) && RegistryOf(m) == old(RegistryOf(m))
  {
    r := Ret(Undefined);
    ghost var g0 := RegistryOf(m);
    assert middlewares[..0] == [];
    RegisterTwice(g0, middType, [], []);
    var i := 0;
    while i < |middlewares|
      invariant 0 <= i <= |middlewares|
      invariant r == Ret(Undefined)
      invariant m.mainCallback == old(m.mainCallback) && m.params == old(m.params)
      invariant !Fails(g0, middType, Flatten(middlewares[..i]))
      invariant RegistryOf(m) == Register(g0, middType, Flatten(middlewares[..i]))
    {
      FlattenPrefix(middlewares, i);
      UseStep(g0, middType, Flatten(middlewares[..i]), Registered(middlewares[i]));
      FlattenPrefixNonEmpty(middlewares, i + 1);
      r := PushArgument(m, middType, middlewares[i]);
      if r.Throw? {
        return;
      }
      i := i + 1;
    }
    assert middlewares[..|middlewares|] == middlewares;
  }
}
