/** The invocation engine: assembling the handler sequence, running it as a
    chain (synchronously or awaiting each handler), the concurrent fan-out,
    and the catch-all error path. */
module Invoke {
  import opened Values
  import opened MiddObject

  /** Whether each handler's result is awaited (`async: true`) or not. */
  datatype Mode = Sync | Async

  /** One handler call: which function, the arguments it received, and how the
      call finished (after awaiting, in async mode). */
  datatype Call = Call(id: nat, args: seq<Value>, result: Outcome)

  /** What one call of the decorated property yields, and the calls it made. */
  datatype Reply = Reply(outcome: Outcome, trace: seq<Call>)

  /** A chain run: its outcome, the calls made, and the value held in the
      invocation state's `mainCallbackReturnValue` at the end. */
  datatype Chain = Chain(outcome: Outcome, trace: seq<Call>, recorded: Value)

  /** One piece of per-call state that the chain runner updates. */
  class InvokeState {
    var mainCallbackReturnValue: Value

    constructor ()
      ensures mainCallbackReturnValue == Null
    {
      mainCallbackReturnValue := Null;
    }
  }

  /** Only the exact boolean `true` selects async mode. */
  function ModeOf(params: map<string, Value>): (mode: Mode)
    ensures mode.Async? <==> AsyncKey in params && params[AsyncKey] == Bool(true)
  {
    if IsTrue(Get(params, AsyncKey)) then Async else Sync
  }

  /** Calling a handler in the given mode: in async mode its return value is
      awaited, so a rejected promise counts as a throw. */
  function Invoked(mode: Mode, env: Env, h: Handler, args: seq<Value>): (o: Outcome)
    ensures mode.Sync? ==> o == Apply(env, h, args)
    ensures Apply(env, h, args).Throw? ==> o == Apply(env, h, args)
    ensures mode.Async? && Apply(env, h, args).Ret? && !Apply(env, h, args).value.Thenable? ==> o == Apply(env, h, args)
    ensures mode.Async? && o.Ret? ==> !o.value.Thenable?
    ensures var a := Apply(env, h, args);
      mode.Async? && a.Ret? && a.value.Thenable? && a.value.settles.Throw? ==> o == a.value.settles
    ensures var a := Apply(env, h, args);
      mode.Async? && a.Ret? && a.value.Thenable? && a.value.settles.Ret? && !a.value.settles.value.Thenable? ==>
        o == a.value.settles
  {
    var o := Apply(env, h, args);
    if mode.Sync? || o.Throw? then o else Await(o.value)
  }

  /** `args.splice(-1, 1, v)`: the last slot replaced by `v` (on an empty list,
      `v` becomes its only element). */
  function SpliceLast(args: seq<Value>, v: Value): (r: seq<Value>)
    ensures |r| == if |args| == 0 then 1 else |args|
    ensures r[|r| - 1] == v && r[..|r| - 1] == args[..|r| - 1]
  {
    if |args| == 0 then [v] else args[..|args| - 1] + [v]
  }

  /** `_prepareMiddleware`: copies of the stored lists around the main
      callback, in invocation order. */
  function Prepared(m: MiddObj): (r: seq<Handler>)
    reads m
    requires m.Valid()
    ensures m.Phased() ==>
      var b, a, l := m.beforeMidds.value, m.afterMidds.value, m.lastMidds.value;
      && |r| == |b| + 1 + |a| + |l|
      && r[..|b|] == b && r[|b|] == m.mainCallback
      && r[|b| + 1..|b| + 1 + |a|] == a && r[|b| + 1 + |a|..] == l
    ensures !m.Phased() ==>
      |r| == |m.midds.value| + 1 && r[..|r| - 1] == m.midds.value && r[|r| - 1] == m.mainCallback
  {
    if m.Phased() then
      var r := m.beforeMidds.value + [m.mainCallback] + m.afterMidds.value + m.lastMidds.value;
      assert r[|m.beforeMidds.value| + 1..][..|m.afterMidds.value|] == m.afterMidds.value;
      r
    else
      m.midds.value + [m.mainCallback]
  }

  /** What the chain runner carries from one handler to the next: the piped
      arguments, the recorded outcome (`mainCallbackReturnValue`) and whether
      the main callback has run. */
  datatype Piped = Piped(args: seq<Value>, recorded: Value, isAfter: bool)

  /** The state after handler `midd` returned `v`: once main has run, a
      value other than undefined replaces the recorded outcome and the last
      argument; when `midd` is main, its value is recorded and appended. */
  function AfterReturn(p: Piped, midd: Handler, v: Value): (r: Piped)
    ensures r.isAfter == (p.isAfter || midd.isMain)
    ensures !p.isAfter && !midd.isMain ==> r == p
    ensures p.isAfter && !midd.isMain && v.Undefined? ==> r == p
    ensures p.isAfter && !midd.isMain && !v.Undefined? ==>
      r.recorded == v && r.args == SpliceLast(p.args, v)
    ensures !p.isAfter && midd.isMain ==> r == Piped(p.args + [v], v, true)
    ensures midd.isMain ==> r.recorded == v && 0 < |r.args| && r.args[|r.args| - 1] == v
  {
    var replace := p.isAfter && !v.Undefined?;
    var recorded := if replace then v else p.recorded;
    var args := if replace then SpliceLast(p.args, v) else p.args;
    if midd.isMain then Piped(args + [v], v, true) else Piped(args, recorded, p.isAfter)
  }

  /** The chain runner as a function of its inputs: the queue still to run
      and the piped state. This is what `ShiftAndInvoke` computes. */
  function Run(mode: Mode, env: Env, queue: seq<Handler>, p: Piped): (c: Chain)
    ensures |c.trace| <= |queue|
    ensures c.outcome.Ret? ==> c.outcome.value == c.recorded
    decreases |queue|
  {
    if queue == [] then Chain(Ret(p.recorded), [], p.recorded)
    else
      var o := Invoked(mode, env, queue[0], p.args);
      var call := Call(queue[0].id, p.args, o);
      if o.Throw? then Chain(o, [call], p.recorded)
      else
        var rest := Run(mode, env, queue[1..], AfterReturn(p, queue[0], o.value));
        Chain(rest.outcome, [call] + rest.trace, rest.recorded)
  }

  /** The calls `t` made before a chain `c` continued. */
  function Resume(t: seq<Call>, c: Chain): (r: Chain) {
    Chain(c.outcome, t + c.trace, c.recorded)
  }

  lemma ResumeTwice(t1: seq<Call>, t2: seq<Call>, c: Chain)
    ensures Resume(t1, Resume(t2, c)) == Resume(t1 + t2, c)
  {
    assert t1 + (t2 + c.trace) == (t1 + t2) + c.trace;
  }

  /** `_syncShiftAndInvoke` (mode Sync) and `_asyncShiftAndInvoke` (mode
      Async): shift the head of the queue, call it with the piped arguments,
      and apply the after-main rules, until the queue is empty or a handler
      throws. */
  method ShiftAndInvoke(mode: Mode, env: Env, midds: seq<Handler>, args: seq<Value>, state: InvokeState)
    returns (r: Chain)
    modifies state
    ensures r == Run(mode, env, midds, Piped(args, old(state.mainCallbackReturnValue), false))
    ensures state.mainCallbackReturnValue == r.recorded
  {
    var queue, piped, isAfter, trace := midds, args, false, [];
    while queue != []
      invariant Run(mode, env, midds, Piped(args, old(state.mainCallbackReturnValue), false))
             == Resume(trace, Run(mode, env, queue, Piped(piped, state.mainCallbackReturnValue, isAfter)))
      decreases |queue|
    {
      ghost var t0 := trace;
      ghost var p0 := Piped(piped, state.mainCallbackReturnValue, isAfter);
      ghost var q0 := queue;
      var midd := queue[0];
      queue := queue[1..];
      var retVal := Invoked(mode, env, midd, piped);
      var call := Call(midd.id, piped, retVal);
      trace := trace + [call];
      if retVal.Throw? {
        r := Chain(retVal, trace, state.mainCallbackReturnValue);
        return;
      }
      var v := retVal.value;
      if isAfter && !v.Undefined? {
        state.mainCallbackReturnValue := v;
        piped := SpliceLast(piped, v);
      }
      if midd.isMain {
        state.mainCallbackReturnValue := v;
        piped := piped + [v];
        isAfter := true;
      }
      assert Piped(piped, state.mainCallbackReturnValue, isAfter) == AfterReturn(p0, midd, v);
      ghost var rest := Run(mode, env, queue, AfterReturn(p0, midd, v));
      assert Run(mode, env, q0, p0) == Resume([call], rest);
      ResumeTwice(t0, [call], rest);
    }
    r := Chain(Ret(state.mainCallbackReturnValue), trace, state.mainCallbackReturnValue);
    assert trace + [] == trace;
  }

  /** `_handleInvokeError`: with a function `catchAll`, that function
      receives the error and what it returns is dropped; otherwise the error
      is rethrown. `t` is the trace so far. */
  function HandleInvokeError(env: Env, catchAll: Value, error: Value, t: seq<Call>): (r: Reply)
    ensures !catchAll.Fn? ==> r == Reply(Throw(error), t)
    ensures catchAll.Fn? ==>
      && |r.trace| == |t| + 1 && r.trace[..|t|] == t
      && r.trace[|t|] == Call(catchAll.fn.id, [error], Apply(env, catchAll.fn, [error]))
      && (r.outcome.Throw? <==> Apply(env, catchAll.fn, [error]).Throw?)
      && (r.outcome.Throw? ==> r.outcome == Apply(env, catchAll.fn, [error]))
      && (r.outcome.Ret? ==> r.outcome.value == Undefined)
  {
    if catchAll.Fn? then
      var o := Apply(env, catchAll.fn, [error]);
      Reply(if o.Throw? then o else Ret(Undefined), t + [Call(catchAll.fn.id, [error], o)])
    else
      Reply(Throw(error), t)
  }

  /** `midds.map(midd => midd(...args))`: every handler is called in order
      with the same arguments, until one throws synchronously. */
  function CallEach(env: Env, hs: seq<Handler>, args: seq<Value>): (calls: seq<Call>)
    ensures |calls| <= |hs|
    ensures forall i :: 0 <= i < |calls| ==> calls[i] == Call(hs[i].id, args, Apply(env, hs[i], args))
    ensures forall i :: 0 <= i < |calls| - 1 ==> calls[i].result.Ret?
    ensures 0 < |hs| ==> 0 < |calls|
    ensures |calls| < |hs| ==> calls[|calls| - 1].result.Throw?
  {
    if hs == [] then []
    else
      var c := Call(hs[0].id, args, Apply(env, hs[0], args));
      if c.result.Throw? then [c] else [c] + CallEach(env, hs[1..], args)
  }

  /** Every handler returns exactly when the mapping got through all of them
      and the last call returned. */
  lemma {:induction false} CallEachAllReturn(env: Env, hs: seq<Handler>, args: seq<Value>)
    ensures var calls := CallEach(env, hs, args);
      (forall i :: 0 <= i < |hs| ==> Apply(env, hs[i], args).Ret?)
        <==> |calls| == |hs| && (|hs| == 0 || calls[|hs| - 1].result.Ret?)
    decreases |hs|
  {
    if hs != [] && Apply(env, hs[0], args).Ret? {
      CallEachAllReturn(env, hs[1..], args);
      assert forall i :: 1 <= i < |hs| ==> hs[i] == hs[1..][i - 1];
    }
  }

  /** The record `Promise.allSettled` produces for a value a handler returned. */
  function SettledRecord(o: Outcome): (r: Value)
    ensures o.Ret? && !o.value.Thenable? ==> r == Obj(map["status" := Str("fulfilled"), "value" := o.value])
    ensures o.Throw? ==> r == Obj(map["status" := Str("rejected"), "reason" := o.error])
    ensures o.Ret? && o.value.Thenable? && o.value.settles.Ret? && !o.value.settles.value.Thenable? ==>
      r == Obj(map["status" := Str("fulfilled"), "value" := o.value.settles.value])
    ensures o.Ret? && o.value.Thenable? && o.value.settles.Throw? ==>
      r == Obj(map["status" := Str("rejected"), "reason" := o.value.settles.error])
    ensures r.Obj? && "status" in r.props
    ensures r.props["status"] == Str("fulfilled") ==> "value" in r.props && !r.props["value"].Thenable?
    ensures r.props["status"] != Str("fulfilled") ==> r.props["status"] == Str("rejected") && "reason" in r.props
  {
    var s := if o.Ret? then Await(o.value) else o;
    match s
    case Ret(w) => Obj(map["status" := Str("fulfilled"), "value" := w])
    case Throw(e) => Obj(map["status" := Str("rejected"), "reason" := e])
  }

  function Records(calls: seq<Call>): (r: seq<Value>)
    ensures |r| == |calls|
    ensures forall i :: 0 <= i < |calls| ==> r[i] == SettledRecord(calls[i].result)
  {
    if calls == [] then [] else [SettledRecord(calls[0].result)] + Records(calls[1..])
  }

  /** `_invokeConcurrent`: all `use` handlers with the same arguments, their
      settled outcomes collected in registration order. A synchronous throw
      while mapping rejects the call; the main callback is not called. */
  function InvokeConcurrent(env: Env, midds: Option<seq<Handler>>, args: seq<Value>): (r: Reply)
    ensures midds.None? ==> r.outcome.Throw? && r.trace == []
    ensures midds.Some? ==> r.outcome.Ret? ==> r.outcome.value == Arr(Records(r.trace))
  {
    match midds
    case None => Reply(Throw(TypeErr("Cannot read properties of undefined (reading 'map')")), [])
    case Some(hs) =>
      var calls := CallEach(env, hs, args);
      if 0 < |calls| && calls[|calls| - 1].result.Throw? then Reply(calls[|calls| - 1].result, calls)
      else Reply(Ret(Arr(Records(calls))), calls)
  }

  /** The concurrent fan-out over the list `hs`: the calls made are a prefix
      of `hs`, all with the caller's arguments; the call resolves exactly when
      every handler returned, then with one settled record per handler, and
      otherwise rejects with what the last call threw. */
  lemma ConcurrentReply(env: Env, hs: seq<Handler>, args: seq<Value>)
    ensures var r := InvokeConcurrent(env, Some(hs), args);
      && |r.trace| <= |hs|
      && (forall i :: 0 <= i < |r.trace| ==> r.trace[i] == Call(hs[i].id, args, Apply(env, hs[i], args)))
      && (r.outcome.Ret? <==> forall i :: 0 <= i < |hs| ==> Apply(env, hs[i], args).Ret?)
      && (r.outcome.Ret? ==> |r.trace| == |hs| && r.outcome.value == Arr(Records(r.trace)))
      && (r.outcome.Throw? ==> 0 < |r.trace| && r.outcome == r.trace[|r.trace| - 1].result)
  {
    CallEachAllReturn(env, hs, args);
  }

  /** In concurrent mode a handler whose promise rejects does not fail the
      call: as long as every handler returns (a promise counts as returned),
      the call resolves and the rejection appears as that handler's record. */
  lemma RejectionIsRecorded(env: Env, hs: seq<Handler>, args: seq<Value>, i: nat, e: Value)
    requires forall j :: 0 <= j < |hs| ==> Apply(env, hs[j], args).Ret?
    requires i < |hs| && Apply(env, hs[i], args) == Ret(Thenable(Throw(e)))
    ensures var r := InvokeConcurrent(env, Some(hs), args);
      && r.outcome.Ret? && r.outcome.value.Arr? && |r.outcome.value.items| == |hs|
      && r.outcome.value.items[i] == Obj(map["status" := Str("rejected"), "reason" := e])
  {
    ConcurrentReply(env, hs, args);
  }

  /** In concurrent mode the record of a handler whose promise fulfils holds
      the value it fulfils with. */
  lemma ResolvedValuesAreRecorded(env: Env, hs: seq<Handler>, args: seq<Value>, ws: seq<Value>)
    requires |ws| == |hs|
    requires forall j :: 0 <= j < |hs| ==> Apply(env, hs[j], args) == Ret(Thenable(Ret(ws[j]))) && !ws[j].Thenable?
    ensures var r := InvokeConcurrent(env, Some(hs), args);
      && r.outcome.Ret? && r.outcome.value.Arr? && |r.outcome.value.items| == |hs|
      && forall j :: 0 <= j < |hs| ==>
           r.outcome.value.items[j] == Obj(map["status" := Str("fulfilled"), "value" := ws[j]])
  {
    ConcurrentReply(env, hs, args);
  }

  /** `invokeMiddleware`: the concurrent branch is taken first; otherwise the
      prepared sequence runs as a chain, awaited when `async` is exactly
      `true`, and a throw goes through `_handleInvokeError`. The stored lists
      are only read. */
  method InvokeMiddleware(m: MiddObj, env: Env, args: seq<Value>) returns (r: Reply)
    requires m.Valid()
    ensures Truthy(Get(m.params, ConcurrentKey)) ==> r == InvokeConcurrent(env, m.midds, args)
    ensures !Truthy(Get(m.params, ConcurrentKey)) ==>
      var c := Run(ModeOf(m.params), env, Prepared(m), Piped(args, Null, false));
      var catchAll := Get(m.params, CatchAllKey);
      && (c.outcome.Ret? ==> r == Reply(c.outcome, c.trace))
      && (c.outcome.Throw? && !catchAll.Fn? ==> r == Reply(c.outcome, c.trace))
      && (c.outcome.Throw? && catchAll.Fn? ==>
            var o := Apply(env, catchAll.fn, [c.outcome.error]);
            && r.trace == c.trace + [Call(catchAll.fn.id, [c.outcome.error], o)]
            && r.outcome == if o.Throw? then o else Ret(Undefined))
  {
    if Truthy(Get(m.params, ConcurrentKey)) {
      return InvokeConcurrent(env, m.midds, args);
    }
    var midds := Prepared(m);
    var invokeState := new InvokeState();
    var c := ShiftAndInvoke(ModeOf(m.params), env, midds, args, invokeState);
    if c.outcome.Throw? {
      r := HandleInvokeError(env, Get(m.params, CatchAllKey), c.outcome.error, c.trace);
    } else {
      r := Reply(c.outcome, c.trace);
    }
  }
}
