/** What the chain runner guarantees: each handler at most once and in
    order, a throw stops the chain, the arguments every handler sees, and
    the value the whole call yields. */
module ChainProperties {
  import opened Values
  import opened MiddObject
  import opened Invoke

  /** No handler in `hs` carries the main tag. */
  predicate Untagged(hs: seq<Handler>) {
    forall i :: 0 <= i < |hs| ==> !hs[i].isMain
  }

  /** The value a call returned; undefined for a call that threw. */
  function ReturnOf(o: Outcome): (v: Value) {
    if o.Ret? then o.value else Undefined
  }

  /** The official outcome after `calls` ran past main: the last value other
      than undefined that one of them returned, or `cur` when there is none. */
  function Official(cur: Value, calls: seq<Call>): (v: Value) {
    if calls == [] then cur
    else
      var v := ReturnOf(calls[|calls| - 1].result);
      if v.Undefined? then Official(cur, calls[..|calls| - 1]) else v
  }

  /** The official outcome as a fold from the front: each call that returns
      something other than undefined takes over. */
  lemma {:induction false} OfficialCons(cur: Value, call: Call, t: seq<Call>)
    ensures Official(cur, [call] + t)
         == Official(if ReturnOf(call.result).Undefined? then cur else ReturnOf(call.result), t)
    decreases |t|
  {
    if t != [] {
      var s := [call] + t;
      assert s[..|s| - 1] == [call] + t[..|t| - 1];
      assert s[|s| - 1] == t[|t| - 1];
      OfficialCons(cur, call, t[..|t| - 1]);
    } else {
      assert [call] + t == [call];
      assert ([call] + t)[..0] == [];
    }
  }

  /** `Official` is the last value other than undefined, or `cur`. */
  lemma {:induction false} OfficialIsLastDefined(cur: Value, calls: seq<Call>)
    ensures var r := Official(cur, calls);
      || ((forall i :: 0 <= i < |calls| ==> ReturnOf(calls[i].result).Undefined?) && r == cur)
      || (exists k :: 0 <= k < |calls| && r == ReturnOf(calls[k].result) && !r.Undefined?
                      && forall i :: k < i < |calls| ==> ReturnOf(calls[i].result).Undefined?)
    decreases |calls|
  {
    if calls != [] {
      var n := |calls| - 1;
      if ReturnOf(calls[n].result).Undefined? {
        OfficialIsLastDefined(cur, calls[..n]);
        var r := Official(cur, calls);
        assert r == Official(cur, calls[..n]);
        if exists k :: 0 <= k < n && r == ReturnOf(calls[..n][k].result) && !r.Undefined?
                      && forall i :: k < i < n ==> ReturnOf(calls[..n][i].result).Undefined? {
          var k :| 0 <= k < n && r == ReturnOf(calls[..n][k].result) && !r.Undefined?
                      && forall i :: k < i < n ==> ReturnOf(calls[..n][i].result).Undefined?;
          assert calls[k] == calls[..n][k];
          assert forall i :: k < i < |calls| ==> ReturnOf(calls[i].result).Undefined? by {
            forall i | k < i < |calls| ensures ReturnOf(calls[i].result).Undefined? {
              if i < n { assert calls[i] == calls[..n][i]; }
            }
          }
        } else {
          assert forall i :: 0 <= i < |calls| ==> ReturnOf(calls[i].result).Undefined? by {
            forall i | 0 <= i < |calls| ensures ReturnOf(calls[i].result).Undefined? {
              if i < n { assert calls[i] == calls[..n][i]; }
            }
          }
        }
      }
    }
  }

  /** The shape of a run of `queue`: the calls made are a prefix of the
      queue, each handler at most once and in queue order; every call but the
      last returned; the chain returns exactly when every handler ran and
      returned, and when it throws, it throws what the last call threw. */
  predicate TraceShape(mode: Mode, env: Env, queue: seq<Handler>, c: Chain) {
    && |c.trace| <= |queue|
    && (forall i :: 0 <= i < |c.trace| ==>
          c.trace[i].id == queue[i].id && c.trace[i].result == Invoked(mode, env, queue[i], c.trace[i].args))
    && (forall i :: 0 <= i < |c.trace| - 1 ==> c.trace[i].result.Ret?)
    && (c.outcome.Ret? <==> |c.trace| == |queue| && (|queue| == 0 || c.trace[|queue| - 1].result.Ret?))
    && (c.outcome.Throw? ==> 0 < |c.trace| && c.outcome == c.trace[|c.trace| - 1].result)
  }

  /** Any queue runs in the shape above, and the first handler gets the
      caller's arguments. */
  lemma {:induction false} RunTrace(mode: Mode, env: Env, queue: seq<Handler>, p: Piped)
    ensures var c := Run(mode, env, queue, p);
      && TraceShape(mode, env, queue, c)
      && (0 < |queue| ==> 0 < |c.trace| && c.trace[0].args == p.args)
    decreases |queue|
  {
    if queue != [] {
      var o := Invoked(mode, env, queue[0], p.args);
      if o.Ret? {
        var p' := AfterReturn(p, queue[0], o.value);
        RunTrace(mode, env, queue[1..], p');
        RunStep(mode, env, queue, p);
        TraceShapeCons(mode, env, queue, Call(queue[0].id, p.args, o), Run(mode, env, queue[1..], p'));
      }
    }
  }

  /** A returning call of the head of the queue, in front of a run of the
      rest, keeps the shape. */
  lemma TraceShapeCons(mode: Mode, env: Env, queue: seq<Handler>, call: Call, t: Chain)
    requires queue != [] && call.id == queue[0].id
    requires call.result == Invoked(mode, env, queue[0], call.args) && call.result.Ret?
    requires TraceShape(mode, env, queue[1..], t)
    ensures TraceShape(mode, env, queue, Resume([call], t))
  {
    var s := [call] + t.trace;
    forall i | 0 < i < |s| ensures s[i] == t.trace[i - 1] && queue[i] == queue[1..][i - 1] {
    }
  }

  /** The calls made by handlers that all received `args`. */
  function SameArgsCalls(mode: Mode, env: Env, hs: seq<Handler>, args: seq<Value>): (r: seq<Call>)
    ensures |r| == |hs|
    ensures forall i :: 0 <= i < |hs| ==> r[i] == Call(hs[i].id, args, Invoked(mode, env, hs[i], args))
  {
    if hs == [] then [] else [Call(hs[0].id, args, Invoked(mode, env, hs[0], args))] + SameArgsCalls(mode, env, hs[1..], args)
  }

  /** Every handler in `hs` returns, rather than throws, when given `args`. */
  predicate AllReturn(mode: Mode, env: Env, hs: seq<Handler>, args: seq<Value>) {
    forall i :: 0 <= i < |hs| ==> Invoked(mode, env, hs[i], args).Ret?
  }

  /** One step of the runner when the head of the queue returns. */
  lemma RunStep(mode: Mode, env: Env, queue: seq<Handler>, p: Piped)
    requires queue != [] && Invoked(mode, env, queue[0], p.args).Ret?
    ensures var o := Invoked(mode, env, queue[0], p.args);
      Run(mode, env, queue, p)
        == Resume([Call(queue[0].id, p.args, o)], Run(mode, env, queue[1..], AfterReturn(p, queue[0], o.value)))
  {
  }

  /** Before main, when every handler returns: each gets the caller's
      arguments unchanged, and what they return is ignored, since the chain
      then goes on exactly as if they were not there. */
  lemma {:induction false} BeforeMainReturns(mode: Mode, env: Env, pre: seq<Handler>, rest: seq<Handler>, args: seq<Value>, recorded: Value)
    requires Untagged(pre) && AllReturn(mode, env, pre, args)
    ensures Run(mode, env, pre + rest, Piped(args, recorded, false))
         == Resume(SameArgsCalls(mode, env, pre, args), Run(mode, env, rest, Piped(args, recorded, false)))
    decreases |pre|
  {
    var p := Piped(args, recorded, false);
    if pre == [] {
      assert pre + rest == rest;
      assert Resume([], Run(mode, env, rest, p)) == Run(mode, env, rest, p);
    } else {
      var q := pre + rest;
      assert q[0] == pre[0] && q[1..] == pre[1..] + rest;
      var o := Invoked(mode, env, pre[0], args);
      assert o.Ret?;
      assert AfterReturn(p, pre[0], o.value) == p;
      RunStep(mode, env, q, p);
      assert AllReturn(mode, env, pre[1..], args) by {
        forall i | 0 <= i < |pre[1..]| ensures Invoked(mode, env, pre[1..][i], args).Ret? {
          assert pre[1..][i] == pre[i + 1];
        }
      }
      assert Untagged(pre[1..]) by {
        forall i | 0 <= i < |pre[1..]| ensures !pre[1..][i].isMain {
          assert pre[1..][i] == pre[i + 1];
        }
      }
      BeforeMainReturns(mode, env, pre[1..], rest, args, recorded);
      var t := Run(mode, env, pre[1..] + rest, p);
      var r := Run(mode, env, rest, p);
      var call := Call(pre[0].id, args, o);
      var tail := SameArgsCalls(mode, env, pre[1..], args);
      assert Run(mode, env, q, p) == Resume([call], Resume(tail, r));
      ResumeTwice([call], tail, r);
      assert SameArgsCalls(mode, env, pre, args) == [call] + tail;
    }
  }

  /** Before main, when some handler throws: the chain throws without
      getting past the pre-main handlers, all of which got the caller's
      arguments. */
  lemma {:induction false} BeforeMainThrows(mode: Mode, env: Env, pre: seq<Handler>, rest: seq<Handler>, args: seq<Value>, recorded: Value)
    requires Untagged(pre) && !AllReturn(mode, env, pre, args)
    ensures var c := Run(mode, env, pre + rest, Piped(args, recorded, false));
      && c.outcome.Throw? && |c.trace| <= |pre|
      && forall i :: 0 <= i < |c.trace| ==> c.trace[i].args == args
    decreases |pre|
  {
    var p := Piped(args, recorded, false);
    var q := pre + rest;
    assert q[0] == pre[0] && q[1..] == pre[1..] + rest;
    var o := Invoked(mode, env, pre[0], args);
    var call := Call(pre[0].id, args, o);
    if o.Ret? {
      assert AfterReturn(p, pre[0], o.value) == p;
      assert !AllReturn(mode, env, pre[1..], args) by {
        var j :| 0 <= j < |pre| && !Invoked(mode, env, pre[j], args).Ret?;
        assert j != 0 && pre[1..][j - 1] == pre[j];
      }
      assert Untagged(pre[1..]) by {
        forall i | 0 <= i < |pre[1..]| ensures !pre[1..][i].isMain {
          assert pre[1..][i] == pre[i + 1];
        }
      }
      BeforeMainThrows(mode, env, pre[1..], rest, args, recorded);
      var t := Run(mode, env, pre[1..] + rest, p);
      assert Run(mode, env, q, p) == Resume([call], t);
    } else {
      assert Run(mode, env, q, p) == Chain(o, [call], recorded);
    }
  }

  /** After main: with `cur` the official outcome so far, every handler gets
      the caller's arguments followed by the official outcome of the calls
      before it, and the chain yields the official outcome of all of them. */
  lemma {:induction false} AfterMain(mode: Mode, env: Env, post: seq<Handler>, base: seq<Value>, cur: Value)
    requires Untagged(post)
    ensures var c := Run(mode, env, post, Piped(base + [cur], cur, true));
      && (forall j :: 0 <= j < |c.trace| ==> c.trace[j].args == base + [Official(cur, c.trace[..j])])
      && (c.outcome.Ret? ==> c.outcome.value == Official(cur, c.trace))
    decreases |post|
  {
    var p := Piped(base + [cur], cur, true);
    if post != [] {
      var o := Invoked(mode, env, post[0], p.args);
      if o.Ret? {
        var call := Call(post[0].id, p.args, o);
        var cur' := if o.value.Undefined? then cur else o.value;
        AfterStep(p, post[0], o.value, base, cur);
        UntaggedTail(post);
        AfterMain(mode, env, post[1..], base, cur');
        RunStep(mode, env, post, p);
        var t := Run(mode, env, post[1..], Piped(base + [cur'], cur', true));
        ConsOfficial(cur, call, t.trace, base);
      } else {
        assert Run(mode, env, post, p).trace == [Call(post[0].id, p.args, o)];
        assert Run(mode, env, post, p).trace[..0] == [];
      }
    }
  }

  /** The piped state after a handler past main returned `v`. */
  lemma AfterStep(p: Piped, h: Handler, v: Value, base: seq<Value>, cur: Value)
    requires p == Piped(base + [cur], cur, true) && !h.isMain
    ensures var cur' := if v.Undefined? then cur else v;
      AfterReturn(p, h, v) == Piped(base + [cur'], cur', true)
  {
    assert (base + [cur])[..|base|] == base;
  }

  lemma UntaggedTail(hs: seq<Handler>)
    requires hs != [] && Untagged(hs)
    ensures !hs[0].isMain && Untagged(hs[1..])
  {
    forall i | 0 <= i < |hs[1..]| ensures !hs[1..][i].isMain {
      assert hs[1..][i] == hs[i + 1];
    }
  }

  /** The after-main piping facts carried one call to the front. */
  lemma ConsOfficial(cur: Value, call: Call, t: seq<Call>, base: seq<Value>)
    requires call.args == base + [cur] && call.result.Ret?
    requires var cur' := if call.result.value.Undefined? then cur else call.result.value;
      forall j :: 0 <= j < |t| ==> t[j].args == base + [Official(cur', t[..j])]
    ensures var s := [call] + t;
      (forall j :: 0 <= j < |s| ==> s[j].args == base + [Official(cur, s[..j])])
      && Official(cur, s) == Official(if call.result.value.Undefined? then cur else call.result.value, t)
  {
    var s := [call] + t;
    OfficialCons(cur, call, t);
    assert s[..0] == [];
    forall j | 0 <= j < |s| ensures s[j].args == base + [Official(cur, s[..j])] {
      if j > 0 {
        assert s[j] == t[j - 1];
        assert s[..j] == [call] + t[..j - 1];
        OfficialCons(cur, call, t[..j - 1]);
      }
    }
  }

  /** How a run `c` whose main callback sits at position `k` pipes values:
      handlers up to and including main get exactly the caller's arguments
      `args`; each later handler gets them followed by the official outcome
      of the calls between main and itself (for the handler right after
      main, main's own return value); and when the run returns, every
      handler ran and the official outcome is what it returns. */
  predicate Piping(c: Chain, k: nat, n: nat, args: seq<Value>) {
    && (forall i :: 0 <= i < |c.trace| && i <= k ==> c.trace[i].args == args)
    && (forall j :: k < j < |c.trace| ==>
          c.trace[j].args == args + [Official(ReturnOf(c.trace[k].result), c.trace[k + 1..j])])
    && (c.outcome.Ret? ==>
          |c.trace| == n && k < n && c.outcome.value == Official(ReturnOf(c.trace[k].result), c.trace[k + 1..]))
  }

  /** The whole chain, for `pre ++ [main] ++ post` with only main tagged,
      pipes values as `Piping` says, with main at position `|pre|`; in
      particular the handler right after main gets the arguments followed
      by main's return value. */
  lemma ChainPiping(mode: Mode, env: Env, pre: seq<Handler>, main: Handler, post: seq<Handler>, args: seq<Value>, recorded: Value)
    requires Untagged(pre) && main.isMain && Untagged(post)
    ensures var c := Run(mode, env, pre + [main] + post, Piped(args, recorded, false));
      && Piping(c, |pre|, |pre| + 1 + |post|, args)
      && (|pre| + 1 < |c.trace| ==> c.trace[|pre| + 1].args == args + [ReturnOf(c.trace[|pre|].result)])
  {
    var p := Piped(args, recorded, false);
    var rest := [main] + post;
    assert pre + [main] + post == pre + rest;
    if !AllReturn(mode, env, pre, args) {
      BeforeMainThrows(mode, env, pre, rest, args, recorded);
    } else {
      BeforeMainReturns(mode, env, pre, rest, args, recorded);
      MainOnwards(mode, env, main, post, args, recorded);
      var cm := Run(mode, env, rest, p);
      ShiftedPiping(SameArgsCalls(mode, env, pre, args), cm.trace, args);
    }
  }

  /** From main on: main gets the arguments it is given, every later
      handler gets them followed by the official outcome, and that is what
      the chain returns. */
  lemma MainOnwards(mode: Mode, env: Env, main: Handler, post: seq<Handler>, args: seq<Value>, recorded: Value)
    requires main.isMain && Untagged(post)
    ensures var cm := Run(mode, env, [main] + post, Piped(args, recorded, false));
      && 0 < |cm.trace| && cm.trace[0].args == args
      && (forall j :: 0 < j < |cm.trace| ==>
            cm.trace[j].args == args + [Official(ReturnOf(cm.trace[0].result), cm.trace[1..j])])
      && (cm.outcome.Ret? ==>
            |cm.trace| == 1 + |post| && cm.outcome.value == Official(ReturnOf(cm.trace[0].result), cm.trace[1..]))
  {
    var p := Piped(args, recorded, false);
    var rest := [main] + post;
    var o := Invoked(mode, env, main, args);
    var call := Call(main.id, args, o);
    assert rest[0] == main && rest[1..] == post;
    if o.Ret? {
      var v := o.value;
      var p' := Piped(args + [v], v, true);
      assert AfterReturn(p, main, v) == p';
      RunStep(mode, env, rest, p);
      AfterMain(mode, env, post, args, v);
      RunTrace(mode, env, post, p');
      ShiftedAfterMain(call, Run(mode, env, post, p').trace, args);
    } else {
      assert Run(mode, env, rest, p).trace == [call];
    }
  }

  /** The after-main piping facts, moved behind the call of main. */
  lemma ShiftedAfterMain(call: Call, t: seq<Call>, args: seq<Value>)
    requires call.result.Ret?
    requires forall j :: 0 <= j < |t| ==> t[j].args == args + [Official(call.result.value, t[..j])]
    ensures var s := [call] + t;
      && s[1..] == t && ReturnOf(s[0].result) == call.result.value
      && forall j :: 0 < j < |s| ==> s[j].args == args + [Official(ReturnOf(s[0].result), s[1..j])]
  {
    var s := [call] + t;
    forall j | 0 < j < |s| ensures s[j].args == args + [Official(ReturnOf(s[0].result), s[1..j])] {
      assert s[j] == t[j - 1];
      assert s[1..j] == t[..j - 1];
    }
    assert s[1..] == t;
  }

  /** The piping facts of a run from main on, moved behind `pc`, calls that
      all received `args`. */
  lemma ShiftedPiping(pc: seq<Call>, cm: seq<Call>, args: seq<Value>)
    requires forall i :: 0 <= i < |pc| ==> pc[i].args == args
    requires 0 < |cm| && cm[0].args == args
    requires forall j :: 0 < j < |cm| ==> cm[j].args == args + [Official(ReturnOf(cm[0].result), cm[1..j])]
    ensures var t, k := pc + cm, |pc|;
      && (forall i :: 0 <= i <= k ==> t[i].args == args)
      && (forall j :: k < j < |t| ==> t[j].args == args + [Official(ReturnOf(t[k].result), t[k + 1..j])])
      && t[k + 1..] == cm[1..] && t[k] == cm[0]
  {
    var t, k := pc + cm, |pc|;
    forall j | k < j < |t|
      ensures t[j].args == args + [Official(ReturnOf(t[k].result), t[k + 1..j])]
    {
      assert t[j] == cm[j - k];
      assert t[k + 1..j] == cm[1..j - k];
    }
    assert t[k + 1..] == cm[1..];
  }

  /** In async mode every value is awaited before it is recorded, so the
      promise returned by the chain is never fulfilled with a promise-like
      value (which is why returning the recorded value directly is exact). */
  lemma {:induction false} AsyncResultSettled(env: Env, queue: seq<Handler>, p: Piped)
    requires !p.recorded.Thenable?
    ensures var c := Run(Async, env, queue, p);
      !c.recorded.Thenable? && (c.outcome.Ret? ==> !c.outcome.value.Thenable?)
    decreases |queue|
  {
    if queue != [] {
      var o := Invoked(Async, env, queue[0], p.args);
      if o.Ret? {
        AsyncResultSettled(env, queue[1..], AfterReturn(p, queue[0], o.value));
      }
    }
  }

  /** `h` never returns a promise-like value, whatever its arguments. */
  ghost predicate NeverThenable(env: Env, h: Handler) {
    forall a: seq<Value> :: Apply(env, h, a).Ret? ==> !Apply(env, h, a).value.Thenable?
  }

  /** With handlers that never return promise-like values, the async runner
      behaves exactly like the synchronous one. */
  lemma {:induction false} SyncAsyncAgree(env: Env, queue: seq<Handler>, p: Piped)
    requires forall i :: 0 <= i < |queue| ==> NeverThenable(env, queue[i])
    ensures Run(Sync, env, queue, p) == Run(Async, env, queue, p)
    decreases |queue|
  {
    if queue != [] {
      var o := Invoked(Sync, env, queue[0], p.args);
      assert NeverThenable(env, queue[0]);
      assert Invoked(Async, env, queue[0], p.args) == o;
      if o.Ret? {
        assert forall i :: 0 <= i < |queue[1..]| ==> NeverThenable(env, queue[1..][i]) by {
          forall i | 0 <= i < |queue[1..]| ensures NeverThenable(env, queue[1..][i]) {
            assert queue[1..][i] == queue[i + 1];
          }
        }
        SyncAsyncAgree(env, queue[1..], AfterReturn(p, queue[0], o.value));
      }
    }
  }

  /** In async mode a handler whose promise rejects stops the chain as a
      throw would: the returning handlers before it ran with the caller's
      arguments, and the rejection reason is what the chain throws. */
  lemma {:induction false} AsyncRejectionStops(env: Env, pre: seq<Handler>, h: Handler, rest: seq<Handler>, args: seq<Value>, recorded: Value, e: Value)
    requires Untagged(pre) && AllReturn(Async, env, pre, args)
    requires Apply(env, h, args) == Ret(Thenable(Throw(e)))
    ensures Run(Async, env, pre + [h] + rest, Piped(args, recorded, false))
         == Chain(Throw(e), SameArgsCalls(Async, env, pre, args) + [Call(h.id, args, Throw(e))], recorded)
  {
    assert pre + [h] + rest == pre + ([h] + rest);
    BeforeMainReturns(Async, env, pre, [h] + rest, args, recorded);
    assert Run(Async, env, [h] + rest, Piped(args, recorded, false))
        == Chain(Throw(e), [Call(h.id, args, Throw(e))], recorded);
  }

  /** In async mode a main callback whose promise fulfils with `w` counts as
      having returned `w`: the rest of the chain starts from the arguments
      followed by `w`, with `w` as the official outcome, so the next handler
      sees `w` and the call yields `w` when nothing after main returns a
      defined value. */
  lemma {:induction false} AsyncMainResolves(env: Env, pre: seq<Handler>, main: Handler, post: seq<Handler>, args: seq<Value>, recorded: Value, w: Value)
    requires Untagged(pre) && AllReturn(Async, env, pre, args)
    requires main.isMain && Untagged(post)
    requires Apply(env, main, args) == Ret(Thenable(Ret(w))) && !w.Thenable?
    ensures var c := Run(Async, env, pre + [main] + post, Piped(args, recorded, false));
      && c == Resume(SameArgsCalls(Async, env, pre, args) + [Call(main.id, args, Ret(w))],
                     Run(Async, env, post, Piped(args + [w], w, true)))
      && (|pre| + 1 < |c.trace| ==> c.trace[|pre| + 1].args == args + [w])
      && (c.outcome.Ret? ==> |c.trace| == |pre| + 1 + |post| && c.outcome.value == Official(w, c.trace[|pre| + 1..]))
      && (post == [] ==> c.outcome == Ret(w))
  {
    var p := Piped(args, recorded, false);
    var rest := [main] + post;
    assert pre + [main] + post == pre + rest;
    assert rest[0] == main && rest[1..] == post;
    var call := Call(main.id, args, Ret(w));
    var pre' := SameArgsCalls(Async, env, pre, args);
    var t := Run(Async, env, post, Piped(args + [w], w, true));
    BeforeMainReturns(Async, env, pre, rest, args, recorded);
    assert AfterReturn(p, main, w) == Piped(args + [w], w, true);
    RunStep(Async, env, rest, p);
    ResumeTwice(pre', [call], t);
    AfterMain(Async, env, post, args, w);
    RunTrace(Async, env, post, Piped(args + [w], w, true));
    var c := Resume(pre' + [call], t);
    assert c.trace[|pre| + 1..] == t.trace;
    if 0 < |t.trace| {
      assert t.trace[..0] == [];
    }
  }

  /** Synchronous mode awaits nothing: a handler before main that returns a
      rejecting promise counts as having returned, so main still runs and its
      value is the result, while async mode throws the rejection reason. */
  lemma {:induction false} SyncIgnoresRejection(env: Env, h: Handler, main: Handler, args: seq<Value>, recorded: Value, e: Value, v: Value)
    requires !h.isMain && main.isMain
    requires Apply(env, h, args) == Ret(Thenable(Throw(e))) && Apply(env, main, args) == Ret(v)
    ensures Run(Sync, env, [h, main], Piped(args, recorded, false)).outcome == Ret(v)
    ensures Run(Async, env, [h, main], Piped(args, recorded, false)).outcome == Throw(e)
  {
    var p := Piped(args, recorded, false);
    assert AfterReturn(p, h, Thenable(Throw(e))) == p;
    assert [h, main][1..] == [main];
    RunStep(Sync, env, [h, main], p);
    RunStep(Sync, env, [main], p);
    assert [main][1..] == [];
  }

  /** In async mode a handler after main whose promise fulfils with a defined
      value `w` takes over: `w` replaces the last argument and becomes the
      official outcome for the rest of the chain. */
  lemma {:induction false} AsyncAfterResolves(env: Env, h: Handler, rest: seq<Handler>, base: seq<Value>, cur: Value, w: Value)
    requires !h.isMain
    requires Apply(env, h, base + [cur]) == Ret(Thenable(Ret(w))) && !w.Thenable? && !w.Undefined?
    ensures Run(Async, env, [h] + rest, Piped(base + [cur], cur, true))
         == Resume([Call(h.id, base + [cur], Ret(w))], Run(Async, env, rest, Piped(base + [w], w, true)))
  {
    var p := Piped(base + [cur], cur, true);
    AfterStep(p, h, w, base, cur);
    RunStep(Async, env, [h] + rest, p);
    assert ([h] + rest)[1..] == rest;
  }

  /** The handlers a Valid middleware object runs before its main callback. */
  function PreMain(m: MiddObj): (hs: seq<Handler>)
    reads m
    requires m.Valid()
  {
    if m.Phased() then m.beforeMidds.value else m.midds.value
  }

  /** The handlers it runs after its main callback. */
  function PostMain(m: MiddObj): (hs: seq<Handler>)
    reads m
    requires m.Valid()
  {
    if m.Phased() then m.afterMidds.value + m.lastMidds.value else []
  }

  /** `Prepared` puts the main callback between the pre-main and the
      post-main handlers. */
  lemma PreparedShape(m: MiddObj)
    requires m.Valid()
    ensures Prepared(m) == PreMain(m) + [m.mainCallback] + PostMain(m)
  {
    if m.Phased() {
      assert Prepared(m) == PreMain(m) + [m.mainCallback] + PostMain(m);
    }
  }

  /** Any queue with only `main` tagged: the trace shape and the piping
      facts together. */
  lemma WholeChain(mode: Mode, env: Env, pre: seq<Handler>, main: Handler, post: seq<Handler>, args: seq<Value>)
    requires Untagged(pre) && main.isMain && Untagged(post)
    ensures var q := pre + [main] + post;
      var c := Run(mode, env, q, Piped(args, Null, false));
      TraceShape(mode, env, q, c) && Piping(c, |pre|, |q|, args)
  {
    RunTrace(mode, env, pre + [main] + post, Piped(args, Null, false));
    ChainPiping(mode, env, pre, main, post, args, Null);
  }

  /** One non-concurrent invocation of a decorated property (the chain
      `InvokeMiddleware` runs when `concurrent` is falsy) whose registered
      handlers are not tagged as main: handlers run in the order before,
      main, after, last (or use, main), each at most once, until one throws
      (`TraceShape`), and values are piped as `Piping` says with main at
      position `|PreMain(m)|`. */
  lemma DecoratedChain(m: MiddObj, env: Env, args: seq<Value>)
    requires m.Valid() && Untagged(PreMain(m)) && Untagged(PostMain(m))
    ensures var q := PreMain(m) + [m.mainCallback] + PostMain(m);
      var c := Run(ModeOf(m.params), env, Prepared(m), Piped(args, Null, false));
      && Prepared(m) == q
      && TraceShape(ModeOf(m.params), env, q, c)
      && Piping(c, |PreMain(m)|, |q|, args)
  {
    PreparedShape(m);
    WholeChain(ModeOf(m.params), env, PreMain(m), m.mainCallback, PostMain(m), args);
  }
}
