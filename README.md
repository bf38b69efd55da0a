# middlewarify, modelled in Dafny

middlewarify turns a property of an object into a middleware pipeline.
`make(obj, prop, optFinalCb, optParams)` builds an internal middleware object:
a main callback tagged `isMain` (the caller's function, or a no-op), parameters
merged over the defaults, and either three handler lists (`before`, `after`,
`last`) or one `use` list. It then attaches entry points that register
handlers (`use.js`). Calling the decorated property runs the invocation engine
(`invoke.js`). The engine assembles the handlers in order, shifts them one at a
time, and pipes the caller's arguments through them. Once main has run, its
return value is appended to the arguments and recorded as the call's outcome.
Every later handler that returns something other than `undefined` replaces both
that last argument and the outcome. A throw stops the chain and goes to
`catchAll` when that is a function. In `async` mode each result is awaited
first. In `concurrent` mode all `use` handlers are called with the same
arguments and their settled outcomes are collected.

The project has six modules:

- `Values` (`values.dfy`): JavaScript values, handlers and the lodash
  predicates.
- `MiddObject` (`midd_object.dfy`): the internal middleware object, as a class.
- `Invoke` (`invoke.dfy`): `invoke.js`. The chain runner is an imperative
  method. It is proved against the specification function `Run`.
- `ChainProperties` (`chain_properties.dfy`): what the chain guarantees, as
  lemmas about `Run`.
- `Registration` (`use.dfy`): `use.js`. The imperative `forEach` loops are
  proved against the specification function `Register`.
- `Make` (`make.dfy`): `make.js`.

Handlers are opaque. A handler value is `Handler(id, isMain)`. Its behaviour is
looked up by `id` in an environment `Env` (a parameter of every operation), and
that lookup returns a `Ret(value)` or a `Throw(error)` outcome. The library's
own no-op has a reserved id and a fixed behaviour. A promise is modelled by how
it settles (`Thenable(outcome)`). Every invocation returns a trace: one
`Call(id, args, result)` per handler called, with the arguments it saw.

Where the code and the intended design disagree, the model follows the code:

- In concurrent mode the main callback is never called. The call resolves with
  the list of settled records itself.
- Neither `make` nor the call validates how `concurrent` combines with `async`
  or `beforeAfter`. `concurrent` together with `beforeAfter` therefore rejects
  with a TypeError at call time: the `use` list does not exist.
- A synchronous throw by a concurrent handler rejects the whole call. It does
  not go through `catchAll`.
- Without `async: true` nothing is awaited (`src/invoke.js:99`). A handler that
  returns a rejecting promise counts as having returned, so the chain goes on
  and main's value is the result. `test/promise-iface.test.js:33-51` expects
  the rejection to propagate for a synchronous `make` (lines 72-75).
  `SyncIgnoresRejection` shows both behaviours side by side.

## Model

| member | source | states |
|---|---|---|
| Values.Await | src/invoke.js:143 | awaiting follows a promise-like value until it settles: a rejected promise throws its reason, a promise fulfilled with a plain value yields that value; it never yields a promise-like value, and a plain value awaits to itself |
| MiddObject.MiddObj.constructor | src/make.js:78-84 | `newMidd`: a fresh object whose main callback is the no-op tagged as main, with no lists |
| Values.Apply | src/make.js:12-16 | a user function behaves as the environment says for its id; the no-op, whatever it is given, returns undefined when it returns |
| MiddObject.MiddObj.Valid | src/make.js:60-70 | in a Valid object the phase lists exist exactly in phased mode, and the `use` list exactly otherwise |
| MiddObject.MiddObj.Phased | src/invoke.js:67 | phased mode needs a `beforeAfter` key; a missing key means the flat mode |
| Make.PropsOf | src/make.js:56 | `extend` copies a record's properties, and from a function only its `isMain` tag, present exactly when the function is tagged; nothing else contributes keys |
| Make.Tagged | src/make.js:33-36 | after tagging, a function in the main-callback slot is the same function with `isMain` set; anything else is unchanged |
| Make.ParamsSource | src/make.js:38-44 | the source is an object or undefined: the options slot when it holds an object, else the main-callback slot when that holds one |
| Make.NoopBehaviour | src/make.js:12-16 | the no-op main callback returns undefined; it throws exactly when its first argument is a function that throws when called with no arguments, and then it throws what that function threw |
| Make.ResolveParams | src/make.js:35-56 | with the main callback already tagged, the parameters have the keys of the defaults and of the source; each source key overrides its default, and every other default stays |
| Make.ParamsFromEitherSlot | src/make.js:35-44 | the options object is taken from either slot, and when both slots hold an object or the first a function, the second wins; a main callback alone is itself the source, so it adds its `isMain: true` tag and leaves every other key at its default |
| Make.DefaultsMode | src/make.js:51-55 | the defaults mean synchronous mode, the flat `use` mode, no catch-all and no concurrency |
| Make.EntryPoints | src/make.js:60-70 | phased mode has exactly the `before`/`after`/`last` entry points and no `use`; otherwise only `use`; each is bound to the type of its name |
| Make.CreateLists | src/make.js:60-70 | phased mode gets three empty phase lists and no `use` list; otherwise one empty `use` list; the object is then Valid |
| Make.Make | src/make.js:30-71 | a fresh, Valid object; its main callback is the given function tagged as main, or the tagged no-op; its parameters are `ResolveParams`; it has empty lists of the chosen mode; `obj[prop]` is set to it with the matching entry points, and nothing else of `obj` changes |
| Make.CallEntryPoint | src/make.js:64-69 | an entry point runs `use` with its bound type; a name that is not an entry point throws a TypeError and changes no list; the main callback and the parameters never change |
| Make.IndependentDecorations | src/make.js:30-31 | two `make` calls create distinct objects; registering on the first leaves the second's lists empty |
| Registration.Functions | src/use.js:55-59 | filtering to functions never lengthens the sequence |
| Registration.FunctionsAppend | src/use.js:55-59 | filtering distributes over concatenation |
| Registration.FunctionsMembers | src/use.js:55-59 | a handler survives filtering exactly when it is one of the items |
| Registration.FunctionsNone | src/use.js:56-58 | items with no function among them contribute nothing |
| Registration.Registered | src/use.js:54-62 | a handler is registered by one argument exactly when the argument is that function or an array holding it |
| Registration.Flatten | src/use.js:53-63 | a call registers nothing exactly when none of its arguments registers anything |
| Registration.FlattenAppend | src/use.js:53-63 | what `use(a ++ b)` registers is what `use(a)` registers followed by what `use(b)` registers |
| Registration.FlattenMembers | src/use.js:53-63 | a handler is registered exactly when it is an argument or an element of an array argument |
| Registration.FlattenSkipsNested | src/use.js:53-63 | non-functions and arrays nested two deep contribute nothing |
| Registration.Register | src/use.js:34-51 | only the list that the type selects grows, by exactly the new handlers; the other lists stay, and an unknown type changes nothing |
| Registration.RegisterTwice | src/use.js:37-46 | two registrations of one type equal one registration of the concatenated handlers; registering nothing changes nothing |
| Registration.RegisterAppendOnly | src/use.js:37-46 | the selected list keeps its old entries as a prefix, in order, followed by the new handlers |
| Registration.PushMidd | src/use.js:34-51 | `pushMidd` appends to the selected list; it throws a TypeError, changing nothing, exactly when that list was never created |
| Registration.PushFunctions | src/use.js:55-59 | the inner `forEach` pushes every function element of an array, in order; it throws a TypeError exactly when there is something to push into a missing list |
| Registration.PushArgument | src/use.js:53-63 | one argument of `use` registers `Registered(argument)`, or throws as above |
| Registration.Use | src/use.js:25-64 | the lists become `Register(old, type, Flatten(arguments))`, or stay as they were when it throws; it throws a TypeError exactly when `Fails`; no arguments changes nothing; main callback and parameters are untouched |
| Invoke.InvokeState.constructor | src/invoke.js:21-23 | the recorded outcome starts as null |
| Invoke.ModeOf | src/invoke.js:24 | only the exact boolean `true` under `async` selects async mode |
| Invoke.Invoked | src/invoke.js:143 | in sync mode (line 99) the call's outcome is the handler's own; in async mode a throw stays a throw, a plain value is itself, a rejected promise becomes a throw of its reason, a promise fulfilled with a plain value becomes a return of that value, and the awaited outcome is never promise-like |
| Invoke.AfterReturn | src/invoke.js:104-113 | before main, a handler's return changes nothing; main's return is appended and recorded and starts the after phase; after main, an undefined return changes nothing and any other value is recorded and replaces the last argument |
| Invoke.Run | src/invoke.js:90-116 | a run makes at most one call per queued handler, and when it returns, it returns the recorded outcome |
| Invoke.HandleInvokeError | src/invoke.js:49-55 | without a function `catchAll` the error is rethrown and nothing is called; with one, `catchAll` is called once with the error after the calls so far, the result is undefined when it returns, and it throws exactly what `catchAll` threw |
| Invoke.SettledRecord | src/invoke.js:173 | a returned plain value is a `fulfilled` record of itself, a throw a `rejected` record of its error, a returned promise that fulfils with a plain value a `fulfilled` record of that value, one that rejects a `rejected` record of its reason; every record has a status, a fulfilled one a value that is not promise-like, any other one is `rejected` with a reason |
| Invoke.Records | src/invoke.js:173 | one settled record per call, in the order of the calls |
| Invoke.SpliceLast | src/invoke.js:106 | `splice(-1, 1, v)` keeps the length (one for an empty list), ends in `v`, and keeps every earlier argument |
| Invoke.Prepared | src/invoke.js:65-77 | the prepared sequence is `before ++ [main] ++ after ++ last`, or `use ++ [main]`; the stored lists are only read |
| Invoke.ShiftAndInvoke | src/invoke.js:90-160 | the imperative runner (both the sync and the async variant) returns exactly `Run`, and leaves `mainCallbackReturnValue` holding the recorded outcome |
| Invoke.CallEach | src/invoke.js:172 | `map` calls the handlers in order, all with the same arguments, until one throws synchronously; that throw is its last call |
| Invoke.CallEachAllReturn | src/invoke.js:172 | every handler returns exactly when the map reached the end and the last call returned |
| Invoke.InvokeConcurrent | src/invoke.js:171-176 | with no `use` list, it rejects and calls nothing; when it resolves, the value is the list of settled records of the calls |
| Invoke.ConcurrentReply | src/invoke.js:171-176 | the calls are a prefix of `use`, all with the caller's arguments; it resolves exactly when every handler returns, then with one record per handler in registration order; otherwise it rejects with the synchronous throw |
| Invoke.RejectionIsRecorded | src/invoke.js:172-175 | one handler's rejected promise does not fail the call: its record says rejected, with the reason |
| Invoke.ResolvedValuesAreRecorded | src/invoke.js:172-175 | when every handler returns a promise fulfilled with a plain value, the call resolves with one `fulfilled` record per handler, in order, holding that handler's value |
| Invoke.InvokeMiddleware | src/invoke.js:14-55 | concurrent mode is checked first; otherwise the outcome and trace are those of `Run` over `Prepared`, in the mode `async === true` selects; a throw is rethrown unless `catchAll` is a function, which then gets the error and the call yields undefined, or throws what `catchAll` threw; nothing of the middleware object changes |
| ChainProperties.OfficialCons | src/invoke.js:104-107 | the official outcome, read as a fold from the front: each defined return takes over |
| ChainProperties.OfficialIsLastDefined | src/invoke.js:104-113 | the official outcome is main's value when every later call returned undefined, and otherwise the last defined return |
| ChainProperties.RunTrace | src/invoke.js:90-116 | `TraceShape`: the handlers are called in queue order, each at most once, and every call but the last returned; the run returns exactly when every handler ran and returned, and a throw is that of the last call, which stops the chain; the first handler gets the caller's arguments |
| ChainProperties.BeforeMainReturns | src/invoke.js:97-113 | handlers before main each get the caller's arguments unchanged, and their return values are ignored: the chain goes on as if they were not there |
| ChainProperties.BeforeMainThrows | src/invoke.js:97-99 | a throw before main stops the chain before main runs; all calls made got the caller's arguments |
| ChainProperties.AfterMain | src/invoke.js:104-107 | after main, each handler gets the caller's arguments followed by the official outcome of the calls before it, and the run returns the official outcome of them all |
| ChainProperties.MainOnwards | src/invoke.js:109-113 | main gets the arguments as given; every later handler gets them followed by the official outcome that started with main's return value |
| ChainProperties.ChainPiping | src/invoke.js:95-115 | for `pre ++ [main] ++ post`, `Piping` holds with main at position `|pre|`, and the handler right after main gets the arguments followed by main's return value |
| ChainProperties.AsyncResultSettled | src/invoke.js:135-157 | in async mode the recorded outcome and the returned value are never promise-like |
| ChainProperties.SyncAsyncAgree | src/invoke.js:129-160 | when no handler returns a promise-like value, the async runner is exactly the synchronous one |
| ChainProperties.AsyncRejectionStops | src/invoke.js:141-143 | in async mode a handler whose promise rejects, after returning pre-main handlers, stops the chain: the call throws the rejection reason, and the trace is the pre-main calls with the caller's arguments followed by that handler's call |
| ChainProperties.AsyncMainResolves | src/invoke.js:143-159 | in async mode a main callback whose promise fulfils with a plain value `w` counts as returning `w`: the rest of the chain runs from the arguments followed by `w`, with `w` recorded; the next handler gets them; a returning call yields the official outcome starting from `w`, which is `w` itself when nothing follows main |
| ChainProperties.SyncIgnoresRejection | src/invoke.js:99 | in sync mode a pre-main handler returning a rejecting promise does not stop the chain: `[h, main]` yields main's value, while the async runner throws the rejection reason |
| ChainProperties.AsyncAfterResolves | src/invoke.js:143-151 | in async mode a handler after main whose promise fulfils with a defined plain value replaces the last argument with it and records it, and the chain goes on from there |
| ChainProperties.PreparedShape | src/invoke.js:65-77 | the prepared sequence is the pre-main handlers, main, then the post-main handlers |
| ChainProperties.WholeChain | src/invoke.js:90-116 | for `pre ++ [main] ++ post`, both `TraceShape` and `Piping` hold |
| ChainProperties.DecoratedChain | src/invoke.js:19-35 | one non-concurrent invocation of a decorated property whose registered handlers are untagged runs before, main, after, last (or use, main) in the shape of `TraceShape`, and pipes values as `Piping` says |

## Left out

- `Make.NoopBehaviour`: the no-op's call of its function argument is not recorded in the trace. Only its effect on the outcome is modelled: a throw from the argument escapes, a return is dropped.
- User functions are assumed to have ids other than the no-op's reserved id. A `Handler` with that id always behaves as the no-op, whatever the environment says.
- The `isMain` tag is a flag on the handler value, not a property written on a shared function object. If one function is registered both as main and as a handler, or two `make` calls share the no-op, the source shares the tag; the model does not. `DecoratedChain` and `ChainPiping` require the registered handlers to be untagged.
- Handler behaviour comes from an environment looked up by id. A handler that behaves differently on later calls, or that mutates shared argument objects, is not modelled.
- Event-loop scheduling and timing are not modelled. A promise is its settled outcome, and `Promise.allSettled` is modelled by the records it produces.
- The callback, `next` and `.done()` calling convention and the `throwErrors` option are not modelled. `src/` does not implement them.
- `middlewarify.js` is not part of this model. It is a superseded legacy version.
- Registration-time validation of `concurrent` against `async` and `beforeAfter` is not modelled. `test/concurrent.test.js:187-207` expects it, but the code does not implement it.
- The `catch` at `src/invoke.js:29-31` is not modelled. It is unreachable, because an async function never throws synchronously.
- The value `catchAll` returns is not awaited and not modelled beyond whether it threw, because `_handleInvokeError` drops it.
- In the async branch, the returned value is awaited only as the promise adopting it. `AsyncResultSettled` shows it is never promise-like.
- Numbers are unbounded integers: NaN and floating point are not modelled. Truthiness covers the cases the parameters use.
- `Make.PropsOf`: the model copies keys only from records, plus the `isMain` tag (src/make.js:35) of a tagged function. lodash `extend` copies every enumerable key of any object; the other enumerable keys of a function, array or promise source (an array's indices, for one) are not modelled. The library reads none of them, unless a user function carries an enumerable `async`, `beforeAfter`, `concurrent` or `catchAll` property.
- `MiddObject.MiddObj.constructor`: `newMidd` leaves `params` unset; the model starts with an empty map, which `make` always overwrites.
- The decorated property is modelled as a record of its middleware object and entry points, not as a bound function object. Access to other properties of `obj` is not modelled.
