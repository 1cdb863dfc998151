# ipydebug breakpoints, modelled in Dafny

ipydebug lets a developer put conditional breakpoints into Python code. A breakpoint carries
tags; a process-wide list of active tags decides which tagged breakpoints are switched on. When
a breakpoint fires it drops into an interactive IPython console that sees the caller's local
variables. Each breakpoint has a usage quota (`max_usage`, 10 by default, `None` for no limit)
and counts its firings in `breaks`. The `func_breakpoint` decorator puts a breakpoint in front
of every call of a function.

The model follows `ipydebug/core.py` component by component:

- `tags.dfy` (module `Tags`): the registry `active_breakpoints` as the class `TagRegistry`,
  whose `Activate` extends it in place (`activate_breakpoint`), and the tag test of the firing
  condition (`AnyTagActive`).
- `quota.dfy` (module `Quota`): the counter against the quota. `Step` is one call and `Run` a
  sequence of calls. The lemmas state the quota behaviour over any run of calls.
- `breakpoint.dfy` (module `Breakpoints`): the class `Breakpoint` with its attributes and
  counter. The constructor may activate tags. `BreakHere` is `break_here`. `Decide` is the
  value-level statement of one call.
- `func_breakpoint.dfy` (module `FuncBreakpoints`): the decorator object `FuncBreakpoint`, the
  wrapper `Wrapped` (the nested function `inner`) and the never-filled `func_breakpoints` map.
- `scenarios.dfy` (module `Scenarios`): client methods whose assertions follow from the
  contracts alone. They cover self-activation, a forced quota of two, a missing console, exit
  without firing, one breakpoint per decoration, and a decorator reused on two functions.
- `values.dfy` (module `Values`): `Option` and the Python values that flow through the engine.

Effects become values. A call of `BreakHere` returns an `Outcome`. It holds the ordered events
(`Debug` log message, `Warning` on expiry, `Console` session with its namespace), whether the
call fired and warned, and how the call ended (`Resumed`, `Exited` for `sys.exit`, or
`Raised` with the exception message). The caller's frame is passed in as a map of locals. The
availability of IPython is a boolean input. The registry is a `TagRegistry` object that every
breakpoint holds a reference to; in the source it is the module global.

The model follows the code where the code's own documentation says otherwise:

- `max_usage == 0` never fires (`ipydebug/core.py:166`). The docstring at
  `ipydebug/core.py:112-113` calls 0 "always active"; only `None` disables the quota.
- The log message goes to `logging.debug` (`ipydebug/core.py:163`), not `logging.info` as the
  docstring at `ipydebug/core.py:121-124` says.
- `func_breakpoints` is never written. The lookup at `ipydebug/core.py:76` uses the name
  `"inner"`, because the rename comes later at line 81. So every decoration builds a new
  breakpoint, and two functions of the same name never share one, despite the comment at
  line 75.
- When IPython is missing, the counter has already been incremented before the exception is
  raised (`ipydebug/core.py:167-176`), and the exit check is not reached.
- `inner` reads `self.breakpoint` of the decorator object at call time (`ipydebug/core.py:73`).
  If one decorator object is applied to two functions, the first wrapper then uses the second
  function's breakpoint (`Scenarios.ReusedDecoratorRebinds`).

## Model

| member | source | states |
|---|---|---|
| `Tags.TagRegistry.constructor` | ipydebug/core.py:5 | the registry starts as an empty list |
| `Tags.TagRegistry.Activate` | ipydebug/core.py:8-23 | the registry becomes its old contents followed by the given tags in order, duplicates kept, and the registry object itself is returned |
| `Tags.AnyTagActive` | ipydebug/core.py:165 | true exactly when some tag of the breakpoint is in the registry |
| `Tags.ActivationKeepsTagsActive` | ipydebug/core.py:22 | since the registry only grows, a breakpoint that qualifies by its tags still qualifies after any later activation |
| `Tags.ActivationEnablesSharedTag` | ipydebug/core.py:22-23 | after activating a list that shares a tag with a breakpoint, that breakpoint qualifies by its tags whatever the registry held before |
| `Quota.Step` | ipydebug/core.py:165-171 | one call fires iff it qualifies and the quota is armed, the counter goes up by one exactly when it fires, and it warns iff it fired and the counter now equals `max_usage` |
| `Quota.Run` | ipydebug/core.py:165-171 | a run of calls yields one tick per call; a call fires only if it qualifies; a call warns exactly when it fires and the counter then equals `max_usage` |
| `Quota.FiresIffWithinQuota` | ipydebug/core.py:165-167 | with `max_usage = n`, call i fires iff it qualifies and the start count plus earlier qualifying calls is below n; the counter afterwards is the qualifying calls so far capped at n, or unchanged when the breakpoint started expired |
| `Quota.WarnsIffReachesQuota` | ipydebug/core.py:168-171 | the expiry warning comes on exactly the qualifying call that brings the firings up to `max_usage` |
| `Quota.ExactlyFirstNFire` | ipydebug/core.py:165-171 | from `breaks = 0`, repeated qualifying calls fire on exactly the first n, the n-th warns, and no later call fires |
| `Quota.ZeroQuotaNeverFires` | ipydebug/core.py:166 | `max_usage = 0` never fires from a non-negative counter, and the counter stays put |
| `Quota.UnlimitedFiresEveryQualifyingCall` | ipydebug/core.py:166-168 | `max_usage = None` fires on every qualifying call, never warns, and counts every firing |
| `Quota.CounterStaysWithinQuota` | ipydebug/core.py:166-167 | a counter that starts within a finite quota stays between its start and the quota, and never decreases from one call to the next |
| `Breakpoints.Decide` | ipydebug/core.py:158-178 | the log message comes first whether or not the call fires; it fires iff it qualifies and the quota is armed; it warns iff the firing reaches `max_usage`; it raises the console-missing message iff it fires without a console; otherwise it exits iff either exit flag is set, independent of firing; the console session happens iff it fires with a console; the events are exactly the log message, then the expiry warning, then the console session, each only when it occurs |
| `Breakpoints.Breakpoint.constructor` | ipydebug/core.py:126-137 | the registry gains `tags` when `activate_tags` is `True`, the given list when it is a non-empty list, nothing when falsy; the attributes are the arguments and the counter is 0 |
| `Breakpoints.Breakpoint.BreakHere` | ipydebug/core.py:139-178 | the outcome is `Decide` on the state before the call; only the counter changes, by exactly one when it fired (also when it then raises); the registry and the configuration are unchanged; the counter moves as `Quota.Step` says |
| `FuncBreakpoints.FuncRegistry.constructor` | ipydebug/core.py:6 | the function registry starts empty |
| `FuncBreakpoints.FuncBreakpoint.constructor` | ipydebug/core.py:48-61 | the decorator only records the breakpoint construction arguments |
| `FuncBreakpoints.FuncBreakpoint.Decorate` | ipydebug/core.py:62-82 | the breakpoint registered under `"inner"` is reused if present; otherwise a new breakpoint is built from the stored arguments, activating tags as construction does; the returned wrapper is new, named after the function, and bound to this decorator; the function registry is left unchanged |
| `FuncBreakpoints.Wrapped.constructor` | ipydebug/core.py:67-81 | the wrapper keeps the decorator, the wrapped function and the wrapped function's name |
| `FuncBreakpoints.Wrapped.Call` | ipydebug/core.py:67-74 | the call runs an unforced, non-exiting `break_here` on the decorator's current breakpoint with `args` and `kwargs` as locals, then returns the wrapped function's result unless the breakpoint raised or exited |

## Left out

- Frame introspection (`ipydebug/core.py:154-156`) is not modelled. The caller's variables are
  an explicit `locals` map. `break_here`'s own locals (`self`, `force`, `exit`, `local_vars`,
  `var`) also appear in the dictionary that the log function sees. The console also sees `log`
  (bound at lines 160/162 when a log is set) and `IPython` (bound at line 173). The model leaves
  all of these out. The wrapper's captured frame is modelled with `args` and `kwargs` only,
  without `func` and `self`.
- `IPython.embed` is an external interactive REPL. Only its availability (an input) and the
  fact that a session was entered (a `Console` event) are modelled. An `ImportError` raised from
  inside a running session, which the source also turns into the same exception, is not
  modelled.
- `sys.exit` is the `Exited` ending, not a real termination. The `logging` sink is the
  `Debug`/`Warning` events.
- The log hook and the wrapped function are total, side-effect-free functions in the model.
  Exceptions they might raise are not modelled.
- `inspect.isfunction` on `log` is the `LogDirective` variant. A callable that is not a plain
  function, or a non-string value, would be logged as the object itself; this is not modelled.
- `activate_tags` is a boolean or a list of strings. Other truthy values, such as a string
  (which `list.extend` would split into characters), are not modelled. Tags are strings.
- `Breakpoint.tags` aliases the caller's list, including the shared default `[]`. Later
  mutation through that alias is not modelled; the model copies the sequence.
- Python argument binding is not modelled. The constructor arguments are a `BreakpointArgs`
  record with the source's defaults in `DefaultArgs`. `max_usage` is an optional integer; other
  numeric types are not modelled.
- The mechanics of renaming `inner.__name__` are reduced to the wrapper's `name` field and the
  lookup key `"inner"`.
- `setup.py` is packaging metadata with no logic.
