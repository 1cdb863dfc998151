/** The `func_breakpoint` decorator: a breakpoint built at decoration time, and a wrapper that
    calls `break_here` on it before calling through to the wrapped function. */
module FuncBreakpoints {
  import opened Values
  import opened Tags
  import opened Breakpoints

  /** `func_breakpoints`: breakpoints by function name. Nothing in the library adds an entry. */
  class FuncRegistry {
    var entries: map<string, Breakpoint>

    constructor ()
      ensures entries == map[]
    {
      entries := map[];
    }
  }

  /** The key `__call__` looks the registry up with: `inner.__name__` is still the nested
      function's own name then, because the rename to the wrapped function's name comes after. */
  const LookupName := "inner"

  /** The variables of the wrapper's frame that `break_here` captures: the call's positional
      and keyword arguments. */
  function CallLocals(args: seq<Value>, kwargs: map<string, Value>): (locals: Locals) {
    map["args" := TupleValue(args), "kwargs" := DictValue(kwargs)]
  }

  /** A `func_breakpoint(...)` object: it keeps the breakpoint construction arguments and,
      once applied to a function, the breakpoint its wrappers use. */
  class FuncBreakpoint {
    const args: BreakpointArgs
    var breakpoint: Breakpoint?

    /** `func_breakpoint(*args, **kwargs)`: only stores the arguments. */
    constructor (args: BreakpointArgs)
      ensures this.args == args && breakpoint == null
    {
      this.args := args;
      breakpoint := null;
    }

    /** `__call__(func)`: takes the breakpoint registered under `LookupName` if there is one,
        otherwise builds a new one from the stored arguments (which may activate tags), and
        returns a wrapper named after `func` that reads this object's breakpoint. */
    method Decorate(func: Callable, name: string, registry: TagRegistry, funcs: FuncRegistry)
      returns (w: Wrapped)
      modifies this`breakpoint, registry
      ensures fresh(w) && w.decorator == this && w.func == func && w.name == name
      ensures breakpoint != null
      ensures LookupName in funcs.entries ==>
                breakpoint == funcs.entries[LookupName] && registry.active == old(registry.active)
      ensures LookupName !in funcs.entries ==>
                && fresh(breakpoint)
                && breakpoint.registry == registry
                && breakpoint.BuiltFrom(args)
                && registry.active == old(registry.active) + ActivatedAtConstruction(args.tags, args.activateTags)
      ensures unchanged(funcs)
    {
      if LookupName in funcs.entries {
        breakpoint := funcs.entries[LookupName];
      } else {
        breakpoint := new Breakpoint(registry, args);
      }
      w := new Wrapped(this, func, name);
    }
  }

  /** The function `inner` that the decorator returns. */
  class Wrapped {
    const decorator: FuncBreakpoint
    const func: Callable
    /** `inner.__name__`, set to the wrapped function's name. */
    const name: string

    constructor (decorator: FuncBreakpoint, func: Callable, name: string)
      ensures this.decorator == decorator && this.func == func && this.name == name
    {
      this.decorator := decorator;
      this.func := func;
      this.name := name;
    }

    /** `inner(*args, **kwargs)`: runs `break_here()` (neither forced nor exiting) on the
        decorator's current breakpoint with the arguments as captured locals, then returns
        `func(*args, **kwargs)`, unless the breakpoint raised or exited the process. */
    method Call(args: seq<Value>, kwargs: map<string, Value>, consoleAvailable: bool)
      returns (o: Outcome, result: Option<Value>)
      requires decorator.breakpoint != null
      modifies decorator.breakpoint`breaks
      ensures o == old(decorator.breakpoint.Decision(CallLocals(args, kwargs), false, false, consoleAvailable))
      ensures decorator.breakpoint.breaks == old(decorator.breakpoint.breaks) + (if o.fired then 1 else 0)
      ensures result == if o.ending == Resumed then Some(func(args, kwargs)) else None
    {
      var bp := decorator.breakpoint;
      o := bp.BreakHere(CallLocals(args, kwargs), false, false, consoleAvailable);
      if o.ending == Resumed {
        result := Some(func(args, kwargs));
      } else {
        result := None;
      }
    }
  }
}
