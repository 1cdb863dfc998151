/** The `Breakpoint` class: its configuration, its usage counter, and the decision procedure
    `break_here` that logs, decides whether to fire, counts, warns, hands over to the
    interactive console and finally exits. */
module Breakpoints {
  import opened Values
  import opened Tags
  import opened Quota

  /** The `log` attribute: absent, a literal message, or a function of the captured locals. */
  datatype LogDirective = NoLog | LogLiteral(text: string) | LogComputed(render: Locals -> string)

  /** The `activate_tags` argument: a boolean, or a list of tags to activate instead of `tags`. */
  datatype ActivateTags = ActivateFlag(on: bool) | ActivateList(list: seq<string>)

  /** The construction arguments of a breakpoint. */
  datatype BreakpointArgs = BreakpointArgs(
    tags: seq<string>,
    activateTags: ActivateTags,
    activate: bool,
    maxUsage: Option<int>,
    exit: bool,
    log: LogDirective)

  /** The defaults of the constructor's keyword arguments. */
  const DefaultArgs := BreakpointArgs([], ActivateFlag(true), false, Some(10), false, NoLog)

  /** The fixed warning given on the call that uses up the quota. */
  const ExpiryWarning := "You have reached the maximum number of calls to interrupt the code with this function. "
    + "If you want to continue to use this breakpoint you must modify self.breaks or self.max_usage\n\n"

  /** The message of the exception raised when the interactive console cannot be imported. */
  const ConsoleMissing := "You must have ipython installed to use break points"

  /** Python truthiness of `activate_tags`: `False` and the empty list are falsy. */
  predicate Truthy(a: ActivateTags) {
    match a
    case ActivateFlag(on) => on
    case ActivateList(list) => list != []
  }

  /** The tags a construction appends to the registry: `tags` itself when `activate_tags`
      is `True`, the given list when it is a non-empty list, nothing when it is falsy. */
  function ActivatedAtConstruction(tags: seq<string>, activateTags: ActivateTags): (activated: seq<string>) {
    if !Truthy(activateTags) then []
    else if activateTags.ActivateFlag? then tags
    else activateTags.list
  }

  /** What `break_here` emits, in order: debug log messages, the expiry warning, and the
      interactive session, which sees the captured locals. */
  datatype Event = Debug(message: string) | Warning(message: string) | Console(namespace: Locals)

  /** How `break_here` ends: it returns, the process exits, or it raises. */
  datatype Ending = Resumed | Exited | Raised(message: string)

  datatype Outcome = Outcome(events: seq<Event>, fired: bool, warned: bool, ending: Ending)

  /** The firing condition apart from the quota: always active, forced, or some tag active. */
  predicate Qualifies(active: bool, force: bool, tags: seq<string>, registered: seq<string>) {
    active || force || AnyTagActive(tags, registered)
  }

  /** The debug message produced from the `log` attribute, if any. */
  function LogEvents(log: LogDirective, locals: Locals): (logged: seq<Event>) {
    match log
    case NoLog => []
    case LogLiteral(text) => [Debug(text)]
    case LogComputed(render) => [Debug(render(locals))]
  }

  /** One call of `break_here` as a value: the configured log message comes first whatever
      happens; the breakpoint fires when it qualifies and its quota is armed; a firing
      without a console raises; otherwise the process exits when either exit flag is set,
      whether or not the breakpoint fired. */
  function Decide(log: LogDirective, qualifies: bool, maxUsage: Option<int>, breaks: int,
                  exitAfter: bool, exitNow: bool, locals: Locals, consoleAvailable: bool): (o: Outcome)
    ensures o.fired == Step(maxUsage, breaks, qualifies).fired
    ensures o.warned == Step(maxUsage, breaks, qualifies).warned
    ensures o.fired <==> qualifies && Armed(maxUsage, breaks)
    ensures o.warned <==> o.fired && maxUsage == Some(breaks + 1)
    ensures o.ending.Raised? <==> o.fired && !consoleAvailable
    ensures o.ending.Raised? ==> o.ending.message == ConsoleMissing
    ensures o.ending == Exited <==> !o.ending.Raised? && (exitAfter || exitNow)
    ensures LogEvents(log, locals) <= o.events
    ensures Warning(ExpiryWarning) in o.events <==> o.warned
    ensures Console(locals) in o.events <==> o.fired && consoleAvailable
    ensures |o.events| == |LogEvents(log, locals)| + (if o.warned then 1 else 0)
                          + (if o.fired && consoleAvailable then 1 else 0)
    ensures o.warned ==> o.events[|LogEvents(log, locals)|] == Warning(ExpiryWarning)
  {
    var t := Step(maxUsage, breaks, qualifies);
    var warning := if t.warned then [Warning(ExpiryWarning)] else [];
    var session := if t.fired && consoleAvailable then [Console(locals)] else [];
    var ending :=
      if t.fired && !consoleAvailable then Raised(ConsoleMissing)
      else if exitAfter || exitNow then Exited
      else Resumed;
    Outcome(LogEvents(log, locals) + warning + session, t.fired, t.warned, ending)
  }

  class Breakpoint {
    /** The process-wide tag registry the breakpoint consults. */
    const registry: TagRegistry
    /** Number of times this breakpoint has fired. */
    var breaks: int
    var tags: seq<string>
    /** Always active (`activate`). */
    var active: bool
    var maxUsage: Option<int>
    var exit: bool
    var log: LogDirective

    /** The attributes a construction from `args` sets. */
    ghost predicate BuiltFrom(args: BreakpointArgs)
      reads this
    {
      && breaks == 0
      && tags == args.tags
      && active == args.activate
      && maxUsage == args.maxUsage
      && exit == args.exit
      && log == args.log
    }

    /** `Breakpoint(...)`: appends the tags chosen by `activate_tags` to the registry, then
        records the configuration with a zero counter. */
    constructor (registry: TagRegistry, args: BreakpointArgs)
      modifies registry
      ensures this.registry == registry
      ensures registry.active == old(registry.active) + ActivatedAtConstruction(args.tags, args.activateTags)
      ensures BuiltFrom(args)
    {
      if Truthy(args.activateTags) {
        if args.activateTags.ActivateFlag? {
          var shared := registry.Activate(args.tags);
        } else {
          var shared := registry.Activate(args.activateTags.list);
        }
      }
      this.registry := registry;
      breaks := 0;
      tags := args.tags;
      active := args.activate;
      maxUsage := args.maxUsage;
      exit := args.exit;
      log := args.log;
    }

    /** What a call of `break_here` would do in the current state. */
    function Decision(locals: Locals, force: bool, exitNow: bool, consoleAvailable: bool): (o: Outcome)
      reads this, registry
    {
      Decide(log, Qualifies(active, force, tags, registry.active), maxUsage, breaks,
             exit, exitNow, locals, consoleAvailable)
    }

    /** `break_here(force, exit)`, with the caller's variables passed as `locals` and the
        availability of the interactive console as `consoleAvailable`. Only the counter
        changes, by one exactly when the breakpoint fires; the counter is already
        incremented when a missing console makes the call raise. */
    method BreakHere(locals: Locals, force: bool, exitNow: bool, consoleAvailable: bool) returns (o: Outcome)
      modifies this`breaks
      ensures o == old(Decision(locals, force, exitNow, consoleAvailable))
      ensures breaks == old(breaks) + (if o.fired then 1 else 0)
      ensures Step(maxUsage, old(breaks), Qualifies(active, force, tags, registry.active))
              == Tick(o.fired, o.warned, breaks)
      ensures unchanged(registry)
    {
      ghost var expected := Decision(locals, force, exitNow, consoleAvailable);
      var logged: seq<Event> := [];
      match log {
        case NoLog =>
        case LogLiteral(text) =>
          logged := [Debug(text)];
        case LogComputed(render) =>
          logged := [Debug(render(locals))];
      }
      var fired, warned := false, false;
      var warning: seq<Event> := [];
      var session: seq<Event> := [];
      if Qualifies(active, force, tags, registry.active) && Armed(maxUsage, breaks) {
        fired := true;
        breaks := breaks + 1;
        if maxUsage == Some(breaks) {
          warned := true;
          warning := [Warning(ExpiryWarning)];
        }
        if !consoleAvailable {
          o := Outcome(logged + warning + session, fired, warned, Raised(ConsoleMissing));
          assert o == expected;
          return;
        }
        session := [Console(locals)];
      }
      if exit || exitNow {
        o := Outcome(logged + warning + session, fired, warned, Exited);
        assert o == expected;
        return;
      }
      o := Outcome(logged + warning + session, fired, warned, Resumed);
      assert o == expected;
    }
  }
}
