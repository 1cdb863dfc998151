/** Client code: sequences of calls whose outcomes follow from the contracts alone. */
module Scenarios {
  import opened Values
  import opened Tags
  import opened Quota
  import opened Breakpoints
  import opened FuncBreakpoints

  /** A breakpoint built with `tags=["dbg"]` and the default `activate_tags=True` activates
      its own tag and fires on its first unforced call. */
  method ActivatedOnConstruction() {
    var registry := new TagRegistry();
    var bp := new Breakpoint(registry, DefaultArgs.(tags := ["dbg"]));
    assert registry.active == ["dbg"];
    assert AnyTagActive(bp.tags, registry.active) by {
      assert bp.tags[0] in registry.active;
    }
    var o := bp.BreakHere(map[], false, false, true);
    assert o.fired && bp.breaks == 1 && o.ending == Resumed;
    assert o.events == [Console(map[])];
  }

  /** `max_usage=2` with no tags, called three times with `force=True`: the first two calls
      fire, the second one warns, the third does not fire. */
  method ForcedQuotaOfTwo() {
    var registry := new TagRegistry();
    var bp := new Breakpoint(registry, DefaultArgs.(maxUsage := Some(2)));
    var o1 := bp.BreakHere(map[], true, false, true);
    assert o1.fired && !o1.warned;
    var o2 := bp.BreakHere(map[], true, false, true);
    assert o2.fired && o2.warned;
    var o3 := bp.BreakHere(map[], true, false, true);
    assert !o3.fired && bp.breaks == 2;
  }

  /** Without a console an always-active breakpoint raises, after counting the use, and does
      not reach the exit even when `exit=True`. */
  method MissingConsole() {
    var registry := new TagRegistry();
    var bp := new Breakpoint(registry, DefaultArgs.(activate := true, exit := true));
    var o := bp.BreakHere(map[], false, false, false);
    assert o.ending == Raised(ConsoleMissing) && bp.breaks == 1;
  }

  /** `exit=True` on the call ends the process even when the breakpoint does not fire, and
      the literal log message is given regardless. */
  method ExitWithoutFiring() {
    var registry := new TagRegistry();
    var bp := new Breakpoint(registry, DefaultArgs.(log := LogLiteral("here")));
    var o := bp.BreakHere(map[], false, true, true);
    assert !o.fired && o.ending == Exited && o.events == [Debug("here")];
  }

  /** Two functions of the same name decorated separately get two breakpoints: the function
      registry is never filled in, so nothing is shared. */
  method EachDecorationOwnsItsBreakpoint(f: Callable, g: Callable) {
    var registry := new TagRegistry();
    var funcs := new FuncRegistry();
    var d1 := new FuncBreakpoint(DefaultArgs.(activate := true));
    var w1 := d1.Decorate(f, "work", registry, funcs);
    var d2 := new FuncBreakpoint(DefaultArgs.(activate := true));
    var w2 := d2.Decorate(g, "work", registry, funcs);
    assert d1.breakpoint != d2.breakpoint;
    var o, r := w1.Call([IntValue(1)], map[], true);
    assert o.fired && r == Some(f([IntValue(1)], map[]));
    assert d1.breakpoint.breaks == 1 && d2.breakpoint.breaks == 0;
  }

  /** One decorator object applied to two functions: the first wrapper reads the decorator's
      current breakpoint, which is now the second function's. */
  method ReusedDecoratorRebinds(f: Callable, g: Callable) {
    var registry := new TagRegistry();
    var funcs := new FuncRegistry();
    var d := new FuncBreakpoint(DefaultArgs.(activate := true));
    var wf := d.Decorate(f, "f", registry, funcs);
    var first := d.breakpoint;
    var wg := d.Decorate(g, "g", registry, funcs);
    var second := d.breakpoint;
    var o, r := wf.Call([], map[], true);
    assert o.fired && second.breaks == 1 && first.breaks == 0;
  }
}
