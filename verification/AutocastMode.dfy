/**
 The autocast context manager: `__enter__` saves the thread's settings in the instance and
 installs its own, `__exit__` puts the saved ones back.
 */
module AutocastMode {
  import opened Wrappers

  datatype Device = Cpu | Cuda
  datatype Dtype = Float16 | BFloat16 | Float32

  datatype Settings = Settings(cpuEnabled: bool, cpuDtype: Dtype, gpuEnabled: bool, gpuDtype: Dtype, cacheEnabled: bool)

  /** The thread-local state behind the `torch.*autocast*` accessors. */
  class Globals {
    var settings: Settings
    var nesting: int
    var clears: nat     // how many times the weight cache was dropped
  }

  class Autocast {
    const device: Device
    const enabled: bool
    const fastDtype: Dtype
    const cacheEnabled: bool
    var prev: bool
    var prevFastDtype: Dtype
    var prevCacheEnabled: bool

    /** The settings inside the region when they were `s` outside it. */
    function Installed(s: Settings): Settings {
      match device
      case Cpu => s.(cpuEnabled := enabled, cpuDtype := fastDtype, cacheEnabled := cacheEnabled)
      case Cuda => s.(gpuEnabled := enabled, gpuDtype := fastDtype, cacheEnabled := cacheEnabled)
    }

    /** The settings after an exit that finds `s`. */
    function Restored(s: Settings): Settings
      reads this
    {
      match device
      case Cpu => s.(cpuEnabled := prev, cpuDtype := prevFastDtype, cacheEnabled := prevCacheEnabled)
      case Cuda => s.(gpuEnabled := prev, gpuDtype := prevFastDtype, cacheEnabled := prevCacheEnabled)
    }

    /** The instance holds what `s` says about its device and the cache. */
    predicate Saved(s: Settings)
      reads this
    {
      && prevCacheEnabled == s.cacheEnabled
      && (match device
          case Cpu => prev == s.cpuEnabled && prevFastDtype == s.cpuDtype
          case Cuda => prev == s.gpuEnabled && prevFastDtype == s.gpuDtype)
    }

    method Enter(g: Globals)
      modifies this, g
      ensures Saved(old(g.settings))
      ensures g.settings == Installed(old(g.settings))
      ensures forall comp :: View(comp, g.settings)
                             == if Touches(comp, this) then Own(comp, this) else View(comp, old(g.settings))
      ensures forall comp :: Touches(comp, this) ==> Slot(comp, this) == View(comp, old(g.settings))
      ensures g.nesting == old(g.nesting) + 1 && g.clears == old(g.clears)
    {
      prevCacheEnabled := g.settings.cacheEnabled;
      if device.Cpu? {
        prev := g.settings.cpuEnabled;
        prevFastDtype := g.settings.cpuDtype;
        g.settings := g.settings.(cpuEnabled := enabled);
        g.settings := g.settings.(cpuDtype := fastDtype);
        g.nesting := g.nesting + 1;
      } else {
        prev := g.settings.gpuEnabled;
        prevFastDtype := g.settings.gpuDtype;
        g.settings := g.settings.(gpuDtype := fastDtype);
        g.settings := g.settings.(gpuEnabled := enabled);
        g.nesting := g.nesting + 1;
      }
      g.settings := g.settings.(cacheEnabled := cacheEnabled);
    }

    method Exit(g: Globals)
      modifies g
      ensures g.settings == Restored(old(g.settings))
      ensures forall comp :: View(comp, g.settings)
                             == if Touches(comp, this) then Slot(comp, this) else View(comp, old(g.settings))
      ensures g.nesting == old(g.nesting) - 1
      ensures g.clears == old(g.clears) + (if g.nesting == 0 then 1 else 0)
    {
      g.nesting := g.nesting - 1;
      if g.nesting == 0 {
        g.clears := g.clears + 1;
      }
      if device.Cpu? {
        g.settings := g.settings.(cpuEnabled := prev);
        g.settings := g.settings.(cpuDtype := prevFastDtype);
      } else {
        g.settings := g.settings.(gpuEnabled := prev);
        g.settings := g.settings.(gpuDtype := prevFastDtype);
      }
      g.settings := g.settings.(cacheEnabled := prevCacheEnabled);
    }
  }

  // ------------------------------------------------------------------ programs of nested regions

  /** A `with` statement over an instance, or an exception. */
  datatype Stmt = With(ctx: Autocast, body: seq<Stmt>) | Raise

  function Instances(prog: seq<Stmt>): set<Autocast>
    decreases prog
  {
    if prog == [] then {}
    else (if prog[0].With? then {prog[0].ctx} + Instances(prog[0].body) else {}) + Instances(prog[1..])
  }

  predicate Raises(prog: seq<Stmt>)
    decreases prog
  {
    prog != [] && (prog[0].Raise? || Raises(prog[0].body) || Raises(prog[1..]))
  }

  /** How many of the exits that happen bring the nesting count, now `nesting`, to zero. */
  function ZeroExits(prog: seq<Stmt>, nesting: int): nat
    decreases prog
  {
    if prog == [] || prog[0].Raise? then 0
    else
      ZeroExits(prog[0].body, nesting + 1) + (if nesting == 0 then 1 else 0)
      + (if Raises(prog[0].body) then 0 else ZeroExits(prog[1..], nesting))
  }

  /** The regions entered at the top level before an exception, if any, ends the program. */
  function TopRegions(prog: seq<Stmt>): nat
    decreases prog
  {
    if prog == [] || prog[0].Raise? then 0
    else 1 + (if Raises(prog[0].body) then 0 else TopRegions(prog[1..]))
  }

  /** From outside any region the cache is dropped once per top-level region, from inside one never. */
  lemma {:induction false} ClearsCounted(prog: seq<Stmt>, nesting: nat)
    ensures ZeroExits(prog, nesting) == if nesting == 0 then TopRegions(prog) else 0
    decreases prog
  {
    if prog != [] && prog[0].With? {
      ClearsCounted(prog[0].body, nesting + 1);
      ClearsCounted(prog[1..], nesting);
    }
  }

  // ------------------------------------------------------------------ what a program leaves behind

  /** The parts of the settings that are saved and restored together. */
  datatype Component = CpuMode | GpuMode | CacheFlag

  datatype Value = Mode(enabled: bool, dtype: Dtype) | Flag(on: bool)

  function View(comp: Component, s: Settings): Value {
    match comp
    case CpuMode => Mode(s.cpuEnabled, s.cpuDtype)
    case GpuMode => Mode(s.gpuEnabled, s.gpuDtype)
    case CacheFlag => Flag(s.cacheEnabled)
  }

  /** An instance sets the mode of its device, and always the cache flag. */
  predicate Touches(comp: Component, ctx: Autocast) {
    match comp
    case CpuMode => ctx.device.Cpu?
    case GpuMode => ctx.device.Cuda?
    case CacheFlag => true
  }

  /** The value an instance installs. */
  function Own(comp: Component, ctx: Autocast): Value {
    if comp.CacheFlag? then Flag(ctx.cacheEnabled) else Mode(ctx.enabled, ctx.fastDtype)
  }

  /** The value an instance has saved. */
  function Slot(comp: Component, ctx: Autocast): Value
    reads ctx
  {
    if comp.CacheFlag? then Flag(ctx.prevCacheEnabled) else Mode(ctx.prev, ctx.prevFastDtype)
  }

  /** A value relative to a starting point: the one found there, or some instance's own. */
  type Source = Option<Autocast>

  function Then(first: Source, second: Source): Source {
    if second.Some? then second else first
  }

  function ValueOf(comp: Component, x: Source, s: Settings): Value {
    match x
    case None => View(comp, s)
    case Some(ctx) => Own(comp, ctx)
  }

  /** Where the value found after the program comes from.  The exit of a region restores what its instance
      saved last, at the last entry inside the body or else at the entry of the region itself. */
  function Leaves(comp: Component, prog: seq<Stmt>): Source
    decreases prog, 1
  {
    if prog == [] || prog[0].Raise? then None
    else if Raises(prog[0].body) then AfterFirst(comp, prog)
    else Then(AfterFirst(comp, prog), Leaves(comp, prog[1..]))
  }

  /** The same after the first region. */
  function AfterFirst(comp: Component, prog: seq<Stmt>): Source
    requires prog != [] && prog[0].With?
    decreases prog, 0
  {
    var ctx, body := prog[0].ctx, prog[0].body;
    if Touches(comp, ctx) then
      match LastEntry(comp, body, ctx)
      case None => None
      case Some(x) => Then(Some(ctx), x)
    else Leaves(comp, body)
  }

  /** Where the value found by the last entry of `c` comes from, if the program enters `c` at all. */
  function LastEntry(comp: Component, prog: seq<Stmt>, c: Autocast): Option<Source>
    decreases prog, 1
  {
    if prog == [] || prog[0].Raise? then None
    else
      var later := if Raises(prog[0].body) then None else LastEntry(comp, prog[1..], c);
      if later.Some? then Some(Then(AfterFirst(comp, prog), later.value)) else LastInFirst(comp, prog, c)
  }

  /** The same for the first region alone. */
  function LastInFirst(comp: Component, prog: seq<Stmt>, c: Autocast): Option<Source>
    requires prog != [] && prog[0].With?
    decreases prog, 0
  {
    var ctx := prog[0].ctx;
    var inner := LastEntry(comp, prog[0].body, c);
    if inner.Some? then Some(Then(if Touches(comp, ctx) then Some(ctx) else None, inner.value))
    else if ctx == c then Some(None)
    else None
  }

  /** A component comes back exactly when what is left is its own value. */
  predicate Returns(comp: Component, prog: seq<Stmt>, s: Settings) {
    ValueOf(comp, Leaves(comp, prog), s) == View(comp, s)
  }

  lemma {:induction false} OnlyInstancesEntered(comp: Component, prog: seq<Stmt>, c: Autocast)
    requires c !in Instances(prog)
    ensures LastEntry(comp, prog, c) == None
    decreases prog
  {
    if prog != [] && prog[0].With? {
      OnlyInstancesEntered(comp, prog[0].body, c);
      OnlyInstancesEntered(comp, prog[1..], c);
    }
  }

  /** Settings with the same components are the same. */
  lemma SameComponents(s: Settings, t: Settings)
    requires forall comp :: View(comp, s) == View(comp, t)
    ensures s == t
  {
    assert View(CpuMode, s) == View(CpuMode, t);
    assert View(GpuMode, s) == View(GpuMode, t);
    assert View(CacheFlag, s) == View(CacheFlag, t);
  }

  /** What instance `c` has saved, when it had saved `before` and the settings were `s`. */
  function SavedAs(comp: Component, last: Option<Source>, before: Value, s: Settings): Value {
    match last
    case None => before
    case Some(x) => ValueOf(comp, x, s)
  }

  /** Running any program.  Every component ends with the value that `Leaves` names, so the settings return
      exactly when all components do. */
  method Execute(g: Globals, prog: seq<Stmt>, ghost scope: set<Autocast>) returns (raised: bool)
    requires Instances(prog) <= scope
    modifies g, scope
    ensures forall comp :: View(comp, g.settings) == ValueOf(comp, Leaves(comp, prog), old(g.settings))
    ensures g.settings == old(g.settings) <==> forall comp :: Returns(comp, prog, old(g.settings))
    ensures forall comp, c :: c in scope && Touches(comp, c) ==>
              Slot(comp, c) == SavedAs(comp, LastEntry(comp, prog, c), old(Slot(comp, c)), old(g.settings))
    ensures g.nesting == old(g.nesting)
    ensures g.clears == old(g.clears) + ZeroExits(prog, old(g.nesting))
    ensures raised == Raises(prog)
    decreases prog, 1
  {
    raised := prog != [] && prog[0].Raise?;
    if prog != [] && prog[0].With? {
      raised := ExecuteFirst(g, prog, scope);
      if !raised {
        raised := Execute(g, prog[1..], scope);
      }
    }
    if forall comp :: Returns(comp, prog, old(g.settings)) {
      forall comp ensures View(comp, g.settings) == View(comp, old(g.settings)) {
        assert Returns(comp, prog, old(g.settings));
      }
      SameComponents(g.settings, old(g.settings));
    }
  }

  /** Running the first region: its exit happens whether its body returns or raises. */
  method ExecuteFirst(g: Globals, prog: seq<Stmt>, ghost scope: set<Autocast>) returns (raised: bool)
    requires prog != [] && prog[0].With? && Instances(prog) <= scope
    modifies g, scope
    ensures forall comp :: View(comp, g.settings) == ValueOf(comp, AfterFirst(comp, prog), old(g.settings))
    ensures forall comp, c :: c in scope && Touches(comp, c) ==>
              Slot(comp, c) == SavedAs(comp, LastInFirst(comp, prog, c), old(Slot(comp, c)), old(g.settings))
    ensures g.nesting == old(g.nesting)
    ensures g.clears == old(g.clears) + ZeroExits(prog[0].body, old(g.nesting) + 1) + (if g.nesting == 0 then 1 else 0)
    ensures raised == Raises(prog[0].body)
    decreases prog, 0
  {
    hide View, Own, Slot, Touches, Leaves, LastEntry, Raises, ZeroExits, Returns;
    var ctx, body := prog[0].ctx, prog[0].body;
    ctx.Enter(g);
    raised := Execute(g, body, scope);
    ctx.Exit(g);
  }

  // ------------------------------------------------------------------ when the settings return

  /** No instance is entered again while it is active. */
  predicate NoReentry(prog: seq<Stmt>)
    decreases prog
  {
    prog == [] || (
      && (prog[0].With? ==> prog[0].ctx !in Instances(prog[0].body) && NoReentry(prog[0].body))
      && NoReentry(prog[1..]))
  }

  /** Without re-entry everything returns. */
  lemma {:induction false} NoReentryReturns(comp: Component, prog: seq<Stmt>)
    requires NoReentry(prog)
    ensures Leaves(comp, prog) == None
    decreases prog
  {
    if prog != [] && prog[0].With? {
      OnlyInstancesEntered(comp, prog[0].body, prog[0].ctx);
      NoReentryReturns(comp, prog[0].body);
      NoReentryReturns(comp, prog[1..]);
    }
  }

  /** A region around any program, whose instance the program does not enter, masks what the program leaves
      in the components of that instance, and nothing else. */
  lemma RegionMasks(comp: Component, ctx: Autocast, body: seq<Stmt>)
    requires ctx !in Instances(body)
    ensures Leaves(comp, [With(ctx, body)]) == if Touches(comp, ctx) then None else Leaves(comp, body)
  {
    OnlyInstancesEntered(comp, body, ctx);
    assert [With(ctx, body)][1..] == [];
  }

  /** A re-entry through a region of another instance: the outer exit restores what the re-entry found, the
      middle instance's own value where that one sets it too, else the outer instance's own. */
  lemma ReentryThrough(comp: Component, outer: Autocast, middle: Autocast, body: seq<Stmt>)
    requires outer != middle && outer !in Instances(body) && middle !in Instances(body) && NoReentry(body)
    ensures Leaves(comp, [With(outer, [With(middle, [With(outer, body)])])])
            == if !Touches(comp, outer) then None else if Touches(comp, middle) then Some(middle) else Some(outer)
  {
    var inner := [With(outer, body)];
    var around := [With(middle, inner)];
    assert inner[1..] == [] && around[1..] == [] && [With(outer, around)][1..] == [];
    OnlyInstancesEntered(comp, body, outer);
    OnlyInstancesEntered(comp, body, middle);
    NoReentryReturns(comp, body);
    assert LastEntry(comp, inner, outer) == Some(None);
    assert LastEntry(comp, inner, middle) == None;
    assert LastEntry(comp, around, outer) == Some(if Touches(comp, middle) then Some(middle) else None);
    assert Leaves(comp, inner) == None;
    assert Leaves(comp, around) == None;
  }

  /** Some region that the program itself runs has a body that enters a region. */
  predicate Nested(prog: seq<Stmt>)
    decreases prog
  {
    && prog != [] && prog[0].With?
    && var body := prog[0].body;
       || (body != [] && body[0].With?)
       || (!Raises(body) && Nested(prog[1..]))
  }

  /** For programs over a single instance: what an entry finds is the outer value or the instance's own. */
  lemma {:induction false} SingleInstance(comp: Component, prog: seq<Stmt>, ctx: Autocast)
    requires Instances(prog) <= {ctx} && Touches(comp, ctx)
    ensures Leaves(comp, prog) == if Nested(prog) then Some(ctx) else None
    ensures LastEntry(comp, prog, ctx).Some? <==> prog != [] && prog[0].With?
    ensures LastEntry(comp, prog, ctx).Some? ==> LastEntry(comp, prog, ctx).value in {None, Some(ctx)}
    decreases prog
  {
    if prog != [] && prog[0].With? {
      assert prog[0].ctx in Instances(prog);
      SingleInstance(comp, prog[0].body, ctx);
      SingleInstance(comp, prog[1..], ctx);
    }
  }

  lemma {:induction false} Untouched(comp: Component, prog: seq<Stmt>, ctx: Autocast)
    requires Instances(prog) <= {ctx} && !Touches(comp, ctx)
    ensures Leaves(comp, prog) == None
    decreases prog
  {
    if prog != [] && prog[0].With? {
      assert prog[0].ctx in Instances(prog);
      Untouched(comp, prog[0].body, ctx);
      Untouched(comp, prog[1..], ctx);
    }
  }

  /** The settings already are those the instance installs. */
  predicate Holds(ctx: Autocast, s: Settings) {
    View(CacheFlag, s) == Own(CacheFlag, ctx)
    && (match ctx.device
        case Cpu => View(CpuMode, s) == Own(CpuMode, ctx)
        case Cuda => View(GpuMode, s) == Own(GpuMode, ctx))
  }

  /** A decorated function that calls itself, in any pattern of calls and exceptions: every call enters the one
      instance of the decorator, so an inner call overwrites what the outer one saved.  The settings survive
      exactly when no outermost call makes another one or the settings were the instance's own to begin with. */
  method DecoratedRecursion(g: Globals, ctx: Autocast, calls: seq<Stmt>) returns (raised: bool)
    requires Instances(calls) <= {ctx}
    modifies g, ctx
    ensures g.settings == if Nested(calls) then ctx.Installed(old(g.settings)) else old(g.settings)
    ensures g.settings == old(g.settings) <==> !Nested(calls) || Holds(ctx, old(g.settings))
    ensures g.nesting == old(g.nesting) && raised == Raises(calls)
  {
    raised := Execute(g, calls, {ctx});
    ghost var t := if Nested(calls) then ctx.Installed(old(g.settings)) else old(g.settings);
    forall comp ensures View(comp, g.settings) == View(comp, t) {
      if Touches(comp, ctx) {
        SingleInstance(comp, calls, ctx);
      } else {
        Untouched(comp, calls, ctx);
      }
    }
    SameComponents(g.settings, t);
  }

  /** Calls nested `depth` deep. */
  function Nest(ctx: Autocast, depth: nat): seq<Stmt> {
    if depth == 0 then [] else [With(ctx, Nest(ctx, depth - 1))]
  }

  /** For plain recursion: the settings are lost from depth two on. */
  lemma {:induction false} NestedFromTwo(ctx: Autocast, depth: nat)
    ensures Nested(Nest(ctx, depth)) <==> depth >= 2
    ensures Instances(Nest(ctx, depth)) <= {ctx} && !Raises(Nest(ctx, depth))
  {
    if depth > 0 {
      NestedFromTwo(ctx, depth - 1);
      assert Nest(ctx, depth)[1..] == [];
    }
  }
}
