/** The system scheduler and its event-loop callback (src/ecs/mod.rs).

    A `Skeleton` holds the world and two ordered system lists. Running it calls every
    init system once, in registration order, and then, on every callback of the
    external event loop, every frame system in registration order before the event is
    dispatched. Systems are plain functions over the world; here each has a name, and
    what the systems do to the world is the parameter `effect`. The event loop itself
    is external: it delivers a sequence of events, each with the surface's answer for
    a frame should that event render one. */
module Scheduler {
  import opened Components
  import opened Worlds
  import Engine

  /** A `fn(&mut World)` registered with the scheduler. */
  datatype System = System(name: string)

  datatype Skeleton = Skeleton(world: World, initSystems: seq<System>, systems: seq<System>)

  /** `Skeleton::add_init_system`: append to the init list; the frame list is untouched. */
  function AddInitSystem(sk: Skeleton, s: System): (r: Skeleton)
    ensures r.initSystems == sk.initSystems + [s]
    ensures r.systems == sk.systems && r.world == sk.world
  {
    sk.(initSystems := sk.initSystems + [s])
  }

  /** `Skeleton::add_system`: append to the frame list; the init list is untouched. */
  function AddSystem(sk: Skeleton, s: System): (r: Skeleton)
    ensures r.systems == sk.systems + [s]
    ensures r.initSystems == sk.initSystems && r.world == sk.world
  {
    sk.(systems := sk.systems + [s])
  }

  /** One builder call. */
  datatype Registration = InitSystem(system: System) | FrameSystem(system: System)

  /** One builder call applied to a skeleton. */
  function Apply(sk: Skeleton, reg: Registration): (r: Skeleton)
    ensures r.world == sk.world
    ensures r.initSystems == sk.initSystems + (if reg.InitSystem? then [reg.system] else [])
    ensures r.systems == sk.systems + (if reg.FrameSystem? then [reg.system] else [])
  {
    match reg
    case InitSystem(s) => AddInitSystem(sk, s)
    case FrameSystem(s) => AddSystem(sk, s)
  }

  /** A chain of builder calls, applied left to right. */
  function Register(sk: Skeleton, regs: seq<Registration>): Skeleton
    decreases |regs|
  {
    if |regs| == 0 then sk else Register(Apply(sk, regs[0]), regs[1..])
  }

  /** The init registrations of a chain, in order. */
  function InitsOf(regs: seq<Registration>): seq<System>
  {
    if |regs| == 0 then []
    else (if regs[0].InitSystem? then [regs[0].system] else []) + InitsOf(regs[1..])
  }

  /** The frame registrations of a chain, in order. */
  function FramesOf(regs: seq<Registration>): seq<System>
  {
    if |regs| == 0 then []
    else (if regs[0].FrameSystem? then [regs[0].system] else []) + FramesOf(regs[1..])
  }

  /** However the two kinds of call are interleaved, each list ends up holding its own
      registrations in the order they were made, after the ones it already had. */
  lemma {:induction false} RegisterKeepsOrder(sk: Skeleton, regs: seq<Registration>)
    ensures Register(sk, regs).initSystems == sk.initSystems + InitsOf(regs)
    ensures Register(sk, regs).systems == sk.systems + FramesOf(regs)
    ensures Register(sk, regs).world == sk.world
    decreases |regs|
  {
    if |regs| > 0 {
      var next := Apply(sk, regs[0]);
      RegisterKeepsOrder(next, regs[1..]);
      assert InitsOf(regs) == (if regs[0].InitSystem? then [regs[0].system] else []) + InitsOf(regs[1..]);
      assert FramesOf(regs) == (if regs[0].FrameSystem? then [regs[0].system] else []) + FramesOf(regs[1..]);
    }
  }

  /** The events the callback tells apart. */
  datatype Event =
    | MouseMotion(dx: int, dy: int)
    | WindowEventFor(windowId: nat, event: Engine.WindowEvent)
    | RedrawRequested(windowId: nat)
    | RedrawEventsCleared
    | OtherEvent

  /** An event as delivered, with the surface's answer should it render a frame. */
  datatype Delivery = Delivery(event: Event, frame: Option<Engine.SurfaceError>)

  /** What a run makes observable, in order: system calls (each with the world the
      system was handed), frames handed to the GPU, logged warnings, and redraw
      requests to the window. */
  datatype Effect =
    | Call(system: System, before: World)
    | Frame(commands: seq<Engine.Command>)
    | Warning(message: string)
    | RedrawRequest

  /** What the callback decides to do about a render result or an unconsumed window event. */
  datatype Action = Continue | Reconfigure | ExitLoop | LogWarning(message: string) | ResizeTo(size: Engine.Size)

  /** The render-result match: a lost or outdated surface is reconfigured, running out
      of memory exits, a timeout is logged, success needs nothing. */
  function ClassifyRender(result: Engine.RenderResult): (a: Action)
    ensures result.Rendered? ==> a == Continue
    ensures result.Failed? ==>
      a == match result.error
           case Lost => Reconfigure
           case Outdated => Reconfigure
           case OutOfMemory => ExitLoop
           case Timeout => LogWarning("Surface timeout")
  {
    match result
    case Rendered(_, _) => Continue
    case Failed(Lost) => Reconfigure
    case Failed(Outdated) => Reconfigure
    case Failed(OutOfMemory) => ExitLoop
    case Failed(Timeout) => LogWarning("Surface timeout")
  }

  /** The match on a window event `input` declined: a close request or a pressed Escape
      exits, a resize or scale change forwards the new size, anything else is ignored. */
  function ClassifyWindowEvent(event: Engine.WindowEvent): (a: Action)
    ensures a == ExitLoop <==>
      event.CloseRequested? || event == Engine.KeyboardInput(Engine.Pressed, Some(Engine.Escape))
    ensures a.ResizeTo? <==> event.Resized? || event.ScaleFactorChanged?
    ensures event.Resized? ==> a == ResizeTo(event.size)
    ensures event.ScaleFactorChanged? ==> a == ResizeTo(event.newInnerSize)
    ensures a == ExitLoop || a.ResizeTo? || a == Continue
  {
    match event
    case CloseRequested => ExitLoop
    case KeyboardInput(Pressed, Some(Escape)) => ExitLoop
    case Resized(size) => ResizeTo(size)
    case ScaleFactorChanged(size) => ResizeTo(size)
    case _ => Continue
  }

  /** The world, the loop's exit flag, and the effects of one step. */
  datatype Step = Step(world: World, exited: bool, effects: seq<Effect>)

  /** Carry out an action; `Reconfigure` resizes to the current size. */
  function Perform(w: World, exited: bool, a: Action): (r: Step)
    ensures r.exited <==> exited || a == ExitLoop
    ensures r.effects == if a.LogWarning? then [Warning(a.message)] else []
    ensures r.world.state == match a
      case Reconfigure => Engine.Resize(w.state, w.state.size)
      case ResizeTo(size) => Engine.Resize(w.state, size)
      case _ => w.state
  {
    match a
    case Continue => Step(w, exited, [])
    case Reconfigure => Step(World(Engine.Resize(w.state, w.state.size)), exited, [])
    case ExitLoop => Step(w, true, [])
    case LogWarning(message) => Step(w, exited, [Warning(message)])
    case ResizeTo(size) => Step(World(Engine.Resize(w.state, size)), exited, [])
  }

  /** The deliveries that make the callback request exit: a close request for the
      window, or a frame whose surface reports it is out of memory. */
  predicate RequestsExit(windowId: nat, d: Delivery)
  {
    || d.event == WindowEventFor(windowId, Engine.CloseRequested)
    || (d.event == RedrawRequested(windowId) && d.frame == Some(Engine.OutOfMemory))
  }

  /** The `match event` of the callback. Events for another window fall through to the
      catch-all arm. */
  function Dispatch(w: World, exited: bool, d: Delivery): (r: Step)
    requires Unborrowed(w.state.componentVecs)
    ensures r.exited <==> exited || RequestsExit(w.state.windowId, d)
    ensures forall k :: 0 <= k < |r.effects| ==> !r.effects[k].Call?
    ensures |r.effects| <= 1
    ensures (|r.effects| == 1 && r.effects[0].Frame?) <==>
      d.event == RedrawRequested(w.state.windowId) && d.frame.None?
    ensures (|r.effects| == 1 && r.effects[0].Warning?) <==>
      d.event == RedrawRequested(w.state.windowId) && d.frame == Some(Engine.Timeout)
    ensures d.event == RedrawRequested(w.state.windowId) && d.frame.None? ==>
      && r.effects == [Frame(Engine.Render(w.state, None).commands)]
      && r.world.state == Engine.Render(w.state, None).state
    ensures Unborrowed(r.world.state.componentVecs)
    ensures r.world.state.entityCount == w.state.entityCount
    ensures SameTags(w.state.componentVecs, r.world.state.componentVecs)
    ensures r.world.state.windowId == w.state.windowId
  {
    match d.event
    case MouseMotion(dx, dy) =>
      if w.state.mousePressed then
        Step(World(w.state.(controller := w.state.controller + [Engine.MouseDelta(dx, dy)])), exited, [])
      else
        Step(w, exited, [])
    case WindowEventFor(id, event) =>
      if id == w.state.windowId then
        var input := Engine.Input(w.state, event);
        if input.1 then Step(World(input.0), exited, [])
        else Perform(World(input.0), exited, ClassifyWindowEvent(event))
      else
        Step(w, exited, [])
    case RedrawRequested(id) =>
      if id == w.state.windowId then
        var result := Engine.Render(w.state, d.frame);
        match result
        case Rendered(s, commands) => Step(World(s), exited, [Frame(commands)])
        case Failed(_) => Perform(w, exited, ClassifyRender(result))
      else
        Step(w, exited, [])
    case RedrawEventsCleared => Step(w, exited, [RedrawRequest])
    case OtherEvent => Step(w, exited, [])
  }

  /** Escape never closes the window as written: `input` consumes every key event that
      carries a keycode before the exit arm is reached. */
  lemma EscapeNeverExits(w: World, exited: bool, frame: Option<Engine.SurfaceError>)
    requires Unborrowed(w.state.componentVecs)
    ensures var event := Engine.KeyboardInput(Engine.Pressed, Some(Engine.Escape));
      var r := Dispatch(w, exited, Delivery(WindowEventFor(w.state.windowId, event), frame));
      r.exited == exited && r.world.state.controller == w.state.controller + [Engine.KeyChange(Engine.Escape, Engine.Pressed)]
  {
  }

  /** Resize and scale-factor events reach `resize` with the new size; a lost or outdated
      surface is reconfigured at the current size; mouse motion reaches the camera
      controller only while the left button is held. */
  lemma DispatchForwards(w: World, exited: bool, d: Delivery)
    requires Unborrowed(w.state.componentVecs)
    ensures d.event.WindowEventFor? && d.event.windowId == w.state.windowId && d.event.event.Resized? ==>
      Dispatch(w, exited, d).world.state == Engine.Resize(w.state, d.event.event.size)
    ensures d.event.WindowEventFor? && d.event.windowId == w.state.windowId && d.event.event.ScaleFactorChanged? ==>
      Dispatch(w, exited, d).world.state == Engine.Resize(w.state, d.event.event.newInnerSize)
    ensures d.event == RedrawRequested(w.state.windowId) && d.frame in {Some(Engine.Lost), Some(Engine.Outdated)} ==>
      Dispatch(w, exited, d).world.state == Engine.Resize(w.state, w.state.size)
    ensures d.event.MouseMotion? ==>
      Dispatch(w, exited, d).world.state.controller ==
        if w.state.mousePressed then w.state.controller + [Engine.MouseDelta(d.event.dx, d.event.dy)]
        else w.state.controller
  {
  }

  /** What `Dispatch` leaves alone. A window event `input` consumes keeps exactly the
      state `input` left, with no effect and no exit; mouse motion touches only the
      camera controller; a timed-out frame only logs "Surface timeout"; an out-of-memory
      frame only requests exit; only `RedrawEventsCleared` requests a redraw; and events
      the callback ignores, events and redraws for another window, and declined window
      events other than a resize or scale change leave the world as it was. */
  lemma DispatchLeavesRest(w: World, exited: bool, d: Delivery)
    requires Unborrowed(w.state.componentVecs)
    ensures d.event.WindowEventFor? && d.event.windowId == w.state.windowId && Engine.Consumed(d.event.event) ==>
      var r := Dispatch(w, exited, d);
      r.world.state == Engine.Input(w.state, d.event.event).0 && r.exited == exited && r.effects == []
    ensures d.event == RedrawRequested(w.state.windowId) && d.frame == Some(Engine.Timeout) ==>
      Dispatch(w, exited, d).world == w && Dispatch(w, exited, d).effects == [Warning("Surface timeout")]
    ensures (exists k :: 0 <= k < |Dispatch(w, exited, d).effects| && Dispatch(w, exited, d).effects[k].RedrawRequest?) <==>
      d.event == RedrawEventsCleared
    ensures || d.event.RedrawEventsCleared?
            || d.event.OtherEvent?
            || (d.event.WindowEventFor? && d.event.windowId != w.state.windowId)
            || (d.event.RedrawRequested? && d.event.windowId != w.state.windowId)
            || (d.event.WindowEventFor? && !Engine.Consumed(d.event.event)
                && !d.event.event.Resized? && !d.event.event.ScaleFactorChanged?) ==>
      Dispatch(w, exited, d).world == w
    ensures d.event.MouseMotion? ==>
      var r := Dispatch(w, exited, d);
      r.world.state == w.state.(controller := r.world.state.controller) && r.exited == exited && r.effects == []
    ensures d.event == RedrawRequested(w.state.windowId) && d.frame == Some(Engine.OutOfMemory) ==>
      Dispatch(w, exited, d).world == w && Dispatch(w, exited, d).effects == []
  {
    if d.event == RedrawEventsCleared {
      assert Dispatch(w, exited, d).effects[0].RedrawRequest?;
    }
  }

  /** The callback keeps the store valid: only a redraw writes a column, and it writes
      back the column it walked at its own length and with models only. */
  lemma DispatchKeepsValid(w: World, exited: bool, d: Delivery)
    requires Valid(w) && Unborrowed(w.state.componentVecs)
    ensures Valid(Dispatch(w, exited, d).world)
  {
  }

  /** The systems keep borrows scoped: a system started with no live guard returns with none. */
  ghost predicate ReleasesBorrows(effect: (System, World) -> World)
  {
    forall s: System, w: World :: Unborrowed(w.state.componentVecs) ==> Unborrowed(effect(s, w).state.componentVecs)
  }

  /** The world after the systems of `list` ran on `w` in order, each handed the world
      the one before it returned. Built from the end of the list, independently of the
      front-to-back loop below. */
  function Applied(w: World, list: seq<System>, effect: (System, World) -> World): World
    decreases |list|
  {
    if |list| == 0 then w else effect(list[|list| - 1], Applied(w, list[..|list| - 1], effect))
  }

  /** Running `s` and then `rest` is running `[s] + rest`. */
  lemma {:induction false} AppliedCons(w: World, s: System, rest: seq<System>, effect: (System, World) -> World)
    ensures Applied(w, [s] + rest, effect) == Applied(effect(s, w), rest, effect)
    decreases |rest|
  {
    if |rest| > 0 {
      var n := |rest|;
      assert ([s] + rest)[..n] == [s] + rest[..n - 1];
      AppliedCons(w, s, rest[..n - 1], effect);
    } else {
      assert ([s] + rest)[..0] == [];
    }
  }

  /** The prefixes of a non-empty list, run on `w`, are the prefixes of its tail run on
      what its first system returns. */
  lemma AppliedPrefixes(w: World, list: seq<System>, effect: (System, World) -> World)
    requires |list| > 0
    ensures Applied(w, list[..0], effect) == w
    ensures forall k :: 0 < k <= |list| ==>
      Applied(w, list[..k], effect) == Applied(effect(list[0], w), list[1..][..k - 1], effect)
  {
    assert list[..0] == [];
    forall k | 0 < k <= |list|
      ensures Applied(w, list[..k], effect) == Applied(effect(list[0], w), list[1..][..k - 1], effect)
    {
      assert list[..k] == [list[0]] + list[1..][..k - 1];
      AppliedCons(w, list[0], list[1..][..k - 1], effect);
    }
  }

  /** `for &system in &list { system(&mut world) }`: each system once, in order, each
      handed the world its predecessor left; the result is the last system's world. */
  function RunSystems(w: World, list: seq<System>, effect: (System, World) -> World): (r: (World, seq<Effect>))
    ensures r.0 == Applied(w, list, effect)
    ensures |r.1| == |list|
    ensures forall k :: 0 <= k < |list| ==> r.1[k] == Call(list[k], Applied(w, list[..k], effect))
    ensures ReleasesBorrows(effect) && Unborrowed(w.state.componentVecs) ==> Unborrowed(r.0.state.componentVecs)
    decreases |list|
  {
    if |list| == 0 then (w, [])
    else
      var rest := RunSystems(effect(list[0], w), list[1..], effect);
      AppliedPrefixes(w, list, effect);
      assert list[..|list|] == list && list[1..][..|list| - 1] == list[1..];
      (rest.0, [Call(list[0], w)] + rest.1)
  }

  /** The first `k` systems are the first `k - 1` followed by system `k - 1`. */
  lemma AppliedStep(w: World, list: seq<System>, effect: (System, World) -> World, k: nat)
    requires 0 < k <= |list|
    ensures Applied(w, list[..k], effect) == effect(list[k - 1], Applied(w, list[..k - 1], effect))
  {
    assert list[..k][..k - 1] == list[..k - 1];
  }

  /** Each system is handed exactly the world the previous one returned. */
  lemma RunSystemsChains(w: World, list: seq<System>, effect: (System, World) -> World)
    ensures var calls := RunSystems(w, list, effect).1;
      forall k :: 0 < k < |list| ==> calls[k].before == effect(list[k - 1], calls[k - 1].before)
  {
    var calls := RunSystems(w, list, effect).1;
    forall k | 0 < k < |list|
      ensures calls[k].before == effect(list[k - 1], calls[k - 1].before)
    {
      AppliedStep(w, list, effect, k);
    }
  }

  /** The first system is handed the world the loop started from, and the loop ends with
      the last system's result (or the starting world when there is none). */
  lemma RunSystemsEnds(w: World, list: seq<System>, effect: (System, World) -> World)
    ensures var r := RunSystems(w, list, effect);
      && (|list| == 0 ==> r.0 == w)
      && (|list| > 0 ==> r.1[0].before == w && r.0 == effect(list[|list| - 1], r.1[|list| - 1].before))
  {
    if |list| > 0 {
      assert list[..0] == [];
      AppliedStep(w, list, effect, |list|);
      assert list[..|list|] == list;
    }
  }

  /** One event-loop callback: the frame systems, then the dispatch of the event on the
      world they left. */
  function Callback(w: World, exited: bool, systems: seq<System>, effect: (System, World) -> World, d: Delivery): (r: Step)
    requires Unborrowed(w.state.componentVecs) && ReleasesBorrows(effect)
    ensures Unborrowed(Applied(w, systems, effect).state.componentVecs)
    ensures |systems| <= |r.effects|
    ensures forall k :: 0 <= k < |systems| ==> r.effects[k] == Call(systems[k], Applied(w, systems[..k], effect))
    ensures forall k :: |systems| <= k < |r.effects| ==> !r.effects[k].Call?
    ensures exited ==> r.exited
    ensures Unborrowed(r.world.state.componentVecs)
  {
    var ran := RunSystems(w, systems, effect);
    var step := Dispatch(ran.0, exited, d);
    Step(step.world, step.exited, ran.1 + step.effects)
  }

  /** The event is dispatched on the world the frame systems left, and what the dispatch
      produces is what the callback keeps: its world, its exit flag, and its effects
      after the calls. */
  lemma CallbackDispatchesAfterSystems(w: World, exited: bool, systems: seq<System>, effect: (System, World) -> World, d: Delivery)
    requires Unborrowed(w.state.componentVecs) && ReleasesBorrows(effect)
    ensures Unborrowed(Applied(w, systems, effect).state.componentVecs)
    ensures var r := Callback(w, exited, systems, effect, d);
      var step := Dispatch(Applied(w, systems, effect), exited, d);
      r.world == step.world && r.exited == step.exited && r.effects[|systems|..] == step.effects
  {
  }

  /** The callback on each delivery in turn, each starting from the world and exit flag
      the previous one left. */
  function RunLoop(w: World, exited: bool, systems: seq<System>, effect: (System, World) -> World, ds: seq<Delivery>): (r: Step)
    requires Unborrowed(w.state.componentVecs) && ReleasesBorrows(effect)
    ensures |ds| == 0 ==> r == Step(w, exited, [])
    ensures Unborrowed(r.world.state.componentVecs)
    ensures exited ==> r.exited
    decreases |ds|
  {
    if |ds| == 0 then Step(w, exited, [])
    else
      var first := Callback(w, exited, systems, effect, ds[0]);
      var rest := RunLoop(first.world, first.exited, systems, effect, ds[1..]);
      Step(rest.world, rest.exited, first.effects + rest.effects)
  }

  /** A single delivery is a single callback. */
  lemma RunLoopOne(w: World, exited: bool, systems: seq<System>, effect: (System, World) -> World, d: Delivery)
    requires Unborrowed(w.state.componentVecs) && ReleasesBorrows(effect)
    ensures RunLoop(w, exited, systems, effect, [d]) == Callback(w, exited, systems, effect, d)
  {
  }

  /** The loop over a delivery followed by more: one callback, then the loop over the
      rest from the world and exit flag that callback left. */
  lemma RunLoopCons(w: World, exited: bool, systems: seq<System>, effect: (System, World) -> World, d: Delivery, ds: seq<Delivery>)
    requires Unborrowed(w.state.componentVecs) && ReleasesBorrows(effect)
    ensures var c := Callback(w, exited, systems, effect, d);
      var rest := RunLoop(c.world, c.exited, systems, effect, ds);
      var r := RunLoop(w, exited, systems, effect, [d] + ds);
      r.world == rest.world && r.exited == rest.exited && r.effects == c.effects + rest.effects
  {
  }

  /** The loop over `ds1 + ds2` is the loop over `ds1` followed by the loop over `ds2`
      from where the first left off: the world and the exit flag are threaded through. */
  lemma {:induction false} RunLoopSplits(w: World, exited: bool, systems: seq<System>, effect: (System, World) -> World,
                                          ds1: seq<Delivery>, ds2: seq<Delivery>)
    requires Unborrowed(w.state.componentVecs) && ReleasesBorrows(effect)
    ensures var first := RunLoop(w, exited, systems, effect, ds1);
      var second := RunLoop(first.world, first.exited, systems, effect, ds2);
      var whole := RunLoop(w, exited, systems, effect, ds1 + ds2);
      whole.world == second.world && whole.exited == second.exited && whole.effects == first.effects + second.effects
    decreases |ds1|
  {
    if |ds1| == 0 {
      assert ds1 + ds2 == ds2;
    } else {
      var d, tl := ds1[0], ds1[1..];
      assert ds1 == [d] + tl;
      assert ds1 + ds2 == [d] + (tl + ds2);
      RunLoopCons(w, exited, systems, effect, d, tl + ds2);
      RunLoopCons(w, exited, systems, effect, d, tl);
      var c := Callback(w, exited, systems, effect, d);
      RunLoopSplits(c.world, c.exited, systems, effect, tl, ds2);
      var mid := RunLoop(c.world, c.exited, systems, effect, tl);
      var second := RunLoop(mid.world, mid.exited, systems, effect, ds2);
      AppendAssoc(c.effects, mid.effects, second.effects);
    }
  }

  lemma AppendAssoc<T>(a: seq<T>, b: seq<T>, c: seq<T>)
    ensures a + (b + c) == (a + b) + c
  {
  }

  /** `Skeleton::_internal_run`: the init systems once, then the loop over the deliveries
      starting from the world the init systems left. */
  function Run(sk: Skeleton, ds: seq<Delivery>, effect: (System, World) -> World): (r: Step)
    requires Unborrowed(sk.world.state.componentVecs) && ReleasesBorrows(effect)
    ensures Unborrowed(Applied(sk.world, sk.initSystems, effect).state.componentVecs)
    ensures |sk.initSystems| <= |r.effects|
    ensures forall k :: 0 <= k < |sk.initSystems| ==>
      r.effects[k] == Call(sk.initSystems[k], Applied(sk.world, sk.initSystems[..k], effect))
    ensures var looped := RunLoop(Applied(sk.world, sk.initSystems, effect), false, sk.systems, effect, ds);
      r.world == looped.world && r.exited == looped.exited && r.effects[|sk.initSystems|..] == looped.effects
    ensures Unborrowed(r.world.state.componentVecs)
  {
    var init := RunSystems(sk.world, sk.initSystems, effect);
    var looped := RunLoop(init.0, false, sk.systems, effect, ds);
    Step(looped.world, looped.exited, init.1 + looped.effects)
  }

  /** The systems called in a trace, in order. */
  function Calls(trace: seq<Effect>): seq<System>
  {
    if |trace| == 0 then []
    else (if trace[0].Call? then [trace[0].system] else []) + Calls(trace[1..])
  }

  /** `list` repeated `n` times. */
  function Repeat(list: seq<System>, n: nat): seq<System>
  {
    if n == 0 then [] else list + Repeat(list, n - 1)
  }

  lemma {:induction false} CallsAppend(a: seq<Effect>, b: seq<Effect>)
    ensures Calls(a + b) == Calls(a) + Calls(b)
    decreases |a|
  {
    if |a| > 0 {
      assert (a + b)[0] == a[0];
      assert (a + b)[1..] == a[1..] + b;
      CallsAppend(a[1..], b);
    } else {
      assert a + b == b;
    }
  }

  /** A trace that starts with calls of `list` and has no call after them calls exactly `list`. */
  lemma {:induction false} CallsOfPrefix(trace: seq<Effect>, list: seq<System>)
    requires |list| <= |trace|
    requires forall k :: 0 <= k < |list| ==> trace[k].Call? && trace[k].system == list[k]
    requires forall k :: |list| <= k < |trace| ==> !trace[k].Call?
    ensures Calls(trace) == list
    decreases |trace|
  {
    if |trace| > 0 {
      if |list| > 0 {
        CallsOfPrefix(trace[1..], list[1..]);
      } else {
        CallsOfPrefix(trace[1..], list);
      }
    }
  }

  /** Over `n` callbacks, the frame systems are called `n` times over, in registration order. */
  lemma {:induction false} RunLoopCalls(w: World, exited: bool, systems: seq<System>, effect: (System, World) -> World, ds: seq<Delivery>)
    requires Unborrowed(w.state.componentVecs) && ReleasesBorrows(effect)
    ensures Calls(RunLoop(w, exited, systems, effect, ds).effects) == Repeat(systems, |ds|)
    decreases |ds|
  {
    if |ds| > 0 {
      assert ds == [ds[0]] + ds[1..];
      RunLoopCons(w, exited, systems, effect, ds[0], ds[1..]);
      var first := Callback(w, exited, systems, effect, ds[0]);
      var rest := RunLoop(first.world, first.exited, systems, effect, ds[1..]);
      CallsOfPrefix(first.effects, systems);
      RunLoopCalls(first.world, first.exited, systems, effect, ds[1..]);
      CallsAppend(first.effects, rest.effects);
    }
  }

  /** The whole run: the init systems exactly once each, in order, before anything else
      happens; then, for `n` delivered events, the frame systems `n` times over. With
      init `A` and frame systems `B`, `C` the calls are `A (B C)^n`. */
  lemma RunCallsInitThenFrames(sk: Skeleton, ds: seq<Delivery>, effect: (System, World) -> World)
    requires Unborrowed(sk.world.state.componentVecs) && ReleasesBorrows(effect)
    ensures var r := Run(sk, ds, effect);
      Calls(r.effects) == sk.initSystems + Repeat(sk.systems, |ds|)
  {
    var r := Run(sk, ds, effect);
    var n := |sk.initSystems|;
    var start := Applied(sk.world, sk.initSystems, effect);
    var head, tail := r.effects[..n], r.effects[n..];
    assert r.effects == head + tail;
    CallsOfPrefix(head, sk.initSystems);
    assert tail == RunLoop(start, false, sk.systems, effect, ds).effects;
    RunLoopCalls(start, false, sk.systems, effect, ds);
    CallsAppend(head, tail);
  }

  /** `A` followed by `B, C` three times over. */
  lemma ThreeTickCalls(a: System, b: System, c: System)
    ensures [a] + Repeat([b, c], 3) == [a, b, c, b, c, b, c]
  {
    assert Repeat([b, c], 1) == [b, c];
    assert Repeat([b, c], 2) == [b, c, b, c];
    assert Repeat([b, c], 3) == [b, c, b, c, b, c];
  }

  /** Init system `A`, frame systems `B` then `C`, three callbacks: `A, B, C, B, C, B, C`. */
  lemma ThreeTickScenario(w: World, ds: seq<Delivery>)
    requires Unborrowed(w.state.componentVecs) && |ds| == 3
    ensures var a, b, c := System("A"), System("B"), System("C");
      var sk := AddSystem(AddSystem(AddInitSystem(Skeleton(w, [], []), a), b), c);
      Calls(Run(sk, ds, (s, x) => x).effects) == [a, b, c, b, c, b, c]
  {
    var a, b, c := System("A"), System("B"), System("C");
    var sk := AddSystem(AddSystem(AddInitSystem(Skeleton(w, [], []), a), b), c);
    var untouched := (s: System, x: World) => x;
    assert ReleasesBorrows(untouched);
    assert sk.initSystems == [a] && sk.systems == [b, c];
    RunCallsInitThenFrames(sk, ds, untouched);
    ThreeTickCalls(a, b, c);
  }
}
