/** The renderer state and its ECS-facing logic (src/engine/mod.rs).

    `State` keeps what the core reads or writes: the window identity, the surface size,
    the surface configuration and projection sizes that follow it, the left-button flag,
    the inputs handed to the camera controller, and the component store (entity count
    and columns). The GPU device, queue, pipelines, buffers and bind groups are opaque
    collaborators and have no counterpart here; calls into them appear as commands. */
module Engine {
  import opened Assets
  import opened Components

  /** A physical size in pixels (`PhysicalSize<u32>`). */
  datatype Size = Size(width: nat, height: nat)

  datatype ElementState = Pressed | Released

  datatype MouseButton = Left | Right | Middle | OtherButton(code: nat)

  datatype VirtualKeyCode = Escape | Key(code: nat)

  /** The window events the core distinguishes; every other one is `OtherWindowEvent`. */
  datatype WindowEvent =
    | CloseRequested
    | KeyboardInput(state: ElementState, keycode: Option<VirtualKeyCode>)
    | MouseWheel(delta: int)
    | MouseInput(button: MouseButton, state: ElementState)
    | Resized(size: Size)
    | ScaleFactorChanged(newInnerSize: Size)
    | OtherWindowEvent

  /** What the camera controller was told; its float maths is not modelled. */
  datatype ControllerInput =
    | KeyChange(key: VirtualKeyCode, state: ElementState)
    | Scroll(delta: int)
    | MouseDelta(dx: int, dy: int)

  datatype State = State(
    windowId: nat,
    size: Size,
    config: Size,
    projection: Size,
    mousePressed: bool,
    controller: seq<ControllerInput>,
    entityCount: nat,
    componentVecs: seq<Column>)

  /** The component store of a fresh state: no entities, no columns, button up. */
  function NewState(windowId: nat, size: Size): (r: State)
    ensures r.entityCount == 0 && |r.componentVecs| == 0 && !r.mousePressed
    ensures r.windowId == windowId && r.size == size && r.config == size
    ensures r.projection == size && r.controller == []
  {
    State(windowId, size, size, size, false, [], 0, [])
  }

  /** The parts of a state outside the component store and the surface are equal. */
  predicate SameInputs(a: State, b: State)
  {
    a.windowId == b.windowId && a.mousePressed == b.mousePressed && a.controller == b.controller
  }

  /** `State::resize`: a size with a zero dimension is ignored; otherwise the size, the
      surface configuration and the projection all take the new size. */
  function Resize(s: State, newSize: Size): (r: State)
    ensures newSize.width == 0 || newSize.height == 0 ==> r == s
    ensures newSize.width > 0 && newSize.height > 0 ==>
      r.size == newSize && r.config == newSize && r.projection == newSize
    ensures SameInputs(s, r)
    ensures r.entityCount == s.entityCount && r.componentVecs == s.componentVecs
  {
    if newSize.width > 0 && newSize.height > 0 then
      s.(size := newSize, config := newSize, projection := newSize)
    else
      s
  }

  /** A window event `State::input` consumes: a key with a keycode, the mouse wheel, or
      the left mouse button. */
  predicate Consumed(event: WindowEvent)
  {
    || (event.KeyboardInput? && event.keycode.Some?)
    || event.MouseWheel?
    || (event.MouseInput? && event.button == Left)
  }

  /** `State::input`: returns whether the event was consumed, and the state after it. */
  function Input(s: State, event: WindowEvent): (r: (State, bool))
    ensures r.1 <==> Consumed(event)
    ensures !r.1 ==> r.0 == s
    ensures r.0.mousePressed ==
      if event.MouseInput? && event.button == Left then event.state == Pressed else s.mousePressed
    ensures event.KeyboardInput? && event.keycode.Some? ==>
      r.0.controller == s.controller + [KeyChange(event.keycode.value, event.state)]
    ensures event.MouseWheel? ==> r.0.controller == s.controller + [Scroll(event.delta)]
    ensures !(event.KeyboardInput? && event.keycode.Some?) && !event.MouseWheel? ==> r.0.controller == s.controller
    ensures r.0.windowId == s.windowId && r.0.size == s.size && r.0.config == s.config && r.0.projection == s.projection
    ensures r.0.entityCount == s.entityCount && r.0.componentVecs == s.componentVecs
  {
    match event
    case KeyboardInput(state, Some(key)) =>
      (s.(controller := s.controller + [KeyChange(key, state)]), true)
    case MouseWheel(delta) =>
      (s.(controller := s.controller + [Scroll(delta)]), true)
    case MouseInput(Left, state) =>
      (s.(mousePressed := state == Pressed), true)
    case _ =>
      (s, false)
  }

  /** `State::borrow_component_vec_mut`: the same lookup as the world's, on this state. */
  function BorrowComponentVecMut(s: State, tag: TypeTag): (r: Borrow<State>)
    ensures r.NoColumn? <==> forall i :: 0 <= i < |s.componentVecs| ==> s.componentVecs[i].tag != tag
    ensures r.BorrowConflict? <==>
      exists i: nat :: FirstOfType(s.componentVecs, tag, i) && s.componentVecs[i].borrowed
    ensures r.Granted? ==>
      Grants(s.componentVecs, tag, r.index, r.view, r.after.componentVecs)
      && r.after == s.(componentVecs := r.after.componentVecs)
  {
    match BorrowMut(s.componentVecs, tag)
    case NoColumn => NoColumn
    case BorrowConflict => BorrowConflict
    case Granted(i, view, cols) => Granted(i, view, s.(componentVecs := cols))
  }

  /** The end of a borrow's scope on this state. */
  function ReleaseBorrow(s: State, i: nat, view: seq<Slot>): (r: State)
    requires i < |s.componentVecs|
    ensures r == s.(componentVecs := r.componentVecs)
    ensures SameTags(s.componentVecs, r.componentVecs)
    ensures r.componentVecs[i].slots == view && !r.componentVecs[i].borrowed
    ensures forall j :: 0 <= j < |s.componentVecs| && j != i ==> r.componentVecs[j] == s.componentVecs[j]
  {
    s.(componentVecs := Release(s.componentVecs, i, view))
  }

  /** The error `get_current_texture` may report for the frame. */
  datatype SurfaceError = Lost | Outdated | OutOfMemory | Timeout

  /** One model drawn by the render pass: the entity whose slot held it, the model with
      its freshly uploaded instance buffer, and the instance range passed to the draw. */
  datatype Draw = Draw(entity: nat, model: Model, instancesFrom: nat, instancesTo: nat)

  /** What `render` hands to the GPU, in order. `Issue` stands for the three calls made
      per model: set the pipeline, bind the instance buffer to slot 1, draw the model. */
  datatype Command = BeginRenderPass | Issue(draw: Draw) | Submit | Present

  datatype RenderResult = Rendered(state: State, commands: seq<Command>) | Failed(error: SurfaceError)

  /** The draw of model `m` found at entity `e`: its instance buffer is rebuilt from its
      instances, and the range covers every instance (the length cast to `u32`). */
  function DrawFor(e: nat, m: Model): (r: Draw)
    ensures r.entity == e && r.model == Regenerate(m)
    ensures r.instancesFrom == 0 && r.instancesTo <= |r.model.instanceBuffer|
    ensures |m.instances| < 0x1_0000_0000 ==> r.instancesTo == |m.instances|
    ensures r.instancesTo == AsU32(|m.instances|)
  {
    Draw(e, Regenerate(m), 0, AsU32(|m.instances|))
  }

  /** A slot after the pass: a model gets its rebuilt instance buffer, anything else is left. */
  function Refreshed(slot: Slot): Slot
  {
    match slot
    case Some(ModelComponent(m)) => Some(ModelComponent(Regenerate(m)))
    case _ => slot
  }

  /** The slot holds a model. */
  predicate HoldsModel(slot: Slot)
  {
    slot.Some? && slot.value.ModelComponent?
  }

  /** The walk over the `Model` column (`for model in models.iter_mut()`), starting at
      entity `first`: the slots as they are left, and the draws issued. Every slot stays
      in place; a model's instance buffer is rebuilt. */
  function DrawPass(slots: seq<Slot>, first: nat): (r: (seq<Slot>, seq<Draw>))
    ensures |r.0| == |slots|
    ensures forall k {:trigger r.0[k]} :: 0 <= k < |slots| ==> r.0[k] == Refreshed(slots[k])
    decreases |slots|
  {
    if |slots| == 0 then ([], [])
    else
      var rest := DrawPass(slots[1..], first + 1);
      match slots[0]
      case Some(ModelComponent(m)) => ([Refreshed(slots[0])] + rest.0, [DrawFor(first, m)] + rest.1)
      case _ => ([slots[0]] + rest.0, rest.1)
  }

  function Issued(draws: seq<Draw>): (r: seq<Command>)
    ensures |r| == |draws| && forall k :: 0 <= k < |r| ==> r[k] == Issue(draws[k])
  {
    if |draws| == 0 then [] else [Issue(draws[0])] + Issued(draws[1..])
  }

  /** `State::render`. `frame` is the surface's answer to `get_current_texture`. The
      receiver is `&mut self`, so no guard on any column can be live when it runs. */
  function Render(s: State, frame: Option<SurfaceError>): (r: RenderResult)
    requires Unborrowed(s.componentVecs)
    ensures r.Failed? <==> frame.Some?
    ensures r.Failed? ==> r.error == frame.value
    ensures r.Rendered? ==>
      && |r.commands| >= 2 && r.commands[|r.commands| - 2..] == [Submit, Present]
      && Unborrowed(r.state.componentVecs)
      && SameTags(s.componentVecs, r.state.componentVecs)
      && r.state == s.(componentVecs := r.state.componentVecs)
    ensures r.Rendered? && Find(s.componentVecs, ModelType).None? ==>
      r.state == s && r.commands == [Submit, Present]
  {
    match frame
    case Some(e) => Failed(e)
    case None =>
      match BorrowComponentVecMut(s, ModelType)
      case NoColumn => Rendered(s, [Submit, Present])
      case BorrowConflict => assert false; Rendered(s, [])
      case Granted(i, models, held) =>
        var pass := DrawPass(models, 0);
        Rendered(ReleaseBorrow(held, i, pass.0), [BeginRenderPass] + Issued(pass.1) + [Submit, Present])
  }

  /** Every draw comes from a model slot, with the draw `DrawFor` makes of it. */
  lemma {:induction false} DrawPassSound(slots: seq<Slot>, first: nat)
    ensures forall d :: 0 <= d < |DrawPass(slots, first).1| ==>
      var draw := DrawPass(slots, first).1[d];
      && first <= draw.entity < first + |slots|
      && HoldsModel(slots[draw.entity - first])
      && draw == DrawFor(draw.entity, slots[draw.entity - first].value.model)
    decreases |slots|
  {
    if |slots| > 0 {
      DrawPassSound(slots[1..], first + 1);
      var draws := DrawPass(slots, first).1;
      var rest := DrawPass(slots[1..], first + 1).1;
      var skip := if HoldsModel(slots[0]) then 1 else 0;
      if HoldsModel(slots[0]) {
        assert draws == [DrawFor(first, slots[0].value.model)] + rest;
      } else {
        assert draws == rest;
      }
      forall d | skip <= d < |draws|
        ensures first <= draws[d].entity < first + |slots|
        ensures HoldsModel(slots[draws[d].entity - first])
        ensures draws[d] == DrawFor(draws[d].entity, slots[draws[d].entity - first].value.model)
      {
        assert draws[d] == rest[d - skip];
        assert slots[draws[d].entity - first] == slots[1..][draws[d].entity - (first + 1)];
      }
    }
  }

  /** Draws come out in strictly ascending entity order, all at or after `first`. */
  lemma {:induction false} DrawPassAscending(slots: seq<Slot>, first: nat)
    ensures forall d :: 0 <= d < |DrawPass(slots, first).1| ==> first <= DrawPass(slots, first).1[d].entity
    ensures forall d1, d2 :: 0 <= d1 < d2 < |DrawPass(slots, first).1| ==>
      DrawPass(slots, first).1[d1].entity < DrawPass(slots, first).1[d2].entity
    decreases |slots|
  {
    if |slots| > 0 {
      DrawPassAscending(slots[1..], first + 1);
    }
  }

  /** Some draw in the list is for entity `e`. */
  predicate Drawn(draws: seq<Draw>, e: nat)
  {
    exists d :: 0 <= d < |draws| && draws[d].entity == e
  }

  /** Every model slot is drawn. */
  lemma {:induction false} DrawPassComplete(slots: seq<Slot>, first: nat)
    ensures forall k :: 0 <= k < |slots| && HoldsModel(slots[k]) ==> Drawn(DrawPass(slots, first).1, first + k)
    decreases |slots|
  {
    if |slots| > 0 {
      DrawPassComplete(slots[1..], first + 1);
      var draws := DrawPass(slots, first).1;
      var rest := DrawPass(slots[1..], first + 1).1;
      forall k | 0 <= k < |slots| && HoldsModel(slots[k])
        ensures Drawn(draws, first + k)
      {
        if k == 0 {
          assert draws == [DrawFor(first, slots[0].value.model)] + rest;
          assert 0 < |draws| && draws[0].entity == first + k;
        } else {
          assert slots[1..][k - 1] == slots[k];
          assert Drawn(rest, first + 1 + (k - 1));
          var d :| 0 <= d < |rest| && rest[d].entity == first + 1 + (k - 1);
          if HoldsModel(slots[0]) {
            assert draws == [DrawFor(first, slots[0].value.model)] + rest;
            assert draws[d + 1] == rest[d];
            assert 0 <= d + 1 < |draws| && draws[d + 1].entity == first + k;
          } else {
            assert draws == rest;
            assert 0 <= d < |draws| && draws[d].entity == first + k;
          }
        }
      }
    }
  }

  /** With a `Model` column present and a frame acquired, render opens a pass, issues the
      draws of the walk over that column, submits and presents; the column is written
      back with the walked slots and released, and every other column is unchanged. */
  lemma RenderWalksModelColumn(s: State, i: nat)
    requires Unborrowed(s.componentVecs)
    requires Find(s.componentVecs, ModelType) == Some(i)
    ensures var r := Render(s, None);
      var pass := DrawPass(s.componentVecs[i].slots, 0);
      && r.Rendered?
      && r.commands == [BeginRenderPass] + Issued(pass.1) + [Submit, Present]
      && r.state.componentVecs[i].slots == pass.0
      && (forall j :: 0 <= j < |s.componentVecs| && j != i ==> r.state.componentVecs[j] == s.componentVecs[j])
  {
  }

  /** What a successful render does with the `Model` column: every model in it is drawn
      exactly once, in ascending entity order, over its whole instance range and after its
      instance buffer is rebuilt; empty slots and other values draw nothing. */
  lemma RenderDrawsModels(s: State, i: nat)
    requires Unborrowed(s.componentVecs)
    requires Find(s.componentVecs, ModelType) == Some(i)
    ensures var slots := s.componentVecs[i].slots;
      var draws := DrawPass(slots, 0).1;
      && Render(s, None).commands == [BeginRenderPass] + Issued(draws) + [Submit, Present]
      && (forall d :: 0 <= d < |draws| ==>
            && draws[d].entity < |slots| && HoldsModel(slots[draws[d].entity])
            && draws[d] == DrawFor(draws[d].entity, slots[draws[d].entity].value.model))
      && (forall d1, d2 :: 0 <= d1 < d2 < |draws| ==> draws[d1].entity < draws[d2].entity)
      && (forall k :: 0 <= k < |slots| && HoldsModel(slots[k]) ==> Drawn(draws, k))
  {
    var slots := s.componentVecs[i].slots;
    RenderWalksModelColumn(s, i);
    DrawPassSound(slots, 0);
    DrawPassAscending(slots, 0);
    DrawPassComplete(slots, 0);
  }

  /** In a store whose columns hold only values of their own type, every occupied slot
      of the `Model` column holds a model, so every occupied slot is drawn. */
  lemma RenderDrawsEveryOccupiedSlot(s: State, i: nat)
    requires Unborrowed(s.componentVecs) && WellTyped(s.componentVecs)
    requires Find(s.componentVecs, ModelType) == Some(i)
    ensures var slots := s.componentVecs[i].slots;
      forall k :: 0 <= k < |slots| && slots[k].Some? ==> Drawn(DrawPass(slots, 0).1, k)
  {
    var slots := s.componentVecs[i].slots;
    DrawPassComplete(slots, 0);
    forall k | 0 <= k < |slots| && slots[k].Some?
      ensures HoldsModel(slots[k])
    {
      assert TagOf(slots[k].value) == ModelType;
    }
  }
}
