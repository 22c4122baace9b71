# bones-engine: entity-component store and scheduler, modelled in Dafny

This project models the core of bones-engine, a small Rust game engine. It covers three parts:

- **The store.** A `World` holds a dense entity counter and a list of type-erased component columns. Each column is a `RefCell<Vec<Option<T>>>` for one concrete `T`.
- **The scheduler.** A `Skeleton` holds the world and two ordered system lists. It runs the init list once and then the frame list on every event-loop callback.
- **The render bridge.** `State::render` borrows the `Model` column and draws every model in it.

Type erasure becomes a type tag on each column. A downcast is a tag comparison. The `RefCell`'s exclusive borrow becomes a `borrowed` flag on the column. A borrow sets it, and `ReleaseBorrow` models the end of the guard's scope: it writes back what the holder left in the view and clears the flag. The GPU, the window and the asset loader are external collaborators:

- `LoadModel` takes the loader as a function from file names to `Loaded(model)` or `LoadError(message)`.
- `Render` takes the surface's answer to `get_current_texture` as a parameter.
- The scheduler takes the event loop's events as a sequence of deliveries.
- The scheduler takes what the systems do to the world as a function `effect`.

Files and modules:

- `assets.dfy` (`Assets`): the `Model` component, its instances and instance buffer.
- `components.dfy` (`Components`): the `ComponentVec` trait of `src/ecs/component.rs` (`push_none`, `as_any`, `as_any_mut`) as `src/ecs/world.rs` uses it, together with the first-match lookup, borrow and release.
- `engine.dfy` (`Engine`): `State`, `resize`, `input`, `render` and the state's own lookup.
- `world.dfy` (`Worlds`): `World` with `spawn_entity`, `add_component_to_entity`, `borrow_component_vec_mut` and `load_model`, plus the store's invariant `Valid`. `Valid` requires that every column has `entityCount` slots, that no type has two columns, and that every value sits in the column of its own type.
- `scheduler.dfy` (`Scheduler`): the builder methods, `_internal_run` and the event-loop callback.

One consequence of the code as written is proved in `Scheduler.EscapeNeverExits`. `input` consumes every keyboard event that carries a keycode. So the callback's arm that exits on a pressed Escape is never reached, and only a close request or an out-of-memory surface ends the loop (`Scheduler.Dispatch`).

Notes on the code as written:

- The render bridge runs only on a `RedrawRequested` event for the window, not on every callback.
- Render runs after `update`, not directly after the frame systems.
- `load_model` returns `Option<Model>`. It is `Some` whenever it returns, and it panics on a loader error.

## Model

| member | source | states |
|---|---|---|
| Components.PushNone | src/ecs/world.rs:19 | one more empty slot at the end of a column; earlier slots, type and borrow flag are kept |
| Components.Downcast | src/ecs/world.rs:60-62 | the downcast succeeds exactly when the column holds the requested type, and then yields that column's slots |
| Components.Find | src/ecs/world.rs:59-67 | the lookup finds nothing exactly when no column has the type; otherwise it finds the first column of that type |
| Components.BorrowMut | src/ecs/world.rs:59-67 | no column of the type gives nothing. If the first such column is already checked out, the result is a conflict (the `borrow_mut` panic). Otherwise the caller gets that column's slots, and only that column becomes checked out |
| Components.Release | src/ecs/world.rs:64 | dropping the guard stores the view's contents and clears the flag; column types and every other column are unchanged |
| Components.FindSeesOnlyTags | src/ecs/world.rs:59-65 | the lookup depends only on column types, not on slot contents or borrow flags |
| Components.FindUnique | src/ecs/world.rs:59-65 | when no type has two columns, the lookup finds a type's column wherever it sits |
| Worlds.PushNoneAll | src/ecs/world.rs:18-20 | every column, in order, gets exactly one trailing empty slot; types and flags are kept |
| Worlds.SpawnEntity | src/ecs/world.rs:16-23 | returns the old entity count and increases the count by one. Every existing column grows by one `None` and keeps its earlier slots. Nothing else changes |
| Worlds.SpawnKeepsValid | src/ecs/world.rs:16-23 | one spawn keeps a valid store valid |
| Worlds.RenderKeepsValid | src/engine/mod.rs:427-482 | a render from a valid store with no live guard leaves a valid store: the `Model` column is written back at its length, with models only |
| Worlds.NoneSlots | src/ecs/world.rs:42-48 | a new column starts with exactly `entity_count` empty slots |
| Worlds.ValidCanAdd | src/ecs/world.rs:36-51 | in a valid store, every entity below the count can be indexed on both paths of `add_component_to_entity` |
| Worlds.AddComponentToEntity | src/ecs/world.rs:25-54 | An existing column of the value's type gets `Some(v)` at the entity; all its other slots, all other columns and the entity count are unchanged. With no such column, one column is appended: it has `entity_count` slots, holds `Some(v)` at the entity and `None` elsewhere, and is not borrowed. The store invariant is preserved, including one column per type. The precondition is exactly the source's index-in-range condition |
| Worlds.BorrowComponentVecMut | src/ecs/world.rs:56-68 | nothing when no column has the type; a conflict when the first such column is already borrowed; otherwise the first such column's slots, with only that column marked borrowed |
| Worlds.LookupsAgree | src/engine/mod.rs:495-507 | the state's private lookup gives the same answer as the world's for every world and type |
| Worlds.ReleaseBorrow | src/ecs/world.rs:64 | ending the guard's scope writes back the view. The store keeps one slot per entity exactly when the holder left the view at `entity_count` slots, so growing or shrinking the vector through the guard breaks the invariant |
| Worlds.LoadModel | src/ecs/world.rs:70-80 | returns `Some` of the loader's model exactly when the loader succeeds, and otherwise panics with "Failed to load file: " followed by the error. It never returns `None` |
| Worlds.SecondBorrowConflicts | src/ecs/world.rs:64 | while a borrow of a type is live, borrowing the same type again conflicts |
| Worlds.ReleaseThenBorrowSucceeds | src/ecs/world.rs:64 | once the guard is released, the same type can be borrowed again, from the same column, and it shows what the previous holder left |
| Worlds.BorrowsOfOtherTypesIndependent | src/ecs/world.rs:59-65 | a live borrow of one type does not change the result of borrowing a different type |
| Worlds.ReadIsIdempotent | src/ecs/world.rs:56-68 | borrowing and then releasing without a write gives back the same world, so two reads in a row agree |
| Worlds.AddThenBorrowSees | src/ecs/world.rs:31-53 | after adding `v` at `e`, a borrow of its type succeeds. It shows `entity_count` slots, `Some(v)` at `e`, and every other slot as before (or `None` for a new column) |
| Worlds.SpawnManyCounts | src/ecs/world.rs:16-23 | after `n` spawns the count grew by `n` and no column type changed |
| Worlds.SpawnManyGrows | src/ecs/world.rs:16-23 | after `n` spawns every column holds its old slots unchanged followed by `n` empty ones |
| Worlds.SpawnManyValid | src/ecs/world.rs:16-23 | any number of spawns keeps a valid store valid |
| Worlds.PositionScenario | src/ecs/world.rs:16-68 | three spawns, then a position added to entity 1 only: the position column reads `[None, Some(p), None]` |
| Assets.InstanceData | src/engine/mod.rs:470 | the instance data has one raw record per instance, in instance order |
| Assets.Regenerate | src/engine/mod.rs:469-477 | a model's instance buffer is rebuilt to hold, at position `k`, the raw record of instance `k`, for every instance; meshes, materials and instances are unchanged |
| Assets.AsU32 | src/engine/mod.rs:480 | the `as u32` cast truncates: the result is below 2^32 and differs from the value by a multiple of 2^32, so it is the value itself below 2^32 |
| Engine.NewState | src/engine/mod.rs:356-359 | a fresh state has no entities, no columns, the mouse button released and an empty camera controller; size, surface configuration and projection all start at the window's size |
| Engine.Resize | src/engine/mod.rs:367-375 | a zero width or height leaves the state unchanged. Otherwise size, surface configuration and projection take the new size, and the store and input state are unchanged |
| Engine.Input | src/engine/mod.rs:377-405 | returns true exactly for a key event with a keycode, a wheel event, or a left-button event. A keyed event hands `KeyChange(key, state)` to the camera controller and a wheel event hands it `Scroll(delta)`; no other event reaches it. A left-button event sets the pressed flag to whether the button was pressed. Any other event returns false and changes nothing. Window, size, surface configuration, projection and the store are never touched |
| Engine.BorrowComponentVecMut | src/engine/mod.rs:495-507 | first column of the type, a conflict, or nothing: the same lookup as the world's |
| Engine.ReleaseBorrow | src/engine/mod.rs:484-486 | the `Model` guard's scope ends: that column gets the slots left by the pass and becomes free, every other column and every column type is unchanged, and nothing outside the store changes |
| Engine.DrawFor | src/engine/mod.rs:469-480 | a drawn model carries its rebuilt instance buffer; its draw range starts at 0, never exceeds that buffer, and ends at the instance count truncated to 32 bits (`as u32`) |
| Engine.Render | src/engine/mod.rs:420-493 | A failed frame acquisition returns that error with no draw, submit or present. Otherwise the commands end with submit then present, no guard is live afterwards, and only column contents can change. With no `Model` column the state is unchanged and the commands are exactly submit, present |
| Engine.DrawPass | src/engine/mod.rs:465-482 | the walk over the `Model` column keeps every slot in place and rebuilds the instance buffer of each model it finds |
| Engine.DrawPassSound | src/engine/mod.rs:465-482 | every draw comes from a slot that holds a model, with that model's draw |
| Engine.DrawPassAscending | src/engine/mod.rs:465-466 | draws come out in strictly ascending entity order |
| Engine.DrawPassComplete | src/engine/mod.rs:465-466 | every slot that holds a model is drawn; `None` slots are skipped |
| Engine.RenderWalksModelColumn | src/engine/mod.rs:427-492 | When a `Model` column exists and a frame is acquired, render emits begin-pass, the draws of the walk over that column, submit and present. The column is written back with the walked slots, and every other column is unchanged |
| Engine.RenderDrawsModels | src/engine/mod.rs:464-482 | Those draws are one per model in the column, in ascending entity order, and no others. Each draw covers the model's whole instance range after its buffer is rebuilt |
| Engine.RenderDrawsEveryOccupiedSlot | src/engine/mod.rs:465-467 | in a store whose columns hold only their own type, every `Some` slot of the `Model` column is drawn |
| Scheduler.AddInitSystem | src/ecs/mod.rs:252-255 | appends to the end of the init list; the frame list and the world are untouched |
| Scheduler.AddSystem | src/ecs/mod.rs:257-260 | appends to the end of the frame list; the init list and the world are untouched |
| Scheduler.Apply | src/ecs/mod.rs:252-260 | one builder call adds its system to its own list only |
| Scheduler.RegisterKeepsOrder | src/ecs/mod.rs:252-260 | for any interleaving of builder calls, each list holds its own registrations in call order |
| Scheduler.ClassifyRender | src/ecs/mod.rs:232-240 | lost or outdated means reconfigure, out of memory means exit, timeout means log "Surface timeout", and success means nothing |
| Scheduler.ClassifyWindowEvent | src/ecs/mod.rs:204-224 | for an event `input` declined: a close request or a pressed Escape exits, and a resize or scale change forwards its new size. Nothing else acts |
| Scheduler.Perform | src/ecs/mod.rs:215-240 | exit sets the sticky exit flag and a log adds one warning. Reconfigure resizes to the current size and a resize uses the given size. Nothing else changes |
| Scheduler.Dispatch | src/ecs/mod.rs:192-248 | The loop exits exactly on a close request for the window or an out-of-memory frame. A frame is produced exactly for a redraw of the window whose surface answered: the frame is exactly the commands `render` issues, and the world is the state `render` leaves. A warning is produced exactly for a timed-out surface. No system is called, entities and column types are kept, and no guard is left live |
| Scheduler.EscapeNeverExits | src/ecs/mod.rs:203-215 | a pressed Escape is consumed by `input` and never sets exit |
| Scheduler.DispatchForwards | src/ecs/mod.rs:193-235 | resize and scale-factor events reach `resize` with their size. A lost or outdated surface is resized to the current size. Mouse motion reaches the camera controller only while the left button is held |
| Scheduler.DispatchKeepsValid | src/ecs/mod.rs:192-248 | one callback dispatch keeps a valid store valid, whatever the event |
| Scheduler.DispatchLeavesRest | src/ecs/mod.rs:192-248 | a window event `input` consumes keeps exactly the state `input` left, with no effect and no exit. A timed-out frame leaves the world as it was. Only `RedrawEventsCleared` requests a redraw. Mouse motion changes only the camera controller, never exits and emits nothing. A timed-out frame emits exactly the warning "Surface timeout"; an out-of-memory frame leaves the world as it was and emits nothing. Ignored events, events and redraws for another window, and declined window events other than a resize or scale change leave the world as it was |
| Scheduler.RunSystems | src/ecs/mod.rs:159-161 | each system of the list is called exactly once, in registration order. The call of system `k` records the world the first `k` systems left, and the result is the world all of them left (`Applied`, built from the end of the list); borrows stay scoped |
| Scheduler.RunSystemsChains | src/ecs/mod.rs:188-190 | each system after the first is handed exactly the world its predecessor returned |
| Scheduler.RunSystemsEnds | src/ecs/mod.rs:188-190 | the first system is handed the starting world, and the loop ends with the last system's result, or the starting world when the list is empty |
| Scheduler.Callback | src/ecs/mod.rs:184-249 | every frame system runs, in order, each handed the world the previous one left, before anything the event causes. Exit, once set, stays set, and no guard is live afterwards |
| Scheduler.CallbackDispatchesAfterSystems | src/ecs/mod.rs:188-192 | the event is dispatched on the world the frame systems left, and the callback keeps the dispatch's world, exit flag and effects |
| Scheduler.RunLoop | src/ecs/mod.rs:184-249 | no deliveries leave the world and exit flag as they were; the loop keeps no live guard and a sticky exit |
| Scheduler.RunLoopOne | src/ecs/mod.rs:184-249 | one delivery is exactly one callback |
| Scheduler.RunLoopCons | src/ecs/mod.rs:184-249 | a delivery followed by more is one callback, then the loop over the rest from the world and exit flag it left |
| Scheduler.RunLoopSplits | src/ecs/mod.rs:184-249 | the loop over two runs of deliveries is the loop over the first followed by the loop over the second from the world and exit flag the first left |
| Scheduler.Run | src/ecs/mod.rs:158-190 | the run opens with the init systems, each once, in order, each handed the world the previous one left. The loop then starts, not yet exited, from the world the init systems left, and the run ends with the loop's world and effects. No guard is live at the end |
| Scheduler.RunLoopCalls | src/ecs/mod.rs:184-190 | over `n` callbacks the frame systems are called `n` times over, in registration order |
| Scheduler.RunCallsInitThenFrames | src/ecs/mod.rs:158-190 | the systems called over the whole run are the init list followed by the frame list repeated once per delivered event |
| Scheduler.ThreeTickScenario | src/ecs/mod.rs:158-190 | init `A`, frame `B` then `C`, three callbacks: the calls are `A, B, C, B, C, B, C` |

## Left out

- GPU and window setup (`Skeleton::new`, `_internal_new`, `State::new` apart from its ECS fields, `create_render_pipeline`): foreign wgpu and winit calls with no logic of the core.
- `State::update` (camera movement and light rotation), `CameraUniform`, camera and projection maths, and `Instance::to_raw`: floating-point matrix and quaternion code. `InstanceRaw` records only which instance it came from, and the redraw branch does not model `update`.
- The camera controller's processing: the model records only which key, scroll and mouse-motion inputs reach it.
- The draw encoding inside `draw_model` (meshes, materials, bind groups, `set_pipeline`, `set_vertex_buffer`): each drawn model is one `Issue` command.
- `src/engine/light.rs`, `macros/src/lib.rs`, `src/lib.rs`: GPU buffers over float uniforms, an empty derive macro, and re-exports.
- The wasm32 configuration: canvas setup, logger initialisation, and the absence of the close/Escape arm on that target. The native target is modelled.
- winit's event loop: the model processes exactly the deliveries it is given. Whether the loop stops after exit is set, or delivers a final event, is up to that external loop. Elapsed time (`last_render_time`) is not modelled.
- Panics inside systems: a system is a total function on the world.
- Surface sizes and entity ids are unbounded naturals, not `u32` and `usize`. Overflow of the entity counter is not modelled.
- Worlds.AddComponentToEntity: does not model a `borrow_mut` panic on a column whose guard is live. The `&mut self` receiver means no guard can be live when it runs.
- Engine.Render: requires that no guard is live instead of modelling the `RefCell` panic. Its `&mut self` receiver rules out a live guard. The same requirement is carried by `Scheduler.Dispatch` and `Scheduler.Callback`.
- Scheduler.Run: assumes each system returns with no guard live (`ReleasesBorrows`). A `RefMut` cannot outlive the `&mut World` borrow a system receives.
