/** The entity-component store (src/ecs/world.rs).

    A `World` wraps the renderer state, whose `entityCount` and `componentVecs` are the
    store. Entities are dense indices `0 .. entityCount`; each column holds one slot per
    entity for one component type. */
module Worlds {
  import opened Assets
  import opened Components
  import Engine

  datatype World = World(state: Engine.State)

  /** The store's invariant: every column has one slot per entity, no type has two
      columns, and each column holds only values of its own type. */
  predicate Valid(w: World)
  {
    && SizedTo(w.state.entityCount, w.state.componentVecs)
    && UniqueTags(w.state.componentVecs)
    && WellTyped(w.state.componentVecs)
  }

  /** `push_none` on every column, in order. */
  function PushNoneAll(cols: seq<Column>): (r: seq<Column>)
    ensures SameTags(cols, r)
    ensures forall i :: 0 <= i < |cols| ==>
      r[i].borrowed == cols[i].borrowed && r[i].slots == cols[i].slots + [None]
  {
    if |cols| == 0 then [] else [PushNone(cols[0])] + PushNoneAll(cols[1..])
  }

  /** `World::spawn_entity`: the new entity is the old count; every existing column
      grows by exactly one empty slot and keeps its earlier slots; nothing else changes. */
  function SpawnEntity(w: World): (r: (World, nat))
    ensures r.1 == w.state.entityCount
    ensures r.0.state.entityCount == w.state.entityCount + 1
    ensures SameTags(w.state.componentVecs, r.0.state.componentVecs)
    ensures forall i :: 0 <= i < |w.state.componentVecs| ==>
      var before := w.state.componentVecs[i];
      var after := r.0.state.componentVecs[i];
      after.borrowed == before.borrowed && after.slots == before.slots + [None]
    ensures r.0.state == w.state.(entityCount := r.0.state.entityCount, componentVecs := r.0.state.componentVecs)
  {
    var id := w.state.entityCount;
    var cols := PushNoneAll(w.state.componentVecs);
    (World(w.state.(entityCount := id + 1, componentVecs := cols)), id)
  }

  /** A spawn keeps a valid store valid. */
  lemma SpawnKeepsValid(w: World)
    requires Valid(w)
    ensures Valid(SpawnEntity(w).0)
  {
  }

  /** A render keeps a valid store valid: the `Model` column is written back with one
      slot per entity, each model refreshed in place and every other slot untouched. */
  lemma RenderKeepsValid(w: World)
    requires Valid(w) && Unborrowed(w.state.componentVecs)
    ensures Valid(World(Engine.Render(w.state, None).state))
  {
  }

  /** Indexing slot `e` cannot panic: it is in range of the column `add_component_to_entity`
      would write, whether that column exists or is about to be built. */
  predicate CanAdd(w: World, tag: TypeTag, e: nat)
  {
    match Find(w.state.componentVecs, tag)
    case Some(i) => e < |w.state.componentVecs[i].slots|
    case None => e < w.state.entityCount
  }

  /** In a valid world every entity can receive a component of any type. */
  lemma ValidCanAdd(w: World, tag: TypeTag, e: nat)
    requires Valid(w) && e < w.state.entityCount
    ensures CanAdd(w, tag, e)
  {
  }

  /** A fresh column's contents: `n` empty slots. */
  function NoneSlots(n: nat): (r: seq<Slot>)
    ensures |r| == n && forall k :: 0 <= k < n ==> r[k] == None
  {
    if n == 0 then [] else NoneSlots(n - 1) + [None]
  }

  /** `World::add_component_to_entity`: write `Some(c)` into slot `e` of the first column of
      `c`'s type, or, when there is none, append a column of `None`s sized to the entity
      count holding `Some(c)` at `e`. */
  function AddComponentToEntity(w: World, e: nat, c: Component): (r: World)
    requires CanAdd(w, TagOf(c), e)
    ensures r.state == w.state.(componentVecs := r.state.componentVecs)
    ensures Find(w.state.componentVecs, TagOf(c)).Some? ==> SameTags(w.state.componentVecs, r.state.componentVecs)
    ensures Find(w.state.componentVecs, TagOf(c)).Some? ==>
      var i := Find(w.state.componentVecs, TagOf(c)).value;
      var before := w.state.componentVecs[i];
      var after := r.state.componentVecs[i];
      && after.borrowed == before.borrowed
      && |after.slots| == |before.slots|
      && after.slots[e] == Some(c)
      && (forall k :: 0 <= k < |before.slots| && k != e ==> after.slots[k] == before.slots[k])
      && (forall j :: 0 <= j < |w.state.componentVecs| && j != i ==>
            r.state.componentVecs[j] == w.state.componentVecs[j])
    ensures Find(w.state.componentVecs, TagOf(c)).None? ==>
      var n := |w.state.componentVecs|;
      && |r.state.componentVecs| == n + 1
      && r.state.componentVecs[..n] == w.state.componentVecs
      && r.state.componentVecs[n].tag == TagOf(c)
      && !r.state.componentVecs[n].borrowed
      && |r.state.componentVecs[n].slots| == w.state.entityCount
      && r.state.componentVecs[n].slots[e] == Some(c)
      && (forall k :: 0 <= k < w.state.entityCount && k != e ==> r.state.componentVecs[n].slots[k] == None)
    ensures Valid(w) ==> Valid(r)
  {
    var cols := w.state.componentVecs;
    match Find(cols, TagOf(c))
    case Some(i) =>
      World(w.state.(componentVecs := cols[i := cols[i].(slots := cols[i].slots[e := Some(c)])]))
    case None =>
      var filled := NoneSlots(w.state.entityCount)[e := Some(c)];
      World(w.state.(componentVecs := cols + [Column(TagOf(c), filled, false)]))
  }

  /** `World::borrow_component_vec_mut`: nothing when no column has type `tag`; otherwise
      the first such column, checked out, or a conflict when it already is. */
  function BorrowComponentVecMut(w: World, tag: TypeTag): (r: Borrow<World>)
    ensures r.NoColumn? <==> forall i :: 0 <= i < |w.state.componentVecs| ==> w.state.componentVecs[i].tag != tag
    ensures r.BorrowConflict? <==>
      exists i: nat :: FirstOfType(w.state.componentVecs, tag, i) && w.state.componentVecs[i].borrowed
    ensures r.Granted? ==>
      Grants(w.state.componentVecs, tag, r.index, r.view, r.after.state.componentVecs)
      && r.after.state == w.state.(componentVecs := r.after.state.componentVecs)
  {
    match BorrowMut(w.state.componentVecs, tag)
    case NoColumn => NoColumn
    case BorrowConflict => BorrowConflict
    case Granted(i, view, cols) => Granted(i, view, World(w.state.(componentVecs := cols)))
  }

  /** The renderer's private lookup on the state behaves exactly like the world's. */
  lemma LookupsAgree(w: World, tag: TypeTag)
    ensures var a := BorrowComponentVecMut(w, tag);
      var b := Engine.BorrowComponentVecMut(w.state, tag);
      && a.NoColumn? == b.NoColumn?
      && a.BorrowConflict? == b.BorrowConflict?
      && (a.Granted? ==> b.Granted? && a.index == b.index && a.view == b.view && a.after.state == b.after)
  {
  }

  /** The guard returned for column `i` goes out of scope; `view` is what the holder left in it. */
  function ReleaseBorrow(w: World, i: nat, view: seq<Slot>): (r: World)
    requires i < |w.state.componentVecs|
    ensures r.state == w.state.(componentVecs := Release(w.state.componentVecs, i, view))
    ensures SizedTo(w.state.entityCount, w.state.componentVecs) ==>
      (SizedTo(r.state.entityCount, r.state.componentVecs) <==> |view| == w.state.entityCount)
  {
    World(w.state.(componentVecs := Release(w.state.componentVecs, i, view)))
  }

  /** What the external asset loader answers for a file. */
  datatype LoadReply = Loaded(model: Model) | LoadError(message: string)

  /** A call that either returns or panics with a message. */
  datatype Outcome<T> = Returned(value: T) | Panicked(message: string)

  /** `World::load_model`: the loader's model, or a panic naming its error; never `None`. */
  function LoadModel(w: World, filename: string, loader: string -> LoadReply): (r: Outcome<Option<Model>>)
    ensures r.Returned? <==> loader(filename).Loaded?
    ensures r.Returned? ==> r.value == Some(loader(filename).model)
    ensures r.Panicked? ==> r.message == "Failed to load file: " + loader(filename).message
  {
    match loader(filename)
    case Loaded(model) => Returned(Some(model))
    case LoadError(error) => Panicked("Failed to load file: " + error)
  }

  /** While a borrow of a column is live, borrowing the same type again conflicts. */
  lemma SecondBorrowConflicts(w: World, tag: TypeTag)
    requires BorrowComponentVecMut(w, tag).Granted?
    ensures BorrowComponentVecMut(BorrowComponentVecMut(w, tag).after, tag).BorrowConflict?
  {
  }

  /** Once the guard is dropped, the same type can be borrowed again, and the new view
      shows what the previous holder left. */
  lemma ReleaseThenBorrowSucceeds(w: World, tag: TypeTag, view: seq<Slot>)
    requires BorrowComponentVecMut(w, tag).Granted?
    ensures var b := BorrowComponentVecMut(w, tag);
      var again := BorrowComponentVecMut(ReleaseBorrow(b.after, b.index, view), tag);
      again.Granted? && again.index == b.index && again.view == view
  {
  }

  /** Borrowing is per type: a live guard on one type does not change what borrowing a
      different type yields. */
  lemma BorrowsOfOtherTypesIndependent(w: World, tag: TypeTag, other: TypeTag)
    requires BorrowComponentVecMut(w, tag).Granted? && tag != other
    ensures var held := BorrowComponentVecMut(w, tag).after;
      var before := BorrowComponentVecMut(w, other);
      var during := BorrowComponentVecMut(held, other);
      && before.NoColumn? == during.NoColumn?
      && before.BorrowConflict? == during.BorrowConflict?
      && (before.Granted? ==> during.Granted? && during.index == before.index && during.view == before.view)
  {
    var b := BorrowComponentVecMut(w, tag);
    FindSeesOnlyTags(w.state.componentVecs, b.after.state.componentVecs, other);
    var f := Find(w.state.componentVecs, other);
    if f.Some? {
      assert f.value != b.index;
      assert FirstOfType(b.after.state.componentVecs, other, f.value);
    }
  }

  /** Borrowing and releasing without writing leaves the world as it was, so reading a
      column twice in a row yields the same view. */
  lemma ReadIsIdempotent(w: World, tag: TypeTag)
    requires BorrowComponentVecMut(w, tag).Granted?
    ensures var b := BorrowComponentVecMut(w, tag);
      ReleaseBorrow(b.after, b.index, b.view) == w
  {
  }

  /** After `add_component_to_entity(e, c)`, borrowing `c`'s type shows `Some(c)` at `e`,
      and every other slot as it was before (or `None` when the column is new). */
  lemma AddThenBorrowSees(w: World, e: nat, c: Component)
    requires Valid(w) && Unborrowed(w.state.componentVecs) && e < w.state.entityCount
    ensures var b := BorrowComponentVecMut(AddComponentToEntity(w, e, c), TagOf(c));
      && b.Granted?
      && |b.view| == w.state.entityCount
      && b.view[e] == Some(c)
      && forall k :: 0 <= k < w.state.entityCount && k != e ==>
           b.view[k] == (match Find(w.state.componentVecs, TagOf(c))
                         case Some(i) => w.state.componentVecs[i].slots[k]
                         case None => None)
  {
  }

  /** `n` spawns in a row. */
  function SpawnMany(w: World, n: nat): (r: World)
    decreases n
  {
    if n == 0 then w else SpawnMany(SpawnEntity(w).0, n - 1)
  }

  /** After `n` spawns the count grew by `n` and no column changed its type. */
  lemma {:induction false} SpawnManyCounts(w: World, n: nat)
    ensures var r := SpawnMany(w, n);
      && r.state.entityCount == w.state.entityCount + n
      && SameTags(w.state.componentVecs, r.state.componentVecs)
    decreases n
  {
    if n > 0 {
      SpawnManyCounts(SpawnEntity(w).0, n - 1);
    }
  }

  /** After `n` spawns every column is its old slots followed by `n` empty ones. */
  lemma {:induction false} SpawnManyGrows(w: World, n: nat)
    ensures var cols := SpawnMany(w, n).state.componentVecs;
      && |cols| == |w.state.componentVecs|
      && forall i :: 0 <= i < |cols| ==> cols[i].slots == w.state.componentVecs[i].slots + NoneSlots(n)
    decreases n
  {
    if n > 0 {
      var w1 := SpawnEntity(w).0;
      SpawnManyGrows(w1, n - 1);
      forall i | 0 <= i < |w.state.componentVecs|
        ensures SpawnMany(w1, n - 1).state.componentVecs[i].slots == w.state.componentVecs[i].slots + NoneSlots(n)
      {
        NoneSlotsAfter(w.state.componentVecs[i].slots, n);
      }
    }
  }

  /** One empty slot followed by `n - 1` more is `n` empty slots. */
  lemma NoneSlotsAfter(s: seq<Slot>, n: nat)
    requires n > 0
    ensures s + [None] + NoneSlots(n - 1) == s + NoneSlots(n)
  {
  }

  /** Any number of spawns keeps a valid store valid. */
  lemma {:induction false} SpawnManyValid(w: World, n: nat)
    requires Valid(w)
    ensures Valid(SpawnMany(w, n))
    decreases n
  {
    if n > 0 {
      SpawnKeepsValid(w);
      SpawnManyValid(SpawnEntity(w).0, n - 1);
    }
  }

  /** Three spawns, then a position added to the middle entity only: the position
      column reads `[None, Some(p), None]`. */
  lemma PositionScenario(windowId: nat, size: Engine.Size)
    ensures var w3 := SpawnMany(World(Engine.NewState(windowId, size)), 3);
      var p := UserComponent(0, [1, 0, 0]);
      var b := BorrowComponentVecMut(AddComponentToEntity(w3, 1, p), UserType(0));
      && w3.state.entityCount == 3
      && b.Granted? && b.view == [None, Some(p), None]
  {
  }
}
