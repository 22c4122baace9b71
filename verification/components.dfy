/** Type-erased component storage: the `ComponentVec` trait of src/ecs/component.rs
    (`push_none`, `as_any`, `as_any_mut`) as src/ecs/world.rs and src/engine/mod.rs use it.

    A column is a `RefCell<Vec<Option<T>>>` behind a `Box<dyn ComponentVec>`. Here it
    is a tag naming `T`, the slots, and the RefCell's exclusive-borrow flag. The
    `ComponentVec` interface is `push_none` (used on every spawn) and `as_any` /
    `as_any_mut` followed by a downcast, which succeeds exactly when the tags agree. */
module Components {
  import opened Assets

  datatype Option<T> = None | Some(value: T)

  /** The runtime identity of a concrete component type (its `TypeId`). */
  datatype TypeTag = ModelType | UserType(id: nat)

  /** A component value. `Model` is the one type the core itself inspects; every other
      `'static` type a program attaches is an opaque user type with an identity. */
  datatype Component = ModelComponent(model: Model) | UserComponent(id: nat, fields: seq<int>)

  /** The static type of a component value, i.e. the `T` of `add_component_to_entity::<T>`. */
  function TagOf(c: Component): TypeTag
  {
    match c
    case ModelComponent(_) => ModelType
    case UserComponent(id, _) => UserType(id)
  }

  type Slot = Option<Component>

  datatype Column = Column(tag: TypeTag, slots: seq<Slot>, borrowed: bool)

  /** `ComponentVec::push_none`: one more empty slot at the end. */
  function PushNone(c: Column): (r: Column)
    ensures r.tag == c.tag && r.borrowed == c.borrowed
    ensures |r.slots| == |c.slots| + 1 && r.slots[..|c.slots|] == c.slots && r.slots[|c.slots|] == None
  {
    c.(slots := c.slots + [None])
  }

  /** `as_any().downcast_ref::<RefCell<Vec<Option<T>>>>()`: the slots when the column
      holds `tag`'s type, nothing otherwise. */
  function Downcast(c: Column, tag: TypeTag): (r: Option<seq<Slot>>)
    ensures r.Some? <==> c.tag == tag
    ensures r.Some? ==> r.value == c.slots
  {
    if c.tag == tag then Some(c.slots) else None
  }

  /** `i` is the first column whose downcast to `tag` succeeds. */
  predicate FirstOfType(cols: seq<Column>, tag: TypeTag, i: nat)
  {
    i < |cols| && cols[i].tag == tag && forall j :: 0 <= j < i ==> cols[j].tag != tag
  }

  /** The scan shared by every lookup: walk the columns in order and stop at the first
      one whose downcast succeeds. */
  function Find(cols: seq<Column>, tag: TypeTag): (r: Option<nat>)
    ensures r.None? <==> forall i :: 0 <= i < |cols| ==> cols[i].tag != tag
    ensures r.Some? ==> FirstOfType(cols, tag, r.value)
    decreases |cols|
  {
    if |cols| == 0 then None
    else if Downcast(cols[0], tag).Some? then Some(0)
    else match Find(cols[1..], tag)
      case None => None
      case Some(i) => Some(i + 1)
  }

  /** Every column holds exactly `n` slots. */
  predicate SizedTo(n: nat, cols: seq<Column>)
  {
    forall i :: 0 <= i < |cols| ==> |cols[i].slots| == n
  }

  /** No two columns hold the same component type. */
  predicate UniqueTags(cols: seq<Column>)
  {
    forall i, j :: 0 <= i < j < |cols| ==> cols[i].tag != cols[j].tag
  }

  /** Every value stored in a column is of that column's type. */
  predicate WellTyped(cols: seq<Column>)
  {
    forall i, k :: 0 <= i < |cols| && 0 <= k < |cols[i].slots| && cols[i].slots[k].Some? ==>
      TagOf(cols[i].slots[k].value) == cols[i].tag
  }

  /** No `RefMut` guard is live on any column. */
  predicate Unborrowed(cols: seq<Column>)
  {
    forall i :: 0 <= i < |cols| ==> !cols[i].borrowed
  }

  /** Two column lists agree on every column's type (contents and flags may differ). */
  predicate SameTags(a: seq<Column>, b: seq<Column>)
  {
    |a| == |b| && forall i :: 0 <= i < |a| ==> a[i].tag == b[i].tag
  }

  /** The result of `RefCell::borrow_mut` on the first column of a type: no such column,
      a live guard already on it (the `BorrowMutError` panic), or an exclusive view
      of its slots together with the store in which the column is now checked out. */
  datatype Borrow<S> = NoColumn | BorrowConflict | Granted(index: nat, view: seq<Slot>, after: S)

  /** `after` is `cols` with column `i` checked out, and `view` is what that column held. */
  predicate Grants(cols: seq<Column>, tag: TypeTag, i: nat, view: seq<Slot>, after: seq<Column>)
  {
    FirstOfType(cols, tag, i) && !cols[i].borrowed && view == cols[i].slots
    && |after| == |cols| && after[i] == cols[i].(borrowed := true)
    && forall j :: 0 <= j < |cols| && j != i ==> after[j] == cols[j]
  }

  /** Exclusive access to the first column of type `tag`. */
  function BorrowMut(cols: seq<Column>, tag: TypeTag): (r: Borrow<seq<Column>>)
    ensures r.NoColumn? <==> forall i :: 0 <= i < |cols| ==> cols[i].tag != tag
    ensures r.BorrowConflict? <==> exists i: nat :: FirstOfType(cols, tag, i) && cols[i].borrowed
    ensures r.Granted? ==> Grants(cols, tag, r.index, r.view, r.after)
  {
    match Find(cols, tag)
    case None => NoColumn
    case Some(i) =>
      if cols[i].borrowed then BorrowConflict
      else Granted(i, cols[i].slots, cols[i := cols[i].(borrowed := true)])
  }

  /** Dropping the guard for column `i`: whatever was written through the view becomes
      the column's contents, and the column can be borrowed again. */
  function Release(cols: seq<Column>, i: nat, view: seq<Slot>): (r: seq<Column>)
    requires i < |cols|
    ensures SameTags(cols, r)
    ensures r[i].slots == view && !r[i].borrowed
    ensures forall j :: 0 <= j < |cols| && j != i ==> r[j] == cols[j]
  {
    cols[i := Column(cols[i].tag, view, false)]
  }

  /** Lookups see only column types: lists with the same tags find the same column. */
  lemma FindSeesOnlyTags(a: seq<Column>, b: seq<Column>, tag: TypeTag)
    requires SameTags(a, b)
    ensures Find(a, tag) == Find(b, tag)
  {
  }

  /** With unique tags, the column of a type is found wherever it sits. */
  lemma FindUnique(cols: seq<Column>, tag: TypeTag, i: nat)
    requires UniqueTags(cols) && i < |cols| && cols[i].tag == tag
    ensures Find(cols, tag) == Some(i)
  {
  }
}
