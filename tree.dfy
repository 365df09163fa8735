/**
 * The open/closed state derivation of the table of contents: active-path
 * detection (`hasActiveChildren`), the open-state resolver (`getOpenState`)
 * and the tree mapper (`mapItemUIState`), all pure functions over the item tree.
 */
module TocTree {
  import opened Wrappers
  import opened Identifiers

  /** The item types `menu`, `link` and `bullet-link`. */
  datatype Kind = Menu | Link | BulletLink

  /** The `children` field of an item: absent, or present (possibly as an empty array). */
  datatype ChildList = Absent | Present(items: seq<Item>)

  /** An item of the tree. Raw items from the caller carry no `id` and no `isOpen`;
      the mapper adds both, and a mapped tree is what the next recomputation reads. */
  datatype Item = Item(
    kind: Kind,
    title: string,
    path: Option<string>,
    children: ChildList,
    id: Option<string>,
    isOpen: Option<bool>)

  /** The `{ id, isOpen }` argument of `setMenuOpenStateById`. */
  datatype SingleItemUpdate = SingleItemUpdate(id: string, isOpen: bool)

  /** The arguments that `mapItemUIState` passes unchanged to every level of the recursion;
      an absent `globalItemUpdate`, `singleItemUpdate` or `lastFocusedId` is `None`,
      an absent `didChangeCurrentPath` is `false`. */
  datatype MapArgs = MapArgs(
    currentPath: string,
    didChangeCurrentPath: bool,
    globalItemUpdate: Option<bool>,
    singleItemUpdate: Option<SingleItemUpdate>,
    lastFocusedId: Option<string>)

  /** Only these items get an `isOpen` field; an empty `children` array counts as present. */
  predicate IsMenuWithChildren(item: Item) {
    item.kind == Menu && item.children.Present?
  }

  /** The predicate given to `children.find`: the child is on the current path, is the last
      focused item, or has such an item among its own descendants. The comparison of ids is
      JavaScript's `===` on possibly undefined values, so two absent values are equal. */
  predicate IsActiveChild(child: Item, currentPath: string, lastFocusedId: Option<string>) {
    || child.path == Some(currentPath)
    || child.id == lastFocusedId
    || (child.children.Present? && HasActiveChildren(child.children.items, currentPath, lastFocusedId))
  }

  /** Whether `children.find` meets an active child, scanning left to right. */
  predicate HasActiveChildren(children: seq<Item>, currentPath: string, lastFocusedId: Option<string>) {
    && children != []
    && (IsActiveChild(children[0], currentPath, lastFocusedId)
        || HasActiveChildren(children[1..], currentPath, lastFocusedId))
  }

  /** The open state of one menu whose children are already mapped; the first rule that applies wins. */
  function GetOpenState(item: Item, args: MapArgs): bool
    requires item.children.Present?
  {
    var withActiveChildren := HasActiveChildren(item.children.items, args.currentPath, args.lastFocusedId);
    if item.isOpen.None? then withActiveChildren
    else if args.didChangeCurrentPath && withActiveChildren then true
    else if args.globalItemUpdate.Some? then args.globalItemUpdate.value
    else if args.singleItemUpdate.Some? && Some(args.singleItemUpdate.value.id) == item.id then
      args.singleItemUpdate.value.isOpen
    else item.isOpen.value
  }

  /** One item of `mapItemUIState`: the id first, then the children at the next depth,
      then (for a menu with children only) the open state. Every other field, a prior
      `isOpen` included, is carried over as the object spread does. */
  function MapItem(itemWithoutId: Item, depth: nat, args: MapArgs): Item {
    var children :=
      if itemWithoutId.children.Present? then
        Present(MapItemUIState(itemWithoutId.children.items, depth + 1, args))
      else Absent;
    var item := itemWithoutId.(id := Some(NodeId(itemWithoutId.title, depth)), children := children);
    if IsMenuWithChildren(item) then item.(isOpen := Some(GetOpenState(item, args))) else item
  }

  /** `mapItemUIState`: the items mapped one by one, in order. */
  function MapItemUIState(items: seq<Item>, depth: nat, args: MapArgs): seq<Item> {
    seq(|items|, i requires 0 <= i < |items| => MapItem(items[i], depth, args))
  }

  // ---------------------------------------------------------------------------
  // Vocabulary for stating properties of whole trees.

  /** An item without its children: what a recomputation may change or keep at one node. */
  datatype Label = Label(
    kind: Kind,
    title: string,
    path: Option<string>,
    hasChildren: bool,
    id: Option<string>,
    isOpen: Option<bool>)

  function LabelOf(x: Item): Label {
    Label(x.kind, x.title, x.path, x.children.Present?, x.id, x.isOpen)
  }

  /** `a` and `b` have the same shape (the same number of items at every level, in the same
      order, with a `children` field at the same places) and `r` relates every item of `a`
      to the item of `b` at the same position, at its depth. */
  ghost predicate Corresponds(a: seq<Item>, b: seq<Item>, depth: nat, r: (Item, Item, nat) -> bool) {
    && |a| == |b|
    && forall i :: 0 <= i < |a| ==> CorrespondsAt(a[i], b[i], depth, r)
  }

  ghost predicate CorrespondsAt(x: Item, y: Item, depth: nat, r: (Item, Item, nat) -> bool) {
    && r(x, y, depth)
    && x.children.Present? == y.children.Present?
    && (x.children.Present? ==> Corresponds(x.children.items, y.children.items, depth + 1, r))
  }

  /** Every item of the tree `a`, at its depth, satisfies `p`. */
  ghost predicate Everywhere(a: seq<Item>, depth: nat, p: (Item, nat) -> bool) {
    forall i :: 0 <= i < |a| ==> EverywhereAt(a[i], depth, p)
  }

  ghost predicate EverywhereAt(x: Item, depth: nat, p: (Item, nat) -> bool) {
    && p(x, depth)
    && (x.children.Present? ==> Everywhere(x.children.items, depth + 1, p))
  }

  /** All items of the forest, each before its descendants, siblings left to right. */
  function Descendants(items: seq<Item>): seq<Item> {
    if items == [] then [] else Subtree(items[0]) + Descendants(items[1..])
  }

  function Subtree(x: Item): seq<Item> {
    [x] + (if x.children.Present? then Descendants(x.children.items) else [])
  }

  /** An item that makes its ancestors active. */
  predicate Matches(x: Item, currentPath: string, lastFocusedId: Option<string>) {
    x.path == Some(currentPath) || x.id == lastFocusedId
  }
}
