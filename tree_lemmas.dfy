/**
 * Properties of the tree mapper: what one recomputation keeps, what it assigns,
 * and how each kind of update (none, path change, global, single) changes the
 * open states of a tree that already carries UI state.
 */
module TocTreeLemmas {
  import opened Wrappers
  import opened Identifiers
  import opened TocTree

  // ---------------------------------------------------------------------------
  // Relations between an input item and the item mapped from it.

  /** The output item is the mapper's result for the input item at its depth. */
  function Mapped(args: MapArgs): (Item, Item, nat) -> bool {
    (x: Item, y: Item, d: nat) => y == MapItem(x, d, args)
  }

  function ShapeKept(): (Item, Item, nat) -> bool {
    (x: Item, y: Item, d: nat) => y.kind == x.kind && y.title == x.title && y.path == x.path
  }

  function IdAssigned(): (Item, Item, nat) -> bool {
    (x: Item, y: Item, d: nat) => y.id == Some(NodeId(x.title, d))
  }

  function OpenPresence(): (Item, Item, nat) -> bool {
    (x: Item, y: Item, d: nat) => if IsMenuWithChildren(x) then y.isOpen.Some? else y.isOpen == x.isOpen
  }

  function FirstComputed(args: MapArgs): (Item, Item, nat) -> bool {
    (x: Item, y: Item, d: nat) =>
      IsMenuWithChildren(x) && x.isOpen.None? ==>
        y.children.Present? &&
        y.isOpen == Some(HasActiveChildren(y.children.items, args.currentPath, args.lastFocusedId))
  }

  function SamePathAndId(): (Item, Item, nat) -> bool {
    (x: Item, y: Item, d: nat) => y.path == x.path && y.id == x.id
  }

  function PathChanged(currentPath: string, lastFocusedId: Option<string>): (Item, Item, nat) -> bool {
    (x: Item, y: Item, d: nat) =>
      LabelOf(y) ==
        if IsMenuWithChildren(x) && HasActiveChildren(x.children.items, currentPath, lastFocusedId)
        then LabelOf(x).(isOpen := Some(true))
        else LabelOf(x)
  }

  function GlobalUpdated(isOpen: bool): (Item, Item, nat) -> bool {
    (x: Item, y: Item, d: nat) =>
      LabelOf(y) == if IsMenuWithChildren(x) then LabelOf(x).(isOpen := Some(isOpen)) else LabelOf(x)
  }

  function SingleUpdated(u: SingleItemUpdate): (Item, Item, nat) -> bool {
    (x: Item, y: Item, d: nat) =>
      LabelOf(y) ==
        if IsMenuWithChildren(x) && x.id == Some(u.id)
        then LabelOf(x).(isOpen := Some(u.isOpen))
        else LabelOf(x)
  }

  function NeverCloses(): (Item, Item, nat) -> bool {
    (x: Item, y: Item, d: nat) => x.isOpen == Some(true) ==> y.isOpen == Some(true)
  }

  // ---------------------------------------------------------------------------
  // Properties of single items.

  /** The item carries the UI state a mapping at this depth gives it. */
  function UIStateAssigned(): (Item, nat) -> bool {
    (x: Item, d: nat) => x.id == Some(NodeId(x.title, d)) && (IsMenuWithChildren(x) ==> x.isOpen.Some?)
  }

  /** A tree as the component holds it: ids in place and every menu with children initialised. */
  ghost predicate HasUIState(items: seq<Item>, depth: nat) {
    Everywhere(items, depth, UIStateAssigned())
  }

  function OpenOnlyOnMenus(): (Item, nat) -> bool {
    (x: Item, d: nat) => x.isOpen.Some? ==> IsMenuWithChildren(x)
  }

  function OpenIffMenuWithChildren(): (Item, nat) -> bool {
    (x: Item, d: nat) => x.isOpen.Some? <==> IsMenuWithChildren(x)
  }

  /** Every menu with this id already has the state the update asks for. */
  function AlreadyAsUpdated(u: SingleItemUpdate): (Item, nat) -> bool {
    (x: Item, d: nat) => IsMenuWithChildren(x) && x.id == Some(u.id) ==> x.isOpen == Some(u.isOpen)
  }

  /** Arguments with no update and no path change. */
  predicate IsNoOp(args: MapArgs) {
    !args.didChangeCurrentPath && args.globalItemUpdate.None? && args.singleItemUpdate.None?
  }

  // ---------------------------------------------------------------------------
  // Generic facts about Corresponds and Everywhere.

  /** A relation that holds item by item implies any weaker one. */
  lemma {:induction false} Weaken(a: seq<Item>, b: seq<Item>, depth: nat,
                                  r: (Item, Item, nat) -> bool, q: (Item, Item, nat) -> bool)
    requires Corresponds(a, b, depth, r)
    requires forall x, y, d :: r(x, y, d) ==> q(x, y, d)
    ensures Corresponds(a, b, depth, q)
  {
    forall i | 0 <= i < |a| ensures CorrespondsAt(a[i], b[i], depth, q) {
      WeakenAt(a[i], b[i], depth, r, q);
    }
  }

  lemma {:induction false} WeakenAt(x: Item, y: Item, depth: nat,
                                    r: (Item, Item, nat) -> bool, q: (Item, Item, nat) -> bool)
    requires CorrespondsAt(x, y, depth, r)
    requires forall x, y, d :: r(x, y, d) ==> q(x, y, d)
    ensures CorrespondsAt(x, y, depth, q)
  {
    if x.children.Present? {
      Weaken(x.children.items, y.children.items, depth + 1, r, q);
    }
  }

  /** A property that the relation guarantees of every output item holds on the whole output. */
  lemma {:induction false} Image(a: seq<Item>, b: seq<Item>, depth: nat,
                                 r: (Item, Item, nat) -> bool, q: (Item, nat) -> bool)
    requires Corresponds(a, b, depth, r)
    requires forall x, y, d :: r(x, y, d) ==> q(y, d)
    ensures Everywhere(b, depth, q)
  {
    forall i | 0 <= i < |b| ensures EverywhereAt(b[i], depth, q) {
      ImageAt(a[i], b[i], depth, r, q);
    }
  }

  lemma {:induction false} ImageAt(x: Item, y: Item, depth: nat,
                                   r: (Item, Item, nat) -> bool, q: (Item, nat) -> bool)
    requires CorrespondsAt(x, y, depth, r)
    requires forall x, y, d :: r(x, y, d) ==> q(y, d)
    ensures EverywhereAt(y, depth, q)
  {
    if x.children.Present? {
      Image(x.children.items, y.children.items, depth + 1, r, q);
    }
  }

  /** A relation that holds item by item, where the input items satisfy `p`, implies any weaker one. */
  lemma {:induction false} Consequence(a: seq<Item>, b: seq<Item>, depth: nat,
                                       r: (Item, Item, nat) -> bool, p: (Item, nat) -> bool,
                                       q: (Item, Item, nat) -> bool)
    requires Corresponds(a, b, depth, r) && Everywhere(a, depth, p)
    requires forall x, y, d :: r(x, y, d) && p(x, d) ==> q(x, y, d)
    ensures Corresponds(a, b, depth, q)
  {
    forall i | 0 <= i < |a| ensures CorrespondsAt(a[i], b[i], depth, q) {
      ConsequenceAt(a[i], b[i], depth, r, p, q);
    }
  }

  lemma {:induction false} ConsequenceAt(x: Item, y: Item, depth: nat,
                                         r: (Item, Item, nat) -> bool, p: (Item, nat) -> bool,
                                         q: (Item, Item, nat) -> bool)
    requires CorrespondsAt(x, y, depth, r) && EverywhereAt(x, depth, p)
    requires forall x, y, d :: r(x, y, d) && p(x, d) ==> q(x, y, d)
    ensures CorrespondsAt(x, y, depth, q)
  {
    if x.children.Present? {
      Consequence(x.children.items, y.children.items, depth + 1, r, p, q);
    }
  }

  /** A property of output items that follows from the relation and a property of input items holds on the whole output. */
  lemma {:induction false} Transfer(a: seq<Item>, b: seq<Item>, depth: nat,
                                    r: (Item, Item, nat) -> bool, p: (Item, nat) -> bool,
                                    q: (Item, nat) -> bool)
    requires Corresponds(a, b, depth, r) && Everywhere(a, depth, p)
    requires forall x, y, d :: r(x, y, d) && p(x, d) ==> q(y, d)
    ensures Everywhere(b, depth, q)
  {
    forall i | 0 <= i < |b| ensures EverywhereAt(b[i], depth, q) {
      TransferAt(a[i], b[i], depth, r, p, q);
    }
  }

  lemma {:induction false} TransferAt(x: Item, y: Item, depth: nat,
                                      r: (Item, Item, nat) -> bool, p: (Item, nat) -> bool,
                                      q: (Item, nat) -> bool)
    requires CorrespondsAt(x, y, depth, r) && EverywhereAt(x, depth, p)
    requires forall x, y, d :: r(x, y, d) && p(x, d) ==> q(y, d)
    ensures EverywhereAt(y, depth, q)
  {
    if x.children.Present? {
      Transfer(x.children.items, y.children.items, depth + 1, r, p, q);
    }
  }

  // ---------------------------------------------------------------------------
  // The mapper, item by item.

  /** Every output item is the mapping of the input item at the same position, at its depth. */
  lemma {:induction false} MapCorresponds(items: seq<Item>, depth: nat, args: MapArgs)
    ensures Corresponds(items, MapItemUIState(items, depth, args), depth, Mapped(args))
  {
    var out := MapItemUIState(items, depth, args);
    forall i | 0 <= i < |items| ensures CorrespondsAt(items[i], out[i], depth, Mapped(args)) {
      MapCorrespondsAt(items[i], depth, args);
    }
  }

  lemma {:induction false} MapCorrespondsAt(x: Item, depth: nat, args: MapArgs)
    ensures CorrespondsAt(x, MapItem(x, depth, args), depth, Mapped(args))
  {
    if x.children.Present? {
      MapCorresponds(x.children.items, depth + 1, args);
    }
  }

  /** Shape preservation: same length and order at every level, the same type, title and path,
      and a `children` field exactly where the input has one. */
  lemma MapPreservesShape(items: seq<Item>, depth: nat, args: MapArgs)
    ensures Corresponds(items, MapItemUIState(items, depth, args), depth, ShapeKept())
  {
    MapCorresponds(items, depth, args);
    forall x, y, d | Mapped(args)(x, y, d) ensures ShapeKept()(x, y, d) {
      assert y == MapItem(x, d, args);
    }
    Weaken(items, MapItemUIState(items, depth, args), depth, Mapped(args), ShapeKept());
  }

  /** Every output item's id is its kebab-case title followed by its depth (0 at the top),
      whatever the updates, the path or the prior state. */
  lemma MapAssignsIds(items: seq<Item>, depth: nat, args: MapArgs)
    ensures Corresponds(items, MapItemUIState(items, depth, args), depth, IdAssigned())
  {
    MapCorresponds(items, depth, args);
    forall x, y, d | Mapped(args)(x, y, d) ensures IdAssigned()(x, y, d) {
      assert y == MapItem(x, d, args);
    }
    Weaken(items, MapItemUIState(items, depth, args), depth, Mapped(args), IdAssigned());
  }

  /** Every menu with a `children` field (an empty array included) gets an open state;
      every other item keeps the `isOpen` it had, which for a raw item is none. */
  lemma MapOpenPresence(items: seq<Item>, depth: nat, args: MapArgs)
    ensures Corresponds(items, MapItemUIState(items, depth, args), depth, OpenPresence())
  {
    MapCorresponds(items, depth, args);
    forall x, y, d | Mapped(args)(x, y, d) ensures OpenPresence()(x, y, d) {
      assert y == MapItem(x, d, args);
    }
    Weaken(items, MapItemUIState(items, depth, args), depth, Mapped(args), OpenPresence());
  }

  /** On a tree where only menus with children have an open state (a raw tree, or any mapped one),
      the output has an open state exactly on the menus with children. */
  lemma MapOpenPresenceExact(items: seq<Item>, depth: nat, args: MapArgs)
    requires Everywhere(items, depth, OpenOnlyOnMenus())
    ensures Everywhere(MapItemUIState(items, depth, args), depth, OpenIffMenuWithChildren())
  {
    MapCorresponds(items, depth, args);
    forall x, y, d | Mapped(args)(x, y, d) && OpenOnlyOnMenus()(x, d) ensures OpenIffMenuWithChildren()(y, d) {
      assert y == MapItem(x, d, args);
    }
    Transfer(items, MapItemUIState(items, depth, args), depth, Mapped(args), OpenOnlyOnMenus(), OpenIffMenuWithChildren());
  }

  /** Any mapped tree carries UI state at every item. */
  lemma MapEstablishesUIState(items: seq<Item>, depth: nat, args: MapArgs)
    ensures HasUIState(MapItemUIState(items, depth, args), depth)
  {
    MapCorresponds(items, depth, args);
    forall x, y, d | Mapped(args)(x, y, d) ensures UIStateAssigned()(y, d) {
      assert y == MapItem(x, d, args);
    }
    Image(items, MapItemUIState(items, depth, args), depth, Mapped(args), UIStateAssigned());
  }

  /** First computation: a menu with children and no prior open state is open exactly when
      its mapped children contain an active item. */
  lemma MapFirstComputation(items: seq<Item>, depth: nat, args: MapArgs)
    ensures Corresponds(items, MapItemUIState(items, depth, args), depth, FirstComputed(args))
  {
    MapCorresponds(items, depth, args);
    forall x, y, d | Mapped(args)(x, y, d) ensures FirstComputed(args)(x, y, d) {
      assert y == MapItem(x, d, args);
    }
    Weaken(items, MapItemUIState(items, depth, args), depth, Mapped(args), FirstComputed(args));
  }

  // ---------------------------------------------------------------------------
  // Active-path detection.

  /** Some item of the list is on the current path or is the last focused item. */
  predicate AnyMatch(s: seq<Item>, currentPath: string, lastFocusedId: Option<string>) {
    exists k :: 0 <= k < |s| && Matches(s[k], currentPath, lastFocusedId)
  }

  lemma AnyMatchConcat(s: seq<Item>, t: seq<Item>, currentPath: string, lastFocusedId: Option<string>)
    ensures AnyMatch(s + t, currentPath, lastFocusedId) <==>
            AnyMatch(s, currentPath, lastFocusedId) || AnyMatch(t, currentPath, lastFocusedId)
  {
    if AnyMatch(s + t, currentPath, lastFocusedId) {
      var k :| 0 <= k < |s + t| && Matches((s + t)[k], currentPath, lastFocusedId);
      if k < |s| {
        assert (s + t)[k] == s[k];
      } else {
        assert (s + t)[k] == t[k - |s|];
      }
    }
    if AnyMatch(s, currentPath, lastFocusedId) {
      var k :| 0 <= k < |s| && Matches(s[k], currentPath, lastFocusedId);
      assert (s + t)[k] == s[k];
    }
    if AnyMatch(t, currentPath, lastFocusedId) {
      var k :| 0 <= k < |t| && Matches(t[k], currentPath, lastFocusedId);
      assert (s + t)[|s| + k] == t[k];
    }
  }

  /** `hasActiveChildren` holds exactly when some descendant, however deep, is on the current
      path or is the last focused item; in particular it is false for no children. */
  lemma {:induction false} ActiveIffSomeDescendantMatches(children: seq<Item>, currentPath: string, lastFocusedId: Option<string>)
    ensures HasActiveChildren(children, currentPath, lastFocusedId) <==>
            AnyMatch(Descendants(children), currentPath, lastFocusedId)
  {
    if children != [] {
      ActiveChildIffSomeMatch(children[0], currentPath, lastFocusedId);
      ActiveIffSomeDescendantMatches(children[1..], currentPath, lastFocusedId);
      AnyMatchConcat(Subtree(children[0]), Descendants(children[1..]), currentPath, lastFocusedId);
    }
  }

  lemma {:induction false} ActiveChildIffSomeMatch(child: Item, currentPath: string, lastFocusedId: Option<string>)
    ensures IsActiveChild(child, currentPath, lastFocusedId) <==> AnyMatch(Subtree(child), currentPath, lastFocusedId)
  {
    var below := if child.children.Present? then Descendants(child.children.items) else [];
    if child.children.Present? {
      ActiveIffSomeDescendantMatches(child.children.items, currentPath, lastFocusedId);
    }
    AnyMatchConcat([child], below, currentPath, lastFocusedId);
    assert AnyMatch([child], currentPath, lastFocusedId) <==> Matches(child, currentPath, lastFocusedId) by {
      assert [child][0] == child;
    }
  }

  /** `hasActiveChildren` reads only paths, ids and the shape of the tree. */
  lemma {:induction false} ActiveAgrees(a: seq<Item>, b: seq<Item>, depth: nat, currentPath: string, lastFocusedId: Option<string>)
    requires Corresponds(a, b, depth, SamePathAndId())
    ensures HasActiveChildren(a, currentPath, lastFocusedId) == HasActiveChildren(b, currentPath, lastFocusedId)
  {
    if a != [] {
      ActiveAgreesAt(a[0], b[0], depth, currentPath, lastFocusedId);
      assert Corresponds(a[1..], b[1..], depth, SamePathAndId()) by {
        forall i | 0 <= i < |a[1..]| ensures CorrespondsAt(a[1..][i], b[1..][i], depth, SamePathAndId()) {
          assert a[1..][i] == a[i + 1] && b[1..][i] == b[i + 1];
        }
      }
      ActiveAgrees(a[1..], b[1..], depth, currentPath, lastFocusedId);
    }
  }

  lemma {:induction false} ActiveAgreesAt(x: Item, y: Item, depth: nat, currentPath: string, lastFocusedId: Option<string>)
    requires CorrespondsAt(x, y, depth, SamePathAndId())
    ensures IsActiveChild(x, currentPath, lastFocusedId) == IsActiveChild(y, currentPath, lastFocusedId)
  {
    if x.children.Present? {
      ActiveAgrees(x.children.items, y.children.items, depth + 1, currentPath, lastFocusedId);
    }
  }

  /** Remapping a tree that carries UI state leaves every path and id as it was. */
  lemma MapKeepsPathAndId(items: seq<Item>, depth: nat, args: MapArgs)
    requires HasUIState(items, depth)
    ensures Corresponds(items, MapItemUIState(items, depth, args), depth, SamePathAndId())
  {
    MapCorresponds(items, depth, args);
    forall x, y, d | Mapped(args)(x, y, d) && UIStateAssigned()(x, d) ensures SamePathAndId()(x, y, d) {
      assert y == MapItem(x, d, args);
    }
    Consequence(items, MapItemUIState(items, depth, args), depth, Mapped(args), UIStateAssigned(), SamePathAndId());
  }

  // ---------------------------------------------------------------------------
  // Recomputations of a tree that carries UI state.

  /** Path change: every menu with an active descendant in the current tree opens; every other
      item keeps its id, open state and everything else. */
  lemma {:induction false} MapPathChange(items: seq<Item>, depth: nat, currentPath: string, lastFocusedId: Option<string>)
    requires HasUIState(items, depth)
    ensures Corresponds(items, MapItemUIState(items, depth, MapArgs(currentPath, true, None, None, lastFocusedId)),
                        depth, PathChanged(currentPath, lastFocusedId))
  {
    var out := MapItemUIState(items, depth, MapArgs(currentPath, true, None, None, lastFocusedId));
    forall i | 0 <= i < |items| ensures CorrespondsAt(items[i], out[i], depth, PathChanged(currentPath, lastFocusedId)) {
      MapPathChangeAt(items[i], depth, currentPath, lastFocusedId);
    }
  }

  lemma {:induction false} MapPathChangeAt(x: Item, depth: nat, currentPath: string, lastFocusedId: Option<string>)
    requires EverywhereAt(x, depth, UIStateAssigned())
    ensures CorrespondsAt(x, MapItem(x, depth, MapArgs(currentPath, true, None, None, lastFocusedId)),
                          depth, PathChanged(currentPath, lastFocusedId))
  {
    var args := MapArgs(currentPath, true, None, None, lastFocusedId);
    if x.children.Present? {
      var cs := x.children.items;
      MapPathChange(cs, depth + 1, currentPath, lastFocusedId);
      MapKeepsPathAndId(cs, depth + 1, args);
      ActiveAgrees(cs, MapItemUIState(cs, depth + 1, args), depth + 1, currentPath, lastFocusedId);
    }
  }

  /** Toggle-all: every menu with children takes the global value; nothing else changes. */
  lemma MapGlobalUpdate(items: seq<Item>, depth: nat, currentPath: string, isOpen: bool, lastFocusedId: Option<string>)
    requires HasUIState(items, depth)
    ensures Corresponds(items, MapItemUIState(items, depth, MapArgs(currentPath, false, Some(isOpen), None, lastFocusedId)),
                        depth, GlobalUpdated(isOpen))
  {
    var args := MapArgs(currentPath, false, Some(isOpen), None, lastFocusedId);
    MapCorresponds(items, depth, args);
    forall x, y, d | Mapped(args)(x, y, d) && UIStateAssigned()(x, d) ensures GlobalUpdated(isOpen)(x, y, d) {
      assert y == MapItem(x, d, args);
    }
    Consequence(items, MapItemUIState(items, depth, args), depth, Mapped(args), UIStateAssigned(), GlobalUpdated(isOpen));
  }

  /** Single update: exactly the menus whose id is the update's id take its value;
      every other item, sibling or not, keeps its open state and everything else. */
  lemma MapSingleUpdate(items: seq<Item>, depth: nat, currentPath: string, u: SingleItemUpdate, lastFocusedId: Option<string>)
    requires HasUIState(items, depth)
    ensures Corresponds(items, MapItemUIState(items, depth, MapArgs(currentPath, false, None, Some(u), lastFocusedId)),
                        depth, SingleUpdated(u))
  {
    var args := MapArgs(currentPath, false, None, Some(u), lastFocusedId);
    MapCorresponds(items, depth, args);
    forall x, y, d | Mapped(args)(x, y, d) && UIStateAssigned()(x, d) ensures SingleUpdated(u)(x, y, d) {
      assert y == MapItem(x, d, args);
    }
    Consequence(items, MapItemUIState(items, depth, args), depth, Mapped(args), UIStateAssigned(), SingleUpdated(u));
  }

  /** An update that opens (the one Tab sends) never closes any menu. */
  lemma OpeningUpdateNeverCloses(items: seq<Item>, depth: nat, currentPath: string, id: string, lastFocusedId: Option<string>)
    requires HasUIState(items, depth)
    ensures Corresponds(items, MapItemUIState(items, depth, MapArgs(currentPath, false, None, Some(SingleItemUpdate(id, true)), lastFocusedId)),
                        depth, NeverCloses())
  {
    var u := SingleItemUpdate(id, true);
    var out := MapItemUIState(items, depth, MapArgs(currentPath, false, None, Some(u), lastFocusedId));
    MapSingleUpdate(items, depth, currentPath, u, lastFocusedId);
    Weaken(items, out, depth, SingleUpdated(u), NeverCloses());
  }

  /** Recomputing with no update and no path change gives the tree back. */
  lemma {:induction false} MapFixpoint(items: seq<Item>, depth: nat, args: MapArgs)
    requires HasUIState(items, depth) && IsNoOp(args)
    ensures MapItemUIState(items, depth, args) == items
  {
    var out := MapItemUIState(items, depth, args);
    forall i | 0 <= i < |items| ensures out[i] == items[i] {
      MapFixpointAt(items[i], depth, args);
    }
  }

  lemma {:induction false} MapFixpointAt(x: Item, depth: nat, args: MapArgs)
    requires EverywhereAt(x, depth, UIStateAssigned()) && IsNoOp(args)
    ensures MapItem(x, depth, args) == x
  {
    if x.children.Present? {
      MapFixpoint(x.children.items, depth + 1, args);
    }
  }

  /** Idempotence: a tree the mapper produced is left as it is by a recomputation with no update and no path change. */
  lemma MapIdempotent(items: seq<Item>, depth: nat, args: MapArgs, again: MapArgs)
    requires IsNoOp(again)
    ensures MapItemUIState(MapItemUIState(items, depth, args), depth, again) == MapItemUIState(items, depth, args)
  {
    MapEstablishesUIState(items, depth, args);
    MapFixpoint(MapItemUIState(items, depth, args), depth, again);
  }

  /** Two single updates of the same id in a row: the second decides. */
  lemma {:induction false} SingleUpdateLastWins(items: seq<Item>, depth: nat, currentPath: string, lastFocusedId: Option<string>,
                                                id: string, first: bool, second: bool)
    requires HasUIState(items, depth)
    ensures
      var a1 := MapArgs(currentPath, false, None, Some(SingleItemUpdate(id, first)), lastFocusedId);
      var a2 := MapArgs(currentPath, false, None, Some(SingleItemUpdate(id, second)), lastFocusedId);
      MapItemUIState(MapItemUIState(items, depth, a1), depth, a2) == MapItemUIState(items, depth, a2)
  {
    var a1 := MapArgs(currentPath, false, None, Some(SingleItemUpdate(id, first)), lastFocusedId);
    var a2 := MapArgs(currentPath, false, None, Some(SingleItemUpdate(id, second)), lastFocusedId);
    var mid := MapItemUIState(items, depth, a1);
    forall i | 0 <= i < |items| ensures MapItem(mid[i], depth, a2) == MapItem(items[i], depth, a2) {
      SingleUpdateLastWinsAt(items[i], depth, currentPath, lastFocusedId, id, first, second);
    }
  }

  lemma {:induction false} SingleUpdateLastWinsAt(x: Item, depth: nat, currentPath: string, lastFocusedId: Option<string>,
                                                  id: string, first: bool, second: bool)
    requires EverywhereAt(x, depth, UIStateAssigned())
    ensures
      var a1 := MapArgs(currentPath, false, None, Some(SingleItemUpdate(id, first)), lastFocusedId);
      var a2 := MapArgs(currentPath, false, None, Some(SingleItemUpdate(id, second)), lastFocusedId);
      MapItem(MapItem(x, depth, a1), depth, a2) == MapItem(x, depth, a2)
  {
    if x.children.Present? {
      SingleUpdateLastWins(x.children.items, depth + 1, currentPath, lastFocusedId, id, first, second);
    }
  }

  /** A single update that asks every menu with its id for the state it already has changes nothing. */
  lemma {:induction false} SingleUpdateNoChange(items: seq<Item>, depth: nat, currentPath: string, u: SingleItemUpdate, lastFocusedId: Option<string>)
    requires HasUIState(items, depth) && Everywhere(items, depth, AlreadyAsUpdated(u))
    ensures MapItemUIState(items, depth, MapArgs(currentPath, false, None, Some(u), lastFocusedId)) == items
  {
    var out := MapItemUIState(items, depth, MapArgs(currentPath, false, None, Some(u), lastFocusedId));
    forall i | 0 <= i < |items| ensures out[i] == items[i] {
      SingleUpdateNoChangeAt(items[i], depth, currentPath, u, lastFocusedId);
    }
  }

  lemma {:induction false} SingleUpdateNoChangeAt(x: Item, depth: nat, currentPath: string, u: SingleItemUpdate, lastFocusedId: Option<string>)
    requires EverywhereAt(x, depth, UIStateAssigned()) && EverywhereAt(x, depth, AlreadyAsUpdated(u))
    ensures MapItem(x, depth, MapArgs(currentPath, false, None, Some(u), lastFocusedId)) == x
  {
    if x.children.Present? {
      SingleUpdateNoChange(x.children.items, depth + 1, currentPath, u, lastFocusedId);
    }
  }
}
