/**
 * The `TableOfContents` component's state and event handlers: it owns the
 * current stateful tree and replaces it with one recomputation per event
 * (mount, toggle-all, toggle by id, path change). `Menu`'s Tab and click
 * handlers build the single-item updates.
 */
module TocComponent {
  import opened Wrappers
  import opened TocTree
  import opened TocTreeLemmas

  /** `openOnTab`: a key-up on a menu asks to open it when the key is Tab, and does nothing otherwise. */
  function OpenOnTabUpdate(item: Item, key: string): (u: Option<SingleItemUpdate>)
    requires item.id.Some?
    ensures u.Some? <==> key == "Tab"
    ensures u.Some? ==> u.value.id == item.id.value && u.value.isOpen
  {
    if key != "Tab" then None else Some(SingleItemUpdate(item.id.value, true))
  }

  /** `toggleOpenState`: a click asks for the negation of the menu's open state (`!undefined` is true). */
  function ToggleUpdate(item: Item): (u: SingleItemUpdate)
    requires item.id.Some?
    ensures u.id == item.id.value
    ensures item.isOpen.Some? ==> u.isOpen == !item.isOpen.value
    ensures item.isOpen.None? ==> u.isOpen
  {
    SingleItemUpdate(item.id.value, item.isOpen != Some(true))
  }

  /** Two clicks on a menu restore the tree, provided every menu sharing its id was in the same state.
      `again` is the menu as rendered after the first click: same id, negated state. */
  lemma ClickTwiceRestores(items: seq<Item>, depth: nat, currentPath: string, lastFocusedId: Option<string>,
                           menu: Item, again: Item)
    requires HasUIState(items, depth)
    requires menu.id.Some? && menu.isOpen.Some?
    requires Everywhere(items, depth, AlreadyAsUpdated(SingleItemUpdate(menu.id.value, menu.isOpen.value)))
    requires again.id == menu.id && again.isOpen == Some(ToggleUpdate(menu).isOpen)
    ensures
      var first := MapItemUIState(items, depth, MapArgs(currentPath, false, None, Some(ToggleUpdate(menu)), lastFocusedId));
      MapItemUIState(first, depth, MapArgs(currentPath, false, None, Some(ToggleUpdate(again)), lastFocusedId)) == items
  {
    var id, v := menu.id.value, menu.isOpen.value;
    assert ToggleUpdate(menu) == SingleItemUpdate(id, !v);
    assert ToggleUpdate(again) == SingleItemUpdate(id, v);
    SingleUpdateLastWins(items, depth, currentPath, lastFocusedId, id, !v, v);
    SingleUpdateNoChange(items, depth, currentPath, SingleItemUpdate(id, v), lastFocusedId);
  }

  class TableOfContents {
    /** The stateful tree (`itemsWithUIState`). */
    var itemsWithUIState: seq<Item>
    /** The `currentPath` prop of the latest render. */
    var currentPath: string
    /** Never set: `setLastFocusedId` is handed to the menus, none of which calls it. */
    var lastFocusedId: Option<string>
    /** The ref that makes the path-change effect skip its first run. */
    var didRunCurrentPathEffectOnMount: bool

    /** Every item carries its id and every menu with children its open state. */
    ghost predicate Valid()
      reads this
    {
      HasUIState(itemsWithUIState, 0)
    }

    /** Mount: the first render computes the initial state as one mapping of the raw items,
        with no update; the path effect then runs for the first time and only sets its ref. */
    constructor (items: seq<Item>, currentPath: string)
      ensures Valid()
      ensures this.currentPath == currentPath && lastFocusedId == None && didRunCurrentPathEffectOnMount
      ensures itemsWithUIState == MapItemUIState(items, 0, MapArgs(currentPath, false, None, None, None))
      ensures Corresponds(items, itemsWithUIState, 0, ShapeKept())
      ensures Corresponds(items, itemsWithUIState, 0, IdAssigned())
      ensures Corresponds(items, itemsWithUIState, 0, FirstComputed(MapArgs(currentPath, false, None, None, None)))
    {
      var args := MapArgs(currentPath, false, None, None, None);
      MapEstablishesUIState(items, 0, args);
      MapPreservesShape(items, 0, args);
      MapAssignsIds(items, 0, args);
      MapFirstComputation(items, 0, args);
      this.itemsWithUIState := MapItemUIState(items, 0, args);
      this.currentPath := currentPath;
      this.lastFocusedId := None;
      this.didRunCurrentPathEffectOnMount := false;
      new;
      RunCurrentPathEffect();
    }

    /** `toggleAllOpenStates`: every menu with children takes `isOpen`; nothing else changes. */
    method ToggleAllOpenStates(isOpen: bool)
      requires Valid()
      modifies this`itemsWithUIState
      ensures Valid()
      ensures itemsWithUIState ==
        MapItemUIState(old(itemsWithUIState), 0, MapArgs(currentPath, false, Some(isOpen), None, lastFocusedId))
      ensures Corresponds(old(itemsWithUIState), itemsWithUIState, 0, GlobalUpdated(isOpen))
    {
      var args := MapArgs(currentPath, false, Some(isOpen), None, lastFocusedId);
      MapGlobalUpdate(itemsWithUIState, 0, currentPath, isOpen, lastFocusedId);
      MapEstablishesUIState(itemsWithUIState, 0, args);
      itemsWithUIState := MapItemUIState(itemsWithUIState, 0, args);
    }

    method ToggleAllOpen()
      requires Valid()
      modifies this`itemsWithUIState
      ensures Valid()
      ensures Corresponds(old(itemsWithUIState), itemsWithUIState, 0, GlobalUpdated(true))
    {
      ToggleAllOpenStates(true);
    }

    method ToggleAllClosed()
      requires Valid()
      modifies this`itemsWithUIState
      ensures Valid()
      ensures Corresponds(old(itemsWithUIState), itemsWithUIState, 0, GlobalUpdated(false))
    {
      ToggleAllOpenStates(false);
    }

    /** `setMenuOpenStateById`: exactly the menus with the update's id take its value. */
    method SetMenuOpenStateById(u: SingleItemUpdate)
      requires Valid()
      modifies this`itemsWithUIState
      ensures Valid()
      ensures itemsWithUIState ==
        MapItemUIState(old(itemsWithUIState), 0, MapArgs(currentPath, false, None, Some(u), lastFocusedId))
      ensures Corresponds(old(itemsWithUIState), itemsWithUIState, 0, SingleUpdated(u))
    {
      var args := MapArgs(currentPath, false, None, Some(u), lastFocusedId);
      MapSingleUpdate(itemsWithUIState, 0, currentPath, u, lastFocusedId);
      MapEstablishesUIState(itemsWithUIState, 0, args);
      itemsWithUIState := MapItemUIState(itemsWithUIState, 0, args);
    }

    /** A key-up on a rendered menu: Tab opens the menus with its id and never closes anything. */
    method MenuKeyUp(item: Item, key: string)
      requires Valid() && item.id.Some?
      modifies this`itemsWithUIState
      ensures Valid()
      ensures key != "Tab" ==> itemsWithUIState == old(itemsWithUIState)
      ensures key == "Tab" ==>
        Corresponds(old(itemsWithUIState), itemsWithUIState, 0, SingleUpdated(SingleItemUpdate(item.id.value, true)))
      ensures key == "Tab" ==> Corresponds(old(itemsWithUIState), itemsWithUIState, 0, NeverCloses())
    {
      var u := OpenOnTabUpdate(item, key);
      if u.Some? {
        OpeningUpdateNeverCloses(itemsWithUIState, 0, currentPath, item.id.value, lastFocusedId);
        SetMenuOpenStateById(u.value);
      }
    }

    /** A click on a rendered menu toggles the menus with its id. */
    method MenuClick(item: Item)
      requires Valid() && item.id.Some?
      modifies this`itemsWithUIState
      ensures Valid()
      ensures Corresponds(old(itemsWithUIState), itemsWithUIState, 0, SingleUpdated(ToggleUpdate(item)))
    {
      SetMenuOpenStateById(ToggleUpdate(item));
    }

    /** The effect keyed on `currentPath`: its first run only flips the ref; every later run
        opens the menus that have an active descendant. */
    method RunCurrentPathEffect()
      requires Valid()
      modifies this`itemsWithUIState, this`didRunCurrentPathEffectOnMount
      ensures Valid() && didRunCurrentPathEffectOnMount
      ensures !old(didRunCurrentPathEffectOnMount) ==> itemsWithUIState == old(itemsWithUIState)
      ensures old(didRunCurrentPathEffectOnMount) ==>
        itemsWithUIState == MapItemUIState(old(itemsWithUIState), 0, MapArgs(currentPath, true, None, None, lastFocusedId))
      ensures old(didRunCurrentPathEffectOnMount) ==>
        Corresponds(old(itemsWithUIState), itemsWithUIState, 0, PathChanged(currentPath, lastFocusedId))
    {
      if didRunCurrentPathEffectOnMount {
        var args := MapArgs(currentPath, true, None, None, lastFocusedId);
        MapPathChange(itemsWithUIState, 0, currentPath, lastFocusedId);
        MapEstablishesUIState(itemsWithUIState, 0, args);
        itemsWithUIState := MapItemUIState(itemsWithUIState, 0, args);
      } else {
        didRunCurrentPathEffectOnMount := true;
      }
    }

    /** A later render with a `currentPath` prop: the effect runs only when the value differs
        from the last render's, and since mount has run it once already, it opens the menus
        that have an active descendant. */
    method Render(newPath: string)
      requires Valid() && didRunCurrentPathEffectOnMount
      modifies this`itemsWithUIState, this`didRunCurrentPathEffectOnMount, this`currentPath
      ensures Valid() && didRunCurrentPathEffectOnMount && currentPath == newPath
      ensures newPath == old(currentPath) ==> itemsWithUIState == old(itemsWithUIState)
      ensures newPath != old(currentPath) ==>
        itemsWithUIState == MapItemUIState(old(itemsWithUIState), 0, MapArgs(newPath, true, None, None, lastFocusedId))
      ensures newPath != old(currentPath) ==>
        Corresponds(old(itemsWithUIState), itemsWithUIState, 0, PathChanged(newPath, lastFocusedId))
    {
      if newPath != currentPath {
        currentPath := newPath;
        RunCurrentPathEffect();
      }
    }
  }

  /** A menu "A" holding a link to "/b": closed when mounted on "/x", opened by navigating to "/b". */
  method PathChangeOpensAncestor() {
    var link := Item(Link, "B", Some("/b"), Absent, None, None);
    var menu := Item(Menu, "A", None, Present([link]), None, None);
    var toc := new TableOfContents([menu], "/x");
    var mounted := MapItem(link, 1, MapArgs("/x", false, None, None, None));
    assert mounted.path == Some("/b") && mounted.id.Some? && mounted.children == Absent;
    assert MapItemUIState([link], 1, MapArgs("/x", false, None, None, None)) == [mounted];
    assert !HasActiveChildren([mounted], "/x", None);
    assert toc.itemsWithUIState[0].isOpen == Some(false);
    var before := toc.itemsWithUIState;
    toc.Render("/b");
    assert CorrespondsAt(before[0], toc.itemsWithUIState[0], 0, PathChanged("/b", None));
    assert before[0].children.items == [mounted];
    assert HasActiveChildren([mounted], "/b", None);
    assert toc.itemsWithUIState[0].isOpen == Some(true);
  }
}
