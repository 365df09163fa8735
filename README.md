# Table of contents: open/closed state derivation

A Dafny model of the state logic of the `TableOfContents` React component
(`src/components/TableOfContents.js`). The component shows a tree of menus, links
and bullet links. Each menu can be open or closed. On every relevant event it
rebuilds the whole tree in one pass (`mapItemUIState`). The pass gives every item
an id (`<kebab-case title>-<depth>`). It gives every menu that has a `children`
field an `isOpen` flag, decided by `getOpenState` from the prior flag, the active
path (`hasActiveChildren`) and the pending update.

Files:

- `wrappers.dfy`: `Option`, which stands for JavaScript's possibly-`undefined` values.
- `identifiers.dfy` (module `Identifiers`): `toKebabcase` as lower-casing followed by
  a literal `split(' ')` and `join('-')`, the decimal text of the depth, and the
  node id. Proved: split-then-join replaces each space by a hyphen and changes
  nothing else, the decimal text reads back to the depth, and two ids are equal
  exactly when the depths are equal and the kebab-case titles are equal.
- `tree.dfy` (module `TocTree`): the item datatype, `hasActiveChildren`,
  `getOpenState` and `mapItemUIState` as functions. It also defines the words
  used to state properties of whole trees: `Corresponds` (same shape, and a
  relation between the items at the same position) and `Everywhere` (a property
  of every item at its depth).
- `tree_lemmas.dfy` (module `TocTreeLemmas`): the properties of one recomputation.
- `component.dfy` (module `TocComponent`): the update values the `Menu` handlers
  build, and a class `TableOfContents` that holds the stateful tree. Each event
  is a method that replaces the tree with one recomputation. The object invariant
  `Valid()` says every item has its id and every menu with children has an open
  state. A client method replays the example of a menu that opens when the user
  navigates to its link.

The comment at line 330 says "The concept of 'isOpen' only applies to menus that
have children", which reads as menus with at least one child. The test it guards
(line 326) is `!!item.children`, which is true for an empty array too. So a menu
with `children: []` gets `isOpen`, and on first computation it is `false`. The
model follows the code: `IsMenuWithChildren` asks only that the field be present.

## Model

| member | source | states |
|---|---|---|
| `Identifiers.Split` | src/components/TableOfContents.js:261 | `split(' ')` yields at least one piece, and no piece contains the separator |
| `Identifiers.SplitJoinReplaces` | src/components/TableOfContents.js:261 | joining the pieces of a split on `a` with `b` gives the text with every `a` replaced by `b` and every other character kept |
| `Identifiers.SplitJoinRoundTrip` | src/components/TableOfContents.js:261 | splitting and joining with the same separator returns the text unchanged |
| `Identifiers.KebabcaseChars` | src/components/TableOfContents.js:261 | the kebab-case title has the title's length, a hyphen where the title has a space and the lower-cased character elsewhere, and no space at all |
| `Identifiers.NatToString` | src/components/TableOfContents.js:314 | the depth's text is a non-empty string of decimal digits, so it holds no hyphen |
| `Identifiers.ParseNatToString` | src/components/TableOfContents.js:314 | reading the depth's decimal text back gives the depth |
| `Identifiers.NodeIdEqual` | src/components/TableOfContents.js:314 | two ids are equal iff they have the same depth and the same kebab-case title; items at different depths never share an id, and titles that differ only in case or in space versus hyphen collide |
| `TocTreeLemmas.ActiveIffSomeDescendantMatches` | src/components/TableOfContents.js:263-272 | `hasActiveChildren` is true iff some descendant at any depth has `path === currentPath` or `id === lastFocusedId`; it is false for an empty list |
| `TocTreeLemmas.ActiveChildIffSomeMatch` | src/components/TableOfContents.js:266-270 | the `find` predicate holds of a child iff the child or one of its descendants matches |
| `TocTreeLemmas.ActiveAgrees` | src/components/TableOfContents.js:263-272 | `hasActiveChildren` gives the same answer on two trees of the same shape with the same paths and ids, whatever their open states |
| `TocTreeLemmas.MapPreservesShape` | src/components/TableOfContents.js:313-325 | same length and order at every level; each item keeps its type, title and path; a `children` field is present exactly where the input has one |
| `TocTreeLemmas.MapAssignsIds` | src/components/TableOfContents.js:307-323 | every output item's id is `NodeId(title, depth)`, with depth 0 at the top and one more per level, whatever the updates, the path or the prior state |
| `TocTreeLemmas.MapOpenPresence` | src/components/TableOfContents.js:326-340 | every menu with a `children` field, an empty one too, gets an open state; every other item keeps the `isOpen` it had |
| `TocTreeLemmas.MapOpenPresenceExact` | src/components/TableOfContents.js:326-340 | if only menus with children carry `isOpen` in the input (as in a raw tree), then in the output `isOpen` is present iff the item is a menu with a `children` field; links and bullet links never get it |
| `TocTreeLemmas.MapEstablishesUIState` | src/components/TableOfContents.js:313-342 | every mapped tree carries its ids and an open state on every menu with children |
| `TocTreeLemmas.MapFirstComputation` | src/components/TableOfContents.js:282-289 | a menu with children and no prior boolean `isOpen` gets exactly `hasActiveChildren` of its mapped children |
| `TocTreeLemmas.MapKeepsPathAndId` | src/components/TableOfContents.js:313-325 | remapping a tree that carries UI state keeps every path and every id |
| `TocTreeLemmas.MapPathChange` | src/components/TableOfContents.js:282-298 | on a path-change recomputation of a stateful tree, every menu with an active descendant becomes open, and every other item keeps its open state, id, type, title, path and children field |
| `TocTreeLemmas.MapGlobalUpdate` | src/components/TableOfContents.js:293 | after a global update with value b (no path change), every menu with children of a stateful tree has `isOpen == b`, and nothing else changes |
| `TocTreeLemmas.MapSingleUpdate` | src/components/TableOfContents.js:295-298 | a single update `{id, isOpen}` sets exactly the menus whose id equals `id` to `isOpen`; every other menu, sibling or not, keeps its open state, and nothing else changes |
| `TocTreeLemmas.OpeningUpdateNeverCloses` | src/components/TableOfContents.js:295-296 | a single update with `isOpen: true` leaves every open menu open |
| `TocTreeLemmas.MapFixpoint` | src/components/TableOfContents.js:289-298 | recomputing a stateful tree with no update and no path change returns the same tree |
| `TocTreeLemmas.MapIdempotent` | src/components/TableOfContents.js:313-342 | a recomputation with no update and no path change, applied to any mapped tree, returns that tree (the mapper's output is a fixpoint) |
| `TocTreeLemmas.SingleUpdateLastWins` | src/components/TableOfContents.js:295-298 | two single updates of the same id in a row give the tree that the second update alone gives |
| `TocTreeLemmas.SingleUpdateNoChange` | src/components/TableOfContents.js:295-298 | a single update that asks every menu with its id for the state it already has leaves the tree unchanged |
| `TocComponent.OpenOnTabUpdate` | src/components/TableOfContents.js:143-146 | a key-up sends an update iff the key is Tab; the update names the menu's id and always opens |
| `TocComponent.ToggleUpdate` | src/components/TableOfContents.js:147 | a click sends the menu's id with the negation of its open state, and `true` when it has none (`!undefined`) |
| `TocComponent.ClickTwiceRestores` | src/components/TableOfContents.js:147 | clicking a menu twice restores the tree, provided every menu sharing its id was in the same state |
| `TocComponent.TableOfContents.constructor` | src/components/TableOfContents.js:346-350 | mount: the state is one mapping of the raw items with no update and no focused id; it keeps the items' shape, assigns the ids and gives first-computation defaults; the path effect's first run (lines 380-382) then only sets the ref |
| `TocComponent.TableOfContents.ToggleAllOpenStates` | src/components/TableOfContents.js:351-358 | the new tree is the old one remapped with the global update; every menu with children takes the value and nothing else changes |
| `TocComponent.TableOfContents.ToggleAllOpen` | src/components/TableOfContents.js:359 | every menu with children opens and nothing else changes |
| `TocComponent.TableOfContents.ToggleAllClosed` | src/components/TableOfContents.js:360 | every menu with children closes and nothing else changes |
| `TocComponent.TableOfContents.SetMenuOpenStateById` | src/components/TableOfContents.js:361-368 | the new tree is the old one remapped with the single update; exactly the menus with that id change |
| `TocComponent.TableOfContents.MenuKeyUp` | src/components/TableOfContents.js:143-146 | a non-Tab key changes nothing; Tab opens the menus with the item's id and closes nothing |
| `TocComponent.TableOfContents.MenuClick` | src/components/TableOfContents.js:147 | a click toggles the menus with the item's id and changes nothing else |
| `TocComponent.TableOfContents.RunCurrentPathEffect` | src/components/TableOfContents.js:370-382 | the first run only sets the ref; every later run remaps with `didChangeCurrentPath: true`, so menus with an active descendant open and nothing else changes |
| `TocComponent.TableOfContents.Render` | src/components/TableOfContents.js:371-383 | after mount, a render with an unchanged `currentPath` changes nothing; with a new one the tree is remapped with `didChangeCurrentPath: true`, so menus with an active descendant open and nothing else changes |

## Left out

- Rendering: the styled components, the JSX of `BulletLink`, `ItemLink`, `Menu`, `Items` and `PureTableOfContents`, and the render-prop call at the end of `TableOfContents`. These are presentation only.
- `getItemComponent` and the `LinkWrapper` and React `key` plumbing: a renderer lookup that does not touch the state.
- PropTypes declarations: run-time checks done by a library. The model takes the closed set of item types as a datatype and titles as strings.
- React scheduling: `useState`, `useEffect` and `useRef` become the fields and methods of a class, run one after another. Mount is the constructor, which covers the first render and the effect's first run together, as React always runs them. A handler that fires twice before a re-render would read a stale tree in React; the model does not capture that.
- Later changes to the `items` prop are ignored after mount, as `useState` ignores them; the model has no method for them.
- `setLastFocusedId` is passed to the menus but never called, so `lastFocusedId` stays `None`. It remains a parameter of the functions, and no method sets it.
- `toLowerCase` is ASCII-only here (`LowerChar`); Unicode case mapping is not modelled.
- Keyboard and click events are reduced to the update values they produce (`OpenOnTabUpdate`, `ToggleUpdate`).
- Object spread also copies fields the model does not have (`LinkWrapper` and any other caller field). The model carries over only the fields it knows.
