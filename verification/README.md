# List manager controller in Dafny

This project models the client-only "lessons" list controller, the React
component `ListManager` in `my-list-app/components/list-manager.tsx`. The
component has three pieces of state:

- `items`, an ordered list of title strings;
- `selectedIndex`, either `null` or a row position;
- `inputValue`, the text typed into the add or edit dialog.

Its handlers change that state:

- `handleAdd` appends the trimmed input.
- `handleEdit` replaces the selected title and clears the selection.
- `handleDelete` filters out the selected position and clears the selection.
- `moveItem(index, direction)` swaps a row with its neighbour and selects the moved row.
- Inline handlers select a clicked row, copy the selected title into the input
  when the Edit button is pressed, and set or clear the input.

The project has four modules:

- `Text` (`Text.dfy`) models JavaScript's `String.prototype.trim`. It strips
  the ECMAScript white space and line terminator characters from both ends.
  `TrimUnique` proves that the result is the only trimmed slice with nothing
  but white space around it.
- `Sequences` (`Sequences.dfy`) models the two list builders. `WithoutIndex`
  is `items.filter((_, index) => index !== i)`. `Swap` is the destructuring
  swap on a copy.
- `Reducer` (`Reducer.dfy`) gives the component state as a value
  `ListState`. It has one function per handler, the event wiring (`Step`,
  `Run`), and the lemmas. The main one, `RunWellFormed`, shows that after any
  sequence of user actions the selection is `null` or a valid position and
  every title is trimmed and non-empty.
- `Component` (`Component.dfy`) is the component as a class `ListManager`.
  Its fields are `items`, `selectedIndex` and `inputValue`, and each React
  setter call is a field assignment. Each handler is a method whose new state
  equals the `Reducer` function applied to the old state. As in the source,
  `HandleEdit` and `MoveItem` copy the list into a fresh array (`[...items]`)
  and update that copy in place.

Two modelling notes:

- `handleEdit` clears the selection after saving (line 29), so an edit never
  leaves a stale selection behind.
- Items are plain title strings and rows are keyed by their position
  (line 71), so there is no separate item identifier.

## Model

| member | source | states |
|---|---|---|
| Text.TrimStart | my-list-app/components/list-manager.tsx:15 | the result is the suffix of the input starting at its first non-white-space character; everything dropped is white space |
| Text.TrimEnd | my-list-app/components/list-manager.tsx:15 | the result is the prefix ending at the last non-white-space character; everything dropped is white space |
| Text.Trim | my-list-app/components/list-manager.tsx:15-16 | `inputValue.trim()` has no leading or trailing white space and is no longer than its input |
| Text.TrimStartAt | my-list-app/components/list-manager.tsx:15 | leading trimming stops exactly at the first character that is not white space |
| Text.TrimEndAt | my-list-app/components/list-manager.tsx:15 | trailing trimming stops exactly after the last character that is not white space |
| Text.TrimIsSlice | my-list-app/components/list-manager.tsx:15-16 | trim keeps one contiguous slice of the input; only white space lies outside it |
| Text.TrimEmptyIffBlank | my-list-app/components/list-manager.tsx:15 | `inputValue.trim()` is falsy exactly when the input is all white space (both directions) |
| Text.TrimUnique | my-list-app/components/list-manager.tsx:15-16 | every trimmed slice with only white space around it equals trim's result, so trim is fully determined |
| Text.TrimIdempotent | my-list-app/components/list-manager.tsx:25 | trimming a trimmed title changes nothing |
| Text.TrimOfTrimmed | my-list-app/components/list-manager.tsx:25 | a string with no surrounding white space is its own trim |
| Sequences.WithoutIndex | my-list-app/components/list-manager.tsx:35 | filtering out position i shortens the list by one when i is a position and keeps its length otherwise |
| Sequences.WithoutIndexIsSplice | my-list-app/components/list-manager.tsx:35 | filtering out position i equals the prefix before i followed by the suffix after i |
| Sequences.WithoutIndexOutside | my-list-app/components/list-manager.tsx:35 | filtering out a position the list does not have keeps the list |
| Sequences.WithoutIndexMultiset | my-list-app/components/list-manager.tsx:35 | the filter removes exactly one occurrence of the removed element and nothing else |
| Sequences.Swap | my-list-app/components/list-manager.tsx:48 | the swap exchanges exactly the two positions, keeps every other one, and is a permutation |
| Sequences.SwapSelfInverse | my-list-app/components/list-manager.tsx:48 | swapping the same two positions twice restores the list |
| Sequences.SwapSymmetric | my-list-app/components/list-manager.tsx:48 | swapping i with j equals swapping j with i |
| Reducer.InitialWellFormed | my-list-app/components/list-manager.tsx:8-12 | the initial state (empty list, no selection, empty input) satisfies the invariant |
| Reducer.Add | my-list-app/components/list-manager.tsx:14-20 | input that trims to nothing changes nothing; otherwise the list grows by exactly the trimmed input at the end, the old entries and the selection stay, the input is cleared; the invariant is preserved |
| Reducer.BlankInputIgnored | my-list-app/components/list-manager.tsx:15-23 | empty or white-space-only input leaves the state unchanged under both add and save; any other input makes add grow the list by one |
| Reducer.Edit | my-list-app/components/list-manager.tsx:22-31 | input that trims to nothing, or no selection, changes nothing; otherwise the length stays, the selected entry becomes the trimmed input, every other entry stays, the selection becomes null and the input is cleared; the invariant is preserved |
| Reducer.Delete | my-list-app/components/list-manager.tsx:33-39 | no selection changes nothing; otherwise the list becomes prefix ++ suffix around the selection and loses exactly the selected element, and the selection becomes null; an out-of-range selection removes nothing; the invariant is preserved |
| Reducer.Move | my-list-app/components/list-manager.tsx:41-52 | moving the first row up or the last row down changes nothing; an allowed move exchanges exactly the row and its neighbour, keeps every other row and the multiset of titles, and selects the neighbour's position; the invariant is preserved |
| Reducer.SelectRow | my-list-app/components/list-manager.tsx:69-75 | clicking a rendered row selects that row, which is a valid position; nothing else changes |
| Reducer.PrefillEdit | my-list-app/components/list-manager.tsx:113-117 | with a selection the input becomes the selected title; without one nothing changes; list and selection are kept |
| Reducer.ChangeInput | my-list-app/components/list-manager.tsx:144 | typing sets the input and keeps list and selection |
| Reducer.ClearInput | my-list-app/components/list-manager.tsx:151 | the Add Lesson and Cancel buttons empty the input and keep list and selection |
| Reducer.Step | my-list-app/components/list-manager.tsx:54-175 | every user action the component wires to a handler keeps the selection valid and preserves the invariant |
| Reducer.Run | my-list-app/components/list-manager.tsx:54-175 | after any feasible sequence of user actions the selection is null or a valid position |
| Reducer.RunWellFormed | my-list-app/components/list-manager.tsx:8-9 | from a well-formed state, every feasible sequence of actions ends in a state whose selection is null or valid and whose titles are trimmed and non-empty |
| Reducer.MoveUpMatchesDown | my-list-app/components/list-manager.tsx:41-50 | `moveItem(i, 'up')` and `moveItem(i - 1, 'down')` produce the same order |
| Reducer.MoveDownThenUp | my-list-app/components/list-manager.tsx:41-50 | moving a row down and then back up restores the order, with that row selected |
| Reducer.PrefillThenSave | my-list-app/components/list-manager.tsx:22-29 | pressing Edit and saving without typing keeps the list, clears the selection and empties the input |
| Reducer.AddThenDeleteLast | my-list-app/components/list-manager.tsx:14-37 | adding a title, selecting the new last row and deleting it gives back the earlier list |
| Reducer.MoveUpExample | my-list-app/components/list-manager.tsx:41-50 | [A, B, C] with row 1 selected, moved up, becomes [B, A, C] with row 0 selected |
| Reducer.EditExample | my-list-app/components/list-manager.tsx:22-29 | [A, B] with row 1 selected, saved with "B2", becomes [A, B2] with no selection |
| Reducer.EmptyListExample | my-list-app/components/list-manager.tsx:23-34 | on the initial empty list, delete and save change nothing |
| Component.CopyToArray | my-list-app/components/list-manager.tsx:24 | `[...items]` is a fresh array with the same elements |
| Component.ListManager.constructor | my-list-app/components/list-manager.tsx:8-12 | the component starts with an empty list, no selection and an empty input, and is valid |
| Component.ListManager.HandleAdd | my-list-app/components/list-manager.tsx:14-20 | the new state is `Add` of the old one, and the invariant holds |
| Component.ListManager.HandleEdit | my-list-app/components/list-manager.tsx:22-31 | writing the trimmed title into a copy at the selected position yields `Edit` of the old state, and the invariant holds |
| Component.ListManager.HandleDelete | my-list-app/components/list-manager.tsx:33-39 | the new state is `Delete` of the old one, and the invariant holds |
| Component.ListManager.MoveItem | my-list-app/components/list-manager.tsx:41-52 | the in-place swap on a copy yields `Move` of the old state, and the invariant holds |
| Component.ListManager.SelectRow | my-list-app/components/list-manager.tsx:75 | the new state is `SelectRow` of the old one, and the invariant holds |
| Component.ListManager.OpenEdit | my-list-app/components/list-manager.tsx:113-117 | the new state is `PrefillEdit` of the old one, and the invariant holds |
| Component.ListManager.ChangeInput | my-list-app/components/list-manager.tsx:144 | the new state is `ChangeInput` of the old one, and the invariant holds |
| Component.ListManager.ClearInput | my-list-app/components/list-manager.tsx:58-61 | the new state is `ClearInput` of the old one, and the invariant holds |

## Left out

- The REST-backed variant `list-manager/src/components/list-manager.tsx`. Its
  list is whatever the server returns after each request, so nothing about
  the list can be stated without a model of the server.
- `async`/`await`, `fetch`, JSON and `console.error`. These are I/O. Each
  handler is one atomic state change; React's batching and re-rendering are
  not modelled.
- The dialog flags `isAddDialogOpen` and `isEditDialogOpen`, the `disabled`
  attributes of the buttons, and all rendering and styling. These are
  presentation only. Every handler already guards what a disabled button
  would prevent: `Reducer.Move` shows that the disabled moves change nothing,
  and `Reducer.Edit` and `Reducer.Delete` show that nothing happens without a
  selection.
- Reducer.Move: takes `direction` as `Up | Down`. In the source any other
  string fails the guard and does nothing.
- Reducer.Move: requires `index` to be a position of the list. Its only
  callers are the row buttons rendered by `items.map`. JavaScript's behaviour
  for other indices (negative keys, holes) is not modelled.
- Reducer.SelectRow: requires `index` to be a position of the list, for the
  same reason.
- Reducer.Edit: requires the selection to be null or valid, which is the
  component invariant. JavaScript's array growth on an out-of-range write is
  not modelled.
- Reducer.PrefillEdit: requires the selection to be null or valid, for the
  same reason.
- next.config.ts is build configuration and is not part of this model.
