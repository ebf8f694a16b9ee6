/** The client-only list controller (my-list-app/components/list-manager.tsx)
    as a pure reducer: the three pieces of component state, one function per
    handler giving the state after it, and the properties the component keeps. */
module Reducer {
  import opened Text
  import opened Sequences

  /** JavaScript's `null` or a number. */
  datatype Option<T> = None | Some(value: T)

  /** The two strings moveItem reacts to. */
  datatype Direction = Up | Down

  /** `items`, `selectedIndex` and `inputValue`. */
  datatype ListState = ListState(items: seq<string>, selectedIndex: Option<nat>, inputValue: string)

  /** useState([]), useState(null), useState(''). */
  const Initial: ListState := ListState([], None, "")

  /** The selection is null or a position of `items`. */
  predicate SelectionValid(st: ListState) {
    st.selectedIndex.None? || st.selectedIndex.value < |st.items|
  }

  /** Every stored title is what trim produced from non-blank input. */
  ghost predicate TitlesTrimmed(items: seq<string>) {
    forall k :: 0 <= k < |items| ==> items[k] != [] && IsTrimmed(items[k])
  }

  /** The component invariant. */
  ghost predicate WellFormed(st: ListState) {
    SelectionValid(st) && TitlesTrimmed(st.items)
  }

  lemma TitlesTrimmedAppend(items: seq<string>, title: string)
    requires title != [] && IsTrimmed(title)
    ensures TitlesTrimmed(items) ==> TitlesTrimmed(items + [title])
  {
  }

  lemma TitlesTrimmedUpdate(items: seq<string>, i: nat, title: string)
    requires i < |items| && title != [] && IsTrimmed(title)
    ensures TitlesTrimmed(items) ==> TitlesTrimmed(items[i := title])
  {
  }

  lemma InitialWellFormed()
    ensures WellFormed(Initial)
  {
  }

  /** handleAdd: append the trimmed input unless it is blank. */
  function Add(st: ListState): (r: ListState)
    ensures Trim(st.inputValue) == [] ==> r == st
    ensures Trim(st.inputValue) != [] ==>
      && |r.items| == |st.items| + 1
      && r.items[..|st.items|] == st.items
      && r.items[|st.items|] == Trim(st.inputValue)
      && r.selectedIndex == st.selectedIndex
      && r.inputValue == ""
    ensures SelectionValid(st) ==> SelectionValid(r)
    ensures WellFormed(st) ==> WellFormed(r)
  {
    var title := Trim(st.inputValue);
    if title != [] then
      TitlesTrimmedAppend(st.items, title);
      st.(items := st.items + [title], inputValue := "")
    else st
  }

  /** Empty or white-space-only input is ignored by both add and save, and
      any other input is taken by add. */
  lemma BlankInputIgnored(st: ListState)
    ensures IsBlank(st.inputValue) ==> Add(st) == st
    ensures IsBlank(st.inputValue) && SelectionValid(st) ==> Edit(st) == st
    ensures !IsBlank(st.inputValue) ==> |Add(st).items| == |st.items| + 1
  {
    TrimEmptyIffBlank(st.inputValue);
  }

  /** handleEdit: replace the selected title with the trimmed input and clear
      both the input and the selection, unless the input is blank or nothing
      is selected. */
  function Edit(st: ListState): (r: ListState)
    requires SelectionValid(st)
    ensures Trim(st.inputValue) == [] || st.selectedIndex.None? ==> r == st
    ensures Trim(st.inputValue) != [] && st.selectedIndex.Some? ==>
      var sel := st.selectedIndex.value;
      && |r.items| == |st.items|
      && r.items[sel] == Trim(st.inputValue)
      && (forall k :: 0 <= k < |st.items| && k != sel ==> r.items[k] == st.items[k])
      && r.selectedIndex == None
      && r.inputValue == ""
    ensures SelectionValid(r)
    ensures WellFormed(st) ==> WellFormed(r)
  {
    var title := Trim(st.inputValue);
    if title != [] && st.selectedIndex.Some? then
      TitlesTrimmedUpdate(st.items, st.selectedIndex.value, title);
      ListState(st.items[st.selectedIndex.value := title], None, "")
    else st
  }

  /** handleDelete: drop the selected position and clear the selection. The
      filter drops nothing when the selection is not a position of the list. */
  function Delete(st: ListState): (r: ListState)
    ensures st.selectedIndex.None? ==> r == st
    ensures st.selectedIndex.Some? && SelectionValid(st) ==>
      var sel := st.selectedIndex.value;
      && r.items == st.items[..sel] + st.items[sel + 1..]
      && |r.items| == |st.items| - 1
      && multiset(r.items) + multiset{st.items[sel]} == multiset(st.items)
    ensures st.selectedIndex.Some? && !SelectionValid(st) ==> r.items == st.items
    ensures st.selectedIndex.Some? ==> r.selectedIndex == None && r.inputValue == st.inputValue
    ensures SelectionValid(r)
    ensures WellFormed(st) ==> WellFormed(r)
  {
    match st.selectedIndex
    case None => st
    case Some(sel) =>
      if sel < |st.items| then
        WithoutIndexIsSplice(st.items, sel);
        WithoutIndexMultiset(st.items, sel);
        ListState(WithoutIndex(st.items, sel), None, st.inputValue)
      else
        WithoutIndexOutside(st.items, sel);
        ListState(WithoutIndex(st.items, sel), None, st.inputValue)
  }

  /** The guard of moveItem: up needs a row above, down a row below. */
  predicate CanMove(st: ListState, index: nat, direction: Direction) {
    (direction == Up && index > 0) || (direction == Down && index < |st.items| - 1)
  }

  /** The position an allowed move lands on. */
  function Target(index: nat, direction: Direction): int {
    if direction == Up then index - 1 else index + 1
  }

  /** moveItem(index, direction): exchange the row with its neighbour in that
      direction and select the moved row; a move off either end does nothing. */
  function Move(st: ListState, index: nat, direction: Direction): (r: ListState)
    requires index < |st.items|
    ensures (direction == Up && index == 0) || (direction == Down && index == |st.items| - 1) ==> r == st
    ensures CanMove(st, index, direction) ==>
      var n := Target(index, direction);
      && 0 <= n < |st.items|
      && |r.items| == |st.items|
      && r.items[n] == st.items[index]
      && r.items[index] == st.items[n]
      && (forall k :: 0 <= k < |st.items| && k != index && k != n ==> r.items[k] == st.items[k])
      && multiset(r.items) == multiset(st.items)
      && r.selectedIndex == Some(n)
      && r.inputValue == st.inputValue
    ensures SelectionValid(st) ==> SelectionValid(r)
    ensures WellFormed(st) ==> WellFormed(r)
  {
    if CanMove(st, index, direction) then
      var n := Target(index, direction);
      st.(items := Swap(st.items, index, n), selectedIndex := Some(n))
    else st
  }

  /** Clicking a row (rendered from items.map) selects it. */
  function SelectRow(st: ListState, index: nat): (r: ListState)
    requires index < |st.items|
    ensures r.items == st.items && r.inputValue == st.inputValue
    ensures r.selectedIndex == Some(index) && SelectionValid(r)
    ensures WellFormed(st) ==> WellFormed(r)
  {
    st.(selectedIndex := Some(index))
  }

  /** The Edit button copies the selected title into the input. */
  function PrefillEdit(st: ListState): (r: ListState)
    requires SelectionValid(st)
    ensures st.selectedIndex.None? ==> r == st
    ensures st.selectedIndex.Some? ==> r.inputValue == st.items[st.selectedIndex.value]
    ensures r.items == st.items && r.selectedIndex == st.selectedIndex
    ensures SelectionValid(r)
    ensures WellFormed(st) ==> WellFormed(r)
  {
    match st.selectedIndex
    case None => st
    case Some(sel) => st.(inputValue := st.items[sel])
  }

  /** Typing into either dialog's input. */
  function ChangeInput(st: ListState, value: string): (r: ListState)
    ensures r.inputValue == value && r.items == st.items && r.selectedIndex == st.selectedIndex
    ensures WellFormed(st) ==> WellFormed(r)
  {
    st.(inputValue := value)
  }

  /** "Add Lesson" and both Cancel buttons empty the input. */
  function ClearInput(st: ListState): (r: ListState)
    ensures r.inputValue == "" && r.items == st.items && r.selectedIndex == st.selectedIndex
    ensures WellFormed(st) ==> WellFormed(r)
  {
    st.(inputValue := "")
  }

  /** The user actions the rendered component reacts to. */
  datatype Event =
    | AddClicked
    | SaveClicked
    | DeleteClicked
    | MoveClicked(index: nat, direction: Direction)
    | RowClicked(index: nat)
    | EditClicked
    | InputChanged(value: string)
    | InputCleared

  /** Row events exist only for rendered rows, one per position of items. */
  predicate Enabled(st: ListState, e: Event) {
    match e
    case MoveClicked(index, _) => index < |st.items|
    case RowClicked(index) => index < |st.items|
    case _ => true
  }

  /** The handler each event runs. */
  function Step(st: ListState, e: Event): (r: ListState)
    requires SelectionValid(st) && Enabled(st, e)
    ensures SelectionValid(r)
    ensures WellFormed(st) ==> WellFormed(r)
  {
    match e
    case AddClicked => Add(st)
    case SaveClicked => Edit(st)
    case DeleteClicked => Delete(st)
    case MoveClicked(index, direction) => Move(st, index, direction)
    case RowClicked(index) => SelectRow(st, index)
    case EditClicked => PrefillEdit(st)
    case InputChanged(value) => ChangeInput(st, value)
    case InputCleared => ClearInput(st)
  }

  /** A sequence of events each of which the state it meets can receive. */
  ghost predicate Feasible(st: ListState, events: seq<Event>)
    requires SelectionValid(st)
    decreases |events|
  {
    events == [] || (Enabled(st, events[0]) && Feasible(Step(st, events[0]), events[1..]))
  }

  /** The state after handling the events one after another. */
  ghost function Run(st: ListState, events: seq<Event>): (r: ListState)
    requires SelectionValid(st) && Feasible(st, events)
    ensures SelectionValid(r)
    decreases |events|
  {
    if events == [] then st else Run(Step(st, events[0]), events[1..])
  }

  /** Whatever the user does, the selection stays null or a position of the
      list, and every title stays trimmed and non-empty. */
  lemma {:induction false} RunWellFormed(st: ListState, events: seq<Event>)
    requires WellFormed(st) && Feasible(st, events)
    ensures WellFormed(Run(st, events))
    decreases |events|
  {
    if events != [] {
      RunWellFormed(Step(st, events[0]), events[1..]);
    }
  }

  /** moving row i up and moving row i - 1 down give the same order. */
  lemma MoveUpMatchesDown(st: ListState, i: nat)
    requires 0 < i < |st.items|
    ensures Move(st, i, Up).items == Move(st, i - 1, Down).items
  {
    SwapSymmetric(st.items, i, i - 1);
  }

  /** Moving a row down and then back up restores the order, with that row
      selected. */
  lemma MoveDownThenUp(st: ListState, i: nat)
    requires i + 1 < |st.items|
    ensures Move(Move(st, i, Down), i + 1, Up) == st.(selectedIndex := Some(i))
  {
    var m := Move(st, i, Down);
    assert m == st.(items := Swap(st.items, i, i + 1), selectedIndex := Some(i + 1));
    assert Move(m, i + 1, Up).items == Swap(m.items, i + 1, i);
    SwapSymmetric(m.items, i + 1, i);
    SwapSelfInverse(st.items, i, i + 1);
  }

  /** Opening the edit dialog and saving without typing keeps the list and
      clears input and selection. */
  lemma PrefillThenSave(st: ListState)
    requires WellFormed(st) && st.selectedIndex.Some?
    ensures Edit(PrefillEdit(st)) == st.(selectedIndex := None, inputValue := "")
  {
    var sel := st.selectedIndex.value;
    var title := st.items[sel];
    TrimOfTrimmed(title);
    assert st.items[sel := title] == st.items;
  }

  /** Adding a title, selecting the new last row and deleting it gives back
      the list before the add. */
  lemma AddThenDeleteLast(st: ListState)
    requires Trim(st.inputValue) != []
    ensures Delete(SelectRow(Add(st), |st.items|)).items == st.items
  {
    var a := Add(st);
    assert a.items[..|st.items|] == st.items;
  }

  /** [A, B, C] with row 1 selected; moving row 1 up gives [B, A, C] with row
      0 selected. */
  lemma MoveUpExample()
    ensures Move(ListState(["A", "B", "C"], Some(1), ""), 1, Up)
         == ListState(["B", "A", "C"], Some(0), "")
  {
    assert Swap(["A", "B", "C"], 1, 0) == ["B", "A", "C"];
  }

  /** [A, B] with row 1 selected; saving "B2" gives [A, B2]. */
  lemma EditExample()
    ensures Edit(ListState(["A", "B"], Some(1), "B2")) == ListState(["A", "B2"], None, "")
  {
    TrimOfTrimmed("B2");
  }

  /** On the empty list nothing is selected, so delete and save do nothing. */
  lemma EmptyListExample(x: string)
    ensures Delete(Initial) == Initial
    ensures Edit(Initial.(inputValue := x)) == Initial.(inputValue := x)
  {
  }
}
