/** The ListManager component as an object: its three state hooks are fields,
    each setter call is an assignment, and each handler is a method whose new
    state is the corresponding reducer function of the old one. */
module Component {
  import opened Text
  import opened Sequences
  import opened Reducer

  /** [...s]: a fresh array holding the elements of s. */
  method CopyToArray(s: seq<string>) returns (a: array<string>)
    ensures fresh(a) && a[..] == s
  {
    a := new string[|s|](k requires 0 <= k < |s| => s[k]);
  }

  class ListManager {
    var items: seq<string>
    var selectedIndex: Option<nat>
    var inputValue: string

    /** The component state as a value. */
    function State(): ListState
      reads this
    {
      ListState(items, selectedIndex, inputValue)
    }

    ghost predicate Valid()
      reads this
    {
      WellFormed(State())
    }

    constructor ()
      ensures Valid() && State() == Initial
    {
      items := [];
      selectedIndex := None;
      inputValue := "";
    }

    method HandleAdd()
      requires Valid()
      modifies this
      ensures Valid() && State() == Add(old(State()))
    {
      var title := Trim(inputValue);
      if title != [] {
        items := items + [title];
        inputValue := "";
      }
    }

    method HandleEdit()
      requires Valid()
      modifies this
      ensures Valid() && State() == Edit(old(State()))
    {
      var title := Trim(inputValue);
      if title != [] && selectedIndex.Some? {
        var newItems := CopyToArray(items);
        newItems[selectedIndex.value] := title;
        items := newItems[..];
        inputValue := "";
        selectedIndex := None;
      }
    }

    method HandleDelete()
      requires Valid()
      modifies this
      ensures Valid() && State() == Delete(old(State()))
    {
      if selectedIndex.Some? {
        items := WithoutIndex(items, selectedIndex.value);
        selectedIndex := None;
      }
      assert State() == Delete(old(State()));
    }

    method MoveItem(index: nat, direction: Direction)
      requires Valid() && index < |items|
      modifies this
      ensures Valid() && State() == Move(old(State()), index, direction)
    {
      if (direction == Up && index > 0) || (direction == Down && index < |items| - 1) {
        var newItems := CopyToArray(items);
        var newIndex := if direction == Up then index - 1 else index + 1;
        newItems[index], newItems[newIndex] := newItems[newIndex], newItems[index];
        items := newItems[..];
        selectedIndex := Some(newIndex);
      }
    }

    /** onClick of a rendered row. */
    method SelectRow(index: nat)
      requires Valid() && index < |items|
      modifies this
      ensures Valid() && State() == Reducer.SelectRow(old(State()), index)
    {
      selectedIndex := Some(index);
    }

    /** onClick of the Edit button. */
    method OpenEdit()
      requires Valid()
      modifies this
      ensures Valid() && State() == PrefillEdit(old(State()))
    {
      if selectedIndex.Some? {
        inputValue := items[selectedIndex.value];
      }
    }

    /** onChange of either dialog's input. */
    method ChangeInput(value: string)
      requires Valid()
      modifies this
      ensures Valid() && State() == Reducer.ChangeInput(old(State()), value)
    {
      inputValue := value;
    }

    /** onClick of "Add Lesson" and of either Cancel button. */
    method ClearInput()
      requires Valid()
      modifies this
      ensures Valid() && State() == Reducer.ClearInput(old(State()))
    {
      inputValue := "";
    }
  }
}
