/** The second quiz step: the user selects the rooms to design from a
    fixed list; Continue is enabled once a room is selected. */
module RoomSelection {
  import opened Base

  /** The keys of `roomIcons`, in declaration order: the rooms offered. */
  const RoomChoices: seq<string> :=
    ["Living Room", "Kitchen", "Dining Room", "Bedroom", "Office", "Bathroom", "Outdoor"]

  lemma RoomChoicesDistinct()
    ensures |RoomChoices| == 7 && NoDuplicates(RoomChoices)
  {
  }

  function OtherRoom(room: string): string -> bool
  {
    (r: string) => r != room
  }

  /** `toggleRoomSelection`: a selected room is removed (every copy of it),
      any other room is appended. */
  function ToggleRoom(selected: seq<string>, room: string): (r: seq<string>)
    ensures room !in selected ==> r == selected + [room]
    ensures room in selected ==> room !in r && forall x :: x in r <==> x in selected && x != room
    ensures room in selected ==> forall x :: x != room ==> Occurrences(r, x) == Occurrences(selected, x)
  {
    if room in selected then
      FilterMembers(selected, OtherRoom(room));
      assert forall x :: x != room ==>
               Occurrences(Filter(selected, OtherRoom(room)), x) == Occurrences(selected, x) by {
        forall x | x != room
          ensures Occurrences(Filter(selected, OtherRoom(room)), x) == Occurrences(selected, x)
        {
          FilterOccurrences(selected, OtherRoom(room), x);
        }
      }
      Filter(selected, OtherRoom(room))
    else selected + [room]
  }

  /** Removing keeps the remaining rooms in their order. */
  lemma ToggleRoomKeepsOrder(selected: seq<string>, room: string)
    requires room in selected
    ensures IsSubsequence(ToggleRoom(selected, room), selected)
  {
    FilterIsSubsequence(selected, OtherRoom(room));
  }

  /** Toggling a room that is not selected twice gives back the original
      selection. */
  lemma ToggleRoomTwice(selected: seq<string>, room: string)
    requires room !in selected
    ensures ToggleRoom(ToggleRoom(selected, room), room) == selected
  {
    FilterAppend(selected, [room], OtherRoom(room));
    FilterAll(selected, OtherRoom(room));
    assert Filter([room], OtherRoom(room)) == [];
  }

  /** Starting from no selection, toggling offered rooms keeps the
      selection free of repetitions and within the offered rooms. */
  lemma ToggleRoomKeepsSelectionValid(selected: seq<string>, room: string)
    requires NoDuplicates(selected) && forall i :: 0 <= i < |selected| ==> selected[i] in RoomChoices
    requires room in RoomChoices
    ensures var r := ToggleRoom(selected, room);
            NoDuplicates(r) && forall i :: 0 <= i < |r| ==> r[i] in RoomChoices
  {
    var r := ToggleRoom(selected, room);
    if room in selected {
      FilterIsSubsequence(selected, OtherRoom(room));
      var idx: seq<nat> :| |idx| == |r|
        && (forall i :: 0 <= i < |idx| ==> idx[i] < |selected| && r[i] == selected[idx[i]])
        && (forall i, j :: 0 <= i < j < |idx| ==> idx[i] < idx[j]);
      forall i, j | 0 <= i < j < |r| ensures r[i] != r[j] {
        assert r[i] == selected[idx[i]] && r[j] == selected[idx[j]];
      }
    }
  }

  /** Continue is enabled exactly when a room is selected. */
  predicate CanContinue(selected: seq<string>)
  {
    |selected| > 0
  }
}
