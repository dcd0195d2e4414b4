/** The room list of src/components/RoomPanel.jsx: the four predefined rooms, the
    marker on the current one, and the create form, which derives a room id from the
    typed name. The selection handed to `onRoomSelect` is returned. */
module RoomPanel {
  import opened JsString
  import opened SocketContext

  /** The predefined rooms, in display order. */
  const PredefinedRooms: seq<RoomRef> := [
    RoomRef("general", "General"),
    RoomRef("random", "Random"),
    RoomRef("tech", "Tech Talk"),
    RoomRef("gaming", "Gaming")
  ]

  /** `s[i..]` with every maximal run of white space replaced by one '-':
      `replace(/\s+/g, '-')`. */
  function Collapse(s: string, i: nat): (r: string)
    requires i <= |s|
    ensures forall k :: 0 <= k < |r| ==> !IsSpace(r[k])
    ensures |r| <= |s| - i
    ensures i < |s| ==> r != []
    ensures i < |s| && IsSpace(s[i]) ==> r[0] == '-'
    ensures (forall k :: i <= k < |s| ==> LowerChar(s[k]) == s[k]) ==> forall k :: 0 <= k < |r| ==> LowerChar(r[k]) == r[k]
    decreases |s| - i
  {
    if i == |s| then []
    else if IsSpace(s[i]) then
      var j := SpaceRunFrom(s, i);
      "-" + Collapse(s, j)
    else [s[i]] + Collapse(s, i + 1)
  }

  /** Collapsing a text without white space leaves it as it is. */
  lemma {:induction false} CollapseWithoutSpace(s: string, i: nat)
    requires i <= |s|
    requires forall k :: i <= k < |s| ==> !IsSpace(s[k])
    ensures Collapse(s, i) == s[i..]
    decreases |s| - i
  {
    if i < |s| {
      CollapseWithoutSpace(s, i + 1);
      assert s[i..] == [s[i]] + s[i + 1..];
    }
  }

  /** The room id derived from a typed name: lower-cased, white-space runs to '-'. */
  function Slug(name: string): (r: string)
    ensures forall k :: 0 <= k < |r| ==> !IsSpace(r[k])
    ensures name != [] ==> r != []
  {
    Collapse(Lower(name), 0)
  }

  /** A slug has nothing to trim and is its own slug. */
  lemma SlugIsFixed(name: string)
    ensures Trim(Slug(name)) == Slug(name)
    ensures Slug(Slug(name)) == Slug(name)
  {
    var r := Slug(name);
    TrimOfTrimmed(r);
    assert Lower(r) == r;
    CollapseWithoutSpace(r, 0);
    assert r[0..] == r;
  }

  /** A name that starts with white space gives an id that starts with '-': the id
      comes from the untrimmed name. */
  lemma SlugKeepsEdgeSpace(name: string)
    requires name != [] && IsSpace(name[0])
    ensures Slug(name)[0] == '-'
  {
    LowerCharKeepsSpace(name[0]);
  }

  /** The create form: the text typed so far and whether the form is shown. */
  datatype Form = Form(newRoomName: string, showCreateForm: bool)

  /** `handleCreateRoom`: a non-blank name selects the room with the derived id and
      the trimmed name, then empties and hides the form; a blank name does nothing. */
  function CreateRoom(form: Form): (r: (Form, Option<RoomRef>))
    ensures !HasText(form.newRoomName) ==> r == (form, None)
    ensures HasText(form.newRoomName) ==>
      && r.0 == Form("", false)
      && r.1 == Some(RoomRef(Slug(form.newRoomName), Trim(form.newRoomName)))
      && r.1.value.roomId != "" && r.1.value.roomName != ""
  {
    TrimIsEmptyIffBlank(form.newRoomName);
    if HasText(form.newRoomName) then
      (Form("", false), Some(RoomRef(Slug(form.newRoomName), Trim(form.newRoomName))))
    else (form, None)
  }

  /** The header button toggles the form; the text is kept. */
  function ToggleForm(form: Form): (r: Form)
    ensures r.newRoomName == form.newRoomName && r.showCreateForm != form.showCreateForm
  {
    form.(showCreateForm := !form.showCreateForm)
  }

  /** The cancel button hides the form and forgets the text. */
  function CancelForm(form: Form): (r: Form)
    ensures r == Form("", false)
  {
    Form("", false)
  }

  /** A room is marked current exactly when its id is the current room's id. */
  predicate IsCurrent(currentRoom: Option<RoomRef>, room: RoomRef) {
    currentRoom.Some? && currentRoom.value.roomId == room.roomId
  }

  /** The predefined ids differ, so at most one predefined room carries the marker. */
  lemma AtMostOneMarked(currentRoom: Option<RoomRef>, i: nat, j: nat)
    requires i < |PredefinedRooms| && j < |PredefinedRooms|
    requires IsCurrent(currentRoom, PredefinedRooms[i]) && IsCurrent(currentRoom, PredefinedRooms[j])
    ensures i == j
  {
    assert forall a, b :: 0 <= a < b < |PredefinedRooms| ==> PredefinedRooms[a].roomId != PredefinedRooms[b].roomId;
  }

  /** Joining the current room's id marks exactly the predefined room with that id. */
  lemma JoinedPredefinedIsMarked(i: nat, roomName: string)
    requires i < |PredefinedRooms|
    ensures forall j :: 0 <= j < |PredefinedRooms| ==>
      (IsCurrent(Some(RoomRef(PredefinedRooms[i].roomId, roomName)), PredefinedRooms[j]) <==> j == i)
  {
    forall j | 0 <= j < |PredefinedRooms| && IsCurrent(Some(RoomRef(PredefinedRooms[i].roomId, roomName)), PredefinedRooms[j])
      ensures j == i
    {
      AtMostOneMarked(Some(RoomRef(PredefinedRooms[i].roomId, roomName)), i, j);
    }
  }
}
