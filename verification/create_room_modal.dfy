/**
  The dialog that creates a private room: the room name being typed, the
  selected friend ids, and whether the dialog is open. Invite candidates are
  the current user's friends (`Friends.MyFriends`).
 */
module CreateRoomModal {
  import opened Types
  import opened Seqs
  import opened Text
  import opened App
  import opened ChatRooms

  datatype Modal = Modal(roomName: string, selected: seq<string>, open: bool)

  /** Ticking or unticking a friend: the membership toggle on the selection. */
  function ToggleFriend(m: Modal, friendId: string): (r: Modal)
    ensures friendId in r.selected <==> friendId !in m.selected
    ensures forall id :: id != friendId ==> (id in r.selected <==> id in m.selected)
    ensures multiset(r.selected)[friendId] <= 1
    ensures NoDup(m.selected) ==> NoDup(r.selected)
    ensures r.roomName == m.roomName && r.open == m.open
  {
    m.(selected := Toggle(m.selected, friendId))
  }

  /** Ticking the same friend twice gives back the same selection, as a set of ids. */
  lemma ToggleFriendTwice(m: Modal, friendId: string)
    ensures forall id :: id in ToggleFriend(ToggleFriend(m, friendId), friendId).selected <==> id in m.selected
  {
    ToggleTwiceMembership(m.selected, friendId);
  }

  /** A run of ticks in order. */
  function Ticks(m: Modal, ticks: seq<string>): Modal
    decreases |ticks|
  {
    if |ticks| == 0 then m else Ticks(ToggleFriend(m, ticks[0]), ticks[1..])
  }

  /** Any run of ticks keeps a selection free of repeated ids. */
  lemma {:induction false} TicksKeepSelectionDistinct(m: Modal, ticks: seq<string>)
    requires NoDup(m.selected)
    ensures NoDup(Ticks(m, ticks).selected)
    decreases |ticks|
  {
    if |ticks| > 0 {
      TicksKeepSelectionDistinct(ToggleFriend(m, ticks[0]), ticks[1..]);
    }
  }

  /** The description every created room gets. */
  function RoomDescription(ownerName: string): (d: string)
    ensures |d| == |ownerName| + 27
    ensures d[..26] == "A private room created by "
    ensures d[26..26 + |ownerName|] == ownerName
    ensures d[|d| - 1] == '.'
  {
    "A private room created by " + ownerName + "."
  }

  /** The create button is disabled while the name is blank. */
  predicate CreateEnabled(m: Modal) {
    !Blank(m.roomName)
  }

  /**
    Submitting: ignored while the name is blank or nobody is signed in;
    otherwise the room is created with the untrimmed name, the standard
    description and the selection, and the dialog is cleared and closed.
   */
  function Submit(m: Modal, s: State, now: nat): (r: (Modal, State))
    ensures Blank(m.roomName) || s.user.None? ==> r == (m, s)
    ensures !Blank(m.roomName) && s.user.Some? ==>
      && r.0 == Modal("", [], false)
      && r.1 == Step(s, CreateRoomCall(m.roomName, RoomDescription(s.user.value.name), m.selected, now))
  {
    if TrimsToEmpty(m.roomName) || s.user.None? then (m, s)
    else
      (Modal("", [], false), Step(s, CreateRoomCall(m.roomName, RoomDescription(s.user.value.name), m.selected, now)))
  }

  /**
    An accepted submit adds exactly one room: private, owned by the
    creator, with the creator followed by the selected friends as members,
    and listed among the creator's private rooms.
   */
  lemma SubmitCreatesJoinedRoom(m: Modal, s: State, now: nat)
    requires !Blank(m.roomName) && s.user.Some?
    ensures var s' := Submit(m, s, now).1;
      && |s'.allChatRooms| == |s.allChatRooms| + 1
      && var room := s'.allChatRooms[|s.allChatRooms|];
      && room.members == Some([s.user.value.id] + m.selected)
      && room.ownerId == Some(s.user.value.id)
      && (forall lang: Language :: room.name.Get(lang) == m.roomName)
      && room in PrivateRooms(s')
  {
    var description := RoomDescription(s.user.value.name);
    assert Submit(m, s, now).1 == CreateRoom(s, m.roomName, description, m.selected, now);
    CreatedRoomVisibleToCreator(s, m.roomName, description, m.selected, now);
  }
}
