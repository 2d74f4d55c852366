/**
  The chat rooms page: official rooms (whose `isPrivate` is absent or
  false), the private rooms the viewer belongs to, the recommended marking
  from the viewer's assessment, and the owner line of a private room.
 */
module ChatRooms {
  import opened Types
  import opened Seqs
  import opened App

  /** JavaScript truthiness of an optional boolean. */
  predicate Truthy(b: Option<bool>) {
    b == Some(true)
  }

  /** `user?.id || ''`: the viewer's id, or the empty string without a viewer. */
  function ViewerId(s: State): (id: string)
    ensures s.user.Some? ==> id == s.user.value.id
    ensures s.user.None? ==> id == ""
  {
    match s.user
    case None => ""
    case Some(u) => u.id
  }

  /** The viewer may enter the room: it is private and its members include the viewer's id. */
  predicate Joined(room: ChatRoom, viewer: string) {
    Truthy(room.isPrivate) && room.members.Some? && viewer in room.members.value
  }

  /** The rooms that are not private, in list order. */
  function OfficialRooms(rooms: seq<ChatRoom>): (r: seq<ChatRoom>)
    ensures forall room :: room in r <==> room in rooms && !Truthy(room.isPrivate)
    ensures forall room: ChatRoom :: !Truthy(room.isPrivate) ==> multiset(r)[room] == multiset(rooms)[room]
    ensures Subsequence(r, rooms)
  {
    Filter((room: ChatRoom) => !Truthy(room.isPrivate), rooms)
  }

  /** The private rooms whose members include the viewer, in list order. */
  function PrivateRooms(s: State): (r: seq<ChatRoom>)
    ensures forall room :: room in r <==> room in s.allChatRooms && Joined(room, ViewerId(s))
    ensures forall room: ChatRoom :: Joined(room, ViewerId(s)) ==> multiset(r)[room] == multiset(s.allChatRooms)[room]
    ensures Subsequence(r, s.allChatRooms)
  {
    var viewer := ViewerId(s);
    Filter((room: ChatRoom) => Joined(room, viewer), s.allChatRooms)
  }

  /** No room is listed both as official and as private. */
  lemma OfficialAndPrivateDisjoint(s: State)
    ensures forall room :: !(room in OfficialRooms(s.allChatRooms) && room in PrivateRooms(s))
  {
  }

  /** The room ids the viewer's assessment recommends; none without a viewer or a result. */
  function RecommendedIds(s: State): (ids: seq<string>)
    ensures s.user.None? || s.user.value.assessmentResult.None? ==> ids == []
    ensures s.user.Some? && s.user.value.assessmentResult.Some? ==>
      ids == s.user.value.assessmentResult.value.recommendedRoomIds
  {
    match s.user
    case None => []
    case Some(u) =>
      match u.assessmentResult
      case None => []
      case Some(result) => result.recommendedRoomIds
  }

  predicate IsRecommended(s: State, room: ChatRoom) {
    room.id in RecommendedIds(s)
  }

  /** Without an assessment result, no room is marked. */
  lemma NothingRecommendedWithoutResult(s: State, room: ChatRoom)
    requires s.user.None? || s.user.value.assessmentResult.None?
    ensures !IsRecommended(s, room)
  {
  }

  /** The owner a private room shows: an empty or missing `ownerId` shows none, otherwise the map lookup. */
  function Owner(s: State, room: ChatRoom): (r: Option<User>)
    ensures r.Some? ==> room.ownerId.Some? && room.ownerId.value != "" && r.value in s.allUsers && r.value.id == room.ownerId.value
    ensures r.None? <==> (room.ownerId.None? || room.ownerId.value == "" ||
      forall u :: u in s.allUsers ==> u.id != room.ownerId.value)
  {
    match room.ownerId
    case None => None
    case Some(id) => if id == "" then None else LookupUser(s.allUsers, id)
  }

  /**
    A room made by `createRoom` is listed among its creator's private rooms,
    never among the official ones, and shows the creator as owner once the
    creator is listed among all users with a unique id.
   */
  lemma CreatedRoomVisibleToCreator(s: State, name: string, description: string, memberIds: seq<string>, now: nat)
    requires s.user.Some?
    ensures var r := CreateRoom(s, name, description, memberIds, now);
      var room := r.allChatRooms[|s.allChatRooms|];
      && room in PrivateRooms(r)
      && room !in OfficialRooms(r.allChatRooms)
      && (UniqueIds(s.allUsers) && InSync(s) && s.user.value.id != "" ==> Owner(r, room) == s.user)
  {
    var r := CreateRoom(s, name, description, memberIds, now);
    var room := r.allChatRooms[|s.allChatRooms|];
    assert room.members.value[0] == s.user.value.id;
    if UniqueIds(s.allUsers) && InSync(s) && s.user.value.id != "" {
      LookupIsFindWhenUnique(s.allUsers, s.user.value.id);
      FindListedUser(s.allUsers, s.user.value);
    }
  }
}
