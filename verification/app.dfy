/**
  The application state container: the current user, every user with the
  posts and friend ids they own, every chat room and every friend request,
  with one pure transition per mutation handler of the application root
  (App.tsx) and the effect that re-derives the current user from the list
  of all users.

  `Date.now()` is the `now` parameter; ids derived from it are
  "user-<now>", "room-<now>" and, for posts, `now` itself; a post's
  timestamp is the same clock reading in milliseconds.
 */
module App {
  import opened Types
  import opened Seqs
  import opened Text

  datatype State = State(
    user: Option<User>,
    allUsers: seq<User>,
    allChatRooms: seq<ChatRoom>,
    friendRequests: seq<FriendRequest>)

  datatype Response = Accept | Decline

  /** The placeholder name every user starts with. */
  const NewUserName: string := "New User"

  /** The icon of every room a user creates. */
  const PrivateRoomIcon: string := "👥"

  function UserIdAt(now: nat): string {
    "user-" + DecimalString(now)
  }

  function RoomIdAt(now: nat): string {
    "room-" + DecimalString(now)
  }

  /** Users created at different clock readings get different ids. */
  lemma UserIdAtInjective(m: nat, n: nat)
    requires UserIdAt(m) == UserIdAt(n)
    ensures m == n
  {
    assert UserIdAt(m)[5..] == DecimalString(m);
    assert UserIdAt(n)[5..] == DecimalString(n);
    DecimalStringInjective(m, n);
  }

  /** No two users share an id. */
  ghost predicate UniqueIds(users: seq<User>) {
    forall i, j :: 0 <= i < j < |users| ==> users[i].id != users[j].id
  }

  /** `users.find(u => u.id === id)`: the first user with that id. */
  function FindUser(users: seq<User>, id: string): (r: Option<User>)
    ensures r.Some? ==> r.value in users && r.value.id == id
    ensures r.Some? ==> exists i :: 0 <= i < |users| && users[i] == r.value && forall j :: 0 <= j < i ==> users[j].id != id
    ensures r.None? <==> forall u :: u in users ==> u.id != id
  {
    Find((u: User) => u.id == id, users)
  }

  /** With unique ids, looking a listed user up by its id finds that very user. */
  lemma FindListedUser(users: seq<User>, u: User)
    requires UniqueIds(users) && u in users
    ensures FindUser(users, u.id) == Some(u)
  {
    var k :| 0 <= k < |users| && users[k] == u;
    var i := FirstIndex((v: User) => v.id == u.id, users).value;
    assert users[i].id == users[k].id;
  }

  /**
    `new Map(users.map(u => [u.id, u])).get(id)`: a map built from the list
    keeps the last entry for each id.
   */
  function LookupUser(users: seq<User>, id: string): (r: Option<User>)
    ensures r.Some? ==> r.value.id == id && (exists i :: (0 <= i < |users| && users[i] == r.value &&
      forall j :: i < j < |users| ==> users[j].id != id))
    ensures r.None? <==> forall u :: u in users ==> u.id != id
  {
    match LastIndex((u: User) => u.id == id, users)
    case None => None
    case Some(i) => Some(users[i])
  }

  /** With unique ids the map lookup and `find` agree. */
  lemma LookupIsFindWhenUnique(users: seq<User>, id: string)
    requires UniqueIds(users)
    ensures LookupUser(users, id) == FindUser(users, id)
  {
    var f := (u: User) => u.id == id;
    FirstIsLastWhenUnique(f, users);
  }

  /** `users.map(u => u.id === updated.id ? updated : u)`. */
  function ReplaceUser(users: seq<User>, updated: User): seq<User> {
    seq(|users|, i requires 0 <= i < |users| => if users[i].id == updated.id then updated else users[i])
  }

  /** `after` is `before` with exactly the entries whose id is `id` replaced by `updated`. */
  ghost predicate OnlyEntriesReplaced(before: seq<User>, after: seq<User>, id: string, updated: User) {
    && |after| == |before|
    && (forall i :: 0 <= i < |before| && before[i].id != id ==> after[i] == before[i])
    && (forall i :: 0 <= i < |before| && before[i].id == id ==> after[i] == updated)
  }

  // ---------------------------------------------------------------------------
  // completeAssessment

  /** The user a finished assessment creates. */
  function NewUser(result: AssessmentResult, now: nat): User {
    User(UserIdAt(now), NewUserName, Some(""), Some(""), Some(result), [], [])
  }

  /** Appends a fresh user carrying the result and makes it the current user. */
  function CompleteAssessment(s: State, result: AssessmentResult, now: nat): (r: State)
    ensures r.user.Some? && r.allUsers == s.allUsers + [r.user.value]
    ensures r.user.value.id == UserIdAt(now) && r.user.value.name == NewUserName
    ensures r.user.value.bio == Some("") && r.user.value.avatar == Some("")
    ensures r.user.value.assessmentResult == Some(result)
    ensures r.user.value.posts == [] && r.user.value.friends == []
    ensures r.allChatRooms == s.allChatRooms && r.friendRequests == s.friendRequests
  {
    var u := NewUser(result, now);
    s.(user := Some(u), allUsers := s.allUsers + [u])
  }

  // ---------------------------------------------------------------------------
  // addPost, updateProfile, updateAvatar

  /** The post `addPost` creates for `author` at clock reading `now`. */
  function NewPost(author: User, text: string, imageUrl: Option<string>, now: nat): Post {
    Post(now, text, imageUrl, now, author.id, [])
  }

  /** Without a current user nothing changes; otherwise the new post goes in front of the current user's posts. */
  function AddPost(s: State, text: string, imageUrl: Option<string>, now: nat): (r: State)
    ensures s.user.None? ==> r == s
    ensures s.user.Some? ==> (
      && r.user.Some?
      && var (u, u') := (s.user.value, r.user.value);
      && u' == u.(posts := u'.posts)
      && |u'.posts| == |u.posts| + 1 && u'.posts[1..] == u.posts
      && u'.posts[0].id == now && u'.posts[0].timestamp == now
      && u'.posts[0].text == text && u'.posts[0].imageUrl == imageUrl
      && u'.posts[0].authorId == u.id && u'.posts[0].likes == []
      && OnlyEntriesReplaced(s.allUsers, r.allUsers, u.id, u'))
    ensures r.allChatRooms == s.allChatRooms && r.friendRequests == s.friendRequests
  {
    match s.user
    case None => s
    case Some(u) =>
      var updated := u.(posts := [NewPost(u, text, imageUrl, now)] + u.posts);
      s.(user := Some(updated), allUsers := ReplaceUser(s.allUsers, updated))
  }

  /** Sets the current user's name and bio, everywhere the user is listed. */
  function UpdateProfile(s: State, name: string, bio: string): (r: State)
    ensures s.user.None? ==> r == s
    ensures s.user.Some? ==> (
      && r.user.Some?
      && r.user.value == s.user.value.(name := name, bio := Some(bio))
      && OnlyEntriesReplaced(s.allUsers, r.allUsers, s.user.value.id, r.user.value))
    ensures r.allChatRooms == s.allChatRooms && r.friendRequests == s.friendRequests
  {
    match s.user
    case None => s
    case Some(u) =>
      var updated := u.(name := name, bio := Some(bio));
      s.(user := Some(updated), allUsers := ReplaceUser(s.allUsers, updated))
  }

  /** Sets the current user's avatar, everywhere the user is listed. */
  function UpdateAvatar(s: State, avatarUrl: string): (r: State)
    ensures s.user.None? ==> r == s
    ensures s.user.Some? ==> (
      && r.user.Some?
      && r.user.value == s.user.value.(avatar := Some(avatarUrl))
      && OnlyEntriesReplaced(s.allUsers, r.allUsers, s.user.value.id, r.user.value))
    ensures r.allChatRooms == s.allChatRooms && r.friendRequests == s.friendRequests
  {
    match s.user
    case None => s
    case Some(u) =>
      var updated := u.(avatar := Some(avatarUrl));
      s.(user := Some(updated), allUsers := ReplaceUser(s.allUsers, updated))
  }

  // ---------------------------------------------------------------------------
  // toggleLikePost

  /**
    `after` is `before` with `uid`'s like flipped and left at most once,
    every other liker kept, and likes without repeats kept without repeats;
    the count goes up by one on a like and down by one on an unlike of a
    single like.
   */
  ghost predicate LikeFlipped(before: Post, after: Post, uid: string) {
    && after == before.(likes := after.likes)
    && (uid in after.likes <==> uid !in before.likes)
    && multiset(after.likes)[uid] <= 1
    && (forall x :: x != uid ==> (x in after.likes <==> x in before.likes))
    && (NoDup(before.likes) ==> NoDup(after.likes))
    && (uid !in before.likes ==> |after.likes| == |before.likes| + 1)
    && (multiset(before.likes)[uid] == 1 ==> |after.likes| == |before.likes| - 1)
  }

  /** The like toggle on one post list: posts with the id flip `uid`'s like, the rest stay. */
  function ToggleLikeInPosts(posts: seq<Post>, postId: int, uid: string): (r: seq<Post>)
    ensures |r| == |posts|
    ensures forall j :: 0 <= j < |posts| ==>
      if posts[j].id == postId then LikeFlipped(posts[j], r[j], uid) else r[j] == posts[j]
  {
    if |posts| == 0 then []
    else
      var p := posts[0];
      var q := if p.id == postId then p.(likes := Toggle(p.likes, uid)) else p;
      [q] + ToggleLikeInPosts(posts[1..], postId, uid)
  }

  /** `after` is `before` with the like toggle applied to the posts whose id is `postId`. */
  ghost predicate LikesToggled(before: User, after: User, postId: int, uid: string) {
    && after == before.(posts := after.posts)
    && |after.posts| == |before.posts|
    && forall j :: 0 <= j < |before.posts| ==>
         if before.posts[j].id == postId then LikeFlipped(before.posts[j], after.posts[j], uid)
         else after.posts[j] == before.posts[j]
  }

  /** The like toggle across every user's posts. */
  function ToggleLikeInUsers(users: seq<User>, postId: int, uid: string): (r: seq<User>)
    ensures |r| == |users|
    ensures forall i :: 0 <= i < |users| ==> LikesToggled(users[i], r[i], postId, uid)
  {
    if |users| == 0 then []
    else
      var u := users[0];
      [u.(posts := ToggleLikeInPosts(u.posts, postId, uid))] + ToggleLikeInUsers(users[1..], postId, uid)
  }

  /** `after` is the first listed record with `before`'s id, or `before` itself when none is listed. */
  ghost predicate Reread(users: seq<User>, before: User, after: Option<User>) {
    after == (if FindUser(users, before.id).Some? then FindUser(users, before.id) else Some(before))
  }

  /**
    Without a current user nothing changes; otherwise every post with the
    given id, whoever wrote it, flips the current user's like, and the
    current user is re-read from the rewritten list when it is listed there.
   */
  function ToggleLikePost(s: State, postId: int): (r: State)
    ensures s.user.None? ==> r == s
    ensures |r.allUsers| == |s.allUsers|
    ensures s.user.Some? ==> forall i :: 0 <= i < |s.allUsers| ==>
      LikesToggled(s.allUsers[i], r.allUsers[i], postId, s.user.value.id)
    ensures s.user.Some? ==> r.user.Some? && r.user.value.id == s.user.value.id
    ensures s.user.Some? ==> Reread(r.allUsers, s.user.value, r.user)
    ensures r.allChatRooms == s.allChatRooms && r.friendRequests == s.friendRequests
  {
    match s.user
    case None => s
    case Some(u) =>
      var users := ToggleLikeInUsers(s.allUsers, postId, u.id);
      var found := FindUser(users, u.id);
      s.(allUsers := users, user := if found.Some? then found else s.user)
  }

  // ---------------------------------------------------------------------------
  // createRoom

  /** The private room the current user creates. */
  function NewRoom(owner: User, name: string, description: string, memberIds: seq<string>, now: nat): ChatRoom {
    ChatRoom(RoomIdAt(now), Uniform(name), Uniform(description), PrivateRoomIcon,
             Some(true), Some(owner.id), Some([owner.id] + memberIds))
  }

  /** Without a current user nothing changes; otherwise one private room owned by the current user is appended. */
  function CreateRoom(s: State, name: string, description: string, memberIds: seq<string>, now: nat): (r: State)
    ensures s.user.None? ==> r == s
    ensures s.user.Some? ==>
      && |r.allChatRooms| == |s.allChatRooms| + 1
      && r.allChatRooms[..|s.allChatRooms|] == s.allChatRooms
      && var room := r.allChatRooms[|s.allChatRooms|];
      && room.id == RoomIdAt(now)
      && room.isPrivate == Some(true)
      && room.ownerId == Some(s.user.value.id)
      && room.members == Some([s.user.value.id] + memberIds)
      && (forall lang: Language :: room.name.Get(lang) == name && room.description.Get(lang) == description)
    ensures r.user == s.user && r.allUsers == s.allUsers && r.friendRequests == s.friendRequests
  {
    match s.user
    case None => s
    case Some(u) => s.(allChatRooms := s.allChatRooms + [NewRoom(u, name, description, memberIds, now)])
  }

  // ---------------------------------------------------------------------------
  // sendFriendRequest, respondToFriendRequest

  /** The request relates `a` and `b`, in either direction. */
  predicate Links(req: FriendRequest, a: string, b: string) {
    (req.fromUserId == a && req.toUserId == b) || (req.fromUserId == b && req.toUserId == a)
  }

  /** The first request relating `a` and `b`, in either direction. */
  function FindLink(reqs: seq<FriendRequest>, a: string, b: string): (r: Option<FriendRequest>)
    ensures r.Some? ==> r.value in reqs && Links(r.value, a, b)
    ensures r.Some? ==> exists i :: 0 <= i < |reqs| && reqs[i] == r.value && forall j :: 0 <= j < i ==> !Links(reqs[j], a, b)
    ensures r.None? <==> forall req :: req in reqs ==> !Links(req, a, b)
  {
    Find((req: FriendRequest) => Links(req, a, b), reqs)
  }

  /** No two requests relate the same unordered pair of users. */
  ghost predicate PairsUnique(reqs: seq<FriendRequest>) {
    forall i, j :: 0 <= i < j < |reqs| ==> !Links(reqs[i], reqs[j].fromUserId, reqs[j].toUserId)
  }

  /**
    Without a current user, or when some request of any status already
    relates the two users, nothing changes; otherwise one pending request
    from the current user to the target is appended.
   */
  function SendFriendRequest(s: State, toUserId: string): (r: State)
    ensures s.user.None? ==> r == s
    ensures s.user.Some? && (exists req :: req in s.friendRequests && Links(req, s.user.value.id, toUserId)) ==> r == s
    ensures s.user.Some? && (forall req :: req in s.friendRequests ==> !Links(req, s.user.value.id, toUserId)) ==>
      r.friendRequests == s.friendRequests + [FriendRequest(s.user.value.id, toUserId, Pending)]
    ensures r.user == s.user && r.allUsers == s.allUsers && r.allChatRooms == s.allChatRooms
    ensures PairsUnique(s.friendRequests) ==> PairsUnique(r.friendRequests)
  {
    match s.user
    case None => s
    case Some(u) =>
      if FindLink(s.friendRequests, u.id, toUserId).Some? then s
      else s.(friendRequests := s.friendRequests + [FriendRequest(u.id, toUserId, Pending)])
  }

  function Resolution(response: Response): RequestStatus {
    match response
    case Accept => Accepted
    case Decline => Declined
  }

  /** The request is the one `respondToFriendRequest(fromUserId, ...)` answers for user `me`. */
  predicate Answers(req: FriendRequest, fromUserId: string, me: string) {
    req.fromUserId == fromUserId && req.toUserId == me
  }

  function ResolveRequests(reqs: seq<FriendRequest>, fromUserId: string, me: string, response: Response): seq<FriendRequest> {
    seq(|reqs|, i requires 0 <= i < |reqs| =>
      if Answers(reqs[i], fromUserId, me) then reqs[i].(status := Resolution(response)) else reqs[i])
  }

  function Befriend(users: seq<User>, fromUserId: string, me: string): seq<User> {
    seq(|users|, i requires 0 <= i < |users| =>
      if users[i].id == me then users[i].(friends := users[i].friends + [fromUserId])
      else if users[i].id == fromUserId then users[i].(friends := users[i].friends + [me])
      else users[i])
  }

  /**
    Without a current user nothing changes. Otherwise every request from
    `fromUserId` to the current user takes the answer's status, and an
    acceptance appends each id to the other user's friends (no duplicate
    check, no check that such a request exists).
   */
  function RespondToFriendRequest(s: State, fromUserId: string, response: Response): (r: State)
    ensures s.user.None? ==> r == s
    ensures |r.friendRequests| == |s.friendRequests|
    ensures s.user.Some? ==> forall i :: 0 <= i < |s.friendRequests| ==>
      if Answers(s.friendRequests[i], fromUserId, s.user.value.id)
      then r.friendRequests[i] == s.friendRequests[i].(status := Resolution(response))
      else r.friendRequests[i] == s.friendRequests[i]
    ensures response == Decline ==> r.allUsers == s.allUsers
    ensures |r.allUsers| == |s.allUsers|
    ensures s.user.Some? && response == Accept ==> forall i :: 0 <= i < |s.allUsers| ==>
      var (u, u') := (s.allUsers[i], r.allUsers[i]);
      && u' == u.(friends := u'.friends)
      && (u.id == s.user.value.id ==> u'.friends == u.friends + [fromUserId])
      && (u.id != s.user.value.id && u.id == fromUserId ==> u'.friends == u.friends + [s.user.value.id])
      && (u.id != s.user.value.id && u.id != fromUserId ==> u' == u)
    ensures r.user == s.user && r.allChatRooms == s.allChatRooms
  {
    match s.user
    case None => s
    case Some(u) =>
      var reqs := ResolveRequests(s.friendRequests, fromUserId, u.id, response);
      if response == Accept then s.(friendRequests := reqs, allUsers := Befriend(s.allUsers, fromUserId, u.id))
      else s.(friendRequests := reqs)
  }

  /** Answering changes statuses only, so no unordered pair gains a second request. */
  lemma RespondKeepsPairsUnique(s: State, fromUserId: string, response: Response)
    requires PairsUnique(s.friendRequests)
    ensures PairsUnique(RespondToFriendRequest(s, fromUserId, response).friendRequests)
  {
    var r := RespondToFriendRequest(s, fromUserId, response);
    forall i, j | 0 <= i < j < |r.friendRequests|
      ensures !Links(r.friendRequests[i], r.friendRequests[j].fromUserId, r.friendRequests[j].toUserId)
    {
      assert !Links(s.friendRequests[i], s.friendRequests[j].fromUserId, s.friendRequests[j].toUserId);
    }
  }

  // ---------------------------------------------------------------------------
  // The current-user effect

  /** Re-reads the current user from the list of all users when it is listed there. */
  function SyncCurrentUser(s: State): (r: State)
    ensures r.allUsers == s.allUsers && r.allChatRooms == s.allChatRooms && r.friendRequests == s.friendRequests
    ensures s.user.None? ==> r.user.None?
    ensures s.user.Some? ==> r.user.Some? && r.user.value.id == s.user.value.id
    ensures s.user.Some? && (exists u :: u in s.allUsers && u.id == s.user.value.id) ==>
      r.user == FindUser(s.allUsers, s.user.value.id)
    ensures s.user.Some? && (forall u :: u in s.allUsers ==> u.id != s.user.value.id) ==> r == s
  {
    match s.user
    case None => s
    case Some(u) =>
      match FindUser(s.allUsers, u.id)
      case None => s
      case Some(v) => s.(user := Some(v))
  }

  /** The current user is listed in the list of all users (and so, with unique ids, equals its entry). */
  ghost predicate InSync(s: State) {
    s.user.Some? ==> s.user.value in s.allUsers
  }

  /** Running the effect twice is running it once; afterwards a listed current user is in sync. */
  lemma SyncIdempotent(s: State)
    ensures SyncCurrentUser(SyncCurrentUser(s)) == SyncCurrentUser(s)
    ensures s.user.Some? && FindUser(s.allUsers, s.user.value.id).Some? ==> InSync(SyncCurrentUser(s))
  {
  }

  /** In a state with unique ids whose current user is in sync, the effect changes nothing. */
  lemma SyncIsIdentityWhenInSync(s: State)
    requires UniqueIds(s.allUsers) && InSync(s)
    ensures SyncCurrentUser(s) == s
  {
    if s.user.Some? {
      FindListedUser(s.allUsers, s.user.value);
    }
  }

  // ---------------------------------------------------------------------------
  // Handlers as one transition system

  /** One call of a handler the state container exposes; `now` is the clock reading. */
  datatype Action =
    | CompleteAssessmentCall(result: AssessmentResult, now: nat)
    | AddPostCall(text: string, imageUrl: Option<string>, now: nat)
    | UpdateProfileCall(name: string, bio: string)
    | UpdateAvatarCall(avatarUrl: string)
    | ToggleLikePostCall(postId: int)
    | CreateRoomCall(roomName: string, description: string, memberIds: seq<string>, now: nat)
    | SendFriendRequestCall(toUserId: string)
    | RespondCall(fromUserId: string, response: Response)

  function Apply(s: State, a: Action): State {
    match a
    case CompleteAssessmentCall(result, now) => CompleteAssessment(s, result, now)
    case AddPostCall(text, imageUrl, now) => AddPost(s, text, imageUrl, now)
    case UpdateProfileCall(name, bio) => UpdateProfile(s, name, bio)
    case UpdateAvatarCall(url) => UpdateAvatar(s, url)
    case ToggleLikePostCall(postId) => ToggleLikePost(s, postId)
    case CreateRoomCall(name, description, memberIds, now) => CreateRoom(s, name, description, memberIds, now)
    case SendFriendRequestCall(toUserId) => SendFriendRequest(s, toUserId)
    case RespondCall(fromUserId, response) => RespondToFriendRequest(s, fromUserId, response)
  }

  /** The handler hands a new list of all users to the container, which fires the effect. */
  predicate RewritesAllUsers(s: State, a: Action) {
    match a
    case CompleteAssessmentCall(_, _) => true
    case AddPostCall(_, _, _) => s.user.Some?
    case UpdateProfileCall(_, _) => s.user.Some?
    case UpdateAvatarCall(_) => s.user.Some?
    case ToggleLikePostCall(_) => s.user.Some?
    case CreateRoomCall(_, _, _, _) => false
    case SendFriendRequestCall(_) => false
    case RespondCall(_, response) => s.user.Some? && response == Accept
  }

  /** A handler followed by the current-user effect when the handler rewrote the list of all users. */
  function Step(s: State, a: Action): (r: State)
    ensures !RewritesAllUsers(s, a) ==> r == Apply(s, a)
    ensures RewritesAllUsers(s, a) ==> r == SyncCurrentUser(Apply(s, a))
    ensures RewritesAllUsers(s, a) ==> r.allUsers == Apply(s, a).allUsers && r.user.Some? == Apply(s, a).user.Some?
  {
    var r := Apply(s, a);
    if RewritesAllUsers(s, a) then SyncCurrentUser(r) else r
  }

  /** The updating handlers keep every id, so a state with unique ids in sync stays so. */
  lemma ReplaceKeepsSync(s: State, r: State)
    requires UniqueIds(s.allUsers) && InSync(s) && s.user.Some?
    requires r.user.Some? && r.user.value.id == s.user.value.id
    requires OnlyEntriesReplaced(s.allUsers, r.allUsers, s.user.value.id, r.user.value)
    ensures UniqueIds(r.allUsers) && InSync(r)
  {
    var k :| 0 <= k < |s.allUsers| && s.allUsers[k] == s.user.value;
    assert r.allUsers[k] == r.user.value;
  }

  /**
    For the handlers that set the current user themselves, the effect that
    follows agrees with them: in a state with unique ids whose current user
    is in sync, the handler's own result is already what the effect settles on.
   */
  lemma HandlerAgreesWithEffect(s: State, a: Action)
    requires UniqueIds(s.allUsers) && InSync(s)
    requires a.AddPostCall? || a.UpdateProfileCall? || a.UpdateAvatarCall? || a.ToggleLikePostCall?
    ensures Step(s, a) == Apply(s, a)
    ensures UniqueIds(Step(s, a).allUsers) && InSync(Step(s, a))
  {
    var r := Apply(s, a);
    if s.user.Some? {
      if a.ToggleLikePostCall? {
        var k :| 0 <= k < |s.allUsers| && s.allUsers[k] == s.user.value;
        assert r.allUsers[k].id == s.user.value.id;
        assert UniqueIds(r.allUsers) by {
          forall i, j | 0 <= i < j < |r.allUsers| ensures r.allUsers[i].id != r.allUsers[j].id {
            assert r.allUsers[i].id == s.allUsers[i].id && r.allUsers[j].id == s.allUsers[j].id;
          }
        }
        assert FindUser(r.allUsers, s.user.value.id).Some?;
      } else {
        ReplaceKeepsSync(s, r);
      }
      SyncIsIdentityWhenInSync(r);
    }
  }

  /**
    A finished assessment whose id is not taken yet: after the effect the
    current user is still the new user, and it is the last entry.
   */
  lemma CompleteAssessmentStaysCurrent(s: State, result: AssessmentResult, now: nat)
    requires UniqueIds(s.allUsers)
    requires forall u :: u in s.allUsers ==> u.id != UserIdAt(now)
    ensures var r := Step(s, CompleteAssessmentCall(result, now));
      && r == CompleteAssessment(s, result, now)
      && r.user == Some(r.allUsers[|r.allUsers| - 1])
      && UniqueIds(r.allUsers) && InSync(r)
  {
    var r := CompleteAssessment(s, result, now);
    assert r.allUsers[|s.allUsers|] == r.user.value;
    SyncIsIdentityWhenInSync(r);
  }

  /** `toggleLikePost(postId)` called `n` times in a row. */
  function ToggleTimes(s: State, postId: int, n: nat): State {
    if n == 0 then s else ToggleLikePost(ToggleTimes(s, postId, n - 1), postId)
  }

  /** The like toggle applied `n` times to the list of all users. */
  function ToggleUsersTimes(users: seq<User>, postId: int, uid: string, n: nat): seq<User> {
    if n == 0 then users else ToggleLikeInUsers(ToggleUsersTimes(users, postId, uid, n - 1), postId, uid)
  }

  /** Post `q` is post `p` with `uid`'s like flipped when `flipped` holds and the id is `postId`, nothing else changed. */
  ghost predicate PostAfterToggles(p: Post, q: Post, postId: int, uid: string, flipped: bool) {
    && q == p.(likes := q.likes)
    && (p.id != postId ==> q == p)
    && (uid in q.likes <==> (uid in p.likes) != (p.id == postId && flipped))
    && (forall x :: x != uid ==> (x in q.likes <==> x in p.likes))
  }

  ghost predicate UsersAfterToggles(us: seq<User>, vs: seq<User>, postId: int, uid: string, flipped: bool) {
    && |vs| == |us|
    && forall i :: 0 <= i < |us| ==>
         && vs[i] == us[i].(posts := vs[i].posts)
         && |vs[i].posts| == |us[i].posts|
         && forall j :: 0 <= j < |us[i].posts| ==> PostAfterToggles(us[i].posts[j], vs[i].posts[j], postId, uid, flipped)
  }

  lemma PostToggleStep(p: Post, m: Post, q: Post, postId: int, uid: string, flipped: bool)
    requires PostAfterToggles(p, m, postId, uid, flipped)
    requires m.id == postId ==> LikeFlipped(m, q, uid)
    requires m.id != postId ==> q == m
    ensures PostAfterToggles(p, q, postId, uid, !flipped)
  {
  }

  lemma UsersToggleStep(us: seq<User>, ms: seq<User>, vs: seq<User>, postId: int, uid: string, flipped: bool)
    requires UsersAfterToggles(us, ms, postId, uid, flipped)
    requires |vs| == |ms| && forall i :: 0 <= i < |ms| ==> LikesToggled(ms[i], vs[i], postId, uid)
    ensures UsersAfterToggles(us, vs, postId, uid, !flipped)
  {
    forall i, j | 0 <= i < |us| && 0 <= j < |us[i].posts|
      ensures PostAfterToggles(us[i].posts[j], vs[i].posts[j], postId, uid, !flipped)
    {
      assert LikesToggled(ms[i], vs[i], postId, uid);
      PostToggleStep(us[i].posts[j], ms[i].posts[j], vs[i].posts[j], postId, uid, flipped);
    }
  }

  lemma UsersAfterNoToggle(us: seq<User>, postId: int, uid: string)
    ensures UsersAfterToggles(us, us, postId, uid, false)
  {
    forall i, j | 0 <= i < |us| && 0 <= j < |us[i].posts|
      ensures PostAfterToggles(us[i].posts[j], us[i].posts[j], postId, uid, false)
    {
    }
  }

  /** Toggling `n` times flips the like when `n` is odd and restores it when `n` is even. */
  lemma {:induction false} ToggleUsersParity(users: seq<User>, postId: int, uid: string, n: nat)
    ensures UsersAfterToggles(users, ToggleUsersTimes(users, postId, uid, n), postId, uid, n % 2 == 1)
  {
    if n == 0 {
      UsersAfterNoToggle(users, postId, uid);
    } else {
      ToggleUsersParity(users, postId, uid, n - 1);
      var before := ToggleUsersTimes(users, postId, uid, n - 1);
      var after := ToggleLikeInUsers(before, postId, uid);
      assert ToggleUsersTimes(users, postId, uid, n) == after;
      UsersToggleStep(users, before, after, postId, uid, (n - 1) % 2 == 1);
      assert (n % 2 == 1) == !((n - 1) % 2 == 1);
    }
  }

  /** Repeated handler calls act on the list of all users as repeated toggles, by the same user. */
  lemma {:induction false} ToggleTimesUsers(s: State, postId: int, n: nat)
    requires s.user.Some?
    ensures ToggleTimes(s, postId, n).user.Some?
    ensures ToggleTimes(s, postId, n).user.value.id == s.user.value.id
    ensures ToggleTimes(s, postId, n).allUsers == ToggleUsersTimes(s.allUsers, postId, s.user.value.id, n)
  {
    if n > 0 {
      ToggleTimesUsers(s, postId, n - 1);
    }
  }

  /**
    Repeated toggles by the same user: after an odd number the user's like
    on every post with that id is the opposite of what it was, after an even
    number it is what it was; nothing else about any post changes.
   */
  lemma ToggleParity(s: State, postId: int, n: nat)
    requires s.user.Some?
    ensures UsersAfterToggles(s.allUsers, ToggleTimes(s, postId, n).allUsers, postId, s.user.value.id, n % 2 == 1)
  {
    ToggleTimesUsers(s, postId, n);
    ToggleUsersParity(s.allUsers, postId, s.user.value.id, n);
  }

  /**
    Once A has asked B, B asking A is silently ignored: requests are checked
    in both directions.
   */
  lemma CrossRequestIgnored(s: State, a: User, b: User)
    requires s.user == Some(a)
    ensures var s1 := SendFriendRequest(s, b.id);
      SendFriendRequest(s1.(user := Some(b)), a.id).friendRequests == s1.friendRequests
  {
    var s1 := SendFriendRequest(s, b.id);
    if s1 != s {
      var req := s1.friendRequests[|s1.friendRequests| - 1];
      assert req in s1.friendRequests && Links(req, b.id, a.id);
    } else {
      var req :| req in s.friendRequests && Links(req, a.id, b.id);
      assert Links(req, b.id, a.id);
    }
  }

  /** Answering a request keeps every user's id in place, and so keeps ids unique. */
  lemma RespondKeepsIds(s: State, fromUserId: string, response: Response)
    ensures var r := RespondToFriendRequest(s, fromUserId, response);
      && |r.allUsers| == |s.allUsers|
      && forall i :: 0 <= i < |s.allUsers| ==> r.allUsers[i].id == s.allUsers[i].id
    ensures UniqueIds(s.allUsers) ==> UniqueIds(RespondToFriendRequest(s, fromUserId, response).allUsers)
  {
    var r := RespondToFriendRequest(s, fromUserId, response);
    if UniqueIds(s.allUsers) {
      forall i, j | 0 <= i < j < |r.allUsers| ensures r.allUsers[i].id != r.allUsers[j].id {
        assert r.allUsers[i].id == s.allUsers[i].id && r.allUsers[j].id == s.allUsers[j].id;
      }
    }
  }

  /**
    Accepting: afterwards both users list each other as friends, the current
    user reads its new friend list through the effect, and every request
    from the sender to the current user is accepted.
   */
  lemma AcceptMakesFriends(s: State, from: User)
    requires UniqueIds(s.allUsers) && InSync(s) && s.user.Some?
    requires from in s.allUsers && from.id != s.user.value.id
    ensures var r := Step(s, RespondCall(from.id, Accept));
      && r.user == Some(s.user.value.(friends := s.user.value.friends + [from.id]))
      && from.(friends := from.friends + [s.user.value.id]) in r.allUsers
      && forall req :: req in r.friendRequests && Answers(req, from.id, s.user.value.id) ==> req.status == Accepted
  {
    AcceptUpdatesBoth(s, from);
    AcceptMarksRequests(s, from.id);
  }

  lemma AcceptUpdatesBoth(s: State, from: User)
    requires UniqueIds(s.allUsers) && InSync(s) && s.user.Some?
    requires from in s.allUsers && from.id != s.user.value.id
    ensures var r := Step(s, RespondCall(from.id, Accept));
      && r.user == Some(s.user.value.(friends := s.user.value.friends + [from.id]))
      && from.(friends := from.friends + [s.user.value.id]) in r.allUsers
  {
    var me := s.user.value;
    var mid := RespondToFriendRequest(s, from.id, Accept);
    var k := AcceptedRecords(s, from);
    assert Step(s, RespondCall(from.id, Accept)) == SyncCurrentUser(mid);
    RespondKeepsIds(s, from.id, Accept);
    FindListedUser(mid.allUsers, mid.allUsers[k]);
  }

  /** Before the effect: both records gain the other id; `k` is the current user's position. */
  lemma AcceptedRecords(s: State, from: User) returns (k: nat)
    requires InSync(s) && s.user.Some?
    requires from in s.allUsers && from.id != s.user.value.id
    ensures var mid := RespondToFriendRequest(s, from.id, Accept);
      && k < |mid.allUsers|
      && mid.allUsers[k] == s.user.value.(friends := s.user.value.friends + [from.id])
      && from.(friends := from.friends + [s.user.value.id]) in mid.allUsers
  {
    var me := s.user.value;
    var mid := RespondToFriendRequest(s, from.id, Accept);
    k :| 0 <= k < |s.allUsers| && s.allUsers[k] == me;
    var f :| 0 <= f < |s.allUsers| && s.allUsers[f] == from;
    assert mid.allUsers[k] == me.(friends := me.friends + [from.id]);
    assert mid.allUsers[f] == from.(friends := from.friends + [me.id]);
  }

  lemma AcceptMarksRequests(s: State, fromUserId: string)
    requires s.user.Some?
    ensures var r := Step(s, RespondCall(fromUserId, Accept));
      forall req :: req in r.friendRequests && Answers(req, fromUserId, s.user.value.id) ==> req.status == Accepted
  {
    var r := Step(s, RespondCall(fromUserId, Accept));
    var mid := RespondToFriendRequest(s, fromUserId, Accept);
    assert r.friendRequests == mid.friendRequests;
    forall req | req in mid.friendRequests && Answers(req, fromUserId, s.user.value.id) ensures req.status == Accepted {
      var i :| 0 <= i < |mid.friendRequests| && mid.friendRequests[i] == req;
    }
  }

  /** Declining leaves every user untouched and marks the answered requests declined. */
  lemma DeclineChangesNoUser(s: State, fromUserId: string)
    requires s.user.Some?
    ensures var r := Step(s, RespondCall(fromUserId, Decline));
      && r.allUsers == s.allUsers && r.user == s.user
      && forall req :: req in r.friendRequests && Answers(req, fromUserId, s.user.value.id) ==> req.status == Declined
  {
    var r := Step(s, RespondCall(fromUserId, Decline));
    forall req | req in r.friendRequests && Answers(req, fromUserId, s.user.value.id) ensures req.status == Declined {
      var i :| 0 <= i < |r.friendRequests| && r.friendRequests[i] == req;
    }
  }
}
