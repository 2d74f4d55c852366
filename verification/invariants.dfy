/**
  Well-formedness of the social state, and its preservation by every
  handler (followed by the current-user effect) under the side conditions
  the running application provides: clock readings that yield fresh ids,
  and acceptances only of requests whose sender is another listed user.
 */
module Invariants {
  import opened Types
  import opened Seqs
  import opened App

  /** Some listed user has this id. */
  ghost predicate IsUserId(users: seq<User>, id: string) {
    exists i :: 0 <= i < |users| && users[i].id == id
  }

  /** Every post sits in the post list of its author. */
  ghost predicate PostsAuthored(users: seq<User>) {
    forall i, j :: 0 <= i < |users| && 0 <= j < |users[i].posts| ==> users[i].posts[j].authorId == users[i].id
  }

  /** No post id occurs at two positions, across all users. */
  ghost predicate PostIdsUnique(users: seq<User>) {
    forall i1, j1, i2, j2 ::
      (0 <= i1 < |users| && 0 <= j1 < |users[i1].posts| &&
       0 <= i2 < |users| && 0 <= j2 < |users[i2].posts| &&
       users[i1].posts[j1].id == users[i2].posts[j2].id) ==> i1 == i2 && j1 == j2
  }

  /** The clock reading `now` is no post's id yet. */
  ghost predicate FreshPostId(users: seq<User>, now: int) {
    forall i, j :: 0 <= i < |users| && 0 <= j < |users[i].posts| ==> users[i].posts[j].id != now
  }

  /** Every like names a listed user. */
  ghost predicate LikesKnown(users: seq<User>) {
    forall i, j, x :: 0 <= i < |users| && 0 <= j < |users[i].posts| && x in users[i].posts[j].likes ==> IsUserId(users, x)
  }

  /** The likes of a post form a set: no user likes a post twice. */
  ghost predicate LikesDistinct(users: seq<User>) {
    forall i, j :: 0 <= i < |users| && 0 <= j < |users[i].posts| ==> NoDup(users[i].posts[j].likes)
  }

  /** Every friend id names a listed user. */
  ghost predicate FriendsKnown(users: seq<User>) {
    forall i, x :: 0 <= i < |users| && x in users[i].friends ==> IsUserId(users, x)
  }

  /** Friendship goes both ways. */
  ghost predicate FriendsSymmetric(users: seq<User>) {
    forall i, j :: 0 <= i < |users| && 0 <= j < |users| && users[j].id in users[i].friends ==> users[i].id in users[j].friends
  }

  /** Nobody is their own friend. */
  ghost predicate NoSelfFriend(users: seq<User>) {
    forall i :: 0 <= i < |users| ==> users[i].id !in users[i].friends
  }

  ghost predicate RoomIdsUnique(rooms: seq<ChatRoom>) {
    forall i, j :: 0 <= i < j < |rooms| ==> rooms[i].id != rooms[j].id
  }

  /** The shape of the users list alone. */
  ghost predicate UsersWellFormed(users: seq<User>) {
    && UniqueIds(users)
    && PostsAuthored(users)
    && PostIdsUnique(users)
    && LikesKnown(users)
    && LikesDistinct(users)
    && FriendsKnown(users)
    && FriendsSymmetric(users)
    && NoSelfFriend(users)
  }

  ghost predicate WellFormed(s: State) {
    && UsersWellFormed(s.allUsers)
    && InSync(s)
    && PairsUnique(s.friendRequests)
    && RoomIdsUnique(s.allChatRooms)
  }

  /**
    What the running application guarantees about a handler call: clock
    readings give ids not in use, and an acceptance answers a request whose
    sender is another listed user (the request list only renders senders
    found among all users, and nobody can send a request to themselves).
   */
  ghost predicate Admissible(s: State, a: Action) {
    match a
    case CompleteAssessmentCall(_, now) => !IsUserId(s.allUsers, UserIdAt(now))
    case AddPostCall(_, _, now) => FreshPostId(s.allUsers, now)
    case CreateRoomCall(_, _, _, now) => forall i :: 0 <= i < |s.allChatRooms| ==> s.allChatRooms[i].id != RoomIdAt(now)
    case RespondCall(fromUserId, Accept) =>
      s.user.Some? ==> IsUserId(s.allUsers, fromUserId) && fromUserId != s.user.value.id
    case _ => true
  }

  // ---------------------------------------------------------------------------
  // Users lists that keep every id in place

  /** Two lists with the same ids at the same positions. */
  ghost predicate SameIds(us: seq<User>, vs: seq<User>) {
    |us| == |vs| && forall i :: 0 <= i < |us| ==> us[i].id == vs[i].id
  }

  lemma SameIdsKnown(us: seq<User>, vs: seq<User>, x: string)
    requires SameIds(us, vs)
    ensures IsUserId(us, x) <==> IsUserId(vs, x)
  {
    if IsUserId(us, x) {
      var i :| 0 <= i < |us| && us[i].id == x;
      assert vs[i].id == x;
    }
    if IsUserId(vs, x) {
      var i :| 0 <= i < |vs| && vs[i].id == x;
      assert us[i].id == x;
    }
  }

  /** Rewriting posts only, with ids kept, keeps every friendship fact. */
  lemma SameFriendsKeepFriendFacts(us: seq<User>, vs: seq<User>)
    requires SameIds(us, vs)
    requires forall i :: 0 <= i < |us| ==> vs[i].friends == us[i].friends
    requires UniqueIds(us) && FriendsKnown(us) && FriendsSymmetric(us) && NoSelfFriend(us)
    ensures UniqueIds(vs) && FriendsKnown(vs) && FriendsSymmetric(vs) && NoSelfFriend(vs)
  {
    forall i, x | 0 <= i < |vs| && x in vs[i].friends ensures IsUserId(vs, x) {
      SameIdsKnown(us, vs, x);
    }
  }

  // ---------------------------------------------------------------------------
  // One lemma per handler

  lemma CompleteAssessmentPreserves(s: State, result: AssessmentResult, now: nat)
    requires WellFormed(s) && !IsUserId(s.allUsers, UserIdAt(now))
    ensures WellFormed(Step(s, CompleteAssessmentCall(result, now)))
  {
    assert forall u :: u in s.allUsers ==> u.id != UserIdAt(now);
    CompleteAssessmentStaysCurrent(s, result, now);
    AppendFreshUserWellFormed(s.allUsers, NewUser(result, now));
  }

  /** Appending a user with a new id, no posts and no friends keeps the users list well formed. */
  lemma AppendFreshUserWellFormed(us: seq<User>, u: User)
    requires UsersWellFormed(us) && !IsUserId(us, u.id)
    requires u.posts == [] && u.friends == []
    ensures UsersWellFormed(us + [u])
  {
    var vs := us + [u];
    var n := |us|;
    assert forall i :: 0 <= i < n ==> vs[i] == us[i];
    forall x | IsUserId(us, x) ensures IsUserId(vs, x) {
      var i :| 0 <= i < n && us[i].id == x;
      assert vs[i].id == x;
    }
    AppendFreshUserFriends(us, u);
  }

  lemma AppendFreshUserFriends(us: seq<User>, u: User)
    requires FriendsKnown(us) && FriendsSymmetric(us) && NoSelfFriend(us)
    requires !IsUserId(us, u.id) && u.friends == []
    ensures FriendsSymmetric(us + [u]) && NoSelfFriend(us + [u])
  {
    var vs := us + [u];
    forall i, j | 0 <= i < |vs| && 0 <= j < |vs| && vs[j].id in vs[i].friends
      ensures vs[i].id in vs[j].friends
    {
      assert i < |us| && vs[i] == us[i];
      assert IsUserId(us, vs[j].id);
      assert j < |us|;
    }
  }

  /** The position of the current user, which `InSync` and unique ids make the only entry with its id. */
  lemma CurrentPosition(s: State) returns (k: nat)
    requires UniqueIds(s.allUsers) && InSync(s) && s.user.Some?
    ensures k < |s.allUsers| && s.allUsers[k] == s.user.value
    ensures forall i :: 0 <= i < |s.allUsers| && s.allUsers[i].id == s.user.value.id ==> i == k
  {
    k :| 0 <= k < |s.allUsers| && s.allUsers[k] == s.user.value;
  }

  lemma AddPostPreserves(s: State, text: string, imageUrl: Option<string>, now: nat)
    requires WellFormed(s) && FreshPostId(s.allUsers, now)
    ensures WellFormed(Step(s, AddPostCall(text, imageUrl, now)))
  {
    HandlerAgreesWithEffect(s, AddPostCall(text, imageUrl, now));
    if s.user.Some? {
      var r := AddPost(s, text, imageUrl, now);
      var k := CurrentPosition(s);
      var us, vs := s.allUsers, r.allUsers;
      assert vs[k] == r.user.value;
      assert forall i :: 0 <= i < |us| && i != k ==> vs[i] == us[i];
      assert SameIds(us, vs);
      SameFriendsKeepFriendFacts(us, vs);
      AddPostKeepsPosts(us, vs, k, now);
    }
  }

  /** The posts side of `addPost`: entry `k` gains a fresh head post authored by it. */
  lemma AddPostKeepsPosts(us: seq<User>, vs: seq<User>, k: nat, now: int)
    requires UsersWellFormed(us) && SameIds(us, vs) && k < |us|
    requires forall i :: 0 <= i < |us| && i != k ==> vs[i] == us[i]
    requires |vs[k].posts| == |us[k].posts| + 1 && vs[k].posts[1..] == us[k].posts
    requires vs[k].posts[0].id == now && vs[k].posts[0].authorId == us[k].id && vs[k].posts[0].likes == []
    requires FreshPostId(us, now)
    ensures PostsAuthored(vs) && PostIdsUnique(vs) && LikesKnown(vs) && LikesDistinct(vs)
  {
    forall i, j | 0 <= i < |vs| && 0 <= j < |vs[i].posts|
      ensures vs[i].posts[j].authorId == vs[i].id
      ensures forall x :: x in vs[i].posts[j].likes ==> IsUserId(us, x)
      ensures NoDup(vs[i].posts[j].likes)
    {
      if i == k && j > 0 {
        assert vs[i].posts[j] == us[k].posts[j - 1];
      }
    }
    forall x | IsUserId(us, x) ensures IsUserId(vs, x) {
      SameIdsKnown(us, vs, x);
    }
    forall i1, j1, i2, j2 |
      0 <= i1 < |vs| && 0 <= j1 < |vs[i1].posts| &&
      0 <= i2 < |vs| && 0 <= j2 < |vs[i2].posts| &&
      vs[i1].posts[j1].id == vs[i2].posts[j2].id
      ensures i1 == i2 && j1 == j2
    {
      var b1 := i1 == k && j1 == 0;
      var b2 := i2 == k && j2 == 0;
      var o1 := if i1 == k && j1 > 0 then j1 - 1 else j1;
      var o2 := if i2 == k && j2 > 0 then j2 - 1 else j2;
      if !b1 {
        assert vs[i1].posts[j1] == us[i1].posts[o1];
      }
      if !b2 {
        assert vs[i2].posts[j2] == us[i2].posts[o2];
      }
    }
  }

  /** `updateProfile` and `updateAvatar` change no id, post or friend. */
  lemma UpdatePreserves(s: State, a: Action)
    requires WellFormed(s) && (a.UpdateProfileCall? || a.UpdateAvatarCall?)
    ensures WellFormed(Step(s, a))
  {
    HandlerAgreesWithEffect(s, a);
    if s.user.Some? {
      var r := Apply(s, a);
      var k := CurrentPosition(s);
      var us, vs := s.allUsers, r.allUsers;
      assert vs[k] == r.user.value;
      assert forall i :: 0 <= i < |us| ==> vs[i] == us[i].(name := vs[i].name, bio := vs[i].bio, avatar := vs[i].avatar);
      SameFriendsKeepFriendFacts(us, vs);
      forall x | IsUserId(us, x) ensures IsUserId(vs, x) {
        SameIdsKnown(us, vs, x);
      }
    }
  }

  /** A like toggle by a listed user keeps the users list well formed. */
  lemma ToggledUsersWellFormed(us: seq<User>, vs: seq<User>, postId: int, uid: string)
    requires UsersWellFormed(us) && IsUserId(us, uid)
    requires |vs| == |us| && forall i :: 0 <= i < |us| ==> LikesToggled(us[i], vs[i], postId, uid)
    ensures UsersWellFormed(vs)
  {
    assert SameIds(us, vs);
    SameFriendsKeepFriendFacts(us, vs);
    ToggledLikesKnown(us, vs, postId, uid);
    forall i, j | 0 <= i < |vs| && 0 <= j < |vs[i].posts|
      ensures vs[i].posts[j].id == us[i].posts[j].id && vs[i].posts[j].authorId == us[i].posts[j].authorId
      ensures NoDup(vs[i].posts[j].likes)
    {
      assert LikesToggled(us[i], vs[i], postId, uid);
    }
  }

  lemma ToggledLikesKnown(us: seq<User>, vs: seq<User>, postId: int, uid: string)
    requires LikesKnown(us) && IsUserId(us, uid)
    requires |vs| == |us| && forall i :: 0 <= i < |us| ==> LikesToggled(us[i], vs[i], postId, uid)
    ensures LikesKnown(vs)
  {
    assert SameIds(us, vs);
    forall x | IsUserId(us, x) ensures IsUserId(vs, x) {
      SameIdsKnown(us, vs, x);
    }
    forall i, j, x | 0 <= i < |vs| && 0 <= j < |vs[i].posts| && x in vs[i].posts[j].likes
      ensures IsUserId(vs, x)
    {
      assert LikesToggled(us[i], vs[i], postId, uid);
      assert x == uid || x in us[i].posts[j].likes;
    }
  }

  lemma ToggleLikePreserves(s: State, postId: int)
    requires WellFormed(s)
    ensures WellFormed(Step(s, ToggleLikePostCall(postId)))
  {
    HandlerAgreesWithEffect(s, ToggleLikePostCall(postId));
    if s.user.Some? {
      var r := ToggleLikePost(s, postId);
      var k := CurrentPosition(s);
      assert IsUserId(s.allUsers, s.user.value.id) by {
        assert s.allUsers[k].id == s.user.value.id;
      }
      ToggledUsersWellFormed(s.allUsers, r.allUsers, postId, s.user.value.id);
    }
  }

  lemma CreateRoomPreserves(s: State, name: string, description: string, memberIds: seq<string>, now: nat)
    requires WellFormed(s)
    requires forall i :: 0 <= i < |s.allChatRooms| ==> s.allChatRooms[i].id != RoomIdAt(now)
    ensures WellFormed(Step(s, CreateRoomCall(name, description, memberIds, now)))
  {
    var r := CreateRoom(s, name, description, memberIds, now);
    if s.user.Some? {
      var rooms := r.allChatRooms;
      forall i, j | 0 <= i < j < |rooms| ensures rooms[i].id != rooms[j].id {
        assert rooms[i] == s.allChatRooms[i];
        if j < |s.allChatRooms| {
          assert rooms[j] == s.allChatRooms[j];
        }
      }
    }
  }

  lemma SendFriendRequestPreserves(s: State, toUserId: string)
    requires WellFormed(s)
    ensures WellFormed(Step(s, SendFriendRequestCall(toUserId)))
  {
  }

  lemma DeclinePreserves(s: State, fromUserId: string)
    requires WellFormed(s)
    ensures WellFormed(Step(s, RespondCall(fromUserId, Decline)))
  {
    RespondKeepsPairsUnique(s, fromUserId, Decline);
  }

  lemma AcceptPreserves(s: State, fromUserId: string)
    requires WellFormed(s)
    requires s.user.Some? ==> IsUserId(s.allUsers, fromUserId) && fromUserId != s.user.value.id
    ensures WellFormed(Step(s, RespondCall(fromUserId, Accept)))
  {
    RespondKeepsPairsUnique(s, fromUserId, Accept);
    if s.user.Some? {
      var me := s.user.value.id;
      var mid := RespondToFriendRequest(s, fromUserId, Accept);
      var k := CurrentPosition(s);
      var f :| 0 <= f < |s.allUsers| && s.allUsers[f].id == fromUserId;
      var us, vs := s.allUsers, mid.allUsers;
      assert SameIds(us, vs);
      RespondKeepsIds(s, fromUserId, Accept);
      AcceptKeepsUsers(us, vs, me, fromUserId, k, f);
      assert vs[k].id == me;
      FindListedUser(vs, vs[k]);
      assert Step(s, RespondCall(fromUserId, Accept)) == SyncCurrentUser(mid);
    }
  }

  /** The users side of an acceptance between the distinct listed users at `k` and `f`. */
  lemma AcceptKeepsUsers(us: seq<User>, vs: seq<User>, me: string, from: string, k: nat, f: nat)
    requires UsersWellFormed(us) && SameIds(us, vs)
    requires k < |us| && f < |us| && us[k].id == me && us[f].id == from && me != from
    requires forall i :: 0 <= i < |us| ==>
      && vs[i] == us[i].(friends := vs[i].friends)
      && (us[i].id == me ==> vs[i].friends == us[i].friends + [from])
      && (us[i].id != me && us[i].id == from ==> vs[i].friends == us[i].friends + [me])
      && (us[i].id != me && us[i].id != from ==> vs[i] == us[i])
    ensures UsersWellFormed(vs)
  {
    forall x | IsUserId(us, x) ensures IsUserId(vs, x) {
      SameIdsKnown(us, vs, x);
    }
    forall i, x | 0 <= i < |vs| && x in vs[i].friends ensures IsUserId(vs, x) {
      if x !in us[i].friends {
        assert x == from || x == me;
        assert us[f].id == from && us[k].id == me;
      }
    }
    forall i, j | 0 <= i < |vs| && 0 <= j < |vs| && vs[j].id in vs[i].friends
      ensures vs[i].id in vs[j].friends
    {
      if us[j].id !in us[i].friends {
        assert (i == k && j == f) || (i == f && j == k);
      }
    }
    forall i | 0 <= i < |vs| ensures vs[i].id !in vs[i].friends {
      assert us[i].id !in us[i].friends;
    }
  }

  /** Every admissible handler call, with the effect after it, keeps the state well formed. */
  lemma StepPreservesWellFormed(s: State, a: Action)
    requires WellFormed(s) && Admissible(s, a)
    ensures WellFormed(Step(s, a))
  {
    match a
    case CompleteAssessmentCall(result, now) => CompleteAssessmentPreserves(s, result, now);
    case AddPostCall(text, imageUrl, now) => AddPostPreserves(s, text, imageUrl, now);
    case UpdateProfileCall(_, _) => UpdatePreserves(s, a);
    case UpdateAvatarCall(_) => UpdatePreserves(s, a);
    case ToggleLikePostCall(postId) => ToggleLikePreserves(s, postId);
    case CreateRoomCall(name, description, memberIds, now) => CreateRoomPreserves(s, name, description, memberIds, now);
    case SendFriendRequestCall(toUserId) => SendFriendRequestPreserves(s, toUserId);
    case RespondCall(fromUserId, response) =>
      if response == Accept {
        AcceptPreserves(s, fromUserId);
      } else {
        DeclinePreserves(s, fromUserId);
      }
  }

  /** Runs of admissible calls keep the state well formed. */
  function Run(s: State, actions: seq<Action>): State
    decreases |actions|
  {
    if |actions| == 0 then s else Run(Step(s, actions[0]), actions[1..])
  }

  ghost predicate AdmissibleRun(s: State, actions: seq<Action>)
    decreases |actions|
  {
    |actions| == 0 || (Admissible(s, actions[0]) && AdmissibleRun(Step(s, actions[0]), actions[1..]))
  }

  lemma {:induction false} RunPreservesWellFormed(s: State, actions: seq<Action>)
    requires WellFormed(s) && AdmissibleRun(s, actions)
    ensures WellFormed(Run(s, actions))
    decreases |actions|
  {
    if |actions| > 0 {
      StepPreservesWellFormed(s, actions[0]);
      RunPreservesWellFormed(Step(s, actions[0]), actions[1..]);
    }
  }

  /** A like toggle changes a post exactly when the post has the toggled id. */
  lemma ToggleChangesTarget(users: seq<User>, postId: int, uid: string, i: nat, j: nat)
    requires i < |users| && j < |users[i].posts|
    ensures var r := ToggleLikeInUsers(users, postId, uid);
      r[i].posts[j] != users[i].posts[j] <==> users[i].posts[j].id == postId
  {
    var r := ToggleLikeInUsers(users, postId, uid);
    assert LikesToggled(users[i], r[i], postId, uid);
    if users[i].posts[j].id == postId {
      assert (uid in r[i].posts[j].likes) != (uid in users[i].posts[j].likes);
    }
  }

  /** With unique post ids, a like toggle changes at most one post, across all users. */
  lemma ToggleHitsOnePost(users: seq<User>, postId: int, uid: string, i1: nat, j1: nat, i2: nat, j2: nat)
    requires PostIdsUnique(users)
    requires i1 < |users| && j1 < |users[i1].posts| && i2 < |users| && j2 < |users[i2].posts|
    ensures var r := ToggleLikeInUsers(users, postId, uid);
      r[i1].posts[j1] != users[i1].posts[j1] && r[i2].posts[j2] != users[i2].posts[j2] ==> i1 == i2 && j1 == j2
  {
    ToggleChangesTarget(users, postId, uid, i1, j1);
    ToggleChangesTarget(users, postId, uid, i2, j2);
  }
}
