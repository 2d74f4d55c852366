/**
  The friends page: the people one may ask (everybody but oneself and one's
  friends), the status of the request relating oneself and another user,
  whether the send button is enabled, the incoming pending requests, and
  the list of friends. Without a current user every list is empty.
 */
module Friends {
  import opened Types
  import opened Seqs
  import opened App

  /** Everybody except the current user and the current user's friends, in list order. */
  function OtherUsers(s: State): (r: seq<User>)
    ensures s.user.None? ==> r == []
    ensures s.user.Some? ==> forall v :: v in r <==>
      v in s.allUsers && v.id != s.user.value.id && v.id !in s.user.value.friends
    ensures s.user.Some? ==> forall v: User :: v.id != s.user.value.id && v.id !in s.user.value.friends ==>
      multiset(r)[v] == multiset(s.allUsers)[v]
    ensures Subsequence(r, s.allUsers)
  {
    match s.user
    case None => []
    case Some(me) => Filter((v: User) => v.id != me.id && v.id !in me.friends, s.allUsers)
  }

  /** The status of the first request relating the current user and `target`, in either direction. */
  function RequestStatusFor(s: State, target: string): (r: Option<RequestStatus>)
    ensures s.user.None? ==> r.None?
    ensures s.user.Some? ==> (r.None? <==> forall req :: req in s.friendRequests ==> !Links(req, s.user.value.id, target))
    ensures r.Some? ==> exists req :: req in s.friendRequests && Links(req, s.user.value.id, target) && req.status == r.value
    ensures r.Some? ==> exists i :: (
      && 0 <= i < |s.friendRequests| && s.friendRequests[i].status == r.value
      && Links(s.friendRequests[i], s.user.value.id, target)
      && forall j :: 0 <= j < i ==> !Links(s.friendRequests[j], s.user.value.id, target))
  {
    match s.user
    case None => None
    case Some(me) =>
      match FindLink(s.friendRequests, me.id, target)
      case None => None
      case Some(req) => Some(req.status)
  }

  /** The send button is disabled while a request is pending or accepted. */
  predicate SendEnabled(status: Option<RequestStatus>) {
    status != Some(Pending) && status != Some(Accepted)
  }

  /**
    The page and the handler ask the same question: sending to `target`
    changes nothing exactly when the page shows some status for the pair.
   */
  lemma SendIsNoOpIffStatusShown(s: State, target: string)
    requires s.user.Some?
    ensures SendFriendRequest(s, target) == s <==> RequestStatusFor(s, target).Some?
  {
    if RequestStatusFor(s, target).None? {
      assert |SendFriendRequest(s, target).friendRequests| == |s.friendRequests| + 1;
    }
  }

  /** After a decline the button is enabled again, but pressing it changes nothing. */
  lemma DeclinedSendIsNoOp(s: State, target: string)
    requires s.user.Some? && RequestStatusFor(s, target) == Some(Declined)
    ensures SendEnabled(RequestStatusFor(s, target))
    ensures SendFriendRequest(s, target) == s
  {
    SendIsNoOpIffStatusShown(s, target);
  }

  /** A first request to a user shows as pending and disables the button. */
  lemma SendThenPending(s: State, target: string)
    requires s.user.Some? && RequestStatusFor(s, target).None?
    ensures var r := SendFriendRequest(s, target);
      RequestStatusFor(r, target) == Some(Pending) && !SendEnabled(RequestStatusFor(r, target))
  {
    var r := SendFriendRequest(s, target);
    var me := s.user.value.id;
    assert r.friendRequests == s.friendRequests + [FriendRequest(me, target, Pending)];
    var f := (req: FriendRequest) => Links(req, me, target);
    assert f(r.friendRequests[|s.friendRequests|]);
    var i := FirstIndex(f, r.friendRequests).value;
    assert i == |s.friendRequests|;
  }

  /** The requests addressed to the current user that are still pending, in list order. */
  function IncomingRequests(s: State): (r: seq<FriendRequest>)
    ensures s.user.None? ==> r == []
    ensures s.user.Some? ==> forall req :: req in r <==>
      req in s.friendRequests && req.toUserId == s.user.value.id && req.status == Pending
    ensures s.user.Some? ==> forall req: FriendRequest :: req.toUserId == s.user.value.id && req.status == Pending ==>
      multiset(r)[req] == multiset(s.friendRequests)[req]
    ensures Subsequence(r, s.friendRequests)
  {
    match s.user
    case None => []
    case Some(me) => Filter((req: FriendRequest) => req.toUserId == me.id && req.status == Pending, s.friendRequests)
  }

  /** Answering a sender, either way, removes every request of that sender from the incoming list. */
  lemma AnsweredLeavesIncoming(s: State, fromUserId: string, response: Response)
    requires s.user.Some?
    ensures forall req :: req in IncomingRequests(Step(s, RespondCall(fromUserId, response))) ==> req.fromUserId != fromUserId
    ensures forall req :: req in IncomingRequests(s) && req.fromUserId != fromUserId ==>
      req in IncomingRequests(Step(s, RespondCall(fromUserId, response)))
  {
    var r := Step(s, RespondCall(fromUserId, response));
    var me := s.user.value.id;
    assert r.user.Some? && r.user.value.id == me;
    assert r.friendRequests == RespondToFriendRequest(s, fromUserId, response).friendRequests;
    forall req | req in r.friendRequests && req.toUserId == me && req.status == Pending
      ensures req.fromUserId != fromUserId
    {
      var i :| 0 <= i < |r.friendRequests| && r.friendRequests[i] == req;
    }
    forall req | req in s.friendRequests && req.toUserId == me && req.status == Pending && req.fromUserId != fromUserId
      ensures req in r.friendRequests
    {
      var i :| 0 <= i < |s.friendRequests| && s.friendRequests[i] == req;
      assert r.friendRequests[i] == req;
    }
  }

  /** The sender a request row shows: the map lookup of its sender id. */
  function Sender(s: State, req: FriendRequest): (r: Option<User>)
    ensures r.Some? ==> r.value in s.allUsers && r.value.id == req.fromUserId
    ensures r.None? <==> forall u :: u in s.allUsers ==> u.id != req.fromUserId
  {
    LookupUser(s.allUsers, req.fromUserId)
  }

  /**
    The users whose id is among the current user's friends, in list order.
    The invite list of the room dialog is the same filter.
   */
  function MyFriends(s: State): (r: seq<User>)
    ensures s.user.None? ==> r == []
    ensures s.user.Some? ==> forall v :: v in r <==> v in s.allUsers && v.id in s.user.value.friends
    ensures s.user.Some? ==> forall v: User :: v.id in s.user.value.friends ==> multiset(r)[v] == multiset(s.allUsers)[v]
    ensures Subsequence(r, s.allUsers)
  {
    match s.user
    case None => []
    case Some(me) => Filter((v: User) => v.id in me.friends, s.allUsers)
  }

  /** Unique ids make the friend list free of repeats, however often an id was appended to `friends`. */
  lemma MyFriendsListedOnce(s: State)
    requires UniqueIds(s.allUsers)
    ensures forall i, j :: 0 <= i < j < |MyFriends(s)| ==> MyFriends(s)[i].id != MyFriends(s)[j].id
  {
    if s.user.Some? {
      var me := s.user.value;
      var f := (v: User) => v.id in me.friends;
      var r := Filter(f, s.allUsers);
      assert NoDup(s.allUsers);
      FilterNoDup(f, s.allUsers);
      forall i, j | 0 <= i < j < |r| ensures r[i].id != r[j].id {
        assert r[i] in r && r[j] in r;
        var a :| 0 <= a < |s.allUsers| && s.allUsers[a] == r[i];
        var b :| 0 <= b < |s.allUsers| && s.allUsers[b] == r[j];
        assert a != b;
      }
    }
  }

  /** Once accepted, the new friend is listed under "my friends" and no longer offered under "find people". */
  lemma AcceptListsFriend(s: State, from: User)
    requires UniqueIds(s.allUsers) && InSync(s) && s.user.Some?
    requires from in s.allUsers && from.id != s.user.value.id
    ensures var r := Step(s, RespondCall(from.id, Accept));
      && from.(friends := from.friends + [s.user.value.id]) in MyFriends(r)
      && forall v :: v in OtherUsers(r) ==> v.id != from.id
  {
    AcceptMakesFriends(s, from);
  }
}
