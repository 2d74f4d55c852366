/**
  The home page: every post of every user in one list, newest first, each
  shown with its author (looked up by id) and the viewer's like state.
  Timestamps are clock readings in milliseconds, so the date parsing of the
  comparator is not needed.
 */
module Home {
  import opened Types
  import opened Seqs
  import opened App
  import opened Invariants

  /** The number of posts over all users. */
  function TotalPosts(users: seq<User>): nat {
    if |users| == 0 then 0 else |users[0].posts| + TotalPosts(users[1..])
  }

  /** `users.flatMap(u => u.posts)`. */
  function Flatten(users: seq<User>): (r: seq<Post>)
    ensures |r| == TotalPosts(users)
    ensures forall i, j :: 0 <= i < |users| && 0 <= j < |users[i].posts| ==> users[i].posts[j] in r
    ensures forall p :: p in r ==> exists i :: 0 <= i < |users| && p in users[i].posts
  {
    if |users| == 0 then []
    else
      var rest := Flatten(users[1..]);
      assert forall i :: 1 <= i < |users| ==> users[i] == users[1..][i - 1];
      users[0].posts + rest
  }

  /**
    Flattening distributes over concatenation of user lists, so appending a
    user adds exactly that user's posts, each with its multiplicity.
   */
  lemma {:induction false} FlattenAppend(us: seq<User>, vs: seq<User>)
    ensures Flatten(us + vs) == Flatten(us) + Flatten(vs)
    ensures multiset(Flatten(us + vs)) == multiset(Flatten(us)) + multiset(Flatten(vs))
    decreases |us|
  {
    if |us| == 0 {
      assert us + vs == vs;
    } else {
      assert (us + vs)[1..] == us[1..] + vs;
      FlattenAppend(us[1..], vs);
    }
  }

  /** Appending one user to the list adds that user's posts to the flattened multiset. */
  lemma FlattenSnoc(us: seq<User>, u: User)
    ensures multiset(Flatten(us + [u])) == multiset(Flatten(us)) + multiset(u.posts)
  {
    FlattenAppend(us, [u]);
    assert Flatten([u]) == u.posts + Flatten([]);
  }

  /** Non-increasing timestamps. */
  ghost predicate NewestFirst(posts: seq<Post>) {
    forall i, j :: 0 <= i < j < |posts| ==> posts[i].timestamp >= posts[j].timestamp
  }

  /**
    Puts `p` in front of the first post that is not newer; `p` comes before
    posts of equal time, as it came before them in the input.
   */
  function Insert(p: Post, sorted: seq<Post>): (r: seq<Post>)
    ensures multiset(r) == multiset(sorted) + multiset{p}
    ensures |r| == |sorted| + 1
    ensures r[0] == p || (|sorted| > 0 && r[0] == sorted[0])
  {
    if |sorted| == 0 || p.timestamp >= sorted[0].timestamp then
      [p] + sorted
    else
      assert sorted == [sorted[0]] + sorted[1..];
      [sorted[0]] + Insert(p, sorted[1..])
  }

  /** Inserting into a newest-first list keeps it newest first. */
  lemma {:induction false} InsertKeepsNewestFirst(p: Post, sorted: seq<Post>)
    requires NewestFirst(sorted)
    ensures NewestFirst(Insert(p, sorted))
  {
    var r := Insert(p, sorted);
    if |sorted| == 0 || p.timestamp >= sorted[0].timestamp {
      assert r == [p] + sorted;
    } else {
      var rest := Insert(p, sorted[1..]);
      assert r == [sorted[0]] + rest;
      InsertKeepsNewestFirst(p, sorted[1..]);
      forall k | 0 <= k < |rest| ensures rest[k].timestamp <= sorted[0].timestamp {
        assert rest[k] in multiset(rest);
        assert rest[k] == p || rest[k] in multiset(sorted[1..]);
      }
    }
  }

  /** `Array.prototype.sort` with the newest-first comparator, as a stable insertion sort. */
  function SortNewestFirst(posts: seq<Post>): (r: seq<Post>)
    ensures multiset(r) == multiset(posts)
    ensures |r| == |posts|
    ensures NewestFirst(r)
  {
    if |posts| == 0 then []
    else
      assert posts == [posts[0]] + posts[1..];
      InsertKeepsNewestFirst(posts[0], SortNewestFirst(posts[1..]));
      Insert(posts[0], SortNewestFirst(posts[1..]))
  }

  /** A list already in order comes back unchanged. */
  lemma {:induction false} SortKeepsSorted(posts: seq<Post>)
    requires NewestFirst(posts)
    ensures SortNewestFirst(posts) == posts
  {
    if |posts| > 0 {
      assert NewestFirst(posts[1..]);
      SortKeepsSorted(posts[1..]);
      assert posts == [posts[0]] + posts[1..];
    }
  }

  /** The global feed. */
  function AllPosts(s: State): (r: seq<Post>)
    ensures |r| == TotalPosts(s.allUsers)
    ensures multiset(r) == multiset(Flatten(s.allUsers))
    ensures NewestFirst(r)
    ensures forall i, j :: 0 <= i < |s.allUsers| && 0 <= j < |s.allUsers[i].posts| ==> s.allUsers[i].posts[j] in r
    ensures forall p :: p in r ==> exists i :: 0 <= i < |s.allUsers| && p in s.allUsers[i].posts
  {
    var flat := Flatten(s.allUsers);
    var r := SortNewestFirst(flat);
    assert forall p :: p in r <==> p in flat by {
      forall p ensures p in r <==> p in flat {
        assert p in r <==> multiset(r)[p] > 0;
        assert p in flat <==> multiset(flat)[p] > 0;
      }
    }
    r
  }

  /** The author a post row shows: the map lookup of its author id. */
  function Author(s: State, p: Post): (r: Option<User>)
    ensures r.Some? ==> r.value in s.allUsers && r.value.id == p.authorId
    ensures r.None? <==> forall u :: u in s.allUsers ==> u.id != p.authorId
  {
    LookupUser(s.allUsers, p.authorId)
  }

  /** The rows actually rendered: posts whose author is found. */
  function VisiblePosts(s: State): (r: seq<Post>)
    ensures forall p :: p in r <==> p in AllPosts(s) && Author(s, p).Some?
    ensures forall p: Post :: Author(s, p).Some? ==> multiset(r)[p] == multiset(AllPosts(s))[p]
    ensures Subsequence(r, AllPosts(s))
  {
    Filter((p: Post) => Author(s, p).Some?, AllPosts(s))
  }

  /** When every post sits with its author, no row is dropped. */
  lemma AuthoredPostsAllVisible(s: State)
    requires PostsAuthored(s.allUsers)
    ensures VisiblePosts(s) == AllPosts(s)
  {
    var all := AllPosts(s);
    forall k | 0 <= k < |all| ensures Author(s, all[k]).Some? {
      var p := all[k];
      assert p in all;
      var i :| 0 <= i < |s.allUsers| && p in s.allUsers[i].posts;
      var j :| 0 <= j < |s.allUsers[i].posts| && s.allUsers[i].posts[j] == p;
      assert s.allUsers[i] in s.allUsers;
    }
    FilterKeepsAll((p: Post) => Author(s, p).Some?, all);
  }

  /** The heart is filled for the viewer's own like. */
  predicate Liked(s: State, p: Post) {
    s.user.Some? && s.user.value.id in p.likes
  }

  function LikeCount(p: Post): nat {
    |p.likes|
  }

  /** The like button is disabled without a viewer. */
  predicate LikeEnabled(s: State) {
    s.user.Some?
  }

  /**
    Pressing the heart of a post flips the viewer's like on it; the count
    goes up by one on a like, and down by one on an unlike of a single like.
   */
  lemma LikeButtonFlips(s: State, postId: int, i: nat, j: nat)
    requires LikeEnabled(s)
    requires i < |s.allUsers| && j < |s.allUsers[i].posts| && s.allUsers[i].posts[j].id == postId
    ensures var r := Step(s, ToggleLikePostCall(postId));
      var (p, q) := (s.allUsers[i].posts[j], r.allUsers[i].posts[j]);
      && Liked(r, q) == !Liked(s, p)
      && (!Liked(s, p) ==> LikeCount(q) == LikeCount(p) + 1)
      && (multiset(p.likes)[s.user.value.id] == 1 ==> LikeCount(q) == LikeCount(p) - 1)
  {
    var mid := ToggleLikePost(s, postId);
    assert LikesToggled(s.allUsers[i], mid.allUsers[i], postId, s.user.value.id);
  }
}
