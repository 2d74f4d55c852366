/**
  The own-feed page: a composer (text and an optional picked image) that
  posts through `addPost`, and the list of the viewer's own posts with the
  same like state as the home page.
 */
module Feed {
  import opened Types
  import opened Text
  import opened App
  import opened Invariants
  import opened Home

  datatype Composer = Composer(text: string, image: Option<string>)

  /** The post button is enabled, and a submit goes through, exactly when the text is not blank and somebody is signed in. */
  predicate CanPost(c: Composer, s: State) {
    !Blank(c.text) && s.user.Some?
  }

  /** `newPostImage || undefined`: an empty image string is passed as no image. */
  function ImageArgument(image: Option<string>): (r: Option<string>)
    ensures r.Some? <==> image.Some? && image.value != ""
    ensures r.Some? ==> r == image
  {
    match image
    case Some(url) => if url == "" then None else image
    case None => None
  }

  /**
    Submitting: ignored unless `CanPost`; otherwise the untrimmed text and
    the image argument go to `addPost`, and the composer is cleared.
   */
  function Submit(c: Composer, s: State, now: nat): (r: (Composer, State))
    ensures !CanPost(c, s) ==> r == (c, s)
    ensures CanPost(c, s) ==>
      && r.0 == Composer("", None)
      && r.1 == Step(s, AddPostCall(c.text, ImageArgument(c.image), now))
  {
    if TrimsToEmpty(c.text) || s.user.None? then (c, s)
    else (Composer("", None), Step(s, AddPostCall(c.text, ImageArgument(c.image), now)))
  }

  /** The viewer's own posts, in stored order (newest first); none without a viewer. */
  function OwnPosts(s: State): (r: seq<Post>)
    ensures s.user.None? ==> r == []
    ensures s.user.Some? ==> r == s.user.value.posts
  {
    match s.user
    case None => []
    case Some(u) => u.posts
  }

  /**
    In a well-formed state, the own feed holds exactly the posts of the
    global feed that the viewer wrote.
   */
  lemma OwnPostsAreViewersPosts(s: State, p: Post)
    requires UniqueIds(s.allUsers) && PostsAuthored(s.allUsers) && InSync(s) && s.user.Some?
    ensures p in OwnPosts(s) <==> p in AllPosts(s) && p.authorId == s.user.value.id
  {
    var users := s.allUsers;
    var k :| 0 <= k < |users| && users[k] == s.user.value;
    if p in OwnPosts(s) {
      var j :| 0 <= j < |users[k].posts| && users[k].posts[j] == p;
      assert users[k].posts[j] in AllPosts(s);
    }
    if p in AllPosts(s) && p.authorId == s.user.value.id {
      ViewerWroteIt(s, p, k);
    }
  }

  /** A post of the global feed written by the viewer at position `k` sits in the viewer's own list. */
  lemma ViewerWroteIt(s: State, p: Post, k: nat)
    requires UniqueIds(s.allUsers) && PostsAuthored(s.allUsers)
    requires k < |s.allUsers| && p.authorId == s.allUsers[k].id
    requires p in AllPosts(s)
    ensures p in s.allUsers[k].posts
  {
    var users := s.allUsers;
    var i :| 0 <= i < |users| && p in users[i].posts;
    var j :| 0 <= j < |users[i].posts| && users[i].posts[j] == p;
    assert users[i].id == users[k].id;
  }

  /**
    After an accepted submit in a state whose current user is in sync, the
    new post heads the viewer's own list, with the untrimmed text, no like
    and the viewer as author; the older posts follow unchanged.
   */
  lemma SubmitShowsPostFirst(c: Composer, s: State, now: nat)
    requires CanPost(c, s) && UniqueIds(s.allUsers) && InSync(s)
    ensures var s' := Submit(c, s, now).1;
      && |OwnPosts(s')| == |OwnPosts(s)| + 1
      && OwnPosts(s')[0].text == c.text
      && OwnPosts(s')[0].authorId == s.user.value.id
      && !Liked(s', OwnPosts(s')[0]) && LikeCount(OwnPosts(s')[0]) == 0
      && OwnPosts(s')[1..] == OwnPosts(s)
  {
    HandlerAgreesWithEffect(s, AddPostCall(c.text, ImageArgument(c.image), now));
  }

  /** A blank text never reaches the state, although `addPost` itself would accept it. */
  lemma BlankTextNeverPosted(c: Composer, s: State, now: nat)
    requires Blank(c.text)
    ensures Submit(c, s, now) == (c, s)
    ensures s.user.Some? ==> AddPost(s, c.text, None, now) != s
  {
    if s.user.Some? {
      assert |AddPost(s, c.text, None, now).user.value.posts| == |s.user.value.posts| + 1;
    }
  }
}
