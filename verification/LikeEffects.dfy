/** What each step does to likes, posts and cached numbers, said of the rows before and after. */
module LikeEffects {
  import opened Options
  import opened Posts
  import opened LikeCounter

  function LikesOfPost(likes: LikeTable, post: nat): set<LikeKey> {
    set k | k in likes && k.post == post
  }

  /** The count of a post is the number of its likes without the author's own, and zero without an author. */
  lemma CountExactly(likes: LikeTable, post: nat, author: nat)
    ensures CountLikes(likes, post, Some(author)) + (if LikeKey(post, author) in likes then 1 else 0)
         == |LikesOfPost(likes, post)|
    ensures CountLikes(likes, post, None) == 0
  {
    var all, counted := LikesOfPost(likes, post), Counted(likes, post, Some(author));
    assert Counted(likes, post, None) == {};
    if LikeKey(post, author) in likes {
      assert all == counted + {LikeKey(post, author)};
    } else {
      assert all == counted;
    }
  }

  // ----- what an id belongs to

  predicate IsPerson(s: Store, person: nat, apId: string) {
    person in s.persons && s.persons[person] == Some(apId)
  }

  /** A post has the id, or its author or its community has it. */
  predicate PostHas(s: Store, id: nat, apId: string) {
    && id in s.posts
    && var p := s.posts[id];
       || p.apId == Some(apId)
       || (p.author.Some? && IsPerson(s, p.author.value, apId))
       || (p.community.Some? && p.community.value in s.communities && s.communities[p.community.value] == Some(apId))
  }

  /** A like has the id, or its person or its post has it. */
  predicate LikeHas(s: Store, k: LikeKey, apId: string) {
    k in s.likes && (s.likes[k].apId == Some(apId) || IsPerson(s, k.person, apId) || PostHas(s, k.post, apId))
  }

  // ----- likes

  /** Whether a like is there after a step. */
  ghost predicate Liked(s: Store, step: Step, k: LikeKey) {
    match step
    case LikeIt(post, person, _, _) => k in s.likes || k == LikeKey(post, person)
    case Unlike(post, person) => k in s.likes && k != LikeKey(post, person)
    case Undo(apId) =>
      k in s.likes && (s.likes[k].apId == Some(apId) ==> exists other | other in s.likes && other != k :: s.likes[other].apId == Some(apId))
    case CleanupLikes(picked, _) => k in s.likes && k !in picked
    case CleanupPosts(picked) => k in s.likes && k.post !in picked
    case Purge(apId, ours) => k in s.likes && (ours || !LikeHas(s, k, apId))
    case _ => k in s.likes
  }

  lemma UndoneLikes(s: Store, apId: string, k: LikeKey)
    ensures k in AfterUndo(s, apId).likes <==> Liked(s, Undo(apId), k)
    ensures forall other | other in AfterUndo(s, apId).likes :: other in s.likes && AfterUndo(s, apId).likes[other] == s.likes[other]
  {
    hide Recalculated;
    var found := WithApId(s, apId);
    if one :| one in found && found == {one} {
      assert forall other | other in s.likes && other != one :: other !in found;
    }
    if k in s.likes && s.likes[k].apId == Some(apId) {
      assert k in found;
      if forall other | other in s.likes && other != k :: s.likes[other].apId != Some(apId) {
        assert found == {k};
      }
    }
  }

  /** A step adds and removes exactly these likes and changes no other; a new one is as it was made. */
  lemma LikesAfter(s: Store, step: Step, k: LikeKey)
    requires Enabled(s, step)
    ensures k in After(s, step).likes <==> Liked(s, step, k)
    ensures k in After(s, step).likes ==>
      After(s, step).likes[k] == if k in s.likes then s.likes[k] else Like(step.local, step.activity)
  {
    hide CountLikes, Recalculated;
    match step {
      case Undo(apId) => UndoneLikes(s, apId, k);
      case _ =>
    }
  }

  /** The cleanup of likes spares likes from here, likes of posts from here, and those of posts that are neither
      deleted nor old. */
  lemma CleanupSpares(s: Store, picked: set<LikeKey>, olderThan: real, k: LikeKey)
    requires Enabled(s, CleanupLikes(picked, olderThan)) && k in s.likes && k.post in s.posts
    requires s.likes[k].local || s.posts[k.post].local || !(s.posts[k.post].deleted || s.posts[k.post].created < olderThan)
    ensures k in After(s, CleanupLikes(picked, olderThan)).likes
  {
    LikesAfter(s, CleanupLikes(picked, olderThan), k);
  }

  /** The cleanup of posts spares posts from here and posts that somebody here likes. */
  lemma PostsSpared(s: Store, picked: set<nat>, id: nat)
    requires Enabled(s, CleanupPosts(picked)) && id in s.posts
    requires s.posts[id].local || exists k | k in s.likes && k.post == id :: s.likes[k].local
    ensures id in After(s, CleanupPosts(picked)).posts
  {
    WhichPosts(s, CleanupPosts(picked), id);
  }

  // ----- posts

  /** Whether a post is there after a step. */
  ghost predicate Posted(s: Store, step: Step, id: nat) {
    match step
    case NewPost(new_, _) => id in s.posts || id == new_
    case CleanupPosts(picked) => id in s.posts && id !in picked
    case Purge(apId, ours) => id in s.posts && (ours || !PostHas(s, id, apId))
    case _ => id in s.posts
  }

  function Greater(a: int, b: int): int {
    if a >= b then a else b
  }

  lemma WhichPosts(s: Store, step: Step, id: nat)
    requires Enabled(s, step)
    ensures id in After(s, step).posts <==> Posted(s, step, id)
  {
    hide CountLikes, Recalculated;
  }

  /** The number of a post from which a like came or went: the count, or for a remote post the greater of that
      and what it was. */
  function Recounted(p: Post, likes: LikeTable, id: nat): int {
    var count := CountLikes(likes, id, p.author);
    if p.local then count else Greater(p.cachedLikes, count)
  }

  /** The number that a post caches after a step, given the likes before and after it. */
  ghost function NumberAfter(s: Store, step: Step, id: nat, after: LikeTable): int
    requires id in s.posts
  {
    var p := s.posts[id];
    match step
    case LikeIt(post, person, _, _) =>
      if post == id && LikeKey(post, person) !in s.likes then Recounted(p, after, id) else p.cachedLikes
    case Unlike(post, person) =>
      if post == id && LikeKey(post, person) in s.likes then Recounted(p, after, id) else p.cachedLikes
    case Undo(_) =>
      if exists k | k in s.likes && k !in after :: k.post == id then Recounted(p, after, id) else p.cachedLikes
    case CleanupLikes(picked, _) =>
      if exists k | k in picked :: k.post == id then CountLikes(s.likes, id, p.author) else p.cachedLikes
    case JanitorRecalculate(picked) => if id in picked then CountLikes(after, id, p.author) else p.cachedLikes
    case RemoteUpvotes(post, upvotes) =>
      if post == id && !p.local then Greater(CountLikes(after, id, p.author), Greater(upvotes, 0)) else p.cachedLikes
    case _ => p.cachedLikes
  }

  ghost predicate SamePost(s: Store, step: Step, id: nat, p': Post, after: LikeTable)
    requires id in s.posts
  {
    var p := s.posts[id];
    && p' == p.(cachedLikes := p'.cachedLikes, author := p'.author)
    && p'.author == (if step.AuthorArrives? && step.post == id && p.author == None then Some(step.person) else p.author)
    && p'.cachedLikes == NumberAfter(s, step, id, after)
  }

  lemma UndonePost(s: Store, apId: string, id: nat)
    requires id in s.posts
    ensures id in AfterUndo(s, apId).posts
    ensures SamePost(s, Undo(apId), id, AfterUndo(s, apId).posts[id], AfterUndo(s, apId).likes)
  {
    hide CountLikes;
    var found := WithApId(s, apId);
    if one :| one in found && found == {one} {
      assert one in s.likes && one !in AfterUndo(s, apId).likes;
    }
  }

  lemma RecountedPost(s: Store, step: Step, id: nat)
    requires Enabled(s, step) && id in s.posts && (step.LikeIt? || step.Unlike?)
    ensures id in After(s, step).posts && SamePost(s, step, id, After(s, step).posts[id], After(s, step).likes)
  {
    hide CountLikes;
  }

  lemma SetPost(s: Store, step: Step, id: nat)
    requires Enabled(s, step) && id in s.posts && (step.CleanupLikes? || step.JanitorRecalculate? || step.RemoteUpvotes?)
    ensures id in After(s, step).posts && SamePost(s, step, id, After(s, step).posts[id], After(s, step).likes)
  {
    hide CountLikes;
  }

  /** A step leaves the rows of posts alone except for their cached number, and for the author that a remote post
      may get. */
  lemma PostsAfter(s: Store, step: Step, id: nat)
    requires Enabled(s, step)
    ensures id in After(s, step).posts <==> Posted(s, step, id)
    ensures id in s.posts && id in After(s, step).posts ==>
      SamePost(s, step, id, After(s, step).posts[id], After(s, step).likes)
  {
    hide CountLikes;
    WhichPosts(s, step, id);
    if id in s.posts && id in After(s, step).posts {
      if step.Undo? {
        UndonePost(s, step.apId, id);
        hide SamePost;
      } else if step.LikeIt? || step.Unlike? {
        RecountedPost(s, step, id);
        hide SamePost;
      } else if step.CleanupLikes? || step.JanitorRecalculate? || step.RemoteUpvotes? {
        SetPost(s, step, id);
        hide SamePost;
      }
    }
  }
}
