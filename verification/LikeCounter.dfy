/** The cached like counter of posts under everything that changes likes. */
module LikeCounter {
  import opened Batches
  import opened Options
  import opened Posts

  // Persons and communities with the ids that they have on other servers. A post goes with its author and its
  // community, a like with its post and its person.
  datatype Store = Store(
    posts: PostTable, likes: LikeTable, persons: map<nat, Option<string>>, communities: map<nat, Option<string>>)

  const EMPTY := Store(map[], map[], map[], map[])

  datatype Step =
    | NewPerson(id: nat, actor: Option<string>)
    | NewCommunity(id: nat, actor: Option<string>)
    | NewPost(id: nat, row: Post)
    | LikeIt(post: nat, person: nat, local: bool, activity: Option<string>)
    | Unlike(post: nat, person: nat)
    | Undo(apId: string)
    | CleanupLikes(likes: set<LikeKey>, olderThan: real)
    | CleanupPosts(picked: set<nat>)
    | JanitorRecalculate(picked: set<nat>)
    | RemoteUpvotes(post: nat, upvotes: int)
    | Purge(apId: string, ours: bool)
    | AuthorArrives(post: nat, person: nat)

  function Max(a: int, b: int): int {
    if a > b then a else b
  }

  /** What a recalculation stores: the count for a local post, never less than before for a remote one. */
  function Recalculated(p: Post, count: nat): Post {
    p.(cachedLikes := if p.local then count else Max(p.cachedLikes, count))
  }

  function Recalculate(s: Store, post: nat): Store {
    if post in s.posts then
      s.(posts := s.posts[post := Recalculated(s.posts[post], CountLikes(s.likes, post, s.posts[post].author))])
    else s
  }

  function WithApId(s: Store, apId: string): set<LikeKey> {
    set k | k in s.likes && s.likes[k].apId == Some(apId)
  }

  predicate OldRemote(s: Store, k: LikeKey, olderThan: real) {
    && k in s.likes && !s.likes[k].local
    && k.post in s.posts && !s.posts[k.post].local
    && (s.posts[k.post].deleted || s.posts[k.post].created < olderThan)
  }

  function LikesOf(likes: LikeTable, posts: set<nat>): set<LikeKey> {
    set k | k in likes && k.post in posts
  }

  /** Posts are deleted with their likes. */
  function AfterDelete(s: Store, picked: set<nat>): Store {
    s.(posts := s.posts - picked, likes := s.likes - LikesOf(s.likes, picked))
  }

  predicate Enabled(s: Store, step: Step) {
    match step
    case NewPerson(id, _) => id !in s.persons
    case NewCommunity(id, _) => id !in s.communities
    case NewPost(id, post) =>
      && id !in s.posts && post.cachedLikes == 0
      && (post.author.Some? ==> post.author.value in s.persons)
      && (post.community.Some? ==> post.community.value in s.communities)
    case LikeIt(post, person, _, _) => post in s.posts && person in s.persons
    case Unlike(_, _) => true
    case Undo(_) => true
    case CleanupLikes(picked, olderThan) => forall k | k in picked :: OldRemote(s, k, olderThan)
    case CleanupPosts(picked) =>
      forall id | id in picked ::
        && id in s.posts && !s.posts[id].local
        && forall k | k in s.likes && k.post == id :: !s.likes[k].local
    case JanitorRecalculate(picked) =>
      forall id | id in picked ::
        id in s.posts && s.posts[id].cachedLikes != CountLikes(s.likes, id, s.posts[id].author)
    case RemoteUpvotes(_, _) => true
    case Purge(_, _) => true
    case AuthorArrives(post, person) => post in s.posts && !s.posts[post].local && person in s.persons
  }

  function AfterLike(s: Store, post: nat, person: nat, local: bool, apId: Option<string>): Store {
    var k := LikeKey(post, person);
    if k in s.likes then s else Recalculate(s.(likes := s.likes[k := Like(local, apId)]), post)
  }

  function AfterUnlike(s: Store, k: LikeKey): Store {
    if k in s.likes then Recalculate(s.(likes := s.likes - {k}), k.post) else s
  }

  /** An Undo names a like by its activity. Two likes with the same activity make the statement fail and
      the transaction roll back. */
  function AfterUndo(s: Store, apId: string): Store {
    var found := WithApId(s, apId);
    if exists k | k in found :: found == {k} then
      var k :| k in found && found == {k};
      AfterUnlike(s, k)
    else s
  }

  /** The statement that deletes old likes also recounts their posts, in one snapshot: the count still sees
      the likes that the same statement deletes. */
  function AfterCleanupLikes(s: Store, picked: set<LikeKey>): Store {
    var affected := set k | k in picked :: k.post;
    s.(posts := map id | id in s.posts ::
         if id in affected then s.posts[id].(cachedLikes := CountLikes(s.likes, id, s.posts[id].author)) else s.posts[id],
       likes := s.likes - picked)
  }

  function AfterJanitor(s: Store, picked: set<nat>): Store {
    s.(posts := map id | id in s.posts ::
         if id in picked then s.posts[id].(cachedLikes := CountLikes(s.likes, id, s.posts[id].author)) else s.posts[id])
  }

  function AfterUpvotes(s: Store, post: nat, upvotes: int): Store {
    if post in s.posts && !s.posts[post].local then
      s.(posts := s.posts[post := s.posts[post].(cachedLikes :=
           Max(CountLikes(s.likes, post, s.posts[post].author), Max(upvotes, 0)))])
    else s
  }

  // ----- blocking an id by an administrator

  function PurgedPersons(s: Store, apId: string): set<nat> {
    set p | p in s.persons && s.persons[p] == Some(apId)
  }

  function PurgedCommunities(s: Store, apId: string): set<nat> {
    set c | c in s.communities && s.communities[c] == Some(apId)
  }

  /** The post with the id, the posts of the person with the id, and those of the community with the id. */
  function PurgedPosts(s: Store, apId: string): set<nat> {
    set id | id in s.posts &&
      (|| s.posts[id].apId == Some(apId)
       || (s.posts[id].author.Some? && s.posts[id].author.value in PurgedPersons(s, apId))
       || (s.posts[id].community.Some? && s.posts[id].community.value in PurgedCommunities(s, apId)))
  }

  function PurgedLikes(s: Store, apId: string): set<LikeKey> {
    set k | k in s.likes &&
      (s.likes[k].apId == Some(apId) || k.person in PurgedPersons(s, apId) || k.post in PurgedPosts(s, apId))
  }

  /** Everything that goes, by its own id or with what it belongs to; nothing is recalculated. An id of this
      server is refused. */
  function AfterPurge(s: Store, apId: string, ours: bool): Store {
    if ours then s
    else Store(s.posts - PurgedPosts(s, apId), s.likes - PurgedLikes(s, apId),
               s.persons - PurgedPersons(s, apId), s.communities - PurgedCommunities(s, apId))
  }

  /** A remote post that arrives again may get the author that it lacked. */
  function AfterAuthor(s: Store, id: nat, author: nat): Store {
    if id in s.posts then
      s.(posts := s.posts[id := s.posts[id].(author := if s.posts[id].author.Some? then s.posts[id].author else Some(author))])
    else s
  }

  function After(s: Store, step: Step): Store
    requires Enabled(s, step)
  {
    match step
    case NewPerson(id, actor) => s.(persons := s.persons[id := actor])
    case NewCommunity(id, actor) => s.(communities := s.communities[id := actor])
    case NewPost(id, post) => s.(posts := s.posts[id := post])
    case LikeIt(post, person, local, apId) => AfterLike(s, post, person, local, apId)
    case Unlike(post, person) => AfterUnlike(s, LikeKey(post, person))
    case Undo(apId) => AfterUndo(s, apId)
    case CleanupLikes(picked, _) => AfterCleanupLikes(s, picked)
    case CleanupPosts(picked) => AfterDelete(s, picked)
    case JanitorRecalculate(picked) => AfterJanitor(s, picked)
    case RemoteUpvotes(post, upvotes) => AfterUpvotes(s, post, upvotes)
    case Purge(apId, ours) => AfterPurge(s, apId, ours)
    case AuthorArrives(post, person) => AfterAuthor(s, post, person)
  }

  // ----- the invariant

  /** A local post caches exactly its likes by others, a remote post at least those. */
  predicate CounterOk(s: Store, id: nat)
    requires id in s.posts
  {
    var count := CountLikes(s.likes, id, s.posts[id].author);
    if s.posts[id].local then s.posts[id].cachedLikes == count else s.posts[id].cachedLikes >= count
  }

  ghost predicate CountersOk(s: Store) {
    && (forall k | k in s.likes :: k.post in s.posts)
    && (forall id | id in s.posts :: CounterOk(s, id))
  }

  /** Fewer likes never raise a count, and likes of other posts do not matter. */
  lemma CountMonotone(few: LikeTable, many: LikeTable, post: nat, author: Option<nat>)
    requires forall k | k in few && k.post == post :: k in many
    ensures CountLikes(few, post, author) <= CountLikes(many, post, author)
  {
    Subset(Counted(few, post, author), Counted(many, post, author));
  }

  lemma CountSame(a: LikeTable, b: LikeTable, post: nat, author: Option<nat>)
    requires forall k: LikeKey | k.post == post :: k in a <==> k in b
    ensures CountLikes(a, post, author) == CountLikes(b, post, author)
  {
    CountMonotone(a, b, post, author);
    CountMonotone(b, a, post, author);
  }

  /** Changing the likes of one post and recalculating it keeps every counter right. */
  lemma RecalculateKeeps(s: Store, likes: LikeTable, post: nat)
    requires CountersOk(s) && post in s.posts
    requires forall k: LikeKey | k.post != post :: k in likes <==> k in s.likes
    ensures CountersOk(Recalculate(s.(likes := likes), post))
  {
    hide CountLikes;
    var s' := Recalculate(s.(likes := likes), post);
    forall id | id in s'.posts ensures CounterOk(s', id) {
      if id != post {
        assert CounterOk(s, id);
        CountSame(likes, s.likes, id, s.posts[id].author);
      }
    }
    forall k | k in s'.likes ensures k.post in s'.posts {
      assert k.post != post ==> k in s.likes;
    }
  }

  lemma UnlikeKeeps(s: Store, k: LikeKey)
    requires CountersOk(s)
    ensures CountersOk(AfterUnlike(s, k))
  {
    hide CounterOk, Recalculate;
    if k in s.likes {
      RecalculateKeeps(s, s.likes - {k}, k.post);
    }
  }

  lemma CleanupLikesKeeps(s: Store, picked: set<LikeKey>, olderThan: real)
    requires CountersOk(s) && forall k | k in picked :: OldRemote(s, k, olderThan)
    ensures CountersOk(AfterCleanupLikes(s, picked))
  {
    hide CountLikes;
    var s' := AfterCleanupLikes(s, picked);
    var affected := set k | k in picked :: k.post;
    forall id | id in s'.posts ensures CounterOk(s', id) {
      assert CounterOk(s, id);
      CountMonotone(s'.likes, s.likes, id, s.posts[id].author);
      if s.posts[id].local {
        assert id !in affected;
        CountSame(s'.likes, s.likes, id, s.posts[id].author);
      }
    }
  }

  lemma CleanupPostsKeeps(s: Store, picked: set<nat>)
    requires CountersOk(s)
    ensures CountersOk(AfterDelete(s, picked))
  {
    hide CountLikes;
    var s' := AfterDelete(s, picked);
    forall id | id in s'.posts ensures CounterOk(s', id) {
      assert CounterOk(s, id);
      CountSame(s'.likes, s.likes, id, s.posts[id].author);
    }
  }

  /** What a step must not do: a purge must not take a counted like away from a surviving local post, and an
      author must not arrive when more likes then count than are cached. */
  predicate Harmless(s: Store, step: Step) {
    match step
    case Purge(apId, ours) =>
      ours || forall k | k in s.likes && k.post in s.posts && s.posts[k.post].local && k.post !in PurgedPosts(s, apId)
                      && k in Counted(s.likes, k.post, s.posts[k.post].author) ::
                s.likes[k].apId != Some(apId) && k.person !in PurgedPersons(s, apId)
    case AuthorArrives(id, author) =>
      id in s.posts ==> s.posts[id].author.Some? || CountLikes(s.likes, id, Some(author)) <= s.posts[id].cachedLikes
    case _ => true
  }

  lemma CountStrict(likes: LikeTable, removed: set<LikeKey>, post: nat, author: Option<nat>)
    ensures CountLikes(likes - removed, post, author) == CountLikes(likes, post, author)
       <==> Counted(likes, post, author) * removed == {}
  {
    var all, left := Counted(likes, post, author), Counted(likes - removed, post, author);
    assert left == all - removed;
    assert all == left + all * removed && |all| == |left| + |all * removed|;
  }

  lemma PurgedPostsExactly(s: Store, apId: string, id: nat)
    requires CountersOk(s) && id in s.posts && id !in PurgedPosts(s, apId)
    ensures var s' := AfterPurge(s, apId, false);
      CounterOk(s', id)
      <==> (s.posts[id].local ==> Counted(s.likes, id, s.posts[id].author) * PurgedLikes(s, apId) == {})
  {
    hide CountLikes, PurgedLikes, PurgedPosts;
    var s' := AfterPurge(s, apId, false);
    assert CounterOk(s, id);
    CountStrict(s.likes, PurgedLikes(s, apId), id, s.posts[id].author);
    CountMonotone(s'.likes, s.likes, id, s.posts[id].author);
  }

  /** A purge keeps the counters right exactly when no counted like of a surviving local post carries the
      purged id or is by the person with that id. */
  lemma PurgeKeepsExactly(s: Store, apId: string, ours: bool)
    requires CountersOk(s)
    ensures CountersOk(AfterPurge(s, apId, ours)) <==> Harmless(s, Purge(apId, ours))
  {
    hide CountLikes, Counted, PurgedPosts, PurgedPersons, PurgedCommunities, CounterOk;
    if !ours {
      var s', removed := AfterPurge(s, apId, false), PurgedLikes(s, apId);
      forall id | id in s'.posts
        ensures CounterOk(s', id)
           <==> (s.posts[id].local ==> Counted(s.likes, id, s.posts[id].author) * removed == {})
      {
        PurgedPostsExactly(s, apId, id);
      }
      forall id, k | id in s.posts && k in Counted(s.likes, id, s.posts[id].author) ensures k.post == id && k in s.likes {
        CountedIsOfPost(s.likes, id, s.posts[id].author, k);
      }
      if !Harmless(s, Purge(apId, ours)) {
        var k :| k in s.likes && k.post in s.posts && s.posts[k.post].local && k.post !in PurgedPosts(s, apId)
          && k in Counted(s.likes, k.post, s.posts[k.post].author)
          && !(s.likes[k].apId != Some(apId) && k.person !in PurgedPersons(s, apId));
        assert k in Counted(s.likes, k.post, s.posts[k.post].author) * removed;
        assert k.post in s'.posts;
      }
    }
  }

  lemma CountedIsOfPost(likes: LikeTable, post: nat, author: Option<nat>, k: LikeKey)
    requires k in Counted(likes, post, author)
    ensures k.post == post && k in likes
  {
  }

  /** Counters survive the arrival of an author exactly when there was one already or the cached number covers
      the likes that now count. */
  lemma AuthorKeepsExactly(s: Store, id: nat, author: nat)
    requires CountersOk(s) && id in s.posts && !s.posts[id].local
    ensures CountersOk(AfterAuthor(s, id, author)) <==> Harmless(s, AuthorArrives(id, author))
  {
    hide CountLikes;
    var s' := AfterAuthor(s, id, author);
    forall other | other in s.posts && other != id ensures CounterOk(s', other) {
      assert CounterOk(s, other);
    }
    assert CounterOk(s, id);
    assert id in s'.posts;
  }

  lemma NewPostKeeps(s: Store, id: nat, post: Post)
    requires CountersOk(s) && Enabled(s, NewPost(id, post))
    ensures CountersOk(After(s, NewPost(id, post)))
  {
    forall other | other in s.posts[id := post] ensures CounterOk(After(s, NewPost(id, post)), other) {
      if other == id {
        assert Counted(s.likes, id, post.author) == {};
      } else {
        assert CounterOk(s, other);
      }
    }
  }

  lemma UndoKeeps(s: Store, apId: string)
    requires CountersOk(s)
    ensures CountersOk(AfterUndo(s, apId))
  {
    var found := WithApId(s, apId);
    if exists k | k in found :: found == {k} {
      var k :| k in found && found == {k};
      assert AfterUndo(s, apId) == AfterUnlike(s, k);
      UnlikeKeeps(s, k);
    }
  }

  /** Every step but a harmful purge or arrival keeps the counters right, and those two break them. */
  lemma StepKeepsCounts(s: Store, step: Step)
    requires CountersOk(s) && Enabled(s, step)
    ensures CountersOk(After(s, step)) <==> Harmless(s, step)
  {
    hide CountLikes;
    match step {
      case NewPerson(_, _) => assert forall id | id in s.posts :: CounterOk(After(s, step), id) == CounterOk(s, id);
      case NewCommunity(_, _) => assert forall id | id in s.posts :: CounterOk(After(s, step), id) == CounterOk(s, id);
      case NewPost(id, post) => NewPostKeeps(s, id, post);
      case LikeIt(post, person, local, apId) =>
        var k := LikeKey(post, person);
        if k !in s.likes {
          RecalculateKeeps(s, s.likes[k := Like(local, apId)], post);
        }
      case Unlike(post, person) => UnlikeKeeps(s, LikeKey(post, person));
      case Undo(apId) => UndoKeeps(s, apId);
      case CleanupLikes(picked, olderThan) => CleanupLikesKeeps(s, picked, olderThan);
      case CleanupPosts(picked) => CleanupPostsKeeps(s, picked);
      case JanitorRecalculate(picked) =>
        forall id | id in s.posts ensures CounterOk(After(s, step), id) {
          assert CounterOk(s, id);
        }
      case RemoteUpvotes(post, upvotes) =>
        forall id | id in s.posts ensures CounterOk(After(s, step), id) {
          assert CounterOk(s, id);
        }
      case Purge(apId, ours) => PurgeKeepsExactly(s, apId, ours);
      case AuthorArrives(id, author) => AuthorKeepsExactly(s, id, author);
    }
  }

  // ----- runs

  ghost predicate ValidRun(s: Store, steps: seq<Step>)
    decreases |steps|
  {
    steps == [] || (Enabled(s, steps[0]) && ValidRun(After(s, steps[0]), steps[1..]))
  }

  ghost function EndOf(s: Store, steps: seq<Step>): Store
    requires ValidRun(s, steps)
    decreases |steps|
  {
    if steps == [] then s else EndOf(After(s, steps[0]), steps[1..])
  }

  ghost predicate AlwaysOk(s: Store, steps: seq<Step>)
    requires ValidRun(s, steps)
    decreases |steps|
  {
    CountersOk(s) && (steps != [] ==> AlwaysOk(After(s, steps[0]), steps[1..]))
  }

  ghost predicate AllHarmless(s: Store, steps: seq<Step>)
    requires ValidRun(s, steps)
    decreases |steps|
  {
    steps == [] || (Harmless(s, steps[0]) && AllHarmless(After(s, steps[0]), steps[1..]))
  }

  lemma {:induction false} RunKeepsExactly(s: Store, steps: seq<Step>)
    requires CountersOk(s) && ValidRun(s, steps)
    ensures AlwaysOk(s, steps) <==> AllHarmless(s, steps)
    ensures AllHarmless(s, steps) ==> CountersOk(EndOf(s, steps))
    decreases |steps|
  {
    hide Enabled, After, Harmless, CountersOk;
    if steps != [] {
      StepKeepsCounts(s, steps[0]);
      if Harmless(s, steps[0]) {
        RunKeepsExactly(After(s, steps[0]), steps[1..]);
      }
    }
  }

  /** In every run the counters are right all the time, exact for local posts and no lower than the likes by
      others for remote ones, if and only if every purge and every arrival of an author is harmless. */
  lemma CountersAreRight(steps: seq<Step>)
    requires ValidRun(EMPTY, steps)
    ensures AlwaysOk(EMPTY, steps) <==> AllHarmless(EMPTY, steps)
    ensures AllHarmless(EMPTY, steps) ==>
      forall id | id in EndOf(EMPTY, steps).posts ::
        var s := EndOf(EMPTY, steps);
        var count := CountLikes(s.likes, id, s.posts[id].author);
        if s.posts[id].local then s.posts[id].cachedLikes == count else s.posts[id].cachedLikes >= count
  {
    hide CountLikes;
    RunKeepsExactly(EMPTY, steps);
    if AllHarmless(EMPTY, steps) {
      assert forall id | id in EndOf(EMPTY, steps).posts :: CounterOk(EndOf(EMPTY, steps), id);
    }
  }

  lemma {:induction false} RunThen(s: Store, steps: seq<Step>, step: Step)
    requires ValidRun(s, steps) && Enabled(EndOf(s, steps), step)
    ensures ValidRun(s, steps + [step]) && EndOf(s, steps + [step]) == After(EndOf(s, steps), step)
    decreases |steps|
  {
    hide Enabled, After;
    if steps == [] {
      assert steps + [step] == [step] && [step][1..] == [];
    } else {
      assert (steps + [step])[1..] == steps[1..] + [step];
      RunThen(After(s, steps[0]), steps[1..], step);
    }
  }

  function PostBy(author: Option<nat>, local: bool): Post {
    Post(local, false, 0.0, author, None, None, 0, None, None, None, None)
  }

  /** Two persons, a post, and a like of it by the second. */
  lemma LikedPost(actor: string, author: Option<nat>, local: bool) returns (steps: seq<Step>)
    requires author.Some? ==> author.value == 1
    ensures ValidRun(EMPTY, steps)
    ensures var s := EndOf(EMPTY, steps);
      && s.persons == map[1 := None, 2 := Some(actor)] && s.communities == map[]
      && s.likes.Keys == {LikeKey(1, 2)} && s.likes[LikeKey(1, 2)].apId == None
      && s.posts.Keys == {1} && s.posts[1].local == local && s.posts[1].author == author
      && s.posts[1].apId == None && s.posts[1].community == None
      && s.posts[1].cachedLikes == if author.Some? then 1 else 0
  {
    var first, second := NewPerson(1, None), NewPerson(2, Some(actor));
    RunThen(EMPTY, [], first);
    steps := [] + [first];
    RunThen(EMPTY, steps, second);
    steps := steps + [second];
    RunThen(EMPTY, steps, NewPost(1, PostBy(author, local)));
    steps := steps + [NewPost(1, PostBy(author, local))];
    var s := EndOf(EMPTY, steps);
    RunThen(EMPTY, steps, LikeIt(1, 2, false, None));
    steps := steps + [LikeIt(1, 2, false, None)];
    var likes := s.likes[LikeKey(1, 2) := Like(false, None)];
    assert Counted(likes, 1, author) == if author.Some? then {LikeKey(1, 2)} else {};
  }

  /** Blocking a person who likes a local post leaves the post with a count that is too high. */
  lemma PurgeBreaks(actor: string) returns (steps: seq<Step>)
    ensures ValidRun(EMPTY, steps) && CountersOk(EndOf(EMPTY, steps))
    ensures !CountersOk(AfterPurge(EndOf(EMPTY, steps), actor, false))
  {
    steps := LikedPost(actor, Some(1), true);
    var s := EndOf(EMPTY, steps);
    assert Counted(s.likes, 1, Some(1)) == {LikeKey(1, 2)};
    assert CounterOk(s, 1);
    assert PurgedPosts(s, actor) == {} && PurgedPersons(s, actor) == {2};
    PurgeKeepsExactly(s, actor, false);
  }

  /** A remote post that was liked before its author was known has a count that is too low afterwards. */
  lemma AuthorBreaks(actor: string) returns (steps: seq<Step>)
    ensures ValidRun(EMPTY, steps) && CountersOk(EndOf(EMPTY, steps))
    ensures Enabled(EndOf(EMPTY, steps), AuthorArrives(1, 1))
    ensures !CountersOk(AfterAuthor(EndOf(EMPTY, steps), 1, 1))
  {
    steps := LikedPost(actor, None, false);
    var s := EndOf(EMPTY, steps);
    assert Counted(s.likes, 1, None) == {};
    assert CounterOk(s, 1);
    assert Counted(s.likes, 1, Some(1)) == {LikeKey(1, 2)};
    AuthorKeepsExactly(s, 1, 1);
  }

  // ----- the statements as the program runs them

  function PostsOfCommunities(s: Store, communities: set<nat>): set<nat> {
    set id | id in s.posts && s.posts[id].community.Some? && s.posts[id].community.value in communities
  }

  function PostsOfPersons(s: Store, persons: set<nat>): set<nat> {
    set id | id in s.posts && s.posts[id].author.Some? && s.posts[id].author.value in persons
  }

  function PostsWithId(s: Store, apId: string): set<nat> {
    set id | id in s.posts && s.posts[id].apId == Some(apId)
  }

  function LikesBy(s: Store, persons: set<nat>): set<LikeKey> {
    set k | k in s.likes && k.person in persons
  }

  /** The statements of a purge one after another, each with what goes along. */
  function Purged(s: Store, apId: string): Store {
    var communities := PurgedCommunities(s, apId);
    var s1 := AfterDelete(s, PostsOfCommunities(s, communities)).(communities := s.communities - communities);
    var persons := PurgedPersons(s1, apId);
    var s2 := AfterDelete(s1, PostsOfPersons(s1, persons));
    var s3 := s2.(persons := s2.persons - persons, likes := s2.likes - LikesBy(s2, persons));
    var s4 := AfterDelete(s3, PostsWithId(s3, apId));
    s4.(likes := s4.likes - WithApId(s4, apId))
  }

  lemma StatementsPurgePosts(s: Store, apId: string)
    ensures Purged(s, apId).posts == s.posts - PurgedPosts(s, apId)
    ensures Purged(s, apId).persons == s.persons - PurgedPersons(s, apId)
    ensures Purged(s, apId).communities == s.communities - PurgedCommunities(s, apId)
  {
    hide LikesOf, LikesBy, WithApId;
  }

  lemma StatementsPurgeLikes(s: Store, apId: string)
    ensures Purged(s, apId).likes == s.likes - PurgedLikes(s, apId)
  {
    var all := PurgedPosts(s, apId);
    var communities, persons := PurgedCommunities(s, apId), PurgedPersons(s, apId);
    var first := PostsOfCommunities(s, communities);
    var s1 := AfterDelete(s, first).(communities := s.communities - communities);
    var second := PostsOfPersons(s1, persons);
    var s2 := AfterDelete(s1, second);
    var third := PostsWithId(s2, apId);
    assert all == first + second + third;
    hide PostsOfCommunities, PostsOfPersons, PostsWithId, PurgedPosts;
    assert s2.likes == s.likes - LikesOf(s.likes, first + second);
  }

  lemma StatementsPurge(s: Store, apId: string)
    ensures Purged(s, apId) == AfterPurge(s, apId, false)
  {
    hide Purged, PurgedPosts, PurgedLikes;
    StatementsPurgePosts(s, apId);
    StatementsPurgeLikes(s, apId);
  }

  class LikeStore {
    var store: Store

    constructor ()
      ensures store == EMPTY
    {
      store := EMPTY;
    }

    method RecalculateCachedPostLikes(post: nat)
      modifies this
      ensures store == Recalculate(old(store), post)
    {
      if post in store.posts {
        var p, count := store.posts[post], CountLikes(store.likes, post, store.posts[post].author);
        if p.local || p.cachedLikes < count {
          store := store.(posts := store.posts[post := p.(cachedLikes := count)]);
        } else {
          assert store.posts[post := p] == store.posts;
        }
      }
    }

    /** A like from a local user or from another server. */
    method InsertLike(post: nat, person: nat, local: bool, apId: Option<string>) returns (isNew: bool)
      requires post in store.posts && person in store.persons
      modifies this
      ensures isNew <==> LikeKey(post, person) !in old(store).likes
      ensures store == After(old(store), LikeIt(post, person, local, apId))
    {
      var k := LikeKey(post, person);
      isNew := k !in store.likes;
      if isNew {
        store := store.(likes := store.likes[k := Like(local, apId)]);
        RecalculateCachedPostLikes(post);
      }
    }

    method DeleteLike(post: nat, person: nat) returns (deleted: Option<Like>)
      modifies this
      ensures deleted == (if LikeKey(post, person) in old(store).likes
                          then Some(old(store).likes[LikeKey(post, person)]) else None)
      ensures store == After(old(store), Unlike(post, person))
    {
      var k := LikeKey(post, person);
      if k !in store.likes {
        return None;
      }
      deleted := Some(store.likes[k]);
      store := store.(likes := store.likes - {k});
      RecalculateCachedPostLikes(post);
    }

    method DeletePosts(picked: set<nat>)
      modifies this
      ensures store == AfterDelete(old(store), picked)
    {
      store := store.(posts := store.posts - picked, likes := store.likes - LikesOf(store.likes, picked));
    }

    /** Blocks an id: the statements of the transaction in their order, each with what goes along. */
    method PurgeId(apId: string, ours: bool) returns (ok: bool)
      modifies this
      ensures ok <==> !ours
      ensures store == After(old(store), Purge(apId, ours))
    {
      ok := !ours;
      if ours {
        return;
      }
      StatementsPurge(store, apId);
      var communities := PurgedCommunities(store, apId);
      DeletePosts(PostsOfCommunities(store, communities));
      store := store.(communities := store.communities - communities);
      var persons := PurgedPersons(store, apId);
      DeletePosts(PostsOfPersons(store, persons));
      store := store.(persons := store.persons - persons, likes := store.likes - LikesBy(store, persons));
      DeletePosts(PostsWithId(store, apId));
      store := store.(likes := store.likes - WithApId(store, apId));
    }

    /** The part of an Undo that concerns likes of posts. */
    method IngestUndo(apId: string) returns (ok: bool)
      modifies this
      ensures ok <==> |WithApId(old(store), apId)| <= 1
      ensures store == After(old(store), Undo(apId))
    {
      var found := WithApId(store, apId);
      ok := |found| <= 1;
      if |found| == 1 {
        var k :| k in found;
        SingletonOf(found, k);
        store := store.(likes := store.likes - {k});
        RecalculateCachedPostLikes(k.post);
      }
    }
  }

  lemma SingletonOf<T>(s: set<T>, x: T)
    requires x in s && |s| == 1
    ensures s == {x}
  {
    assert |s - {x}| == 0;
  }
}
