/** Which rows the janitor repairs and what becomes of them, said of the rows. */
module Repairs {
  import opened Batches
  import opened Options
  import opened Posts
  import opened Janitor
  import Cleanup
  import LikeEffects
  import Tasks
  import TaskTables
  import Texts
  import Titles

  // ----- which rows

  /** A discovered community that is gone, hardly used, or on a suppressed server. */
  predicate IsStale(db: Database, id: nat) {
    && id in db.discoveries && id in db.communities && db.discoveries[id].host in db.servers
    && db.discoveries[id].active
    && (|| db.communities[id].deleted
        || db.servers[db.discoveries[id].host].suppressed
        || db.discoveries[id].postCount == None
        || db.discoveries[id].postCount.value < 2)
  }

  /** One that is there, in use, and on a server that works. */
  ghost predicate IsCurrent(db: Database, id: nat) {
    && id in db.discoveries && id in db.communities && db.discoveries[id].host in db.servers
    && !db.discoveries[id].active && !db.communities[id].deleted
    && db.discoveries[id].postCount.Some? && db.discoveries[id].postCount.value > 1
    && db.servers[db.discoveries[id].host] == Server(true, db.servers[db.discoveries[id].host].failedChecks, false)
    && db.servers[db.discoveries[id].host].failedChecks <= 2
  }

  /** A community elsewhere, with an id of a usual form, of which an endpoint is missing. */
  ghost predicate MissesEndpoint(c: Community, setting: Setting) {
    && !c.local && c.apId != None && setting.conventional(c.apId.value)
    && None in {c.inbox, c.outbox, c.followers}
  }

  predicate IsUnfinished(u: FollowUndo) {
    u.receivedAt == None
  }

  /** Nothing but spaces. */
  predicate IsInvisible(title: string) {
    forall c | c in title :: c == ' '
  }

  ghost predicate TaskIsFor(sweep: Tasks.Sweep, id: nat, t: Tasks.Task, env: Tasks.Env) {
    match sweep
    case CompactCompletedInbox =>
      t.state == Tasks.Completed && Cleanup.IsIngestion(t.kind) && t.params.Payload? && Cleanup.Longer(t.completedAt, 3600.0, env.now)
    case FailTerminal =>
      && t.state == Tasks.Pending && Cleanup.IsIngestion(t.kind) && t.attemptedAt != None
      && t.latestError != None && env.terminal(t.latestError.value)
    case CompleteIrrelevant =>
      t.state == Tasks.Pending && t.kind == Tasks.VerifyAndIngestObjectFromInbox && id in env.irrelevant
    case _ => false
  }

  ghost predicate IsFor(db: Database, r: Repair, id: nat, setting: Setting) {
    match r
    case CommunityEndpoints => id in db.communities && MissesEndpoint(db.communities[id], setting)
    case PostLikes =>
      && id in db.posts
      && var p, all := db.posts[id], |LikeEffects.LikesOfPost(db.likes, id)|;
         p.cachedLikes != if p.author == None then 0
                          else if LikeKey(id, p.author.value) in db.likes then all - 1 else all
    case DeactivateDiscovery => IsStale(db, id)
    case ReactivateDiscovery => IsCurrent(db, id)
    case OnTasks(sweep) => id in db.tasks && TaskIsFor(sweep, id, db.tasks[id], setting.tasks)
    case PostTitles => id in db.posts && (db.posts[id].title == None || IsInvisible(db.posts[id].title.value))
    case CommunityUndos =>
      && id in db.communityUndos && IsUnfinished(db.communityUndos[id])
      && db.communityUndos[id].target in db.communities && db.communities[db.communityUndos[id].target].local
    case UserUndos => id in db.userUndos && IsUnfinished(db.userUndos[id]) && db.userUndos[id].target in db.localPersons
  }

  lemma TitleExactly(title: string)
    ensures Texts.Btrim(title) == "" <==> IsInvisible(title)
  {
    Texts.BtrimFacts(title);
    hide Texts.Btrim;
    if IsInvisible(title) {
      assert forall i | 0 <= i < |title| :: title[i] in title;
    }
  }

  lemma LikesExactly(db: Database, id: nat, setting: Setting)
    ensures Needs(db, PostLikes, id, setting) <==> IsFor(db, PostLikes, id, setting)
  {
    hide CountLikes, LikeEffects.LikesOfPost;
    if id in db.posts && db.posts[id].author.Some? {
      LikeEffects.CountExactly(db.likes, id, db.posts[id].author.value);
    } else if id in db.posts {
      LikeEffects.CountExactly(db.likes, id, 0);
    }
  }

  lemma TasksExactly(db: Database, sweep: Tasks.Sweep, id: nat, setting: Setting)
    requires IsRepair(OnTasks(sweep))
    ensures Needs(db, OnTasks(sweep), id, setting) <==> IsFor(db, OnTasks(sweep), id, setting)
  {
  }

  /** A repair picks exactly the rows that it is for. */
  lemma NeedsExactly(db: Database, r: Repair, id: nat, setting: Setting)
    requires IsRepair(r)
    ensures Needs(db, r, id, setting) <==> IsFor(db, r, id, setting)
  {
    match r
    case PostLikes => LikesExactly(db, id, setting);
    case OnTasks(sweep) => TasksExactly(db, sweep, id, setting);
    case PostTitles =>
      if id in db.posts && db.posts[id].title.Some? {
        TitleExactly(db.posts[id].title.value);
      }
    case _ =>
  }

  // ----- in which order

  /** What is left to a repair is never older than what it picked first: undos by their creation, tasks by their
      last attempt or completion, everything else by its number. */
  lemma OldestFirst(db: Database, r: Repair, limit: nat, picked: set<nat>, a: nat, b: nat, setting: Setting)
    requires IsRepair(r) && IsLowest(Matching(db, r, setting), KeyOf(db, r), limit, picked)
    requires a in picked && b !in picked && Needs(db, r, b, setting)
    ensures Needs(db, r, a, setting) && match r
      case CommunityUndos => db.communityUndos[a].created <= db.communityUndos[b].created
      case UserUndos => db.userUndos[a].created <= db.userUndos[b].created
      case OnTasks(CompactCompletedInbox) => TaskTables.OldestFirst(db.tasks[a].completedAt, db.tasks[b].completedAt)
      case OnTasks(FailTerminal) => TaskTables.OldestFirst(db.tasks[a].attemptedAt, db.tasks[b].attemptedAt)
      case _ => a <= b
  {
    hide Titles.LacksTitle, CountLikes;
    assert a in Matching(db, r, setting);
    assert b in Matching(db, r, setting) - picked;
    assert KeyOf(db, r)(a) <= KeyOf(db, r)(b);
  }

  // ----- what becomes of them

  /** The endpoint that was there, or else one made of the id without the slashes at its end. */
  predicate IsEndpoint(after: Option<string>, before: Option<string>, apId: string, name: string) {
    if before != None then after == before
    else exists n | 0 <= n <= |apId| ::
      && (n == 0 || apId[n - 1] != '/') && (forall i | n <= i < |apId| :: apId[i] == '/')
      && after == Some(apId[..n] + name)
  }

  predicate IsMendedCommunity(c: Community, c': Community) {
    && c' == c.(inbox := c'.inbox, outbox := c'.outbox, followers := c'.followers)
    && c.apId.Some?
    && IsEndpoint(c'.inbox, c.inbox, c.apId.value, "/inbox")
    && IsEndpoint(c'.outbox, c.outbox, c.apId.value, "/outbox")
    && IsEndpoint(c'.followers, c.followers, c.apId.value, "/followers")
  }

  predicate IsDelivered(u: FollowUndo, u': FollowUndo, now: real) {
    && u'.target == u.target && u'.created == u.created
    && u'.sentAt == (if u.sentAt == None then Some(now) else u.sentAt)
    && u'.receivedAt == (if u.receivedAt == None then Some(now) else u.receivedAt)
  }

  ghost predicate IsMendedTask(sweep: Tasks.Sweep, t: Tasks.Task, t': Tasks.Task, now: real) {
    match sweep
    case CompactCompletedInbox =>
      t' == t.(params := Tasks.Discarded("inbox task params removed after successful ingest", Tasks.Octets(Tasks.TextOf(t.params))))
    case FailTerminal => t' == t.(state := Tasks.Failed, attempts := t.maxAttempts, attemptedAt := Some(now))
    case CompleteIrrelevant =>
      t' == t.(state := Tasks.Completed, attempts := t.attempts + 1, completedAt := Some(now), latestError := None)
    case _ => false
  }

  /** The table that a repair changes, and what it makes of each of its rows. Every other row of that table, and
      every other table, stays as it is. */
  ghost predicate Mended(db: Database, db': Database, r: Repair, picked: set<nat>, setting: Setting) {
    match r
    case CommunityEndpoints =>
      && db' == db.(communities := db'.communities) && db'.communities.Keys == db.communities.Keys
      && forall id | id in db.communities ::
           if id in picked then IsMendedCommunity(db.communities[id], db'.communities[id])
           else db'.communities[id] == db.communities[id]
    case PostLikes =>
      && db' == db.(posts := db'.posts) && db'.posts.Keys == db.posts.Keys
      && forall id | id in db.posts ::
           && db'.posts[id] == db.posts[id].(cachedLikes := db'.posts[id].cachedLikes)
           && if id in picked then !IsFor(db', PostLikes, id, setting) else db'.posts[id] == db.posts[id]
    case DeactivateDiscovery =>
      && db' == db.(discoveries := db'.discoveries) && db'.discoveries.Keys == db.discoveries.Keys
      && forall id | id in db.discoveries ::
           db'.discoveries[id] == if id in picked then db.discoveries[id].(active := false) else db.discoveries[id]
    case ReactivateDiscovery =>
      && db' == db.(discoveries := db'.discoveries) && db'.discoveries.Keys == db.discoveries.Keys
      && forall id | id in db.discoveries ::
           db'.discoveries[id] == if id in picked then db.discoveries[id].(active := true) else db.discoveries[id]
    case OnTasks(sweep) =>
      && db' == db.(tasks := db'.tasks) && db'.tasks.Keys == db.tasks.Keys
      && forall id | id in db.tasks ::
           if id in picked then IsMendedTask(sweep, db.tasks[id], db'.tasks[id], setting.tasks.now)
           else db'.tasks[id] == db.tasks[id]
    case PostTitles =>
      && db' == db.(posts := db'.posts) && db'.posts.Keys == db.posts.Keys
      && forall id | id in db.posts ::
           && db'.posts[id] == db.posts[id].(title := db'.posts[id].title)
           && if id in picked then db'.posts[id].title == Some(Titles.NewTitle(db.posts[id]))
              else db'.posts[id] == db.posts[id]
    case CommunityUndos =>
      && db' == db.(communityUndos := db'.communityUndos) && db'.communityUndos.Keys == db.communityUndos.Keys
      && forall id | id in db.communityUndos ::
           if id in picked then IsDelivered(db.communityUndos[id], db'.communityUndos[id], setting.tasks.now)
           else db'.communityUndos[id] == db.communityUndos[id]
    case UserUndos =>
      && db' == db.(userUndos := db'.userUndos) && db'.userUndos.Keys == db.userUndos.Keys
      && forall id | id in db.userUndos ::
           if id in picked then IsDelivered(db.userUndos[id], db'.userUndos[id], setting.tasks.now)
           else db'.userUndos[id] == db.userUndos[id]
  }

  lemma CommunityIsMended(c: Community, apId: string)
    requires c.apId == Some(apId)
    ensures IsMendedCommunity(c, WithEndpoints(c))
  {
    hide Texts.TrimSlashes;
    var n := |Texts.TrimSlashes(apId)|;
    assert apId[..n] == Texts.TrimSlashes(apId);
  }

  lemma EndpointsMended(db: Database, picked: set<nat>, setting: Setting)
    requires picked <= Matching(db, CommunityEndpoints, setting)
    ensures Mended(db, Apply(db, CommunityEndpoints, picked, setting), CommunityEndpoints, picked, setting)
  {
    hide WithEndpoints, IsMendedCommunity;
    forall id | id in picked ensures IsMendedCommunity(db.communities[id], WithEndpoints(db.communities[id])) {
      CommunityIsMended(db.communities[id], db.communities[id].apId.value);
    }
  }

  lemma LikesMended(db: Database, picked: set<nat>, setting: Setting)
    requires picked <= Matching(db, PostLikes, setting)
    ensures Mended(db, Apply(db, PostLikes, picked, setting), PostLikes, picked, setting)
  {
    hide CountLikes, LikeEffects.LikesOfPost;
    var db' := Apply(db, PostLikes, picked, setting);
    forall id | id in picked ensures id in db'.posts && !IsFor(db', PostLikes, id, setting) {
      LikesExactly(db', id, setting);
    }
  }

  lemma TasksMended(db: Database, sweep: Tasks.Sweep, picked: set<nat>, setting: Setting)
    requires IsRepair(OnTasks(sweep)) && picked <= Matching(db, OnTasks(sweep), setting)
    ensures Mended(db, Apply(db, OnTasks(sweep), picked, setting), OnTasks(sweep), picked, setting)
  {
    hide Tasks.TextOf, Tasks.Octets;
  }

  /** A batch of a repair does exactly this. */
  lemma ApplyMends(db: Database, r: Repair, picked: set<nat>, setting: Setting)
    requires IsRepair(r) && picked <= Matching(db, r, setting)
    ensures Mended(db, Apply(db, r, picked, setting), r, picked, setting)
  {
    hide Titles.NewTitle, CountLikes, LikeEffects.LikesOfPost;
    match r
    case CommunityEndpoints => EndpointsMended(db, picked, setting);
    case PostLikes => LikesMended(db, picked, setting);
    case OnTasks(sweep) => TasksMended(db, sweep, picked, setting);
    case _ =>
  }
}
