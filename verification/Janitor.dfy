/** The batched repairs of the janitor and why one pass is enough. */
module Janitor {
  import opened Batches
  import opened Options
  import opened Posts
  import opened Texts
  import Tasks
  import TaskTables
  import Titles

  const BATCH_SIZE := 1000
  const MAX_BATCHES := 10
  const MAX_CHANGES := MAX_BATCHES * BATCH_SIZE

  datatype Community = Community(
    local: bool, deleted: bool, apId: Option<string>,
    inbox: Option<string>, outbox: Option<string>, followers: Option<string>)

  // One row for each community, with the host that it was found on.
  datatype Discovery = Discovery(host: string, active: bool, postCount: Option<int>)
  datatype Server = Server(active: bool, failedChecks: int, suppressed: bool)

  // A follow that was undone here; the target is a community or a person.
  datatype FollowUndo = FollowUndo(target: nat, created: real, sentAt: Option<real>, receivedAt: Option<real>)

  datatype Database = Database(
    communities: map<nat, Community>,
    discoveries: map<nat, Discovery>,
    servers: map<string, Server>,
    posts: PostTable,
    likes: LikeTable,
    tasks: Tasks.Table,
    communityUndos: map<nat, FollowUndo>,
    userUndos: map<nat, FollowUndo>,
    localPersons: set<nat>)

  // What the statements read besides these tables: which actor ids look conventional, the clock, and for
  // tasks what Tasks.Env says. No repair writes the tables that decide which activities are irrelevant.
  datatype Setting = Setting(conventional: string -> bool, tasks: Tasks.Env)

  datatype Repair =
    | CommunityEndpoints
    | PostLikes
    | DeactivateDiscovery
    | ReactivateDiscovery
    | OnTasks(sweep: Tasks.Sweep)
    | PostTitles
    | CommunityUndos
    | UserUndos

  predicate IsRepair(r: Repair) {
    r.OnTasks? ==> r.sweep.CompactCompletedInbox? || r.sweep.FailTerminal? || r.sweep.CompleteIrrelevant?
  }

  // ----- which rows a repair picks

  predicate LacksEndpoint(c: Community, setting: Setting) {
    && !c.local && c.apId.Some? && setting.conventional(c.apId.value)
    && (c.inbox.None? || c.outbox.None? || c.followers.None?)
  }

  function PostCount(d: Discovery): int {
    if d.postCount.Some? then d.postCount.value else 0
  }

  /** The joined rows of a discovery: its community and the server of its host. */
  predicate Joined(db: Database, id: nat) {
    id in db.discoveries && id in db.communities && db.discoveries[id].host in db.servers
  }

  predicate StaleDiscovery(db: Database, id: nat)
    requires Joined(db, id)
  {
    var d, server := db.discoveries[id], db.servers[db.discoveries[id].host];
    d.active && (db.communities[id].deleted || PostCount(d) < 2 || server.suppressed)
  }

  predicate CurrentDiscovery(db: Database, id: nat)
    requires Joined(db, id)
  {
    var d, server := db.discoveries[id], db.servers[db.discoveries[id].host];
    && !d.active && !db.communities[id].deleted
    && d.postCount.Some? && d.postCount.value >= 2
    && server.active && server.failedChecks < 3 && !server.suppressed
  }

  predicate Needs(db: Database, r: Repair, id: nat, setting: Setting) {
    match r
    case CommunityEndpoints => id in db.communities && LacksEndpoint(db.communities[id], setting)
    case PostLikes =>
      id in db.posts && db.posts[id].cachedLikes != CountLikes(db.likes, id, db.posts[id].author)
    case DeactivateDiscovery => Joined(db, id) && StaleDiscovery(db, id)
    case ReactivateDiscovery => Joined(db, id) && CurrentDiscovery(db, id)
    case OnTasks(sweep) => id in db.tasks && Tasks.Matches(sweep, id, db.tasks[id], setting.tasks)
    case PostTitles => id in db.posts && Titles.LacksTitle(db.posts[id])
    case CommunityUndos =>
      && id in db.communityUndos && db.communityUndos[id].receivedAt.None?
      && db.communityUndos[id].target in db.communities
      && db.communities[db.communityUndos[id].target].local
    case UserUndos =>
      && id in db.userUndos && db.userUndos[id].receivedAt.None?
      && db.userUndos[id].target in db.localPersons
  }

  function Ids(db: Database, r: Repair): set<nat> {
    match r
    case CommunityEndpoints => db.communities.Keys
    case DeactivateDiscovery => db.discoveries.Keys
    case ReactivateDiscovery => db.discoveries.Keys
    case OnTasks(_) => db.tasks.Keys
    case CommunityUndos => db.communityUndos.Keys
    case UserUndos => db.userUndos.Keys
    case _ => db.posts.Keys
  }

  function Matching(db: Database, r: Repair, setting: Setting): set<nat> {
    set id | id in Ids(db, r) && Needs(db, r, id, setting)
  }

  function KeyOf(db: Database, r: Repair): nat -> real {
    match r
    case OnTasks(sweep) => TaskTables.KeyOf(db.tasks, sweep)
    case CommunityUndos => (id: nat) => if id in db.communityUndos then db.communityUndos[id].created else 0.0
    case UserUndos => (id: nat) => if id in db.userUndos then db.userUndos[id].created else 0.0
    case _ => (id: nat) => id as real
  }

  // ----- what a repair does to a row

  function Or<T>(x: Option<T>, y: T): Option<T> {
    if x.Some? then x else Some(y)
  }

  function WithEndpoints(c: Community): Community {
    match c.apId
    case None => c
    case Some(apId) =>
      var actor := TrimSlashes(apId);
      c.(inbox := Or(c.inbox, actor + "/inbox"),
         outbox := Or(c.outbox, actor + "/outbox"),
         followers := Or(c.followers, actor + "/followers"))
  }

  lemma SlashesGo(actor: string, slashes: string)
    requires actor == "" || actor[|actor| - 1] != '/'
    requires forall i | 0 <= i < |slashes| :: slashes[i] == '/'
    ensures TrimSlashes(actor + slashes) == actor
  {
    var whole := actor + slashes;
    assert forall i | |actor| <= i < |whole| :: whole[i] == '/';
    assert actor == "" || whole[|actor| - 1] != '/';
    assert TrimSlashes(whole) == whole[..|TrimSlashes(whole)|];
  }

  /** Known endpoints stay; a missing one becomes the actor's URL, without slashes at its end, and its name. */
  lemma EndpointsAreConventional(c: Community, actor: string, slashes: string)
    requires actor == "" || actor[|actor| - 1] != '/'
    requires forall i | 0 <= i < |slashes| :: slashes[i] == '/'
    requires c.apId == Some(actor + slashes)
    ensures var c' := WithEndpoints(c);
      && c'.inbox == (if c.inbox.Some? then c.inbox else Some(actor + "/inbox"))
      && c'.outbox == (if c.outbox.Some? then c.outbox else Some(actor + "/outbox"))
      && c'.followers == (if c.followers.Some? then c.followers else Some(actor + "/followers"))
      && c' == c.(inbox := c'.inbox, outbox := c'.outbox, followers := c'.followers)
  {
    SlashesGo(actor, slashes);
  }

  function Delivered(u: FollowUndo, now: real): FollowUndo {
    u.(sentAt := Or(u.sentAt, now), receivedAt := Or(u.receivedAt, now))
  }

  /** A local undo ends up sent and received, and keeps the times that it had. */
  lemma DeliveredIsComplete(u: FollowUndo, now: real)
    ensures var u' := Delivered(u, now);
      && u'.sentAt.Some? && u'.receivedAt.Some? && u'.target == u.target && u'.created == u.created
      && (u.sentAt.Some? ==> u'.sentAt == u.sentAt) && (u.receivedAt.Some? ==> u'.receivedAt == u.receivedAt)
  {
  }

  function Change<V>(rows: map<nat, V>, picked: set<nat>, fix: (nat, V) -> V): map<nat, V> {
    map id | id in rows :: if id in picked then fix(id, rows[id]) else rows[id]
  }

  function Apply(db: Database, r: Repair, picked: set<nat>, setting: Setting): Database {
    match r
    case CommunityEndpoints => db.(communities := Change(db.communities, picked, (id: nat, c: Community) => WithEndpoints(c)))
    case PostLikes =>
      db.(posts := Change(db.posts, picked, (id: nat, p: Post) => p.(cachedLikes := CountLikes(db.likes, id, p.author))))
    case DeactivateDiscovery => db.(discoveries := Change(db.discoveries, picked, (id: nat, d: Discovery) => d.(active := false)))
    case ReactivateDiscovery => db.(discoveries := Change(db.discoveries, picked, (id: nat, d: Discovery) => d.(active := true)))
    case OnTasks(sweep) => db.(tasks := Tasks.SweepRows(db.tasks, sweep, picked * db.tasks.Keys, setting.tasks))
    case PostTitles => db.(posts := Change(db.posts, picked, (id: nat, p: Post) => Titles.Titled(p)))
    case CommunityUndos =>
      db.(communityUndos := Change(db.communityUndos, picked, (id: nat, u: FollowUndo) => Delivered(u, setting.tasks.now)))
    case UserUndos =>
      db.(userUndos := Change(db.userUndos, picked, (id: nat, u: FollowUndo) => Delivered(u, setting.tasks.now)))
  }

  // ----- what a repair changes about the needs of the others and its own

  /** Whether a row that is repaired for r is no longer a row for q. An inbox task that is given up is
      not irrelevant any more, and one that is completed as irrelevant is not given up. */
  predicate Settles(r: Repair, q: Repair) {
    || q == r
    || (r == OnTasks(Tasks.FailTerminal) && q == OnTasks(Tasks.CompleteIrrelevant))
    || (r == OnTasks(Tasks.CompleteIrrelevant) && q == OnTasks(Tasks.FailTerminal))
  }

  lemma EndpointsKeep(db: Database, r: Repair, q: Repair, picked: set<nat>, id: nat, setting: Setting)
    requires IsRepair(q) && r == CommunityEndpoints && picked <= Matching(db, r, setting)
    ensures Needs(Apply(db, r, picked, setting), q, id, setting) <==>
      Needs(db, q, id, setting) && !(Settles(r, q) && id in picked)
  {
  }

  lemma PostsKeep(db: Database, r: Repair, q: Repair, picked: set<nat>, id: nat, setting: Setting)
    requires IsRepair(q) && (r == PostLikes || r == PostTitles)
    requires picked <= Matching(db, r, setting)
    ensures Needs(Apply(db, r, picked, setting), q, id, setting) <==>
      Needs(db, q, id, setting) && !(Settles(r, q) && id in picked)
  {
    hide Titles.NewTitle, CountLikes;
    if id in db.posts {
      Titles.TitledIsDone(db.posts[id]);
    }
  }

  /** What was deactivated is not fit to be reactivated, and the other way round. */
  lemma DiscoveriesKeep(db: Database, r: Repair, q: Repair, picked: set<nat>, id: nat, setting: Setting)
    requires IsRepair(q) && (r == DeactivateDiscovery || r == ReactivateDiscovery)
    requires picked <= Matching(db, r, setting)
    ensures Needs(Apply(db, r, picked, setting), q, id, setting) <==>
      Needs(db, q, id, setting) && !(Settles(r, q) && id in picked)
  {
  }

  lemma SweptTask(sweep: Tasks.Sweep, other: Tasks.Sweep, id: nat, t: Tasks.Task, env: Tasks.Env)
    requires IsRepair(OnTasks(sweep)) && IsRepair(OnTasks(other))
    requires Tasks.Matches(sweep, id, t, env)
    ensures Tasks.Swept(sweep, t, env).Some?
    ensures !Tasks.Matches(other, id, Tasks.Swept(sweep, t, env).value, env)
    ensures Tasks.Matches(other, id, t, env) ==> Settles(OnTasks(sweep), OnTasks(other))
  {
  }

  lemma TasksKeep(db: Database, r: Repair, q: Repair, picked: set<nat>, id: nat, setting: Setting)
    requires IsRepair(q) && IsRepair(r) && r.OnTasks?
    requires picked <= Matching(db, r, setting)
    ensures Needs(Apply(db, r, picked, setting), q, id, setting) <==>
      Needs(db, q, id, setting) && !(Settles(r, q) && id in picked)
  {
    hide Tasks.Matches, Tasks.Swept;
    if q.OnTasks? && id in picked {
      SweptTask(r.sweep, q.sweep, id, db.tasks[id], setting.tasks);
    }
  }

  lemma UndosKeep(db: Database, r: Repair, q: Repair, picked: set<nat>, id: nat, setting: Setting)
    requires IsRepair(q) && (r == CommunityUndos || r == UserUndos)
    requires picked <= Matching(db, r, setting)
    ensures Needs(Apply(db, r, picked, setting), q, id, setting) <==>
      Needs(db, q, id, setting) && !(Settles(r, q) && id in picked)
  {
  }

  /** After a batch a row needs exactly the repairs that it needed before and that the batch did not settle. */
  lemma RepairKeeps(db: Database, r: Repair, q: Repair, picked: set<nat>, id: nat, setting: Setting)
    requires IsRepair(q) && IsRepair(r)
    requires picked <= Matching(db, r, setting)
    ensures Needs(Apply(db, r, picked, setting), q, id, setting) <==>
      Needs(db, q, id, setting) && !(Settles(r, q) && id in picked)
  {
    hide Needs, Apply, Settles;
    match r {
      case CommunityEndpoints => EndpointsKeep(db, r, q, picked, id, setting);
      case PostLikes => PostsKeep(db, r, q, picked, id, setting);
      case PostTitles => PostsKeep(db, r, q, picked, id, setting);
      case DeactivateDiscovery => DiscoveriesKeep(db, r, q, picked, id, setting);
      case ReactivateDiscovery => DiscoveriesKeep(db, r, q, picked, id, setting);
      case OnTasks(_) => TasksKeep(db, r, q, picked, id, setting);
      case CommunityUndos => UndosKeep(db, r, q, picked, id, setting);
      case UserUndos => UndosKeep(db, r, q, picked, id, setting);
    }
  }

  lemma NeedsMeansIn(db: Database, r: Repair, id: nat, setting: Setting)
    ensures id in Matching(db, r, setting) <==> Needs(db, r, id, setting)
  {
  }

  function Settled(r: Repair, q: Repair, repaired: set<nat>): set<nat> {
    if Settles(r, q) then repaired else {}
  }

  /** No repair has anything more to do than before. */
  ghost predicate NoMoreWork(before: Database, db: Database, setting: Setting) {
    forall r | IsRepair(r) :: Matching(db, r, setting) <= Matching(before, r, setting)
  }

  /** From the needs of every repair exactly the rows were taken that r settles for it. */
  ghost predicate Took(before: Database, db: Database, r: Repair, repaired: set<nat>, setting: Setting) {
    forall q | IsRepair(q) :: Matching(db, q, setting) == Matching(before, q, setting) - Settled(r, q, repaired)
  }

  /** A batch takes from every repair exactly the rows that it settles. */
  lemma BatchLeaves(db: Database, r: Repair, picked: set<nat>, setting: Setting)
    requires IsRepair(r) && picked <= Matching(db, r, setting)
    ensures Matching(Apply(db, r, picked, setting), r, setting) == Matching(db, r, setting) - picked
    ensures Took(db, Apply(db, r, picked, setting), r, picked, setting)
  {
    hide Needs, Apply;
    var db' := Apply(db, r, picked, setting);
    forall q | IsRepair(q)
      ensures Matching(db', q, setting) == Matching(db, q, setting) - Settled(r, q, picked)
    {
      forall id: nat ensures id in Matching(db', q, setting) <==> id in Matching(db, q, setting) - Settled(r, q, picked) {
        NeedsMeansIn(db', q, id, setting);
        RepairKeeps(db, r, q, picked, id, setting);
        NeedsMeansIn(db, q, id, setting);
      }
    }
  }

  lemma EmptyBatch(db: Database, r: Repair, setting: Setting)
    ensures Apply(db, r, {}, setting) == db
  {
  }

  /** Two batches of disjoint rows come to one batch of both. */
  lemma BatchesAddUp(db: Database, r: Repair, first: set<nat>, second: set<nat>, setting: Setting)
    requires IsRepair(r) && first !! second
    ensures Apply(Apply(db, r, first, setting), r, second, setting) == Apply(db, r, first + second, setting)
  {
    hide Titles.Titled, CountLikes, WithEndpoints, Delivered;
    var both := first + second;
    match r {
      case OnTasks(sweep) => SweepsAddUp(db.tasks, sweep, first, second, setting.tasks);
      case _ =>
    }
  }

  lemma SweepsAddUp(rows: Tasks.Table, sweep: Tasks.Sweep, first: set<nat>, second: set<nat>, env: Tasks.Env)
    requires IsRepair(OnTasks(sweep)) && first !! second
    ensures var middle := Tasks.SweepRows(rows, sweep, first * rows.Keys, env);
      Tasks.SweepRows(middle, sweep, second * middle.Keys, env)
        == Tasks.SweepRows(rows, sweep, (first + second) * rows.Keys, env)
  {
    hide Tasks.Swept;
  }

  lemma KeyStays(db: Database, r: Repair, picked: set<nat>, id: nat, setting: Setting)
    requires IsRepair(r) && id !in picked
    ensures KeyOf(Apply(db, r, picked, setting), r)(id) == KeyOf(db, r)(id)
  {
  }

  // ----- the janitor

  datatype Report = Report(
    repairedCommunityEndpoints: nat,
    recalculatedPostLikes: nat,
    deactivatedDiscoveries: nat,
    reactivatedDiscoveries: nat,
    compactedCompletedInboxTasks: nat,
    failedTerminalInboxTasks: nat,
    completedIrrelevantInboxTasks: nat,
    repairedPostTitles: nat,
    completedLocalFollowUndos: nat)

  ghost predicate Done(db: Database, r: Repair, setting: Setting) {
    Matching(db, r, setting) == {}
  }

  ghost predicate NothingToDo(db: Database, setting: Setting) {
    forall r | IsRepair(r) :: Done(db, r, setting)
  }

  function Capped(n: nat): nat {
    if n <= MAX_CHANGES then n else MAX_CHANGES
  }

  /** What the batches of one repair did: they changed these matching rows, as many as there were up to the limit. */
  ghost predicate Repaired(before: Database, db: Database, r: Repair, repaired: set<nat>, setting: Setting) {
    && repaired <= Matching(before, r, setting) && |repaired| == Capped(|Matching(before, r, setting)|)
    && db == Apply(before, r, repaired, setting)
  }

  lemma RepairedFacts(before: Database, db: Database, r: Repair, repaired: set<nat>, setting: Setting)
    requires IsRepair(r) && Repaired(before, db, r, repaired, setting)
    ensures Took(before, db, r, repaired, setting) && NoMoreWork(before, db, setting)
    ensures |Matching(db, r, setting)| == |Matching(before, r, setting)| - |repaired|
    ensures |Matching(before, r, setting)| <= MAX_CHANGES ==> Done(db, r, setting)
  {
    hide Matching, IsRepair, Apply;
    BatchLeaves(before, r, repaired, setting);
  }

  class Keeper {
    var db: Database

    constructor (db: Database)
      ensures this.db == db
    {
      this.db := db;
    }

    method Execute(r: Repair, limit: nat, setting: Setting) returns (changed: nat, ghost picked: set<nat>)
      requires IsRepair(r)
      modifies this
      ensures IsLowest(Matching(old(db), r, setting), KeyOf(old(db), r), limit, picked) && changed == |picked|
      ensures db == Apply(old(db), r, picked, setting)
    {
      var batch := PickLowest(Matching(db, r, setting), KeyOf(db, r), limit);
      changed, picked := |batch|, batch;
      db := Apply(db, r, batch, setting);
    }

    /** Batches until one changes nothing: every matching row is repaired, up to the limit of ten full batches. */
    method RunBatches(r: Repair, setting: Setting) returns (changed: nat, ghost repaired: set<nat>)
      requires IsRepair(r)
      modifies this
      ensures changed == |repaired| == Capped(|Matching(old(db), r, setting)|)
      ensures IsLowest(Matching(old(db), r, setting), KeyOf(old(db), r), 10_000, repaired)
      ensures |Matching(db, r, setting)| == |Matching(old(db), r, setting)| - changed
      ensures Repaired(old(db), db, r, repaired, setting)
      ensures NoMoreWork(old(db), db, setting)
      ensures changed == 0 ==> db == old(db)
    {
      hide Matching, Apply, IsRepair, KeyOf, Took, NoMoreWork;
      changed, repaired := 0, {};
      var batches := 0;
      ghost var all := |Matching(db, r, setting)|;
      EmptyBatch(db, r, setting);
      while batches < MAX_BATCHES
        invariant batches <= MAX_BATCHES
        invariant changed == if all <= batches * BATCH_SIZE then all else batches * BATCH_SIZE
        invariant repaired <= Matching(old(db), r, setting) && changed == |repaired|
        invariant db == Apply(old(db), r, repaired, setting)
        invariant forall a, b | a in repaired && b in Matching(old(db), r, setting) - repaired ::
          KeyOf(old(db), r)(a) <= KeyOf(old(db), r)(b)
      {
        forall id: nat | id !in repaired ensures KeyOf(db, r)(id) == KeyOf(old(db), r)(id) {
          KeyStays(old(db), r, repaired, id, setting);
        }
        BatchLeaves(old(db), r, repaired, setting);
        var n, picked := Execute(r, BATCH_SIZE, setting);
        BatchesAddUp(old(db), r, repaired, picked, setting);
        batches := batches + 1;
        if n == 0 {
          assert picked == {} && repaired + {} == repaired;
          break;
        }
        changed, repaired := changed + n, repaired + picked;
      }
      EmptyBatch(old(db), r, setting);
      RepairedFacts(old(db), db, r, repaired, setting);
    }

    /** One pass of the janitor over its batched repairs. */
    method RunJanitor(setting: Setting) returns (report: Report, ghost pass: Pass)
      modifies this
      ensures NoMoreWork(old(db), db, setting)
      ensures forall r | IsRepair(r) && |Matching(old(db), r, setting)| <= MAX_CHANGES :: Done(db, r, setting)
      ensures IsPass(old(db), db, pass, setting) && report == ReportOf(pass)
      ensures Tells(report, old(db), pass, setting)
      ensures report == IDLE <==> NothingToDo(old(db), setting)
      ensures report == IDLE ==> db == old(db)
      ensures forall n: nat | n < REPAIRS :: |pass[n]| < MAX_CHANGES ==> Done(db, Nth(n), setting)
      ensures (forall n: nat | n < REPAIRS :: |pass[n]| < MAX_CHANGES) ==> NothingToDo(db, setting)
      ensures var limit := MAX_CHANGES;
        && report.repairedCommunityEndpoints <= limit && report.recalculatedPostLikes <= limit
        && report.deactivatedDiscoveries <= limit && report.reactivatedDiscoveries <= limit
        && report.compactedCompletedInboxTasks <= limit && report.failedTerminalInboxTasks <= limit
        && report.completedIrrelevantInboxTasks <= limit && report.repairedPostTitles <= limit
        && report.completedLocalFollowUndos <= 2 * limit
    {
      hide Matching, PassSoFar, Done, NoMoreWork, NothingToDo, IsPass, Tells;
      ghost var before := db;
      NothingRanYet(before, setting);
      pass := [];
      var endpoints, likes, deactivated, reactivated;
      endpoints, likes, deactivated, reactivated, pass := RepairContent(before, pass, setting);
      var compacted, failed, irrelevant;
      compacted, failed, irrelevant, pass := RepairTasks(before, pass, setting);
      var titles, undos, userUndos;
      titles, pass := RunRepair(before, pass, PostTitles, setting);
      undos, pass := RunRepair(before, pass, CommunityUndos, setting);
      userUndos, pass := RunRepair(before, pass, UserUndos, setting);
      report := Report(endpoints, likes, deactivated, reactivated, compacted, failed, irrelevant, titles, undos + userUndos);
      PassIsOver(before, db, pass, setting);
      ReportTells(before, db, pass, setting);
    }

    /** The pass at start and the next one, with nothing in between: the second is idle exactly when the first
        left nothing, and it did leave nothing when none of its counters is at the limit. */
    method RunTwice(setting: Setting) returns (first: Report, second: Report, ghost pass: Pass, ghost between: Database)
      modifies this
      ensures IsPass(old(db), between, pass, setting) && first == ReportOf(pass)
      ensures (forall n: nat | n < REPAIRS :: |pass[n]| < MAX_CHANGES) ==> second == IDLE && db == between
      ensures second == IDLE <==> NothingToDo(between, setting)
    {
      hide IsPass, NothingToDo;
      first, pass := RunJanitor(setting);
      between := db;
      ghost var next;
      second, next := RunJanitor(setting);
    }

    /** The first four repairs. */
    method RepairContent(ghost before: Database, ghost pass: Pass, setting: Setting)
      returns (endpoints: nat, likes: nat, deactivated: nat, reactivated: nat, ghost pass': Pass)
      requires pass == [] && PassSoFar(before, db, pass, setting)
      modifies this
      ensures |pass'| == 4 && endpoints == |pass'[0]| && likes == |pass'[1]|
      ensures deactivated == |pass'[2]| && reactivated == |pass'[3]|
      ensures PassSoFar(before, db, pass', setting)
    {
      hide PassSoFar;
      endpoints, pass' := RunRepair(before, pass, CommunityEndpoints, setting);
      likes, pass' := RunRepair(before, pass', PostLikes, setting);
      deactivated, pass' := RunRepair(before, pass', DeactivateDiscovery, setting);
      reactivated, pass' := RunRepair(before, pass', ReactivateDiscovery, setting);
    }

    /** The three repairs of the task table. */
    method RepairTasks(ghost before: Database, ghost pass: Pass, setting: Setting)
      returns (compacted: nat, failed: nat, irrelevant: nat, ghost pass': Pass)
      requires |pass| == 4 && PassSoFar(before, db, pass, setting)
      modifies this
      ensures |pass'| == 7 && pass <= pass'
      ensures compacted == |pass'[4]| && failed == |pass'[5]| && irrelevant == |pass'[6]|
      ensures PassSoFar(before, db, pass', setting)
    {
      hide PassSoFar;
      compacted, pass' := RunRepair(before, pass, OnTasks(Tasks.CompactCompletedInbox), setting);
      failed, pass' := RunRepair(before, pass', OnTasks(Tasks.FailTerminal), setting);
      irrelevant, pass' := RunRepair(before, pass', OnTasks(Tasks.CompleteIrrelevant), setting);
    }

    /** The next repair of a pass. */
    method RunRepair(ghost before: Database, ghost pass: Pass, r: Repair, setting: Setting)
      returns (changed: nat, ghost pass': Pass)
      requires |pass| < REPAIRS && r == Nth(|pass|) && PassSoFar(before, db, pass, setting)
      modifies this
      ensures |pass'| == |pass| + 1 && pass <= pass' && changed == |pass'[|pass|]| && PassSoFar(before, db, pass', setting)
      ensures changed == Capped(|Matching(old(db), r, setting)|)
      ensures |Matching(old(db), r, setting)| <= MAX_CHANGES ==> Done(db, r, setting)
      ensures NoMoreWork(old(db), db, setting)
    {
      hide PassSoFar, Matching, Repaired, Nth;
      ghost var middle := db;
      NthIsRepair(|pass|);
      ghost var repaired;
      changed, repaired := RunBatches(r, setting);
      pass' := pass + [repaired];
      PassGoesOn(before, middle, db, pass, repaired, setting);
    }
  }

  // ----- a pass as a whole

  const REPAIRS := 10
  const FAILING := 5
  const COMPLETING := 6

  /** The repairs in the order in which a pass runs them. */
  function Nth(n: nat): Repair
    requires n < REPAIRS
  {
    match n
    case 0 => CommunityEndpoints
    case 1 => PostLikes
    case 2 => DeactivateDiscovery
    case 3 => ReactivateDiscovery
    case 4 => OnTasks(Tasks.CompactCompletedInbox)
    case 5 => OnTasks(Tasks.FailTerminal)
    case 6 => OnTasks(Tasks.CompleteIrrelevant)
    case 7 => PostTitles
    case 8 => CommunityUndos
    case _ => UserUndos
  }

  lemma NthIsRepair(n: nat)
    requires n < REPAIRS
    ensures IsRepair(Nth(n))
  {
  }

  lemma Position(r: Repair) returns (i: nat)
    requires IsRepair(r)
    ensures i < REPAIRS && Nth(i) == r
  {
    i := match r
      case CommunityEndpoints => 0
      case PostLikes => 1
      case DeactivateDiscovery => 2
      case ReactivateDiscovery => 3
      case OnTasks(sweep) => if sweep.CompactCompletedInbox? then 4 else if sweep.FailTerminal? then FAILING else COMPLETING
      case PostTitles => 7
      case CommunityUndos => 8
      case UserUndos => 9;
  }

  lemma SettlesNth(n: nat, i: nat)
    requires n < i < REPAIRS
    ensures Settles(Nth(n), Nth(i)) <==> n == FAILING && i == COMPLETING
  {
  }

  // The rows that the repairs of a pass changed so far, in the order of the repairs.
  type Pass = seq<set<nat>>

  const IDLE := Report(0, 0, 0, 0, 0, 0, 0, 0, 0)

  ghost function ReportOf(pass: Pass): Report
    requires |pass| == REPAIRS
  {
    Report(|pass[0]|, |pass[1]|, |pass[2]|, |pass[3]|, |pass[4]|, |pass[5]|, |pass[6]|, |pass[7]|, |pass[8]| + |pass[9]|)
  }

  function Found(before: Database, r: Repair, setting: Setting): nat {
    |Matching(before, r, setting)|
  }

  /** Each counter is the number of rows that its repair was for before the pass, up to its limit; for irrelevant
      tasks less those that were given up. */
  ghost predicate Tells(report: Report, before: Database, pass: Pass, setting: Setting) {
    && report.repairedCommunityEndpoints == Capped(Found(before, CommunityEndpoints, setting))
    && report.recalculatedPostLikes == Capped(Found(before, PostLikes, setting))
    && report.deactivatedDiscoveries == Capped(Found(before, DeactivateDiscovery, setting))
    && report.reactivatedDiscoveries == Capped(Found(before, ReactivateDiscovery, setting))
    && report.compactedCompletedInboxTasks == Capped(Found(before, OnTasks(Tasks.CompactCompletedInbox), setting))
    && report.failedTerminalInboxTasks == Capped(Found(before, OnTasks(Tasks.FailTerminal), setting))
    && report.completedIrrelevantInboxTasks
         == Capped(|Matching(before, OnTasks(Tasks.CompleteIrrelevant), setting) - GivenUp(pass)|)
    && report.repairedPostTitles == Capped(Found(before, PostTitles, setting))
    && report.completedLocalFollowUndos
         == Capped(Found(before, CommunityUndos, setting)) + Capped(Found(before, UserUndos, setting))
    && |GivenUp(pass)| == report.failedTerminalInboxTasks
    && GivenUp(pass) <= Matching(before, OnTasks(Tasks.FailTerminal), setting)
  }

  lemma CountOf(before: Database, n: nat, pass: Pass, setting: Setting)
    requires n < REPAIRS == |pass| && Ran(before, n, pass, setting)
    ensures n != COMPLETING ==> |pass[n]| == Capped(Found(before, Nth(n), setting))
    ensures n != COMPLETING ==> pass[n] <= Matching(before, Nth(n), setting)
    ensures n == COMPLETING ==> |pass[n]| == Capped(|Matching(before, Nth(n), setting) - GivenUp(pass)|)
  {
    hide Matching, Nth;
  }

  lemma ReportTells(before: Database, db: Database, pass: Pass, setting: Setting)
    requires IsPass(before, db, pass, setting)
    ensures Tells(ReportOf(pass), before, pass, setting)
  {
    hide Matching, AfterPass, Capped, Ran;
    CountOf(before, 0, pass, setting);
    CountOf(before, 1, pass, setting);
    CountOf(before, 2, pass, setting);
    CountOf(before, 3, pass, setting);
    CountOf(before, 4, pass, setting);
    CountOf(before, 5, pass, setting);
    CountOf(before, 6, pass, setting);
    CountOf(before, 7, pass, setting);
    CountOf(before, 8, pass, setting);
    CountOf(before, 9, pass, setting);
  }

  lemma IdleReport(pass: Pass)
    requires |pass| == REPAIRS
    ensures ReportOf(pass) == IDLE <==> forall n: nat | n < REPAIRS :: pass[n] == {}
  {
  }

  /** The database after the repairs changed these rows, one repair after the other. */
  function AfterPass(before: Database, pass: Pass, setting: Setting): Database
    requires |pass| <= REPAIRS
  {
    if pass == [] then before
    else
      var n := |pass| - 1;
      Apply(AfterPass(before, pass[..n], setting), Nth(n), pass[n], setting)
  }

  /** The inbox tasks that the pass gave up. */
  function GivenUp(pass: Pass): set<nat> {
    if |pass| <= FAILING then {} else pass[FAILING]
  }

  /** The rows that the n-th repair finds: those that matched before the pass, except that the inbox tasks
      which the pass gave up are not there to be completed as irrelevant. */
  function Due(before: Database, n: nat, pass: Pass, setting: Setting): set<nat>
    requires n < REPAIRS
  {
    Matching(before, Nth(n), setting) - (if n == COMPLETING then GivenUp(pass) else {})
  }

  /** The n-th repair changed rows that it found, all of them up to the limit. */
  ghost predicate Ran(before: Database, n: nat, pass: Pass, setting: Setting)
    requires n < REPAIRS && n < |pass|
  {
    pass[n] <= Due(before, n, pass, setting) && |pass[n]| == Capped(|Due(before, n, pass, setting)|)
  }

  /** What a whole pass did. */
  ghost predicate IsPass(before: Database, db: Database, pass: Pass, setting: Setting) {
    && |pass| == REPAIRS && db == AfterPass(before, pass, setting)
    && forall n: nat | n < REPAIRS :: Ran(before, n, pass, setting)
  }

  /** The first repairs did that, and the others will find exactly their due. */
  ghost predicate PassSoFar(before: Database, db: Database, pass: Pass, setting: Setting)
    requires |pass| <= REPAIRS
  {
    && db == AfterPass(before, pass, setting) && NoMoreWork(before, db, setting)
    && (forall n: nat | n < |pass| :: Ran(before, n, pass, setting))
    && (forall n: nat | n < |pass| && |Due(before, n, pass, setting)| <= MAX_CHANGES :: Done(db, Nth(n), setting))
    && (forall n: nat | |pass| <= n < REPAIRS :: Matching(db, Nth(n), setting) == Due(before, n, pass, setting))
  }

  lemma NothingRanYet(db: Database, setting: Setting)
    ensures PassSoFar(db, db, [], setting)
  {
    hide Matching, Nth;
  }

  lemma DoneStays(before: Database, db: Database, r: Repair, setting: Setting)
    requires IsRepair(r) && NoMoreWork(before, db, setting)
    ensures Done(before, r, setting) ==> Done(db, r, setting)
  {
  }

  /** What the next repair changes has no bearing on what the repairs before it found. */
  lemma RanGoesOn(before: Database, middle: Database, db: Database, pass: Pass, repaired: set<nat>, i: nat, setting: Setting)
    requires |pass| < REPAIRS && PassSoFar(before, middle, pass, setting) && i <= |pass|
    requires Repaired(middle, db, Nth(|pass|), repaired, setting) && NoMoreWork(middle, db, setting)
    requires |Matching(middle, Nth(|pass|), setting)| <= MAX_CHANGES ==> Done(db, Nth(|pass|), setting)
    ensures Ran(before, i, pass + [repaired], setting)
    ensures |Due(before, i, pass + [repaired], setting)| <= MAX_CHANGES ==> Done(db, Nth(i), setting)
  {
    hide Matching, Nth, Done, NoMoreWork, Apply, AfterPass;
    assert Due(before, i, pass + [repaired], setting) == Due(before, i, pass, setting);
    if i < |pass| {
      assert Ran(before, i, pass, setting);
      NthIsRepair(i);
      DoneStays(middle, db, Nth(i), setting);
    }
  }

  lemma AheadGoesOn(before: Database, middle: Database, db: Database, pass: Pass, repaired: set<nat>, i: nat, setting: Setting)
    requires |pass| < i < REPAIRS && PassSoFar(before, middle, pass, setting)
    requires Took(middle, db, Nth(|pass|), repaired, setting)
    ensures Matching(db, Nth(i), setting) == Due(before, i, pass + [repaired], setting)
  {
    hide Matching, Nth, IsRepair, Settles, NoMoreWork, Ran, AfterPass;
    NthIsRepair(i);
    SettlesNth(|pass|, i);
    assert Matching(db, Nth(i), setting) == Matching(middle, Nth(i), setting) - Settled(Nth(|pass|), Nth(i), repaired);
  }

  lemma WorkShrinks(before: Database, middle: Database, db: Database, setting: Setting)
    requires NoMoreWork(before, middle, setting) && NoMoreWork(middle, db, setting)
    ensures NoMoreWork(before, db, setting)
  {
    hide Matching, IsRepair;
  }

  lemma PassGoesOn(before: Database, middle: Database, db: Database, pass: Pass, repaired: set<nat>, setting: Setting)
    requires |pass| < REPAIRS && PassSoFar(before, middle, pass, setting)
    requires Repaired(middle, db, Nth(|pass|), repaired, setting)
    ensures PassSoFar(before, db, pass + [repaired], setting)
    ensures NoMoreWork(middle, db, setting)
    ensures |Matching(middle, Nth(|pass|), setting)| <= MAX_CHANGES ==> Done(db, Nth(|pass|), setting)
  {
    hide Matching, Nth, IsRepair, NoMoreWork, Took, Ran, Due, Apply;
    var n, pass' := |pass|, pass + [repaired];
    NthIsRepair(n);
    RepairedFacts(middle, db, Nth(n), repaired, setting);
    WorkShrinks(before, middle, db, setting);
    assert pass'[..n] == pass;
    forall i: nat | i <= n
      ensures Ran(before, i, pass', setting)
      ensures |Due(before, i, pass', setting)| <= MAX_CHANGES ==> Done(db, Nth(i), setting)
    {
      RanGoesOn(before, middle, db, pass, repaired, i, setting);
    }
    forall i: nat | n < i < REPAIRS ensures Matching(db, Nth(i), setting) == Due(before, i, pass', setting) {
      AheadGoesOn(before, middle, db, pass, repaired, i, setting);
    }
  }

  lemma {:induction false} IdlePass(before: Database, pass: Pass, setting: Setting)
    requires |pass| <= REPAIRS && forall n: nat | n < |pass| :: pass[n] == {}
    ensures AfterPass(before, pass, setting) == before
    decreases |pass|
  {
    hide Apply, Nth;
    if pass != [] {
      IdlePass(before, pass[..|pass| - 1], setting);
      EmptyBatch(before, Nth(|pass| - 1), setting);
    }
  }

  /** What the rows that a repair changed say about it. */
  lemma RanRepair(before: Database, db: Database, n: nat, pass: Pass, setting: Setting)
    requires n < REPAIRS == |pass| && Ran(before, n, pass, setting)
    requires |Due(before, n, pass, setting)| <= MAX_CHANGES ==> Done(db, Nth(n), setting)
    ensures |Matching(before, Nth(n), setting)| <= MAX_CHANGES ==> Done(db, Nth(n), setting)
    ensures |pass[n]| < MAX_CHANGES ==> Done(db, Nth(n), setting)
    ensures pass[n] == {} && pass[FAILING] == {} ==> Done(before, Nth(n), setting)
    ensures Done(before, Nth(n), setting) ==> pass[n] == {}
    ensures |pass[n]| <= MAX_CHANGES
  {
    hide Matching, Nth;
    Subset(Due(before, n, pass, setting), Matching(before, Nth(n), setting));
  }

  lemma PassIsOver(before: Database, db: Database, pass: Pass, setting: Setting)
    requires |pass| == REPAIRS && PassSoFar(before, db, pass, setting)
    ensures NoMoreWork(before, db, setting) && IsPass(before, db, pass, setting)
    ensures forall r | IsRepair(r) && |Matching(before, r, setting)| <= MAX_CHANGES :: Done(db, r, setting)
    ensures ReportOf(pass) == IDLE <==> NothingToDo(before, setting)
    ensures ReportOf(pass) == IDLE ==> db == before
    ensures (forall n: nat | n < REPAIRS :: |pass[n]| < MAX_CHANGES) ==> NothingToDo(db, setting)
    ensures forall n: nat | n < REPAIRS ::
      |pass[n]| <= MAX_CHANGES && (|pass[n]| < MAX_CHANGES ==> Done(db, Nth(n), setting))
  {
    hide Matching, Nth, Done, NoMoreWork, IsRepair, Ran, ReportOf;
    IdleReport(pass);
    if ReportOf(pass) == IDLE {
      IdlePass(before, pass, setting);
    }
    hide AfterPass;
    forall n: nat | n < REPAIRS
      ensures IsRepair(Nth(n)) && |pass[n]| <= MAX_CHANGES
      ensures |pass[n]| < MAX_CHANGES ==> Done(db, Nth(n), setting)
      ensures Done(before, Nth(n), setting) ==> pass[n] == {}
    {
      NthIsRepair(n);
      RanRepair(before, db, n, pass, setting);
    }
    forall r | IsRepair(r)
      ensures |Matching(before, r, setting)| <= MAX_CHANGES ==> Done(db, r, setting)
      ensures (forall n: nat | n < REPAIRS :: |pass[n]| < MAX_CHANGES) ==> Done(db, r, setting)
      ensures (forall n: nat | n < REPAIRS :: pass[n] == {}) ==> Done(before, r, setting)
    {
      var n := Position(r);
      RanRepair(before, db, n, pass, setting);
    }
  }
}
