/** The four lanes that take tasks, the order in which each takes them, and how the orders compare. */
module Lanes {
  import opened Options
  import opened Tasks

  datatype Lane = General | Discovery | Readback | Inbox

  // The known software of every host in the discovery table.
  type Servers = map<string, Option<string>>

  const DIRECTORY_SOFTWARE: set<string> := {"fedigroups-directory", "mbin-compatible"}
  const PLATFORM_SOFTWARE: set<string> := {
    "wordpress", "funkwhale", "owncast", "castopod", "writefreely", "postmarks", "bookwyrm", "pixelfed",
    "gotosocial", "misskey", "sharkey", "iceshrimp", "snac", "mitra", "wafrn", "bonfire", "gancio", "mobilizon"}

  predicate RunsSoftware(t: Task, servers: Servers, software: set<string>) {
    && t.params.Payload?
    && t.params.host.Some?
    && t.params.host.value in servers
    && servers[t.params.host.value].Some?
    && servers[t.params.host.value].value in software
  }

  predicate IsPreview(t: Task) {
    t.params.Payload? && t.params.preview
  }

  predicate IsSeed(k: Kind) {
    k.SeedCommunityDiscoveryHosts? || k.SeedDiscourseDiscoveryHosts?
  }

  predicate Stale(t: Task, now: real) {
    t.attempts > 0 && Before(t.attemptedAt, now - Hours(1))
  }

  predicate Handles(lane: Lane, k: Kind) {
    match lane
    case General => true
    case Discovery => IsSeed(k) || k.DiscoverServerCommunities? || k.ProbeCommunityHostInteraction?
    case Readback =>
      || k.FetchCommunityFeatured? || k.FetchCommunityOutbox? || k.FetchCollectionTargetPreview?
      || k.FetchPostReplies? || k.FetchRemotePostRefresh? || k.FetchPlatformPostThread?
    case Inbox => IsInbox(k)
  }

  function GeneralRank(t: Task, now: real, servers: Servers): nat {
    var k, first := t.kind, t.attempts == 0;
    if k.DeliverToAudience? then 0
    else if k.DeliverToInbox? && first then 1
    else if IsSeed(k) && first then 2
    else if k.FetchCommunityOutbox? && IsPreview(t) then 3
    else if k.FetchCollectionTargetPreview? then 3
    else if k.FetchRemotePostRefresh? && first then 4
    else if k.FetchCommunityOutbox? && first then 5
    else if k.DeliverToInbox? then 6
    else if k.VerifyAndIngestObjectFromInbox? && first then 7
    else if k.FetchPostReplies? && first then 7
    else if k.FetchPlatformPostThread? && first then 7
    else if k.ProbeCommunityHostInteraction? && first then 8
    else if k.DiscoverServerCommunities? && first && RunsSoftware(t, servers, DIRECTORY_SOFTWARE) then 9
    else if k.DiscoverServerCommunities? && first && RunsSoftware(t, servers, PLATFORM_SOFTWARE) then 10
    else if k.DiscoverServerCommunities? && first then 11
    else if Stale(t, now)
      && (k.FetchCommunityFeatured? || k.FetchCommunityOutbox? || k.FetchPostReplies?
          || k.FetchRemotePostRefresh? || k.FetchPlatformPostThread?) then 12
    else if first then 13
    else 14
  }

  function DiscoveryRank(t: Task, servers: Servers): nat {
    var k, first := t.kind, t.attempts == 0;
    if IsSeed(k) && first then 0
    else if k.ProbeCommunityHostInteraction? && first then 1
    else if k.DiscoverServerCommunities? && first && RunsSoftware(t, servers, DIRECTORY_SOFTWARE) then 2
    else if k.DiscoverServerCommunities? && first && RunsSoftware(t, servers, PLATFORM_SOFTWARE) then 3
    else if k.DiscoverServerCommunities? && first then 4
    else 5
  }

  function ReadbackRank(t: Task, now: real): nat {
    var k, first := t.kind, t.attempts == 0;
    if k.FetchRemotePostRefresh? && first then 0
    else if k.FetchPostReplies? && first then 1
    else if k.FetchPlatformPostThread? && first then 2
    else if k.FetchCommunityOutbox? && IsPreview(t) then 3
    else if k.FetchCollectionTargetPreview? then 3
    else if k.FetchCommunityOutbox? && first then 4
    else if k.FetchCommunityFeatured? && first then 5
    else if Stale(t, now) then 6
    else 7
  }

  function InboxRank(t: Task, now: real): nat {
    var k, first := t.kind, t.attempts == 0;
    if k.VerifyAndIngestObjectFromInbox? && first then 0
    else if k.IngestObjectFromInbox? && first then 1
    else if Stale(t, now) then 2
    else 3
  }

  function Rank(lane: Lane, t: Task, now: real, servers: Servers): nat {
    match lane
    case General => GeneralRank(t, now, servers)
    case Discovery => DiscoveryRank(t, servers)
    case Readback => ReadbackRank(t, now)
    case Inbox => InboxRank(t, now)
  }

  // ----- taking the next task

  predicate Eligible(lane: Lane, t: Task, now: real) {
    Handles(lane, t.kind) && Ready(t, now)
  }

  /** One row comes before another in the order of a lane: by rank, then by id. */
  predicate Ahead(lane: Lane, rows: Table, a: nat, b: nat, now: real, servers: Servers)
    requires a in rows && b in rows
  {
    var ra, rb := Rank(lane, rows[a], now, servers), Rank(lane, rows[b], now, servers);
    ra < rb || (ra == rb && a <= b)
  }

  predicate IsNext(lane: Lane, rows: Table, id: nat, now: real, servers: Servers) {
    && id in rows && Eligible(lane, rows[id], now)
    && forall other | other in rows && Eligible(lane, rows[other], now) :: Ahead(lane, rows, id, other, now, servers)
  }

  /** Finds the row that the statement of a lane would take. */
  method FindNext(lane: Lane, rows: Table, now: real, servers: Servers) returns (next: Option<nat>)
    ensures next.Some? ==> IsNext(lane, rows, next.value, now, servers)
    ensures next.None? ==> forall id | id in rows :: !Eligible(lane, rows[id], now)
  {
    next := None;
    var left := rows.Keys;
    while left != {}
      invariant left <= rows.Keys
      invariant next.None? ==> forall id | id in rows && id !in left :: !Eligible(lane, rows[id], now)
      invariant next.Some? ==>
        && next.value in rows && Eligible(lane, rows[next.value], now)
        && forall id | id in rows && id !in left && Eligible(lane, rows[id], now) ::
             Ahead(lane, rows, next.value, id, now, servers)
      decreases left
    {
      var id :| id in left;
      left := left - {id};
      if Eligible(lane, rows[id], now) {
        if next.None? || Ahead(lane, rows, id, next.value, now, servers) {
          next := Some(id);
        }
      }
    }
  }

  /** A lane never has two next tasks. */
  lemma NextIsUnique(lane: Lane, rows: Table, a: nat, b: nat, now: real, servers: Servers)
    requires IsNext(lane, rows, a, now, servers) && IsNext(lane, rows, b, now, servers)
    ensures a == b
  {
    assert Ahead(lane, rows, a, b, now, servers) && Ahead(lane, rows, b, a, now, servers);
  }

  /** A lane with an eligible task has a next one. */
  lemma {:induction false} NextExists(lane: Lane, rows: Table, among: set<nat>, now: real, servers: Servers)
    returns (next: nat)
    requires among <= rows.Keys && among != {}
    requires forall id | id in among :: Eligible(lane, rows[id], now)
    ensures next in among && forall id | id in among :: Ahead(lane, rows, next, id, now, servers)
    decreases among
  {
    var id :| id in among;
    next := id;
    if among != {id} {
      var best := NextExists(lane, rows, among - {id}, now, servers);
      if Ahead(lane, rows, best, id, now, servers) {
        next := best;
      }
      forall other | other in among ensures Ahead(lane, rows, next, other, now, servers) {
        assert other != id ==> Ahead(lane, rows, best, other, now, servers);
      }
    }
  }

  // ----- the discovery lane

  function Restrict(rows: Table, lane: Lane): Table {
    map id | id in rows && Handles(lane, rows[id].kind) :: rows[id]
  }

  /** On the kinds of the discovery lane its order is the general order. */
  lemma DiscoveryOrder(t: Task, u: Task, now: real, servers: Servers)
    requires Handles(Discovery, t.kind) && Handles(Discovery, u.kind)
    ensures Rank(Discovery, t, now, servers) < Rank(Discovery, u, now, servers)
       <==> Rank(General, t, now, servers) < Rank(General, u, now, servers)
  {
    DiscoveryRanks(t, now, servers);
    DiscoveryRanks(u, now, servers);
  }

  lemma DiscoveryRanks(t: Task, now: real, servers: Servers)
    requires Handles(Discovery, t.kind)
    ensures Rank(General, t, now, servers) == [2, 8, 9, 10, 11, 14][Rank(Discovery, t, now, servers)]
  {
  }

  /** The discovery lane takes what the general lane would take from a queue of discovery kinds only. */
  lemma DiscoveryTake(rows: Table, id: nat, now: real, servers: Servers)
    ensures IsNext(Discovery, rows, id, now, servers) <==> IsNext(General, Restrict(rows, Discovery), id, now, servers)
  {
    var only := Restrict(rows, Discovery);
    forall a, b | a in only && b in only
      ensures Ahead(Discovery, rows, a, b, now, servers) <==> Ahead(General, only, a, b, now, servers)
    {
      DiscoveryOrder(rows[a], rows[b], now, servers);
      DiscoveryOrder(rows[b], rows[a], now, servers);
    }
    forall other
      ensures other in rows && Eligible(Discovery, rows[other], now)
         <==> other in only && Eligible(General, only[other], now)
    {
    }
  }

  // ----- the inbox lane

  lemma InboxRanks(t: Task, now: real, servers: Servers)
    requires Handles(Inbox, t.kind)
    ensures Rank(General, t, now, servers) == [7, 13, 14, 14][Rank(Inbox, t, now, servers)]
    ensures Rank(Inbox, t, now, servers) == 2 <==> Stale(t, now)
    ensures Rank(Inbox, t, now, servers) == 3 <==> t.attempts > 0 && !Stale(t, now)
  {
  }

  /** The inbox lane keeps the general order and splits its ties in one way only: among retries, those
      last attempted more than an hour ago go first. */
  lemma InboxOrder(t: Task, u: Task, now: real, servers: Servers)
    requires Handles(Inbox, t.kind) && Handles(Inbox, u.kind)
    ensures Rank(Inbox, t, now, servers) < Rank(Inbox, u, now, servers)
       <==> (|| Rank(General, t, now, servers) < Rank(General, u, now, servers)
             || (Stale(t, now) && u.attempts > 0 && !Stale(u, now)))
  {
    InboxRanks(t, now, servers);
    InboxRanks(u, now, servers);
  }

  /** What the inbox lane takes is never behind, by general rank, any other task it could take. */
  lemma InboxTake(rows: Table, id: nat, other: nat, now: real, servers: Servers)
    requires IsNext(Inbox, rows, id, now, servers)
    requires other in rows && Eligible(Inbox, rows[other], now)
    ensures Rank(General, rows[id], now, servers) <= Rank(General, rows[other], now, servers)
  {
    assert Ahead(Inbox, rows, id, other, now, servers);
    InboxOrder(rows[other], rows[id], now, servers);
  }

  // ----- the readback lane

  predicate FirstTry(t: Task) {
    t.attempts == 0
  }

  predicate PreviewWork(t: Task) {
    t.kind.FetchCollectionTargetPreview? || (t.kind.FetchCommunityOutbox? && IsPreview(t))
  }

  /** First readings of one post or thread. */
  predicate ThreadWork(t: Task) {
    FirstTry(t) && (t.kind.FetchPostReplies? || t.kind.FetchPlatformPostThread?)
  }

  predicate FirstOutbox(t: Task) {
    FirstTry(t) && t.kind.FetchCommunityOutbox? && !IsPreview(t)
  }

  /** A retry, last tried more than an hour ago, that is no preview. */
  predicate StaleRetry(t: Task, now: real) {
    Stale(t, now) && !PreviewWork(t)
  }

  lemma ReadbackRanks(t: Task, now: real, servers: Servers)
    requires Handles(Readback, t.kind)
    ensures Rank(General, t, now, servers) == [4, 7, 7, 3, 5, 13, 12, 14][Rank(Readback, t, now, servers)]
    ensures Rank(Readback, t, now, servers) == 0 <==> FirstTry(t) && t.kind.FetchRemotePostRefresh?
    ensures Rank(Readback, t, now, servers) in {1, 2} <==> ThreadWork(t)
    ensures Rank(Readback, t, now, servers) == 3 <==> PreviewWork(t)
    ensures Rank(Readback, t, now, servers) == 4 <==> FirstOutbox(t)
    ensures Rank(Readback, t, now, servers) == 5 <==> FirstTry(t) && t.kind.FetchCommunityFeatured?
    ensures Rank(Readback, t, now, servers) == 6 <==> StaleRetry(t, now)
  {
  }

  /** Exactly when the readback lane turns the general order of two tasks around. */
  lemma ReadbackContradicts(t: Task, u: Task, now: real, servers: Servers)
    requires Handles(Readback, t.kind) && Handles(Readback, u.kind)
    ensures (&& Rank(General, t, now, servers) < Rank(General, u, now, servers)
             && Rank(Readback, u, now, servers) < Rank(Readback, t, now, servers))
       <==> (|| (PreviewWork(t) && (ThreadWork(u) || (FirstTry(u) && u.kind.FetchRemotePostRefresh?)))
             || (FirstOutbox(t) && ThreadWork(u))
             || (StaleRetry(t, now) && FirstTry(u) && u.kind.FetchCommunityFeatured?))
  {
    ReadbackRanks(t, now, servers);
    ReadbackRanks(u, now, servers);
  }

  /** A queue on which the readback lane and the general lane take different readback tasks. */
  lemma ReadbackDiffers(now: real, servers: Servers)
    returns (rows: Table, mine: nat, theirs: nat)
    ensures IsNext(Readback, rows, mine, now, servers)
    ensures IsNext(General, Restrict(rows, Readback), theirs, now, servers)
    ensures mine != theirs
  {
    var params := Payload(false, None, None, "{}");
    rows := map[1 := NewTask(FetchCollectionTargetPreview, params, 8), 2 := NewTask(FetchPostReplies, params, 2)];
    mine, theirs := 2, 1;
  }
}
