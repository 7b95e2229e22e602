/** What each lane takes, said of the tasks alone: by state, kind, attempts, times and payload. */
module LaneOrders {
  import opened Options
  import opened Tasks
  import opened Lanes

  predicate First(t: Task) {
    t.attempts == 0
  }

  /** A retry that was last attempted more than an hour ago. */
  predicate Overdue(t: Task, now: real) {
    t.attempts > 0 && t.attemptedAt.Some? && t.attemptedAt.value + 3600.0 < now
  }

  predicate Preview(t: Task) {
    || t.kind == FetchCollectionTargetPreview
    || (t.kind == FetchCommunityOutbox && t.params.Payload? && t.params.preview)
  }

  predicate HostRuns(t: Task, servers: Servers, software: set<string>) {
    exists host, name | name in software && host in servers ::
      t.params.Payload? && t.params.host == Some(host) && servers[host] == Some(name)
  }

  predicate OnDirectory(t: Task, servers: Servers) {
    HostRuns(t, servers, {"fedigroups-directory", "mbin-compatible"})
  }

  predicate OnPlatform(t: Task, servers: Servers) {
    HostRuns(t, servers, {
      "wordpress", "funkwhale", "owncast", "castopod", "writefreely", "postmarks", "bookwyrm", "pixelfed",
      "gotosocial", "misskey", "sharkey", "iceshrimp", "snac", "mitra", "wafrn", "bonfire", "gancio", "mobilizon"})
  }

  /** The places in the order of the general lane. No task has two. */
  predicate GeneralPlace(n: nat, t: Task, now: real, servers: Servers) {
    var k := t.kind;
    match n
    case 0 => k == DeliverToAudience
    case 1 => First(t) && k == DeliverToInbox
    case 2 => First(t) && k in {SeedCommunityDiscoveryHosts, SeedDiscourseDiscoveryHosts}
    case 3 => Preview(t)
    case 4 => First(t) && k == FetchRemotePostRefresh
    case 5 => First(t) && k == FetchCommunityOutbox && !Preview(t)
    case 6 => !First(t) && k == DeliverToInbox
    case 7 => First(t) && k in {VerifyAndIngestObjectFromInbox, FetchPostReplies, FetchPlatformPostThread}
    case 8 => First(t) && k == ProbeCommunityHostInteraction
    case 9 => First(t) && k == DiscoverServerCommunities && OnDirectory(t, servers)
    case 10 => First(t) && k == DiscoverServerCommunities && OnPlatform(t, servers)
    case 11 => First(t) && k == DiscoverServerCommunities && !OnDirectory(t, servers) && !OnPlatform(t, servers)
    case 12 => Overdue(t, now) && ReadsBack(k) && !Preview(t)
    case 13 => First(t) && (k == FetchCommunityFeatured || k == IngestObjectFromInbox || k.OtherKind?)
    case 14 =>
      && !First(t) && !(Overdue(t, now) && ReadsBack(k)) && !Preview(t)
      && k != DeliverToAudience && k != DeliverToInbox
    case _ => false
  }

  /** The kinds that read a community or a post back; previews of collection targets are not among them. */
  predicate ReadsBack(k: Kind) {
    k in {FetchCommunityFeatured, FetchCommunityOutbox, FetchPostReplies, FetchRemotePostRefresh, FetchPlatformPostThread}
  }

  predicate DiscoveryPlace(n: nat, t: Task, servers: Servers) {
    var k := t.kind;
    match n
    case 0 => First(t) && k in {SeedCommunityDiscoveryHosts, SeedDiscourseDiscoveryHosts}
    case 1 => First(t) && k == ProbeCommunityHostInteraction
    case 2 => First(t) && k == DiscoverServerCommunities && OnDirectory(t, servers)
    case 3 => First(t) && k == DiscoverServerCommunities && OnPlatform(t, servers)
    case 4 => First(t) && k == DiscoverServerCommunities && !OnDirectory(t, servers) && !OnPlatform(t, servers)
    case 5 => !First(t)
    case _ => false
  }

  predicate ReadbackPlace(n: nat, t: Task, now: real) {
    var k := t.kind;
    match n
    case 0 => First(t) && k == FetchRemotePostRefresh
    case 1 => First(t) && k == FetchPostReplies
    case 2 => First(t) && k == FetchPlatformPostThread
    case 3 => Preview(t)
    case 4 => First(t) && k == FetchCommunityOutbox && !Preview(t)
    case 5 => First(t) && k == FetchCommunityFeatured
    case 6 => Overdue(t, now) && !Preview(t)
    case 7 => !First(t) && !Overdue(t, now) && !Preview(t)
    case _ => false
  }

  predicate InboxPlace(n: nat, t: Task, now: real) {
    match n
    case 0 => First(t) && t.kind == VerifyAndIngestObjectFromInbox
    case 1 => First(t) && t.kind == IngestObjectFromInbox
    case 2 => Overdue(t, now)
    case 3 => !First(t) && !Overdue(t, now)
    case _ => false
  }

  predicate Place(lane: Lane, n: nat, t: Task, now: real, servers: Servers) {
    match lane
    case General => GeneralPlace(n, t, now, servers)
    case Discovery => DiscoveryPlace(n, t, servers)
    case Readback => ReadbackPlace(n, t, now)
    case Inbox => InboxPlace(n, t, now)
  }

  /** Which kinds a lane takes. */
  predicate Takes(lane: Lane, k: Kind) {
    match lane
    case General => true
    case Discovery =>
      k in {SeedCommunityDiscoveryHosts, SeedDiscourseDiscoveryHosts, DiscoverServerCommunities, ProbeCommunityHostInteraction}
    case Readback => ReadsBack(k) || k == FetchCollectionTargetPreview
    case Inbox => k == IngestObjectFromInbox || k == VerifyAndIngestObjectFromInbox
  }

  /** A pending task of a lane whose back-off, if it was attempted before, has passed. */
  predicate Waits(lane: Lane, t: Task, now: real) {
    && Takes(lane, t.kind) && t.state == Pending
    && (t.attemptedAt == None || now - t.attemptedAt.value > 20.0 * Exp(t.attempts))
  }

  lemma WaitsExactly(lane: Lane, t: Task, now: real)
    ensures Eligible(lane, t, now) <==> Waits(lane, t, now)
    ensures Waits(lane, t, now) ==> Takes(lane, t.kind)
  {
    hide Exp;
  }

  lemma SoftwareExactly(t: Task, servers: Servers)
    ensures RunsSoftware(t, servers, DIRECTORY_SOFTWARE) <==> OnDirectory(t, servers)
    ensures RunsSoftware(t, servers, PLATFORM_SOFTWARE) <==> OnPlatform(t, servers)
    ensures !(OnDirectory(t, servers) && OnPlatform(t, servers))
  {
  }

  lemma OverdueExactly(t: Task, now: real)
    ensures Stale(t, now) <==> Overdue(t, now)
    ensures Stale(t, now) ==> !First(t)
  {
  }

  lemma GeneralPlaceExactly(n: nat, t: Task, now: real, servers: Servers)
    ensures GeneralPlace(n, t, now, servers) <==> Rank(General, t, now, servers) == n
  {
    SoftwareExactly(t, servers);
    OverdueExactly(t, now);
    hide RunsSoftware, OnDirectory, OnPlatform, Stale, Overdue;
  }

  /** Every task of a lane has one place in its order. */
  lemma PlaceExactly(lane: Lane, n: nat, t: Task, now: real, servers: Servers)
    requires Takes(lane, t.kind)
    ensures Place(lane, n, t, now, servers) <==> Rank(lane, t, now, servers) == n
  {
    SoftwareExactly(t, servers);
    OverdueExactly(t, now);
    GeneralPlaceExactly(n, t, now, servers);
    hide RunsSoftware, OnDirectory, OnPlatform, Stale, Overdue, GeneralPlace, GeneralRank;
  }

  /** A task that waits, while every other waiting task of the lane has a later place, or the same and a
      greater id. */
  ghost predicate ComesFirst(lane: Lane, rows: Table, id: nat, now: real, servers: Servers) {
    && id in rows && Waits(lane, rows[id], now)
    && forall other, m, n | other in rows && Waits(lane, rows[other], now)
                         && Place(lane, m, rows[id], now, servers) && Place(lane, n, rows[other], now, servers) ::
         m < n || (m == n && id <= other)
  }

  /** That is what the statement of the lane takes. */
  lemma TakeExactly(lane: Lane, rows: Table, id: nat, now: real, servers: Servers)
    ensures IsNext(lane, rows, id, now, servers) <==> ComesFirst(lane, rows, id, now, servers)
  {
    hide Rank, Place, Waits, Eligible, Takes;
    forall other | other in rows ensures Eligible(lane, rows[other], now) <==> Waits(lane, rows[other], now) {
      WaitsExactly(lane, rows[other], now);
    }
    forall other, n: nat | other in rows && Waits(lane, rows[other], now)
      ensures Place(lane, n, rows[other], now, servers) <==> Rank(lane, rows[other], now, servers) == n
    {
      WaitsExactly(lane, rows[other], now);
      PlaceExactly(lane, n, rows[other], now, servers);
    }
    forall other | other in rows && Waits(lane, rows[other], now)
      ensures exists n :: Place(lane, n, rows[other], now, servers)
    {
      assert Place(lane, Rank(lane, rows[other], now, servers), rows[other], now, servers);
    }
  }

  /** While a delivery to an audience waits, the general lane takes the oldest of them. */
  lemma AudienceFirst(rows: Table, id: nat, other: nat, now: real, servers: Servers)
    requires IsNext(General, rows, id, now, servers)
    requires other in rows && Waits(General, rows[other], now) && rows[other].kind == DeliverToAudience
    ensures rows[id].kind == DeliverToAudience && id <= other
  {
    Compared(rows, id, other, 0, now, servers);
  }

  /** Next come first tries of deliveries to an inbox. */
  lemma FirstDeliveriesNext(rows: Table, id: nat, other: nat, now: real, servers: Servers)
    requires IsNext(General, rows, id, now, servers)
    requires other in rows && Waits(General, rows[other], now)
    requires rows[other].kind == DeliverToInbox && rows[other].attempts == 0
    ensures rows[id].kind == DeliverToAudience
         || (rows[id].kind == DeliverToInbox && rows[id].attempts == 0 && id <= other)
  {
    Compared(rows, id, other, 1, now, servers);
  }

  /** A repeated delivery waits only for deliveries and for first seeds, refreshes and outboxes, and previews. */
  lemma RepeatedDeliveries(rows: Table, id: nat, other: nat, now: real, servers: Servers)
    requires IsNext(General, rows, id, now, servers)
    requires other in rows && Waits(General, rows[other], now)
    requires rows[other].kind == DeliverToInbox && rows[other].attempts > 0
    ensures var t := rows[id];
      || t.kind == DeliverToAudience
      || (t.kind == DeliverToInbox && (t.attempts == 0 || id <= other))
      || t.kind == FetchCollectionTargetPreview
      || (t.kind == FetchCommunityOutbox && (t.attempts == 0 || (t.params.Payload? && t.params.preview)))
      || (t.attempts == 0 && t.kind in {SeedCommunityDiscoveryHosts, SeedDiscourseDiscoveryHosts, FetchRemotePostRefresh})
  {
    Compared(rows, id, other, 6, now, servers);
  }

  lemma Compared(rows: Table, id: nat, other: nat, n: nat, now: real, servers: Servers)
    requires IsNext(General, rows, id, now, servers)
    requires other in rows && Waits(General, rows[other], now) && GeneralPlace(n, rows[other], now, servers)
    ensures exists m: nat :: GeneralPlace(m, rows[id], now, servers) && (m < n || (m == n && id <= other))
  {
    hide GeneralRank, GeneralPlace, Waits;
    TakeExactly(General, rows, id, now, servers);
    var m := Rank(General, rows[id], now, servers);
    GeneralPlaceExactly(m, rows[id], now, servers);
    assert Place(General, m, rows[id], now, servers) && Place(General, n, rows[other], now, servers);
  }
}
