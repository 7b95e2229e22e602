/** The statements that enqueue recurring work, and that none of it is ever queued twice. */
module Enqueue {
  import opened Options
  import opened Tasks
  import opened Lanes
  import opened QueueRuns
  import TerminalErrors

  // What a recurring task is about.
  datatype Key =
    | SeedHosts
    | SeedDiscourse
    | HostDiscovery(host: string)
    | HostProbe(host: string)
    | Featured(community: int)
    | Outbox(community: int, preview: bool)

  function KindOf(key: Key): Kind {
    match key
    case SeedHosts => SeedCommunityDiscoveryHosts
    case SeedDiscourse => SeedDiscourseDiscoveryHosts
    case HostDiscovery(_) => DiscoverServerCommunities
    case HostProbe(_) => ProbeCommunityHostInteraction
    case Featured(_) => FetchCommunityFeatured
    case Outbox(_, _) => FetchCommunityOutbox
  }

  function ParamsOf(key: Key, text: string): Params {
    match key
    case SeedHosts => Payload(false, None, None, "{}")
    case SeedDiscourse => Payload(false, None, None, "{}")
    case HostDiscovery(host) => Payload(false, Some(host), None, text)
    case HostProbe(host) => Payload(false, Some(host), None, text)
    case Featured(community) => Payload(false, None, Some(community), text)
    case Outbox(community, preview) => Payload(preview, None, Some(community), text)
  }

  function KeyOf(kind: Kind, params: Params): Option<Key> {
    match kind
    case SeedCommunityDiscoveryHosts => Some(SeedHosts)
    case SeedDiscourseDiscoveryHosts => Some(SeedDiscourse)
    case DiscoverServerCommunities =>
      if params.Payload? && params.host.Some? then Some(HostDiscovery(params.host.value)) else None
    case ProbeCommunityHostInteraction =>
      if params.Payload? && params.host.Some? then Some(HostProbe(params.host.value)) else None
    case FetchCommunityFeatured =>
      if params.Payload? && params.community.Some? then Some(Featured(params.community.value)) else None
    case FetchCommunityOutbox =>
      if params.Payload? && params.community.Some? then Some(Outbox(params.community.value, params.preview)) else None
    case _ => None
  }

  predicate About(t: Task, key: Key) {
    KeyOf(t.kind, t.params) == Some(key)
  }

  predicate Active(t: Task) {
    t.state.Pending? || t.state.Running?
  }

  predicate ActiveAbout(rows: Table, key: Key) {
    exists id | id in rows :: Active(rows[id]) && About(rows[id], key)
  }

  predicate CompletedAbout(rows: Table, key: Key, since: real) {
    exists id | id in rows ::
      rows[id].state.Completed? && About(rows[id], key) && rows[id].completedAt.Some? && rows[id].completedAt.value > since
  }

  predicate FailedAbout(rows: Table, key: Key, since: real) {
    exists id | id in rows ::
      rows[id].state.Failed? && About(rows[id], key) && rows[id].attemptedAt.Some? && rows[id].attemptedAt.value > since
  }

  // ----- the statements

  // Each statement with the rows of other tables that it selects, in its order: the hosts that are due, the
  // followed remote communities, the one community that is asked for. Hosts and communities are primary keys,
  // so none occurs twice.
  datatype Statement =
    | EnqueueSeedHosts
    | EnqueueSeedDiscourse
    | EnqueueDueDiscovery(hosts: seq<string>, limit: nat)
    | EnqueueDueProbes(hosts: seq<string>)
    | EnqueueFollowedOutboxes(communities: seq<int>)
    | EnqueueFeatured(community: int, followed: bool)
    | EnqueueOutboxPreview(community: int, remote: bool)

  const PROBE_LIMIT := 50

  ghost predicate Distinct<T>(s: seq<T>) {
    forall i, j | 0 <= i < j < |s| :: s[i] != s[j]
  }

  ghost predicate WellFormed(s: Statement) {
    match s
    case EnqueueDueDiscovery(hosts, _) => Distinct(hosts)
    case EnqueueDueProbes(hosts) => Distinct(hosts)
    case EnqueueFollowedOutboxes(communities) => Distinct(communities)
    case _ => true
  }

  function Candidates(s: Statement): seq<Key> {
    match s
    case EnqueueSeedHosts => [SeedHosts]
    case EnqueueSeedDiscourse => [SeedDiscourse]
    case EnqueueDueDiscovery(hosts, _) => seq(|hosts|, i requires 0 <= i < |hosts| => HostDiscovery(hosts[i]))
    case EnqueueDueProbes(hosts) => seq(|hosts|, i requires 0 <= i < |hosts| => HostProbe(hosts[i]))
    case EnqueueFollowedOutboxes(communities) =>
      seq(|communities|, i requires 0 <= i < |communities| => Outbox(communities[i], false))
    case EnqueueFeatured(community, followed) => if followed then [Featured(community)] else []
    case EnqueueOutboxPreview(community, remote) => if remote then [Outbox(community, true)] else []
  }

  /** What a statement requires of the task table before it inserts a row. */
  predicate Allowed(rows: Table, now: real, key: Key) {
    !ActiveAbout(rows, key) &&
    match key
    case SeedHosts => !CompletedAbout(rows, key, now - Hours(24)) && !FailedAbout(rows, key, now - Hours(6))
    case SeedDiscourse => !CompletedAbout(rows, key, now - Days(7)) && !FailedAbout(rows, key, now - Hours(6))
    case Outbox(community, false) =>
      && !ActiveAbout(rows, Outbox(community, true))
      && !FailedAbout(rows, key, now - Hours(6))
      && !FailedAbout(rows, Outbox(community, true), now - Hours(6))
    case Outbox(community, true) => !CompletedAbout(rows, key, now - Hours(2)) && !FailedAbout(rows, key, now - 1800.0)
    case _ => true
  }

  function Select(rows: Table, now: real, keys: seq<Key>): seq<Key> {
    if keys == [] then []
    else (if Allowed(rows, now, keys[0]) then [keys[0]] else []) + Select(rows, now, keys[1..])
  }

  function Limited(s: Statement, keys: seq<Key>): seq<Key> {
    match s
    case EnqueueDueDiscovery(_, limit) => if |keys| <= limit then keys else keys[..limit]
    case EnqueueDueProbes(_) => if |keys| <= PROBE_LIMIT then keys else keys[..PROBE_LIMIT]
    case _ => keys
  }

  function Inserted(rows: Table, now: real, s: Statement): seq<Key> {
    Limited(s, Select(rows, now, Candidates(s)))
  }

  /** One row for every key, all in one statement. */
  function InsertAll(w: World, keys: seq<Key>, text: string, maxAttempts: nat): World
    requires maxAttempts >= 1
    decreases |keys|
  {
    if keys == [] then w
    else InsertAll(Next(w, QueueRuns.Event.Enqueue(KindOf(keys[0]), ParamsOf(keys[0], text), maxAttempts)), keys[1..], text, maxAttempts)
  }

  // ----- runs with these statements as the only producers

  datatype Act =
    | Produce(statement: Statement, text: string, maxAttempts: nat)
    | Other(event: Event)

  ghost predicate Possible(w: World, act: Act) {
    match act
    case Produce(s, _, maxAttempts) => WellFormed(s) && maxAttempts >= 1
    case Other(e) =>
      && Enabled(w, e) && Quiet(w, e)
      && (e.Enqueue? ==> KeyOf(e.kind, e.params).None?)
  }

  ghost function After(w: World, act: Act): World
    requires Possible(w, act)
  {
    match act
    case Produce(s, text, maxAttempts) => InsertAll(w, Inserted(w.rows, w.now, s), text, maxAttempts)
    case Other(e) => Next(w, e)
  }

  ghost predicate ValidActs(w: World, acts: seq<Act>)
    decreases |acts|
  {
    acts == [] || (Possible(w, acts[0]) && ValidActs(After(w, acts[0]), acts[1..]))
  }

  ghost function EndOfActs(w: World, acts: seq<Act>): World
    requires ValidActs(w, acts)
    decreases |acts|
  {
    if acts == [] then w else EndOfActs(After(w, acts[0]), acts[1..])
  }

  /** No two pending or running tasks are about the same thing. */
  ghost predicate Unique(rows: Table) {
    forall a, b | a in rows && b in rows && Active(rows[a]) && Active(rows[b])
               && KeyOf(rows[a].kind, rows[a].params).Some?
               && KeyOf(rows[a].kind, rows[a].params) == KeyOf(rows[b].kind, rows[b].params) :: a == b
  }

  lemma KeyOfParams(key: Key, text: string)
    ensures KeyOf(KindOf(key), ParamsOf(key, text)) == Some(key)
    ensures ParamsOf(key, text).Payload?
  {
  }

  lemma {:induction false} SelectFacts(rows: Table, now: real, keys: seq<Key>)
    requires Distinct(keys)
    ensures var picked := Select(rows, now, keys);
      && Distinct(picked)
      && forall i | 0 <= i < |picked| :: picked[i] in keys && Allowed(rows, now, picked[i])
  {
    hide Allowed;
    if keys != [] {
      SelectFacts(rows, now, keys[1..]);
      var rest, picked := Select(rows, now, keys[1..]), Select(rows, now, keys);
      if Allowed(rows, now, keys[0]) {
        assert picked == [keys[0]] + rest;
      } else {
        assert picked == rest;
      }
    }
  }

  lemma InsertedFacts(rows: Table, now: real, s: Statement)
    requires WellFormed(s)
    ensures var keys := Inserted(rows, now, s);
      Distinct(keys) && forall i | 0 <= i < |keys| :: !ActiveAbout(rows, keys[i])
  {
    hide ActiveAbout;
    SelectFacts(rows, now, Candidates(s));
  }

  /** Inserting one row about something nobody works on. */
  lemma InsertOne(w: World, key: Key, text: string, maxAttempts: nat)
    requires Inv(w) && Unique(w.rows) && !ActiveAbout(w.rows, key) && maxAttempts >= 1
    ensures var w' := Next(w, QueueRuns.Event.Enqueue(KindOf(key), ParamsOf(key, text), maxAttempts));
      && Inv(w') && Unique(w'.rows)
      && forall other: Key | other != key && !ActiveAbout(w.rows, other) :: !ActiveAbout(w'.rows, other)
  {
    hide KeyOf, KindOf, ParamsOf, Inv;
    KeyOfParams(key, text);
    StepKeeps(w, QueueRuns.Event.Enqueue(KindOf(key), ParamsOf(key, text), maxAttempts));
    NextIdIsNew(w);
  }

  lemma {:induction false} InsertAllKeeps(w: World, keys: seq<Key>, text: string, maxAttempts: nat)
    requires Inv(w) && Unique(w.rows) && Distinct(keys) && maxAttempts >= 1
    requires forall i | 0 <= i < |keys| :: !ActiveAbout(w.rows, keys[i])
    ensures Inv(InsertAll(w, keys, text, maxAttempts)) && Unique(InsertAll(w, keys, text, maxAttempts).rows)
    decreases |keys|
  {
    hide Inv, Unique, ActiveAbout;
    if keys != [] {
      InsertOne(w, keys[0], text, maxAttempts);
      InsertAllKeeps(Next(w, QueueRuns.Event.Enqueue(KindOf(keys[0]), ParamsOf(keys[0], text), maxAttempts)),
                     keys[1..], text, maxAttempts);
    }
  }

  /** Apart from enqueuing and retries, what is active was active before, and is about the same thing. */
  lemma NoNewActive(w: World, e: Event, id: nat)
    requires Inv(w) && Enabled(w, e) && !e.Enqueue? && !e.AdminRetry?
    requires id in Next(w, e).rows && Active(Next(w, e).rows[id])
    ensures id in w.rows && Active(w.rows[id])
    ensures Next(w, e).rows[id].kind == w.rows[id].kind
    ensures Next(w, e).rows[id].params == w.rows[id].params
  {
    hide RowsOk;
    if e.SweepUp? && id in e.picked {
      assert Matches(e.sweep, id, w.rows[id], EnvOf(w, e));
    }
  }

  lemma OtherKeeps(w: World, e: Event)
    requires Inv(w) && Unique(w.rows) && Possible(w, Other(e)) && !e.AdminRetry?
    ensures Inv(Next(w, e)) && Unique(Next(w, e).rows)
  {
    StepKeeps(w, e);
    hide Inv, KeyOf;
    if e.Enqueue? {
      NextIdIsNew(w);
    } else {
      var rows := Next(w, e).rows;
      hide Next, Enabled;
      forall id | id in rows && Active(rows[id])
        ensures id in w.rows && Active(w.rows[id])
        ensures rows[id].kind == w.rows[id].kind && rows[id].params == w.rows[id].params
      {
        NoNewActive(w, e, id);
      }
    }
  }

  // ----- retries by an administrator

  /** Nothing active is about the same thing as this row. */
  predicate NobodyElse(rows: Table, id: nat)
    requires id in rows
  {
    match KeyOf(rows[id].kind, rows[id].params)
    case None => true
    case Some(key) => !ActiveAbout(rows, key)
  }

  /** A retry queues nothing twice exactly when no task about the same thing is pending or running. */
  lemma RetryKeepsExactly(w: World, id: nat)
    requires Unique(w.rows) && Enabled(w, AdminRetry(id))
    ensures Unique(Next(w, AdminRetry(id)).rows) <==> NobodyElse(w.rows, id)
  {
    hide KeyOf;
    var rows := Next(w, AdminRetry(id)).rows;
    match KeyOf(w.rows[id].kind, w.rows[id].params) {
      case None =>
      case Some(key) =>
        if ActiveAbout(w.rows, key) {
          var other :| other in w.rows && Active(w.rows[other]) && About(w.rows[other], key);
          assert other != id && Active(rows[other]) && Active(rows[id]);
        }
    }
  }

  /** Everything but a retry of something that is active already. */
  ghost predicate Harmless(w: World, act: Act)
    requires Possible(w, act)
  {
    act.Other? && act.event.AdminRetry? ==> NobodyElse(w.rows, act.event.id)
  }

  ghost predicate AllHarmless(w: World, acts: seq<Act>)
    requires ValidActs(w, acts)
    decreases |acts|
  {
    acts == [] || (Harmless(w, acts[0]) && AllHarmless(After(w, acts[0]), acts[1..]))
  }

  ghost predicate AlwaysUnique(w: World, acts: seq<Act>)
    requires ValidActs(w, acts)
    decreases |acts|
  {
    Unique(w.rows) && (acts != [] ==> AlwaysUnique(After(w, acts[0]), acts[1..]))
  }

  lemma ActKeepsExactly(w: World, act: Act)
    requires Inv(w) && Unique(w.rows) && Possible(w, act)
    ensures Inv(After(w, act))
    ensures Unique(After(w, act).rows) <==> Harmless(w, act)
  {
    hide Inv, Unique, NobodyElse, Next;
    match act {
      case Produce(s, text, maxAttempts) =>
        InsertedFacts(w.rows, w.now, s);
        InsertAllKeeps(w, Inserted(w.rows, w.now, s), text, maxAttempts);
      case Other(e) =>
        StepKeeps(w, e);
        if e.AdminRetry? {
          RetryKeepsExactly(w, e.id);
        } else {
          OtherKeeps(w, e);
        }
    }
  }

  /** Nothing is ever queued twice if and only if every retry is of a task that nothing active is about. */
  lemma {:induction false} ActsKeepExactly(w: World, acts: seq<Act>)
    requires Inv(w) && Unique(w.rows) && ValidActs(w, acts)
    ensures AlwaysUnique(w, acts) <==> AllHarmless(w, acts)
    decreases |acts|
  {
    hide Inv, Unique, Possible, After, Harmless;
    if acts != [] {
      ActKeepsExactly(w, acts[0]);
      if Harmless(w, acts[0]) {
        ActsKeepExactly(After(w, acts[0]), acts[1..]);
      }
    }
  }

  lemma {:induction false} ActsKeep(w: World, acts: seq<Act>)
    requires Inv(w) && Unique(w.rows) && ValidActs(w, acts) && AllHarmless(w, acts)
    ensures Inv(EndOfActs(w, acts)) && Unique(EndOfActs(w, acts).rows)
    decreases |acts|
  {
    hide Inv, Unique, Possible, After, Harmless;
    if acts != [] {
      ActKeepsExactly(w, acts[0]);
      ActsKeep(After(w, acts[0]), acts[1..]);
    }
  }

  /** While these statements are the only producers and no retry is of something active, every reachable state
      has at most one pending or running seed task of each kind, one featured fetch for a community, one
      discovery and one probe for a host, and for a community one outbox preview and one other outbox fetch. */
  lemma AtMostOneEach(start: real, acts: seq<Act>, a: nat, b: nat)
    requires ValidActs(Initial(start), acts) && AllHarmless(Initial(start), acts)
    requires var rows := EndOfActs(Initial(start), acts).rows;
      a in rows && b in rows && a != b && Active(rows[a]) && Active(rows[b]) && rows[a].kind == rows[b].kind
    ensures var t, u := EndOfActs(Initial(start), acts).rows[a], EndOfActs(Initial(start), acts).rows[b];
      && t.params.Payload? && u.params.Payload?
      && !IsSeed(t.kind)
      && (t.kind.DiscoverServerCommunities? || t.kind.ProbeCommunityHostInteraction? ==>
            t.params.host.None? || t.params.host != u.params.host)
      && (t.kind.FetchCommunityFeatured? ==> t.params.community.None? || t.params.community != u.params.community)
      && (t.kind.FetchCommunityOutbox? ==>
            t.params.community.None? || t.params.community != u.params.community || t.params.preview != u.params.preview)
  {
    ActsKeep(Initial(start), acts);
    var w := EndOfActs(Initial(start), acts);
    assert RowOk(w.rows[a], w.history[a], w.now) && RowOk(w.rows[b], w.history[b], w.now);
  }

  // ----- a retry that is not harmless

  lemma {:induction false} ActsThen(w: World, acts: seq<Act>, act: Act)
    requires ValidActs(w, acts) && Possible(EndOfActs(w, acts), act)
    ensures ValidActs(w, acts + [act]) && EndOfActs(w, acts + [act]) == After(EndOfActs(w, acts), act)
    decreases |acts|
  {
    hide Possible, After;
    if acts == [] {
      assert acts + [act] == [act] && [act][1..] == [];
    } else {
      assert (acts + [act])[1..] == acts[1..] + [act];
      ActsThen(After(w, acts[0]), acts[1..], act);
    }
  }

  /** The only task, a seed, has failed for good. */
  ghost predicate OnlySeedFailed(w: World) {
    && w.rows.Keys == {0} && w.nextId == 1
    && w.rows[0].kind == SeedCommunityDiscoveryHosts && Retryable(w.rows[0])
    && w.rows[0].attemptedAt.Some?
  }

  lemma SeedIsQueued() returns (acts: seq<Act>)
    ensures ValidActs(Initial(0.0), acts)
    ensures var w := EndOfActs(Initial(0.0), acts);
      && w.rows == map[0 := NewTask(SeedCommunityDiscoveryHosts, ParamsOf(SeedHosts, ""), 1)]
      && w.nextId == 1 && w.held == map[] && w.resetDone
  {
    var w0 := Initial(0.0);
    ActsThen(w0, [], Other(ResetInterrupted));
    acts := [] + [Other(ResetInterrupted)];
    SeedOnly(EndOfActs(w0, acts), "", 1);
    ActsThen(w0, acts, Produce(EnqueueSeedHosts, "", 1));
    acts := acts + [Produce(EnqueueSeedHosts, "", 1)];
  }

  lemma SeedFails() returns (acts: seq<Act>)
    ensures ValidActs(Initial(0.0), acts)
    ensures OnlySeedFailed(EndOfActs(Initial(0.0), acts))
  {
    var w0, take, err := Initial(0.0), Take(General, 0, map[]), Err(General, "x", false);
    acts := SeedIsQueued();
    var w := EndOfActs(w0, acts);
    SeedErrs(w);
    hide ValidActs, EndOfActs, Enabled, Next, OnlySeedFailed, KeyOf;
    ActsThen(w0, acts, Other(take));
    acts := acts + [Other(take)];
    ActsThen(w0, acts, Other(err));
    acts := acts + [Other(err)];
  }

  lemma SeedErrs(w: World)
    requires w.rows == map[0 := NewTask(SeedCommunityDiscoveryHosts, ParamsOf(SeedHosts, ""), 1)]
    requires w.nextId == 1 && w.held == map[] && w.resetDone
    ensures Enabled(w, Take(General, 0, map[]))
    ensures var w' := Next(w, Take(General, 0, map[]));
      Enabled(w', Err(General, "x", false)) && OnlySeedFailed(Next(w', Err(General, "x", false)))
  {
    hide TerminalErrors.IsTerminal, TerminalErrors.Truncate;
  }

  /** Six hours after a failure the schedule enqueues the seed again; then the failed one can still be retried. */
  lemma SeedThenRetry(w: World, wait: real)
    requires OnlySeedFailed(w) && wait >= 0.0
    requires w.rows[0].attemptedAt.value <= w.now + wait - Hours(6)
    ensures var w' := After(After(w, Other(Tick(wait))), Produce(EnqueueSeedHosts, "", 1));
      && Enabled(w', AdminRetry(0))
      && !Unique(Next(w', AdminRetry(0)).rows)
  {
    var later := After(w, Other(Tick(wait)));
    assert Allowed(later.rows, later.now, SeedHosts);
    SeedOnly(later, "", 1);
    var w' := After(later, Produce(EnqueueSeedHosts, "", 1));
    var rows := Next(w', AdminRetry(0)).rows;
    assert Active(rows[0]) && Active(rows[1]) && rows[0].kind == rows[1].kind;
  }

  /** A reachable state in which a retry queues the same seed twice. */
  lemma RetryQueuesTwice() returns (acts: seq<Act>)
    ensures ValidActs(Initial(0.0), acts)
    ensures Enabled(EndOfActs(Initial(0.0), acts), AdminRetry(0))
    ensures !Unique(Next(EndOfActs(Initial(0.0), acts), AdminRetry(0)).rows)
  {
    hide Enabled, Next, Unique;
    acts := SeedFails();
    var w := EndOfActs(Initial(0.0), acts);
    var wait := 0.0;
    if w.rows[0].attemptedAt.value > w.now - Hours(6) {
      wait := w.rows[0].attemptedAt.value - w.now + Hours(6);
    }
    TickIsPossible(w, wait);
    SeedThenRetry(w, wait);
    ActsThen(Initial(0.0), acts, Other(Tick(wait)));
    acts := acts + [Other(Tick(wait))];
    ActsThen(Initial(0.0), acts, Produce(EnqueueSeedHosts, "", 1));
    acts := acts + [Produce(EnqueueSeedHosts, "", 1)];
  }

  lemma TickIsPossible(w: World, dt: real)
    requires dt >= 0.0
    ensures Possible(w, Other(Tick(dt)))
  {
  }

  /** When a seed is allowed, its statement inserts exactly one row. */
  lemma SeedOnly(w: World, text: string, maxAttempts: nat)
    requires Allowed(w.rows, w.now, SeedHosts) && maxAttempts >= 1
    ensures Inserted(w.rows, w.now, EnqueueSeedHosts) == [SeedHosts]
    ensures After(w, Produce(EnqueueSeedHosts, text, maxAttempts))
         == Next(w, QueueRuns.Event.Enqueue(SeedCommunityDiscoveryHosts, ParamsOf(SeedHosts, text), maxAttempts))
  {
    hide Allowed;
    assert Select(w.rows, w.now, [SeedHosts]) == [SeedHosts];
    assert [SeedHosts][1..] == [];
    var event := QueueRuns.Event.Enqueue(KindOf(SeedHosts), ParamsOf(SeedHosts, text), maxAttempts);
    assert InsertAll(Next(w, event), [], text, maxAttempts) == Next(w, event);
    assert InsertAll(w, [SeedHosts], text, maxAttempts) == Next(w, event);
  }
}
