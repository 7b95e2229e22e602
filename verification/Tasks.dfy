/** Rows of the task table and what each statement of the worker does to one row. */
module Tasks {
  import opened Options
  import Decimal

  datatype State = Pending | Running | Completed | Failed

  datatype Kind =
    | DeliverToAudience
    | DeliverToInbox
    | SeedCommunityDiscoveryHosts
    | SeedDiscourseDiscoveryHosts
    | DiscoverServerCommunities
    | ProbeCommunityHostInteraction
    | FetchCommunityFeatured
    | FetchCommunityOutbox
    | FetchCollectionTargetPreview
    | FetchPostReplies
    | FetchRemotePostRefresh
    | FetchPlatformPostThread
    | IngestObjectFromInbox
    | VerifyAndIngestObjectFromInbox
    | OtherKind(name: string)

  predicate IsInbox(k: Kind) {
    k.IngestObjectFromInbox? || k.VerifyAndIngestObjectFromInbox?
  }

  // The parameters of a task: the serialized payload, with the fields that statements look at,
  // or the small object that replaces a payload that was thrown away.
  datatype Params =
    | Payload(preview: bool, host: Option<string>, community: Option<int>, text: string)
    | Discarded(reason: string, originalBytes: nat)

  function TextOf(p: Params): string {
    match p
    case Payload(_, _, _, text) => text
    case Discarded(reason, bytes) =>
      "{\"discarded\" : true, \"reason\" : \"" + reason + "\", \"original_bytes\" : " + Decimal.Digits(bytes) + "}"
  }

  /** The octets of a text in UTF-8. */
  function Octets(s: string): nat {
    if s == "" then 0
    else (if s[0] < '\U{80}' then 1 else if s[0] < '\U{800}' then 2 else if s[0] < '\U{10000}' then 3 else 4) + Octets(s[1..])
  }

  function OctetLength(p: Params): nat {
    Octets(TextOf(p))
  }

  // Times are seconds.
  datatype Task = Task(
    state: State,
    kind: Kind,
    params: Params,
    attempts: nat,
    maxAttempts: nat,
    attemptedAt: Option<real>,
    completedAt: Option<real>,
    latestError: Option<string>)

  type Table = map<nat, Task>

  // ----- back-off

  const EULER: real := 2.718281828459045

  function Exp(n: nat): (r: real)
    ensures r >= 1.0
  {
    if n == 0 then 1.0 else EULER * Exp(n - 1)
  }

  /** A pending task may start once its back-off has passed. */
  predicate Ready(t: Task, now: real) {
    && t.state.Pending?
    && (t.attemptedAt.None? || t.attemptedAt.value + Exp(t.attempts) * 20.0 < now)
  }

  // ----- statements on one row

  const FAILURE_REASON := "inbox task params removed after permanent failure"
  const SUCCESS_REASON := "inbox task params removed after successful ingest"

  function NewTask(kind: Kind, params: Params, maxAttempts: nat): Task {
    Task(Pending, kind, params, 0, maxAttempts, None, None, None)
  }

  function Discard(t: Task, reason: string): Task {
    t.(params := Discarded(reason, OctetLength(t.params)))
  }

  function Start(t: Task, now: real): Task {
    t.(state := Running, attemptedAt := Some(now), latestError := None)
  }

  function Complete(t: Task, now: real): Task {
    t.(state := Completed, completedAt := Some(now), attempts := t.attempts + 1)
  }

  function Fail(t: Task, error: string, compact: bool, terminal: bool, now: real): Task {
    var failed := t.(
      state := if terminal then Failed else if t.attempts + 1 < t.maxAttempts then Pending else Failed,
      attempts := if terminal then t.maxAttempts else t.attempts + 1,
      latestError := Some(error),
      attemptedAt := Some(now));
    if IsInbox(t.kind) && t.attempts + 1 >= t.maxAttempts && compact then Discard(failed, FAILURE_REASON) else failed
  }

  function Reset(t: Task, now: real): Task {
    if t.state.Running? then
      t.(state := if t.attempts + 1 < t.maxAttempts then Pending else Failed,
         attempts := t.attempts + 1,
         latestError := Some("Worker stopped while task was running"),
         attemptedAt := Some(now))
    else t
  }

  /** An administrator may retry a failed task whose payload is still there. */
  predicate Retryable(t: Task) {
    t.state.Failed? && t.params.Payload?
  }

  function Retry(t: Task): Task {
    t.(state := Pending, attempts := 0, latestError := None, attemptedAt := None, completedAt := None)
  }

  // ----- statements on every row that matches

  datatype Sweep =
    | DeleteCompleted(days: int)
    | DeleteFailedInbox(days: int)
    | DeleteFailed(days: int)
    | CompactFailedInbox(hours: int)
    | CompactCompletedInbox
    | FailTerminal
    | CompleteIrrelevant

  predicate Before(at: Option<real>, limit: real) {
    at.Some? && at.value < limit
  }

  function Days(n: int): real { 86400.0 * (n as real) }

  function Hours(n: int): real { 3600.0 * (n as real) }

  /** What a sweep depends on besides the rows: the clock, which received activities concern nothing
      that is known here, and which stored errors the list of terminal patterns matches. */
  datatype Env = Env(now: real, irrelevant: set<nat>, terminal: string -> bool)

  predicate Matches(s: Sweep, id: nat, t: Task, env: Env) {
    match s
    case DeleteCompleted(days) => t.state.Completed? && Before(t.completedAt, env.now - Days(days))
    case DeleteFailedInbox(days) =>
      t.state.Failed? && IsInbox(t.kind) && Before(t.attemptedAt, env.now - Days(days))
    case DeleteFailed(days) => t.state.Failed? && Before(t.attemptedAt, env.now - Days(days))
    case CompactFailedInbox(hours) =>
      && t.state.Failed? && IsInbox(t.kind)
      && Before(t.attemptedAt, env.now - Hours(hours))
      && t.params.Payload?
    case CompactCompletedInbox =>
      && t.state.Completed? && IsInbox(t.kind)
      && Before(t.completedAt, env.now - Hours(1))
      && t.params.Payload?
    case FailTerminal =>
      && t.state.Pending? && IsInbox(t.kind)
      && t.attemptedAt.Some?
      && t.latestError.Some? && env.terminal(t.latestError.value)
    case CompleteIrrelevant =>
      t.state.Pending? && t.kind.VerifyAndIngestObjectFromInbox? && id in env.irrelevant
  }

  /** What a sweep leaves of a row that it matches; nothing when it deletes the row. */
  function Swept(s: Sweep, t: Task, env: Env): Option<Task> {
    match s
    case DeleteCompleted(_) => None
    case DeleteFailedInbox(_) => None
    case DeleteFailed(_) => None
    case CompactFailedInbox(_) => Some(Discard(t, FAILURE_REASON))
    case CompactCompletedInbox => Some(Discard(t, SUCCESS_REASON))
    case FailTerminal => Some(t.(state := Failed, attempts := t.maxAttempts, attemptedAt := Some(env.now)))
    case CompleteIrrelevant =>
      Some(t.(state := Completed, attempts := t.attempts + 1, completedAt := Some(env.now), latestError := None))
  }

  function Deletes(s: Sweep): bool {
    s.DeleteCompleted? || s.DeleteFailedInbox? || s.DeleteFailed?
  }

  /** The table after a sweep changed the picked rows. */
  function SweepRows(rows: Table, s: Sweep, picked: set<nat>, env: Env): Table
    requires picked <= rows.Keys
  {
    map id | id in rows && !(id in picked && Deletes(s)) ::
      if id in picked then (match Swept(s, rows[id], env) case Some(t) => t case None => rows[id]) else rows[id]
  }

  function Matching(rows: Table, s: Sweep, env: Env): set<nat> {
    set id | id in rows && Matches(s, id, rows[id], env)
  }
}
