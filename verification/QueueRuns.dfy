/** Runs of the task queue: four lanes, crashes, the reset at start, the janitor, the cleanup,
    enqueuers and administrators, all changing the same rows, one statement at a time. */
module QueueRuns {
  import opened Options
  import opened Tasks
  import opened Lanes
  import opened TerminalErrors

  // What happened to a task: its payload as enqueued, the times of its starts since it was enqueued
  // or last retried by an administrator, the number of starts before that, and the number of retries.
  datatype History = History(payload: Params, starts: seq<real>, startedBefore: nat, retries: nat)

  datatype World = World(
    rows: Table,
    nextId: nat,
    held: map<Lane, nat>,     // the task that each busy lane works on
    resetDone: bool,          // the general lane has reset interrupted tasks since the worker started
    now: real,
    history: map<nat, History>)

  datatype Event =
    | Tick(dt: real)
    | Enqueue(kind: Kind, params: Params, maxAttempts: nat)
    | Take(lane: Lane, id: nat, servers: Servers)
    | Succeed(lane: Lane)
    | Err(lane: Lane, error: string, compact: bool)
    | Crash
    | ResetInterrupted
    | SweepUp(sweep: Sweep, picked: set<nat>, irrelevant: set<nat>, terminal: string -> bool)
    | AdminRetry(id: nat)

  function EnvOf(w: World, e: Event): Env
    requires e.SweepUp?
  {
    Env(w.now, e.irrelevant, e.terminal)
  }

  /** When an event can happen. All lanes start together with the worker, but the general lane resets
      interrupted tasks before it takes any. */
  predicate Enabled(w: World, e: Event) {
    match e
    case Tick(dt) => dt >= 0.0
    case Enqueue(_, params, maxAttempts) => params.Payload? && maxAttempts >= 1
    case Take(lane, id, servers) =>
      && lane !in w.held
      && IsNext(lane, w.rows, id, w.now, servers)
      && (lane.General? ==> w.resetDone)
    case Succeed(lane) => lane in w.held
    case Err(lane, _, _) => lane in w.held
    case Crash => true
    case ResetInterrupted => !w.resetDone
    case SweepUp(sweep, picked, _, _) => picked <= Matching(w.rows, sweep, EnvOf(w, e))
    case AdminRetry(id) => id in w.rows && Retryable(w.rows[id])
  }

  function Errs(t: Task, error: string, compact: bool, now: real): Task {
    var stored := Truncate(error);
    Fail(t, stored, compact, IsTerminal(t.kind, stored), now)
  }

  function ResetAll(rows: Table, now: real): Table {
    map id | id in rows :: Reset(rows[id], now)
  }

  function Restarted(h: History): History {
    History(h.payload, [], h.startedBefore + |h.starts|, h.retries + 1)
  }

  function Next(w: World, e: Event): World
    requires Enabled(w, e)
  {
    match e
    case Tick(dt) => w.(now := w.now + dt)
    case Enqueue(kind, params, maxAttempts) =>
      w.(rows := w.rows[w.nextId := NewTask(kind, params, maxAttempts)],
         history := w.history[w.nextId := History(params, [], 0, 0)],
         nextId := w.nextId + 1)
    case Take(lane, id, _) =>
      w.(rows := w.rows[id := Start(w.rows[id], w.now)],
         held := w.held[lane := id],
         history := if id in w.history
                    then w.history[id := w.history[id].(starts := w.history[id].starts + [w.now])]
                    else w.history)
    case Succeed(lane) =>
      var id := w.held[lane];
      w.(rows := if id in w.rows then w.rows[id := Complete(w.rows[id], w.now)] else w.rows,
         held := w.held - {lane})
    case Err(lane, error, compact) =>
      var id := w.held[lane];
      w.(rows := if id in w.rows then w.rows[id := Errs(w.rows[id], error, compact, w.now)] else w.rows,
         held := w.held - {lane})
    case Crash => w.(held := map[], resetDone := false)
    case ResetInterrupted => w.(rows := ResetAll(w.rows, w.now), resetDone := true)
    case SweepUp(sweep, picked, _, _) => w.(rows := SweepRows(w.rows, sweep, picked, EnvOf(w, e)))
    case AdminRetry(id) =>
      w.(rows := w.rows[id := Retry(w.rows[id])],
         history := if id in w.history then w.history[id := Restarted(w.history[id])] else w.history)
  }

  ghost predicate ValidRun(w: World, events: seq<Event>)
    decreases |events|
  {
    events == []
    || (Enabled(w, events[0]) && ValidRun(Next(w, events[0]), events[1..]))
  }

  ghost function EndOf(w: World, events: seq<Event>): World
    requires ValidRun(w, events)
    decreases |events|
  {
    if events == [] then w else EndOf(Next(w, events[0]), events[1..])
  }

  function Initial(now: real): World {
    World(map[], 0, map[], false, now, map[])
  }

  // ----- the invariant

  function Last(s: seq<real>): real
    requires s != []
  {
    s[|s| - 1]
  }

  /** Every start comes later than the back-off after the start before it. */
  ghost predicate Spaced(starts: seq<real>) {
    forall i | 1 <= i < |starts| :: starts[i] > starts[i - 1] + Exp(i) * 20.0
  }

  predicate ParamsOk(t: Task, h: History) {
    && h.payload.Payload?
    && (|| t.params == h.payload
        || (&& t.params.Discarded? && t.params.originalBytes == OctetLength(h.payload)
            && (t.state.Completed? || t.state.Failed?)))
  }

  predicate StateOk(t: Task, h: History) {
    && t.maxAttempts >= 1
    && match t.state
       case Pending => && t.attempts < t.maxAttempts && |h.starts| == t.attempts
                       && (h.starts != [] ==> t.attemptedAt.Some? && Last(h.starts) <= t.attemptedAt.value)
       case Running => && t.attempts < t.maxAttempts && |h.starts| == t.attempts + 1
                       && t.attemptedAt == Some(Last(h.starts))
       case Completed => 1 <= t.attempts <= t.maxAttempts && |h.starts| <= t.maxAttempts
       case Failed => t.attempts == t.maxAttempts && |h.starts| <= t.maxAttempts
  }

  ghost predicate RowOk(t: Task, h: History, now: real) {
    && ParamsOk(t, h)
    && StateOk(t, h)
    && Spaced(h.starts)
    && (forall i | 0 <= i < |h.starts| :: h.starts[i] <= now)
    && h.startedBefore <= t.maxAttempts * h.retries
  }

  ghost predicate RowsOk(w: World) {
    && (forall id | id in w.rows :: id < w.nextId)
    && w.rows.Keys <= w.history.Keys
    && forall id | id in w.rows :: RowOk(w.rows[id], w.history[id], w.now)
  }

  /** What a lane holds is running, and no two lanes hold the same task. */
  ghost predicate LanesOk(w: World) {
    && (forall lane | lane in w.held :: w.held[lane] in w.rows && w.rows[w.held[lane]].state.Running?)
    && (forall a, b | a in w.held && b in w.held && w.held[a] == w.held[b] :: a == b)
  }

  ghost predicate Inv(w: World) {
    RowsOk(w) && LanesOk(w)
  }

  lemma NextIdIsNew(w: World)
    requires Inv(w)
    ensures w.nextId !in w.rows
  {
  }

  /** A reset is quiet when no lane is at work on a task. */
  predicate Quiet(w: World, e: Event) {
    e.ResetInterrupted? ==> w.held == map[]
  }

  ghost predicate QuietResets(w: World, events: seq<Event>)
    requires ValidRun(w, events)
    decreases |events|
  {
    events == [] || (Quiet(w, events[0]) && QuietResets(Next(w, events[0]), events[1..]))
  }

  lemma StartRow(t: Task, h: History, now: real)
    requires RowOk(t, h, now) && Ready(t, now)
    ensures RowOk(Start(t, now), h.(starts := h.starts + [now]), now)
  {
    if h.starts != [] {
      assert (h.starts + [now])[|h.starts| - 1] == Last(h.starts);
    }
  }

  lemma CompleteRow(t: Task, h: History, now: real)
    requires RowOk(t, h, now) && t.state.Running?
    ensures RowOk(Complete(t, now), h, now)
  {
  }

  lemma ErrRow(t: Task, h: History, error: string, compact: bool, now: real)
    requires RowOk(t, h, now) && t.state.Running?
    ensures RowOk(Errs(t, error, compact, now), h, now)
    ensures !Errs(t, error, compact, now).state.Running?
  {
    hide IsTerminal, Truncate;
  }

  lemma TakeKeepsRows(w: World, lane: Lane, id: nat, servers: Servers)
    requires Inv(w) && Enabled(w, Take(lane, id, servers))
    ensures RowsOk(Next(w, Take(lane, id, servers)))
  {
    StartRow(w.rows[id], w.history[id], w.now);
    hide RowOk, LanesOk;
  }

  lemma TakeKeepsLanes(w: World, lane: Lane, id: nat, servers: Servers)
    requires Inv(w) && Enabled(w, Take(lane, id, servers))
    ensures LanesOk(Next(w, Take(lane, id, servers)))
  {
    hide RowOk, Rank, Ahead, Exp, Handles;
  }

  lemma FinishKeepsRows(w: World, w': World, id: nat, t: Task)
    requires Inv(w) && id in w.rows && RowOk(t, w.history[id], w.now)
    requires w'.rows == w.rows[id := t] && w'.nextId == w.nextId && w'.now == w.now && w'.history == w.history
    ensures RowsOk(w')
  {
    hide RowOk, LanesOk;
  }

  lemma FinishKeepsHeld(w: World, w': World, lane: Lane, t: Task)
    requires LanesOk(w) && lane in w.held
    requires w'.rows == w.rows[w.held[lane] := t] && w'.held == w.held - {lane}
    ensures forall l | l in w'.held :: w'.held[l] in w'.rows && w'.rows[w'.held[l]].state.Running?
    ensures forall a, b | a in w'.held && b in w'.held && w'.held[a] == w'.held[b] :: a == b
  {
    forall l | l in w'.held ensures w'.held[l] in w'.rows && w'.rows[w'.held[l]].state.Running? {
      assert l in w.held && w.held[l] != w.held[lane];
    }
  }

  /** A lane that finishes gives up its task, whatever the row of the task became. */
  lemma FinishKeeps(w: World, w': World, lane: Lane, t: Task)
    requires Inv(w) && lane in w.held
    requires RowOk(t, w.history[w.held[lane]], w.now) && !t.state.Running?
    requires w' == w.(rows := w.rows[w.held[lane] := t], held := w.held - {lane})
    ensures Inv(w')
  {
    FinishKeepsRows(w, w', w.held[lane], t);
    FinishKeepsHeld(w, w', lane, t);
    hide RowOk, RowsOk;
  }

  lemma SucceedKeeps(w: World, lane: Lane)
    requires Inv(w) && Enabled(w, Succeed(lane))
    ensures Inv(Next(w, Succeed(lane)))
  {
    var id := w.held[lane];
    CompleteRow(w.rows[id], w.history[id], w.now);
    FinishKeeps(w, Next(w, Succeed(lane)), lane, Complete(w.rows[id], w.now));
  }

  lemma ErrKeeps(w: World, lane: Lane, error: string, compact: bool)
    requires Inv(w) && Enabled(w, Err(lane, error, compact))
    ensures Inv(Next(w, Err(lane, error, compact)))
  {
    hide Errs;
    var id := w.held[lane];
    ErrRow(w.rows[id], w.history[id], error, compact, w.now);
    FinishKeeps(w, Next(w, Err(lane, error, compact)), lane, Errs(w.rows[id], error, compact, w.now));
  }

  lemma ResetKeeps(w: World)
    requires Inv(w) && Enabled(w, ResetInterrupted) && w.held == map[]
    ensures Inv(Next(w, ResetInterrupted))
  {
    var w' := Next(w, ResetInterrupted);
    forall id | id in w'.rows ensures RowOk(w'.rows[id], w'.history[id], w'.now) {
      assert RowOk(w.rows[id], w.history[id], w.now);
    }
  }

  lemma SweptRow(t: Task, h: History, sweep: Sweep, id: nat, env: Env)
    requires RowOk(t, h, env.now) && Matches(sweep, id, t, env) && Swept(sweep, t, env).Some?
    ensures RowOk(Swept(sweep, t, env).value, h, env.now)
    ensures !Swept(sweep, t, env).value.state.Running?
  {
  }

  lemma SweepKeepsRows(w: World, e: Event)
    requires Inv(w) && e.SweepUp? && Enabled(w, e)
    ensures RowsOk(Next(w, e))
  {
    var w', env := Next(w, e), EnvOf(w, e);
    hide RowOk, LanesOk;
    forall id | id in w'.rows ensures RowOk(w'.rows[id], w'.history[id], w'.now) {
      if id in e.picked {
        SweptRow(w.rows[id], w.history[id], e.sweep, id, env);
      }
    }
  }

  /** A sweep matches no running row and makes none. */
  lemma SweepSparesRunning(w: World, e: Event, id: nat)
    requires e.SweepUp? && Enabled(w, e) && id in w.rows
    ensures w.rows[id].state.Running? ==> id in Next(w, e).rows && Next(w, e).rows[id] == w.rows[id]
    ensures id in Next(w, e).rows && Next(w, e).rows[id].state.Running? ==> w.rows[id].state.Running?
  {
    if id in e.picked {
      assert Matches(e.sweep, id, w.rows[id], EnvOf(w, e));
    }
  }

  lemma SweepKeeps(w: World, e: Event)
    requires Inv(w) && e.SweepUp? && Enabled(w, e)
    ensures Inv(Next(w, e))
  {
    SweepKeepsRows(w, e);
    hide RowOk, Matches, Swept;
    forall id | id in w.rows
      ensures w.rows[id].state.Running? ==> id in Next(w, e).rows && Next(w, e).rows[id] == w.rows[id]
      ensures id in Next(w, e).rows && Next(w, e).rows[id].state.Running? ==> w.rows[id].state.Running?
    {
      SweepSparesRunning(w, e, id);
    }
  }

  lemma RetryRow(t: Task, h: History, now: real)
    requires RowOk(t, h, now) && Retryable(t)
    ensures RowOk(Retry(t), Restarted(h), now)
  {
    assert t.maxAttempts * (h.retries + 1) == t.maxAttempts * h.retries + t.maxAttempts;
  }

  lemma IdleRowKeeps(w: World, id: nat, t: Task, h: History)
    requires Inv(w) && id in w.rows && !w.rows[id].state.Running?
    requires RowOk(t, h, w.now) && !t.state.Running?
    ensures Inv(w.(rows := w.rows[id := t], history := w.history[id := h]))
  {
    hide RowOk;
  }

  lemma RetryKeeps(w: World, id: nat)
    requires Inv(w) && Enabled(w, AdminRetry(id))
    ensures Inv(Next(w, AdminRetry(id)))
  {
    RetryRow(w.rows[id], w.history[id], w.now);
    hide RowOk, LanesOk;
    IdleRowKeeps(w, id, Retry(w.rows[id]), Restarted(w.history[id]));
  }

  lemma EnqueueKeeps(w: World, e: Event)
    requires Inv(w) && e.Enqueue? && Enabled(w, e)
    ensures Inv(Next(w, e))
  {
    var w' := Next(w, e);
    assert w.nextId !in w.rows;
    assert RowOk(w'.rows[w.nextId], w'.history[w.nextId], w'.now);
  }

  /** Every event keeps the invariant, except for a reset while a lane is at work. */
  lemma StepKeeps(w: World, e: Event)
    requires Inv(w) && Enabled(w, e) && Quiet(w, e)
    ensures Inv(Next(w, e))
  {
    match e {
      case Tick(_) =>
        forall id | id in w.rows ensures RowOk(w.rows[id], w.history[id], w.now + e.dt) {
          assert RowOk(w.rows[id], w.history[id], w.now);
        }
      case Enqueue(_, _, _) => EnqueueKeeps(w, e);
      case Take(lane, id, servers) =>
        TakeKeepsRows(w, lane, id, servers);
        TakeKeepsLanes(w, lane, id, servers);
      case Succeed(lane) => SucceedKeeps(w, lane);
      case Err(lane, error, compact) => ErrKeeps(w, lane, error, compact);
      case Crash =>
      case ResetInterrupted => ResetKeeps(w);
      case SweepUp(_, _, _, _) => SweepKeeps(w, e);
      case AdminRetry(id) => RetryKeeps(w, id);
    }
  }

  lemma {:induction false} RunKeeps(w: World, events: seq<Event>)
    requires Inv(w) && ValidRun(w, events) && QuietResets(w, events)
    ensures Inv(EndOf(w, events))
    decreases |events|
  {
    if events != [] {
      StepKeeps(w, events[0]);
      RunKeeps(Next(w, events[0]), events[1..]);
    }
  }
}
