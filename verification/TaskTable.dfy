/** The task table as the worker changes it: one method for each statement, and the lane step that
    combines a take with its finish. */
module TaskTables {
  import opened Batches
  import opened Options
  import opened Tasks
  import opened Lanes
  import opened LaneOrders
  import opened TerminalErrors
  import opened TerminalWords
  import opened QueueRuns

  // How performing a task ended; a timeout is an error.
  datatype Outcome = Done | Failure(error: string)

  function Finished(t: Task, outcome: Outcome, compact: bool, now: real): Task {
    match outcome
    case Done => Complete(t, now)
    case Failure(error) => Errs(t, error, compact, now)
  }

  // ----- the rows that one statement picks

  /** What a sweep orders its rows by. */
  function OrderKey(s: Sweep, id: nat, t: Task): real {
    match s
    case CompleteIrrelevant => id as real
    case _ =>
      var at := if s.DeleteCompleted? || s.CompactCompletedInbox? then t.completedAt else t.attemptedAt;
      if at.Some? then at.value else 0.0
  }

  /** A batch: as many matching rows as the limit allows, the lowest by order key. */
  predicate IsBatch(rows: Table, s: Sweep, env: Env, limit: nat, picked: set<nat>) {
    IsLowest(Matching(rows, s, env), KeyOf(rows, s), limit, picked)
  }

  function KeyOf(rows: Table, s: Sweep): nat -> real {
    (id: nat) => if id in rows then OrderKey(s, id, rows[id]) else 0.0
  }

  /** A batch leaves nothing older than what it picks: by completion, by last attempt, or by id. */
  lemma BatchIsOldest(rows: Table, s: Sweep, env: Env, limit: nat, picked: set<nat>, a: nat, b: nat)
    requires IsBatch(rows, s, env, limit, picked)
    requires a in picked && b in rows && b !in picked && Matches(s, b, rows[b], env)
    ensures a in rows && match s
      case DeleteCompleted(_) => OldestFirst(rows[a].completedAt, rows[b].completedAt)
      case CompactCompletedInbox => OldestFirst(rows[a].completedAt, rows[b].completedAt)
      case CompleteIrrelevant => a <= b
      case _ => OldestFirst(rows[a].attemptedAt, rows[b].attemptedAt)
  {
    assert a in Matching(rows, s, env) && b in Matching(rows, s, env) - picked;
    assert KeyOf(rows, s)(a) <= KeyOf(rows, s)(b);
  }

  predicate OldestFirst(a: Option<real>, b: Option<real>) {
    a.Some? && b.Some? && a.value <= b.value
  }

  /** No lane will take the task at any time. */
  ghost predicate Over(t: Task) {
    forall lane, now :: !Eligible(lane, t, now)
  }

  /** The general lane may take the task at once, and so may the lane of its kind. */
  ghost predicate Fresh(t: Task, now: real) {
    forall lane | Handles(lane, t.kind) :: Eligible(lane, t, now)
  }

  // ----- what becomes of a row, field by field

  /** The same work with the same budget. */
  predicate SameWork(t: Task, t': Task) {
    t'.kind == t.kind && t'.maxAttempts == t.maxAttempts
  }

  ghost predicate StartedAs(t: Task, t': Task, now: real) {
    && SameWork(t, t') && t'.state == Running && t'.attemptedAt == Some(now) && t'.latestError == None
    && t'.attempts == t.attempts && t'.params == t.params && t'.completedAt == t.completedAt
  }

  ghost predicate CompletedAs(t: Task, t': Task, now: real) {
    && SameWork(t, t') && t'.state == Completed && t'.completedAt == Some(now)
    && t'.attempts == t.attempts + 1 && t'.params == t.params
  }

  /** A row fails for good when the error is final or the attempt was the last, and then loses the payload of an
      inbox task after its last attempt, unless that is switched off. Otherwise it is pending again. */
  ghost predicate FailedAs(t: Task, t': Task, error: string, compact: bool, now: real) {
    var final, last := Final(t.kind, Truncate(error)), t.attempts + 1 >= t.maxAttempts;
    && SameWork(t, t') && t'.completedAt == t.completedAt
    && t'.state == (if final || last then Failed else Pending)
    && t'.attempts == (if final then t.maxAttempts else t.attempts + 1)
    && t'.attemptedAt == Some(now) && t'.latestError == Some(Truncate(error))
    && t'.params == if compact && last && (t.kind == IngestObjectFromInbox || t.kind == VerifyAndIngestObjectFromInbox)
                    then Discarded("inbox task params removed after permanent failure", Octets(TextOf(t.params)))
                    else t.params
  }

  ghost predicate ResetAs(t: Task, t': Task, now: real) {
    && SameWork(t, t') && t'.params == t.params && t'.completedAt == t.completedAt
    && t'.state == (if t.attempts + 1 < t.maxAttempts then Pending else Failed)
    && t'.attempts == t.attempts + 1 && t'.attemptedAt == Some(now)
    && t'.latestError == Some("Worker stopped while task was running")
  }

  lemma ErrsAsSaid(t: Task, error: string, compact: bool, now: real)
    ensures FailedAs(t, Errs(t, error, compact, now), error, compact, now)
  {
    hide IsTerminal, Truncate, Final, TextOf, Octets;
    TerminalExactly(t.kind, Truncate(error));
  }

  lemma ResetsAsSaid(t: Task, now: real)
    ensures !Reset(t, now).state.Running?
    ensures if t.state == Running then ResetAs(t, Reset(t, now), now) else Reset(t, now) == t
  {
  }

  class TaskTable {
    var rows: Table
    var nextId: nat
    var held: map<Lane, nat>   // the task that each busy lane works on
    var resetDone: bool
    var now: real              // the clock of the database
    ghost var history: map<nat, History>

    ghost function World(): World
      reads this
    {
      QueueRuns.World.World(rows, nextId, held, resetDone, now, history)
    }

    /** The invariant of every run in which no reset takes a task away from a lane. */
    ghost predicate Valid()
      reads this
    {
      Inv(World())
    }

    constructor (now: real)
      ensures Valid() && World() == Initial(now)
    {
      rows, nextId, held, resetDone, history := map[], 0, map[], false, map[];
      this.now := now;
    }

    /** A row for a new task, which may be taken at once. */
    method Enqueue(kind: Kind, params: Params, maxAttempts: nat) returns (id: nat)
      requires Valid() && params.Payload? && maxAttempts >= 1
      modifies `rows, `nextId, `history
      ensures Valid() && World() == Next(old(World()), Event.Enqueue(kind, params, maxAttempts))
      ensures id !in old(rows) && id in rows && Fresh(rows[id], now) && rows[id].params == params
      ensures rows[id].kind == kind && rows[id].maxAttempts == maxAttempts && rows[id].attempts == 0
      ensures forall other | other in old(rows) :: other in rows && rows[other] == old(rows)[other]
    {
      id := nextId;
      EnqueueKeeps(World(), Event.Enqueue(kind, params, maxAttempts));
      NextIdIsNew(World());
      rows := rows[id := NewTask(kind, params, maxAttempts)];
      history := history[id := History(params, [], 0, 0)];
      nextId := nextId + 1;
    }

    /** A free lane takes its next task, with the payload that the task was enqueued with. */
    method TakeNext(lane: Lane, servers: Servers) returns (taken: Option<nat>)
      requires Valid() && lane !in held && (lane.General? ==> resetDone)
      modifies `rows, `held, `history
      ensures Valid()
      ensures taken.None? ==> World() == old(World()) && forall id | id in rows :: !Eligible(lane, rows[id], now)
      ensures taken.Some? ==>
        && IsNext(lane, old(rows), taken.value, now, servers)
        && World() == Next(old(World()), Take(lane, taken.value, servers))
        && rows[taken.value].params == history[taken.value].payload
        && rows[taken.value].attempts < rows[taken.value].maxAttempts
      ensures taken.None? ==> forall id | id in rows :: !Waits(lane, rows[id], now)
      ensures taken.Some? ==>
        && ComesFirst(lane, old(rows), taken.value, now, servers)
        && StartedAs(old(rows)[taken.value], rows[taken.value], now)
        && rows == old(rows)[taken.value := rows[taken.value]] && held == old(held)[lane := taken.value]
    {
      LaneTakes(lane, rows, now, servers);
      hide ComesFirst, Waits, IsNext, Eligible, Inv;
      taken := FindNext(lane, rows, now, servers);
      if taken.Some? {
        var id := taken.value;
        StepKeeps(World(), Take(lane, id, servers));
        RowFacts(World(), id);
        NextIsPending(lane, rows, id, now, servers);
        var t := rows[id];
        rows := rows[id := t.(state := Running, attemptedAt := Some(now), latestError := None)];
        held := held[lane := id];
        history := history[id := history[id].(starts := history[id].starts + [now])];
      }
    }

    /** The task of a lane has been performed; no lane will take it again. */
    method CompleteTask(lane: Lane)
      requires Valid() && lane in held
      modifies `rows, `held
      ensures Valid() && World() == Next(old(World()), Succeed(lane))
      ensures var id := old(held)[lane];
        && id in rows && Over(rows[id]) && 1 <= rows[id].attempts <= rows[id].maxAttempts
        && lane !in held && forall other | other in held :: held[other] != id
      ensures var id := old(held)[lane];
        && rows == old(rows)[id := rows[id]] && held == old(held) - {lane}
        && CompletedAs(old(rows)[id], rows[id], now)
    {
      hide Inv, RowOk, RowsOk, LanesOk;
      AfterSucceed(World(), lane);
      var id := held[lane];
      if id in rows {
        var t := rows[id];
        rows := rows[id := t.(state := Completed, completedAt := Some(now), attempts := t.attempts + 1)];
      }
      held := held - {lane};
    }

    /** Performing the task of a lane has failed: either no lane will take it again, or none before the
        back-off for its new number of attempts has passed. */
    method FailTask(lane: Lane, error: string, compact: bool)
      requires Valid() && lane in held
      modifies `rows, `held
      ensures Valid() && World() == Next(old(World()), Err(lane, error, compact))
      ensures var id := old(held)[lane];
        && id in rows && lane !in held
        && (IsTerminal(rows[id].kind, Truncate(error)) ==> Over(rows[id]))
        && (forall any, at | Eligible(any, rows[id], at) :: at > now + 20.0 * Exp(rows[id].attempts))
      ensures var id := old(held)[lane];
        && rows == old(rows)[id := rows[id]] && held == old(held) - {lane}
        && FailedAs(old(rows)[id], rows[id], error, compact, now)
        && forall any, at :: Eligible(any, rows[id], at) <==>
             rows[id].state == Pending && Takes(any, rows[id].kind) && at - now > 20.0 * Exp(rows[id].attempts)
    {
      hide IsTerminal, Truncate, Inv, RowOk, RowsOk, LanesOk, Fail, Over, Eligible;
      AfterErr(World(), lane, error, compact);
      var id := held[lane];
      ErrsAsSaid(rows[id], error, compact, now);
      var stored := Truncate(error);
      var terminal := IsTerminal(rows[id].kind, stored);
      rows := rows[id := Fail(rows[id], stored, compact, terminal, now)];
      held := held - {lane};
      AgainExactly(rows[id], now);
    }

    /** The process ends; its lanes forget their tasks, the rows stay as they are. */
    method Crash()
      requires Valid()
      modifies `held, `resetDone
      ensures Valid() && World() == Next(old(World()), Event.Crash)
      ensures held == map[] && !resetDone
    {
      held, resetDone := map[], false;
    }

    /** The first statement of the general lane. No row is running afterwards, and the table stays valid if
        and only if no other lane is at work already. */
    method ResetInterrupted()
      requires Valid() && !resetDone
      modifies `rows, `resetDone
      ensures World() == Next(old(World()), Event.ResetInterrupted)
      ensures Valid() <==> held == map[]
      ensures forall id | id in rows :: !rows[id].state.Running?
      ensures rows.Keys == old(rows).Keys && forall id | id in rows ::
        if old(rows)[id].state == Running then ResetAs(old(rows)[id], rows[id], now) else rows[id] == old(rows)[id]
    {
      hide Inv, Reset, ResetAs;
      if held == map[] {
        StepKeeps(World(), Event.ResetInterrupted);
      } else {
        LoudReset(World());
      }
      forall id | id in rows
        ensures !Reset(rows[id], now).state.Running?
        ensures if rows[id].state == Running then ResetAs(rows[id], Reset(rows[id], now), now)
                else Reset(rows[id], now) == rows[id]
      {
        ResetsAsSaid(rows[id], now);
      }
      rows := map id | id in rows :: Reset(rows[id], now);
      resetDone := true;
    }

    /** An administrator retries a failed task that still has its payload; it may be taken at once. */
    method RetryFailed(id: nat) returns (found: bool)
      requires Valid()
      modifies `rows, `history
      ensures Valid() && (found <==> Enabled(old(World()), AdminRetry(id)))
      ensures World() == if found then Next(old(World()), AdminRetry(id)) else old(World())
      ensures found ==> Fresh(rows[id], now) && rows[id].params == history[id].payload
      ensures found <==> id in old(rows) && old(rows)[id].state == Failed && old(rows)[id].params.Payload?
      ensures found ==>
        && rows == old(rows)[id := rows[id]] && SameWork(old(rows)[id], rows[id])
        && rows[id].attempts == 0 && rows[id].attemptedAt == None
        && rows[id].latestError == None && rows[id].completedAt == None
    {
      found := id in rows && Retryable(rows[id]);
      if found {
        StepKeeps(World(), AdminRetry(id));
        RowFacts(World(), id);
        history := history[id := Restarted(history[id])];
        rows := rows[id := Retry(rows[id])];
      }
    }

    method RunSweep(s: Sweep, env: Env, limit: nat) returns (changed: nat, ghost picked: set<nat>)
      requires Valid() && env.now == now
      modifies `rows
      ensures IsBatch(old(rows), s, env, limit, picked) && changed == |picked|
      ensures Valid() && World() == Next(old(World()), SweepUp(s, picked, env.irrelevant, env.terminal))
      ensures rows == SweepRows(old(rows), s, picked, env)
    {
      var batch := PickLowest(Matching(rows, s, env), KeyOf(rows, s), limit);
      SweepStep(World(), s, batch, env);
      rows := SweepRows(rows, s, batch, env);
      changed, picked := |batch|, batch;
    }

    /** One round of a free lane: take the next task, perform it, record how it ended. */
    method PerformNext(lane: Lane, servers: Servers, outcome: Outcome, compact: bool, dt: real) returns (worked: bool)
      requires Valid() && lane !in held && (lane.General? ==> resetDone) && dt >= 0.0
      modifies this
      ensures Valid() && held == old(held)
      ensures worked <==> exists id :: IsNext(lane, old(rows), id, old(now), servers)
      ensures !worked ==> World() == old(World())
      ensures forall id | IsNext(lane, old(rows), id, old(now), servers) ::
        && now == old(now) + dt
        && rows == old(rows)[id := Finished(Start(old(rows)[id], old(now)), outcome, compact, now)]
        && match outcome
           case Done => CompletedAs(old(rows)[id], rows[id], now)
           case Failure(error) => FailedAs(old(rows)[id], rows[id], error, compact, now)
    {
      hide Inv, IsTerminal, Truncate, Next, Over, Eligible, Ahead, Finished, Exp, Final, Waits, ComesFirst, Octets, TextOf,
           StartedAs, CompletedAs, FailedAs, StateOk, ParamsOk;
      ghost var w := World();
      var before, start := rows, now;
      var taken := TakeNext(lane, servers);
      if taken.None? {
        return false;
      }
      forall id | IsNext(lane, before, id, start, servers) ensures id == taken.value {
        NextIsUnique(lane, before, id, taken.value, start, servers);
      }
      RoundWorld(w, lane, taken.value, servers, dt, outcome, compact);
      AfterTick(World(), dt);
      now := now + dt;
      match outcome {
        case Done => CompleteTask(lane);
        case Failure(error) => FailTask(lane, error, compact);
      }
      RoundAsSaid(before[taken.value], Start(before[taken.value], start), rows[taken.value], start, compact, now);
      worked := true;
    }
  }

  /** What the invariant says about one row. */
  lemma RowFacts(w: World, id: nat)
    requires Inv(w) && id in w.rows
    ensures id in w.history && ParamsOk(w.rows[id], w.history[id]) && StateOk(w.rows[id], w.history[id])
  {
    assert RowOk(w.rows[id], w.history[id], w.now);
  }

  lemma NextIsPending(lane: Lane, rows: Table, id: nat, now: real, servers: Servers)
    requires IsNext(lane, rows, id, now, servers)
    ensures rows[id].state.Pending?
  {
  }

  /** What a lane takes, and when it takes nothing. */
  lemma LaneTakes(lane: Lane, rows: Table, now: real, servers: Servers)
    ensures forall id | IsNext(lane, rows, id, now, servers) :: ComesFirst(lane, rows, id, now, servers)
    ensures forall id | id in rows :: Eligible(lane, rows[id], now) <==> Waits(lane, rows[id], now)
  {
    hide IsNext, ComesFirst, Waits, Eligible;
    forall id | IsNext(lane, rows, id, now, servers) ensures ComesFirst(lane, rows, id, now, servers) {
      TakeExactly(lane, rows, id, now, servers);
    }
    forall id | id in rows ensures Eligible(lane, rows[id], now) <==> Waits(lane, rows[id], now) {
      WaitsExactly(lane, rows[id], now);
    }
  }

  /** Starting a row does not change what finishing it comes to. */
  lemma RoundAsSaid(t: Task, started: Task, t': Task, start: real, compact: bool, now: real)
    requires started == Start(t, start)
    ensures CompletedAs(started, t', now) ==> CompletedAs(t, t', now)
    ensures forall error | FailedAs(started, t', error, compact, now) :: FailedAs(t, t', error, compact, now)
  {
    hide Final, Truncate, Octets, TextOf;
  }

  /** When a row that failed at a time may be taken again. */
  lemma AgainExactly(t: Task, failed: real)
    requires t.attemptedAt == Some(failed)
    ensures forall lane, at :: Eligible(lane, t, at) <==>
      t.state == Pending && Takes(lane, t.kind) && at - failed > 20.0 * Exp(t.attempts)
  {
    hide Eligible;
    forall lane, at ensures Eligible(lane, t, at) <==>
      t.state == Pending && Takes(lane, t.kind) && at - failed > 20.0 * Exp(t.attempts)
    {
      WaitsExactly(lane, t, at);
    }
  }

  lemma AfterTick(w: World, dt: real)
    requires Inv(w) && dt >= 0.0
    ensures Inv(w.(now := w.now + dt)) && Next(w, Tick(dt)) == w.(now := w.now + dt)
  {
    StepKeeps(w, Tick(dt));
  }

  lemma AfterSucceed(w: World, lane: Lane)
    requires Inv(w) && lane in w.held
    ensures var w', id := Next(w, Succeed(lane)), w.held[lane];
      && Inv(w') && id in w.rows && id in w'.rows && Over(w'.rows[id])
      && 1 <= w'.rows[id].attempts <= w'.rows[id].maxAttempts
      && lane !in w'.held && forall other | other in w'.held :: w'.held[other] != id
  {
    StepKeeps(w, Succeed(lane));
    RowFacts(w, w.held[lane]);
    hide RowOk, RowsOk;
  }

  lemma AfterErr(w: World, lane: Lane, error: string, compact: bool)
    requires Inv(w) && lane in w.held
    ensures var w', id := Next(w, Err(lane, error, compact)), w.held[lane];
      && Inv(w') && id in w.rows && id in w'.rows && lane !in w'.held
      && (IsTerminal(w'.rows[id].kind, Truncate(error)) ==> Over(w'.rows[id]))
      && (forall any, at | Eligible(any, w'.rows[id], at) :: at > w.now + 20.0 * Exp(w'.rows[id].attempts))
  {
    hide IsTerminal, Truncate, Exp;
    StepKeeps(w, Err(lane, error, compact));
    RowFacts(w, w.held[lane]);
    hide RowOk, RowsOk, LanesOk;
  }

  /** The three events of a round. */
  lemma RoundWorld(w: World, lane: Lane, id: nat, servers: Servers, dt: real, outcome: Outcome, compact: bool)
    requires Enabled(w, Take(lane, id, servers)) && dt >= 0.0
    ensures var w1 := Next(w, Take(lane, id, servers));
      && Enabled(w1, Tick(dt)) && lane in Next(w1, Tick(dt)).held
      && id in w1.rows && w1.rows[id] == Start(w.rows[id], w.now)
      && match outcome
         case Done =>
           var w' := Next(Next(w1, Tick(dt)), Succeed(lane));
           && w'.rows == w.rows[id := Finished(Start(w.rows[id], w.now), outcome, compact, w.now + dt)]
           && w'.held == w.held && w'.now == w.now + dt
         case Failure(error) =>
           var w' := Next(Next(w1, Tick(dt)), Err(lane, error, compact));
           && w'.rows == w.rows[id := Finished(Start(w.rows[id], w.now), outcome, compact, w.now + dt)]
           && w'.held == w.held && w'.now == w.now + dt
  {
    hide IsTerminal, Truncate, Fail, Rank, Exp;
    var w1 := Next(w, Take(lane, id, servers));
    assert w1.held - {lane} == w.held;
  }

  lemma LoudReset(w: World)
    requires Enabled(w, Event.ResetInterrupted) && w.held != map[]
    ensures !Inv(Next(w, Event.ResetInterrupted))
  {
    var lane :| lane in w.held;
    assert lane in Next(w, Event.ResetInterrupted).held;
  }

  lemma SweepStep(w: World, s: Sweep, picked: set<nat>, env: Env)
    requires Inv(w) && env.now == w.now && picked <= Matching(w.rows, s, env)
    ensures Enabled(w, SweepUp(s, picked, env.irrelevant, env.terminal))
    ensures Inv(Next(w, SweepUp(s, picked, env.irrelevant, env.terminal)))
    ensures Next(w, SweepUp(s, picked, env.irrelevant, env.terminal)) == w.(rows := SweepRows(w.rows, s, picked, env))
  {
    var e := SweepUp(s, picked, env.irrelevant, env.terminal);
    assert EnvOf(w, e) == env;
    StepKeeps(w, e);
  }

  /** A round of a lane is a run of the queue: take, let time pass, finish. */
  lemma LaneRound(w: World, lane: Lane, id: nat, servers: Servers, dt: real, outcome: Outcome, compact: bool)
    returns (events: seq<Event>)
    requires (lane.General? ==> w.resetDone) && lane !in w.held && dt >= 0.0
    requires IsNext(lane, w.rows, id, w.now, servers)
    ensures ValidRun(w, events)
    ensures var w' := EndOf(w, events);
      && w'.rows == w.rows[id := Finished(Start(w.rows[id], w.now), outcome, compact, w.now + dt)]
      && w'.held == w.held
  {
    hide IsTerminal, Truncate, Fail, Rank;
    var finish := match outcome case Done => Succeed(lane) case Failure(error) => Err(lane, error, compact);
    var w1 := Next(w, Take(lane, id, servers));
    var w2 := Next(w1, Tick(dt));
    var w3 := Next(w2, finish);
    assert w3.held == w.held;
    assert w3.rows == w.rows[id := Finished(Start(w.rows[id], w.now), outcome, compact, w.now + dt)];
    events := [Take(lane, id, servers), Tick(dt), finish];
    assert ValidRun(w2, [finish]) && EndOf(w2, [finish]) == w3 by {
      assert [finish][0] == finish && [finish][1..] == [];
    }
    var rest := [Tick(dt), finish];
    assert ValidRun(w1, rest) && EndOf(w1, rest) == w3 by {
      assert rest[0] == Tick(dt) && rest[1..] == [finish];
    }
    assert events[0] == Take(lane, id, servers) && events[1..] == rest;
  }
}
