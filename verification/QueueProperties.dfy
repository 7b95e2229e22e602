/** What holds over every run of the task queue. */
module QueueProperties {
  import opened AnyResets
  import opened Options
  import opened Tasks
  import opened Lanes
  import opened QueueRuns
  import opened TerminalErrors

  // ----- budgets and lanes

  ghost predicate WithinBudget(t: Task, h: History) {
    && (t.state.Pending? || t.state.Running? ==> t.attempts < t.maxAttempts)
    && (t.state.Failed? ==> t.attempts == t.maxAttempts)
    && (t.state.Completed? ==> 1 <= t.attempts <= t.maxAttempts)
    && |h.starts| <= t.maxAttempts
    && h.startedBefore + |h.starts| <= t.maxAttempts * (h.retries + 1)
  }

  lemma RowWithinBudget(t: Task, h: History, now: real)
    requires RowOk(t, h, now)
    ensures WithinBudget(t, h)
  {
    assert t.maxAttempts * (h.retries + 1) == t.maxAttempts * h.retries + t.maxAttempts;
  }

  /** Attempts fit the state of each row, no task was started more often than its budget (once more for every
      retry by an administrator), what a lane holds is running, and no two lanes hold the same task. */
  ghost predicate Safe(w: World) {
    && (forall id | id in w.rows :: id in w.history && WithinBudget(w.rows[id], w.history[id]))
    && (forall a, b | a in w.held && b in w.held && a != b :: w.held[a] != w.held[b])
    && (forall lane | lane in w.held :: w.held[lane] in w.rows && w.rows[w.held[lane]].state.Running?)
  }

  ghost predicate AlwaysSafe(w: World, events: seq<Event>)
    requires ValidRun(w, events)
    decreases |events|
  {
    Safe(w) && (events != [] ==> AlwaysSafe(Next(w, events[0]), events[1..]))
  }

  lemma InvIsSafe(w: World)
    requires Inv(w)
    ensures Safe(w)
  {
    forall id | id in w.rows ensures WithinBudget(w.rows[id], w.history[id]) {
      RowWithinBudget(w.rows[id], w.history[id], w.now);
    }
  }

  /** A reset while a lane is at work takes the task away from it. */
  lemma LoudResetIsUnsafe(w: World, e: Event)
    requires Enabled(w, e) && !Quiet(w, e)
    ensures !Safe(Next(w, e))
  {
    var lane :| lane in w.held;
    assert lane in Next(w, e).held;
  }

  lemma {:induction false} AlwaysSafeExactly(w: World, events: seq<Event>)
    requires Inv(w) && ValidRun(w, events)
    ensures AlwaysSafe(w, events) <==> QuietResets(w, events)
    decreases |events|
  {
    hide Inv, Enabled, Next, Quiet, Safe;
    InvIsSafe(w);
    if events != [] {
      if Quiet(w, events[0]) {
        StepKeeps(w, events[0]);
        AlwaysSafeExactly(Next(w, events[0]), events[1..]);
      } else {
        LoudResetIsUnsafe(w, events[0]);
      }
    }
  }

  /** Every state of a run is safe if and only if each reset of the run happens while no lane is at work. */
  lemma QueueSafety(start: real, events: seq<Event>)
    requires ValidRun(Initial(start), events)
    ensures AlwaysSafe(Initial(start), events) <==> QuietResets(Initial(start), events)
  {
    AlwaysSafeExactly(Initial(start), events);
  }

  // ----- budgets and lanes with resets at any time

  /** However resets fall, no task is started more often than its budget, once more for every retry. */
  lemma StartsWithinBudget(start: real, events: seq<Event>, id: nat)
    requires ValidRun(Initial(start), events) && id in EndOf(Initial(start), events).rows
    ensures var w := EndOf(Initial(start), events);
      && id in w.history && |w.history[id].starts| <= w.rows[id].maxAttempts
      && w.history[id].startedBefore + |w.history[id].starts| <= w.rows[id].maxAttempts * (w.history[id].retries + 1)
  {
    RunSound(Initial(start), events);
    var w := EndOf(Initial(start), events);
    var budget, retries := w.rows[id].maxAttempts, w.history[id].retries;
    assert Sound(w.rows[id], w.history[id], w.now);
    assert budget * (retries + 1) == budget * retries + budget;
  }

  /** No two lanes hold the same task. */
  ghost predicate Apart(w: World) {
    forall a, b | a in w.held && b in w.held && a != b :: w.held[a] != w.held[b]
  }

  ghost predicate AttemptsFit(w: World) {
    forall id | id in w.rows :: w.rows[id].attempts <= w.rows[id].maxAttempts
  }

  /** A lane takes a task that another lane still works on. */
  ghost predicate Retakes(w: World, e: Event) {
    e.Take? && exists lane | lane in w.held :: w.held[lane] == e.id
  }

  /** A lane finishes a task of which every attempt is counted already, and not with a terminal error. */
  ghost predicate Overcounts(w: World, e: Event) {
    && (e.Succeed? || e.Err?) && e.lane in w.held && w.held[e.lane] in w.rows
    && var t := w.rows[w.held[e.lane]];
       t.attempts >= t.maxAttempts && (e.Err? ==> !IsTerminal(t.kind, Truncate(e.error)))
  }

  ghost predicate Always(p: World -> bool, w: World, events: seq<Event>)
    requires ValidRun(w, events)
    decreases |events|
  {
    p(w) && (events != [] ==> Always(p, Next(w, events[0]), events[1..]))
  }

  ghost predicate Never(q: (World, Event) -> bool, w: World, events: seq<Event>)
    requires ValidRun(w, events)
    decreases |events|
  {
    events == [] || (!q(w, events[0]) && Never(q, Next(w, events[0]), events[1..]))
  }

  lemma StepApart(w: World, e: Event)
    requires Enabled(w, e) && Apart(w)
    ensures Apart(Next(w, e)) <==> !Retakes(w, e)
  {
    hide IsNext;
    if Retakes(w, e) {
      var lane :| lane in w.held && w.held[lane] == e.id;
      assert Next(w, e).held[lane] == Next(w, e).held[e.lane] && lane != e.lane;
    }
  }

  lemma ErrFits(t: Task, error: string, compact: bool, now: real)
    requires t.attempts <= t.maxAttempts
    ensures var t' := Errs(t, error, compact, now);
      t'.attempts <= t'.maxAttempts <==> t.attempts < t.maxAttempts || IsTerminal(t.kind, Truncate(error))
  {
    hide IsTerminal, Truncate;
  }

  lemma SweptFits(w: World, e: Event, id: nat)
    requires e.SweepUp? && Enabled(w, e) && id in e.picked && id in Next(w, e).rows && id in w.history
    requires Sound(w.rows[id], w.history[id], w.now) && w.rows[id].attempts <= w.rows[id].maxAttempts
    ensures Next(w, e).rows[id].attempts <= Next(w, e).rows[id].maxAttempts
  {
    hide Spaced;
    assert Matches(e.sweep, id, w.rows[id], EnvOf(w, e));
  }

  lemma StepFitsAt(w: World, e: Event, id: nat)
    requires AllSound(w) && AttemptsFit(w) && Enabled(w, e) && id in Next(w, e).rows
    ensures var t' := Next(w, e).rows[id];
      t'.attempts <= t'.maxAttempts <==> !(Overcounts(w, e) && w.held[e.lane] == id)
  {
    hide IsTerminal, Truncate, Spaced, Errs, Matches, Swept;
    if id in w.rows {
      assert Sound(w.rows[id], w.history[id], w.now);
      if e.Err? && w.held[e.lane] == id {
        ErrFits(w.rows[id], e.error, e.compact, w.now);
      } else if e.SweepUp? && id in e.picked {
        SweptFits(w, e, id);
      }
    }
  }

  lemma StepFits(w: World, e: Event)
    requires AllSound(w) && AttemptsFit(w) && Enabled(w, e)
    ensures AttemptsFit(Next(w, e)) <==> !Overcounts(w, e)
  {
    hide AllSound, Enabled, IsTerminal, Truncate;
    forall id | id in Next(w, e).rows
      ensures var t' := Next(w, e).rows[id];
        t'.attempts <= t'.maxAttempts <==> !(Overcounts(w, e) && w.held[e.lane] == id)
    {
      StepFitsAt(w, e, id);
    }
    if Overcounts(w, e) {
      assert w.held[e.lane] in Next(w, e).rows;
    }
  }

  lemma {:induction false} ApartExactly(w: World, events: seq<Event>)
    requires ValidRun(w, events) && Apart(w)
    ensures Always(Apart, w, events) <==> Never(Retakes, w, events)
    decreases |events|
  {
    if events != [] {
      StepApart(w, events[0]);
      hide Apart, Retakes, Enabled, Next;
      if Apart(Next(w, events[0])) {
        ApartExactly(Next(w, events[0]), events[1..]);
      }
    }
  }

  lemma {:induction false} FitExactly(w: World, events: seq<Event>)
    requires ValidRun(w, events) && AllSound(w) && AttemptsFit(w)
    ensures Always(AttemptsFit, w, events) <==> Never(Overcounts, w, events)
    decreases |events|
  {
    hide AllSound, AttemptsFit, Overcounts, Enabled, Next;
    if events != [] {
      StepFits(w, events[0]);
      StepSound(w, events[0]);
      if AttemptsFit(Next(w, events[0])) {
        FitExactly(Next(w, events[0]), events[1..]);
      }
    }
  }

  lemma {:induction false} SafeIsApartAndFits(w: World, events: seq<Event>)
    requires ValidRun(w, events) && AlwaysSafe(w, events)
    ensures Always(Apart, w, events) && Always(AttemptsFit, w, events)
    decreases |events|
  {
    if events != [] {
      hide Enabled, Next;
      SafeIsApartAndFits(Next(w, events[0]), events[1..]);
    }
  }

  /** No two lanes ever hold one task if and only if no lane takes what another still works on, which only a
      reset while a lane is at work makes possible. */
  lemma LanesApartExactly(start: real, events: seq<Event>)
    requires ValidRun(Initial(start), events)
    ensures Always(Apart, Initial(start), events) <==> Never(Retakes, Initial(start), events)
    ensures QuietResets(Initial(start), events) ==> Always(Apart, Initial(start), events)
  {
    ApartExactly(Initial(start), events);
    if QuietResets(Initial(start), events) {
      QueueSafety(start, events);
      SafeIsApartAndFits(Initial(start), events);
    }
  }

  /** Attempts never exceed their budget if and only if no lane finishes, other than with a terminal error, a
      task with no attempts left, which only such a reset makes possible. */
  lemma AttemptsFitExactly(start: real, events: seq<Event>)
    requires ValidRun(Initial(start), events)
    ensures Always(AttemptsFit, Initial(start), events) <==> Never(Overcounts, Initial(start), events)
    ensures QuietResets(Initial(start), events) ==> Always(AttemptsFit, Initial(start), events)
  {
    FitExactly(Initial(start), events);
    if QuietResets(Initial(start), events) {
      QueueSafety(start, events);
      SafeIsApartAndFits(Initial(start), events);
    }
  }

  // ----- discarded payloads

  /** Whatever a lane takes still has the payload it was enqueued with. */
  lemma TakesPayload(start: real, events: seq<Event>, lane: Lane, id: nat, servers: Servers)
    requires ValidRun(Initial(start), events) && QuietResets(Initial(start), events)
    requires Enabled(EndOf(Initial(start), events), Take(lane, id, servers))
    ensures var w := EndOf(Initial(start), events);
      id in w.history && w.rows[id].params == w.history[id].payload && w.rows[id].params.Payload?
  {
    RunKeeps(Initial(start), events);
    assert RowOk(EndOf(Initial(start), events).rows[id], EndOf(Initial(start), events).history[id],
                 EndOf(Initial(start), events).now);
  }

  /** A discarded payload leaves the octet length of the original behind, and its row is finished. */
  lemma DiscardedMeasuresOriginal(start: real, events: seq<Event>, id: nat)
    requires ValidRun(Initial(start), events) && QuietResets(Initial(start), events)
    requires var w := EndOf(Initial(start), events); id in w.rows && w.rows[id].params.Discarded?
    ensures var w := EndOf(Initial(start), events);
      && id in w.history && w.history[id].payload.Payload?
      && w.rows[id].params.originalBytes == Octets(w.history[id].payload.text)
      && (w.rows[id].state.Completed? || w.rows[id].state.Failed?)
  {
    RunKeeps(Initial(start), events);
    var w := EndOf(Initial(start), events);
    assert RowOk(w.rows[id], w.history[id], w.now);
  }

  /** A finished row stays as it is in state and attempts until it is deleted, except that an administrator
      may retry a failed row that still has its payload. */
  lemma FinishedStays(w: World, e: Event, id: nat)
    requires Inv(w) && Enabled(w, e)
    requires id in w.rows && (w.rows[id].state.Completed? || w.rows[id].state.Failed?)
    ensures var w' := Next(w, e);
      || (id !in w'.rows && e.SweepUp? && Deletes(e.sweep))
      || (id in w'.rows && w'.rows[id].state == w.rows[id].state && w'.rows[id].attempts == w.rows[id].attempts)
      || (e == AdminRetry(id) && w.rows[id].state.Failed? && w.rows[id].params.Payload?)
  {
    if e.SweepUp? && id in e.picked {
      assert Matches(e.sweep, id, w.rows[id], EnvOf(w, e));
    }
  }

  /** After an error a task waits for another attempt unless the error is terminal or the budget ends. What has
      failed can still be retried by an administrator except when an inbox task lost its payload, and it only
      loses it at the end of its budget: a terminal error before that leaves the payload. */
  lemma AfterError(t: Task, error: string, compact: bool, now: real)
    requires t.state.Running? && t.attempts < t.maxAttempts && t.params.Payload?
    ensures var t' := Errs(t, error, compact, now);
      var last, terminal := t.attempts + 1 == t.maxAttempts, IsTerminal(t.kind, Truncate(error));
      && (t'.state.Pending? <==> !terminal && !last)
      && (t'.state.Failed? <==> terminal || last)
      && (Retryable(t') <==> (terminal || last) && !(last && compact && IsInbox(t.kind)))
      && t'.latestError == Some(Truncate(error)) && t'.attemptedAt == Some(now)
  {
    hide IsTerminal, Truncate;
  }

  // ----- completion

  ghost predicate CompletedAt(rows: Table, id: nat, at: real) {
    id in rows ==> rows[id].state == Completed && rows[id].completedAt == Some(at)
  }

  lemma CompletedStays(w: World, e: Event, id: nat, at: real)
    requires Inv(w) && Enabled(w, e) && id < w.nextId && CompletedAt(w.rows, id, at)
    ensures id < Next(w, e).nextId && CompletedAt(Next(w, e).rows, id, at)
  {
    hide RowsOk, Errs;
    if e.SweepUp? && id in e.picked {
      assert Matches(e.sweep, id, w.rows[id], EnvOf(w, e));
    }
  }

  lemma {:induction false} CompletedForGood(w: World, events: seq<Event>, id: nat, at: real)
    requires Inv(w) && ValidRun(w, events) && QuietResets(w, events)
    requires id < w.nextId && CompletedAt(w.rows, id, at)
    ensures CompletedAt(EndOf(w, events).rows, id, at)
    decreases |events|
  {
    hide Inv, Enabled, Next, CompletedAt;
    if events != [] {
      CompletedStays(w, events[0], id, at);
      StepKeeps(w, events[0]);
      CompletedForGood(Next(w, events[0]), events[1..], id, at);
    }
  }

  /** A task that a lane finishes bears the time of that for as long as its row exists. */
  lemma CompletionIsStamped(start: real, events: seq<Event>, lane: Lane, rest: seq<Event>)
    requires ValidRun(Initial(start), events) && QuietResets(Initial(start), events)
    requires lane in EndOf(Initial(start), events).held
    requires ValidRun(EndOf(Initial(start), events), [Succeed(lane)] + rest)
    requires QuietResets(EndOf(Initial(start), events), [Succeed(lane)] + rest)
    ensures var w := EndOf(Initial(start), events);
      var id, rows := w.held[lane], EndOf(w, [Succeed(lane)] + rest).rows;
      id in rows ==> rows[id].state == Completed && rows[id].completedAt == Some(w.now)
  {
    RunKeeps(Initial(start), events);
    var w, all := EndOf(Initial(start), events), [Succeed(lane)] + rest;
    assert all[0] == Succeed(lane) && all[1..] == rest;
    StepKeeps(w, Succeed(lane));
    hide RowsOk;
    assert w.held[lane] < w.nextId by { LiveRow(w, w.held[lane]); }
    hide Inv;
    CompletedForGood(Next(w, Succeed(lane)), rest, w.held[lane], w.now);
  }

  /** Completed rows bear a time, and it has passed. */
  ghost predicate Stamped(w: World) {
    forall id | id in w.rows && w.rows[id].state == Completed ::
      w.rows[id].completedAt.Some? && w.rows[id].completedAt.value <= w.now
  }

  lemma StepStamps(w: World, e: Event)
    requires Stamped(w) && Enabled(w, e)
    ensures Stamped(Next(w, e))
  {
    hide IsNext, IsTerminal, Truncate;
    if e.SweepUp? {
      forall id | id in Next(w, e).rows && Next(w, e).rows[id].state == Completed
        ensures Next(w, e).rows[id].completedAt.Some? && Next(w, e).rows[id].completedAt.value <= w.now
      {
        if id in e.picked {
          assert Matches(e.sweep, id, w.rows[id], EnvOf(w, e));
        }
      }
    }
  }

  lemma {:induction false} StampedFrom(w: World, events: seq<Event>)
    requires Stamped(w) && ValidRun(w, events)
    ensures Stamped(EndOf(w, events))
    decreases |events|
  {
    hide Stamped, Enabled, Next;
    if events != [] {
      StepStamps(w, events[0]);
      StampedFrom(Next(w, events[0]), events[1..]);
    }
  }

  /** In every run, however a row came to be completed and wherever resets fall. */
  lemma CompletedIsStamped(start: real, events: seq<Event>, id: nat)
    requires ValidRun(Initial(start), events)
    requires var w := EndOf(Initial(start), events); id in w.rows && w.rows[id].state == Completed
    ensures var w := EndOf(Initial(start), events);
      w.rows[id].completedAt.Some? && w.rows[id].completedAt.value <= w.now
  {
    StampedFrom(Initial(start), events);
  }

  // ----- back-off

  function SumExp(n: nat): real {
    if n == 0 then 0.0 else SumExp(n - 1) + Exp(n)
  }

  function Pow2(n: nat): (r: nat)
    ensures r >= 1
  {
    if n == 0 then 1 else 2 * Pow2(n - 1)
  }

  lemma {:induction false} ExpAbovePow2(n: nat)
    ensures Exp(n) >= Pow2(n) as real
  {
    if n > 0 {
      ExpAbovePow2(n - 1);
    }
  }

  lemma {:induction false} SumExpAbove(n: nat)
    ensures SumExp(n) >= (2 * Pow2(n) - 2) as real
  {
    if n > 0 {
      SumExpAbove(n - 1);
      ExpAbovePow2(n);
    }
  }

  lemma {:induction false} SpacedSum(starts: seq<real>, n: nat)
    requires Spaced(starts) && n < |starts|
    ensures starts[n] - starts[0] >= 20.0 * SumExp(n)
    ensures n > 0 ==> starts[n] - starts[0] > 20.0 * SumExp(n)
  {
    if n > 0 {
      SpacedSum(starts, n - 1);
    }
  }

  /** The start after n failures comes more than 20 * (e^1 + ... + e^n) seconds after the first start,
      hence more than 20 * (2^(n+1) - 2), whichever lanes took the task, however attempts ended and
      whenever resets happened. */
  lemma BackOff(start: real, events: seq<Event>, id: nat, n: nat)
    requires ValidRun(Initial(start), events)
    requires var w := EndOf(Initial(start), events);
      id in w.rows && id in w.history && 1 <= n < |w.history[id].starts|
    ensures var starts := EndOf(Initial(start), events).history[id].starts;
      && starts[n] - starts[0] > 20.0 * SumExp(n)
      && starts[n] - starts[0] > 20.0 * ((Pow2(n + 1) - 2) as real)
  {
    RunSound(Initial(start), events);
    var w := EndOf(Initial(start), events);
    assert Sound(w.rows[id], w.history[id], w.now);
    SpacedSum(w.history[id].starts, n);
    SumExpAbove(n);
  }

  // ----- draining

  /** Twice the attempts left, less one while an attempt runs. */
  function Weight(t: Task): nat {
    if t.attempts >= t.maxAttempts then 0
    else
      match t.state
      case Pending => 2 * (t.maxAttempts - t.attempts)
      case Running => 2 * (t.maxAttempts - t.attempts) - 1
      case _ => 0
  }

  function WeightAt(rows: Table, id: nat): nat {
    if id in rows then Weight(rows[id]) else 0
  }

  function Total(rows: Table, n: nat): nat {
    if n == 0 then 0 else Total(rows, n - 1) + WeightAt(rows, n - 1)
  }

  lemma {:induction false} TotalFalls(rows: Table, rows': Table, n: nat)
    requires forall id: nat | id < n :: WeightAt(rows', id) <= WeightAt(rows, id)
    ensures Total(rows', n) <= Total(rows, n)
    ensures (exists id: nat :: id < n && WeightAt(rows', id) < WeightAt(rows, id)) ==> Total(rows', n) < Total(rows, n)
  {
    if n > 0 {
      TotalFalls(rows, rows', n - 1);
    }
  }

  /** An event that works a task off: a take, a finish, a reset or a sweep that touches live tasks. */
  ghost predicate IsWork(w: World, e: Event) {
    match e
    case Take(_, _, _) => true
    case Succeed(_) => true
    case Err(_, _, _) => true
    case ResetInterrupted => exists id :: id in w.rows && w.rows[id].state.Running?
    case SweepUp(sweep, picked, _, _) => picked != {} && (sweep.FailTerminal? || sweep.CompleteIrrelevant?)
    case _ => false
  }

  predicate AddsWork(e: Event) {
    e.Enqueue? || e.AdminRetry?
  }

  lemma ErrWeight(t: Task, error: string, compact: bool, now: real)
    requires t.state.Running? && t.attempts < t.maxAttempts
    ensures Weight(Errs(t, error, compact, now)) < Weight(t)
  {
  }

  lemma SweptWeight(t: Task, sweep: Sweep, id: nat, env: Env)
    requires Matches(sweep, id, t, env)
    ensures Swept(sweep, t, env).Some? ==> Weight(Swept(sweep, t, env).value) <= Weight(t)
    ensures (sweep.FailTerminal? || sweep.CompleteIrrelevant?) && t.attempts < t.maxAttempts ==>
      Weight(Swept(sweep, t, env).value) < Weight(t)
  {
  }

  /** What one event does to the weight of every row. */
  lemma StepWeights(w: World, e: Event, id: nat)
    requires Inv(w) && Enabled(w, e) && !AddsWork(e)
    ensures WeightAt(Next(w, e).rows, id) <= WeightAt(w.rows, id)
  {
    hide Errs, Matches, Swept;
    if id in w.rows {
      assert RowOk(w.rows[id], w.history[id], w.now);
      if e.Err? && w.held[e.lane] == id {
        ErrWeight(w.rows[id], e.error, e.compact, w.now);
      } else if e.SweepUp? && id in e.picked {
        SweptWeight(w.rows[id], e.sweep, id, EnvOf(w, e));
      }
    }
  }

  lemma LiveRow(w: World, id: nat)
    requires Inv(w) && id in w.rows && (w.rows[id].state.Pending? || w.rows[id].state.Running?)
    ensures id < w.nextId && w.rows[id].attempts < w.rows[id].maxAttempts
  {
    assert RowOk(w.rows[id], w.history[id], w.now);
  }

  lemma TakeLightens(w: World, lane: Lane, id: nat, servers: Servers)
    requires Inv(w) && Enabled(w, Take(lane, id, servers))
    ensures id < w.nextId && WeightAt(Next(w, Take(lane, id, servers)).rows, id) < WeightAt(w.rows, id)
  {
    LiveRow(w, id);
    hide RowsOk, LanesOk;
  }

  lemma FinishLightens(w: World, e: Event, lane: Lane)
    requires Inv(w) && Enabled(w, e) && lane in w.held && (e == Succeed(lane) || (e.Err? && e.lane == lane))
    ensures w.held[lane] < w.nextId && WeightAt(Next(w, e).rows, w.held[lane]) < WeightAt(w.rows, w.held[lane])
  {
    var id := w.held[lane];
    LiveRow(w, id);
    hide RowsOk, LanesOk, Errs;
    if e.Err? {
      ErrWeight(w.rows[id], e.error, e.compact, w.now);
    }
  }

  lemma ResetLightens(w: World, id: nat)
    requires Inv(w) && Enabled(w, ResetInterrupted) && id in w.rows && w.rows[id].state.Running?
    ensures id < w.nextId && WeightAt(Next(w, ResetInterrupted).rows, id) < WeightAt(w.rows, id)
  {
    LiveRow(w, id);
    hide RowsOk, LanesOk;
  }

  /** A working event makes some row lighter. */
  lemma WorkLightens(w: World, e: Event) returns (id: nat)
    requires Inv(w) && Enabled(w, e) && IsWork(w, e)
    ensures id < w.nextId && WeightAt(Next(w, e).rows, id) < WeightAt(w.rows, id)
  {
    hide Errs, Swept, Matches, Inv, Next, IsNext, Weight;
    match e {
      case Take(lane, taken, servers) =>
        id := taken;
        TakeLightens(w, lane, id, servers);
      case Succeed(lane) =>
        id := w.held[lane];
        FinishLightens(w, e, lane);
      case Err(lane, error, compact) =>
        id := w.held[lane];
        FinishLightens(w, e, lane);
      case ResetInterrupted =>
        id :| id in w.rows && w.rows[id].state.Running?;
        ResetLightens(w, id);
      case SweepUp(sweep, picked, _, _) =>
        id :| id in picked;
        PickedIsLive(w, e, id);
        SweptWeight(w.rows[id], sweep, id, EnvOf(w, e));
        SweptSome(w, e, id);
    }
  }

  lemma PickedIsLive(w: World, e: Event, id: nat)
    requires Inv(w) && e.SweepUp? && Enabled(w, e) && id in e.picked
    requires e.sweep.FailTerminal? || e.sweep.CompleteIrrelevant?
    ensures id in w.rows && id < w.nextId
    ensures Matches(e.sweep, id, w.rows[id], EnvOf(w, e)) && w.rows[id].attempts < w.rows[id].maxAttempts
  {
    assert RowOk(w.rows[id], w.history[id], w.now);
  }

  lemma SweptSome(w: World, e: Event, id: nat)
    requires e.SweepUp? && Enabled(w, e) && id in e.picked
    requires e.sweep.FailTerminal? || e.sweep.CompleteIrrelevant?
    ensures Swept(e.sweep, w.rows[id], EnvOf(w, e)).Some?
    ensures Next(w, e).rows[id] == Swept(e.sweep, w.rows[id], EnvOf(w, e)).value
  {
  }

  ghost function Works(w: World, events: seq<Event>): nat
    requires ValidRun(w, events)
    decreases |events|
  {
    if events == [] then 0
    else (if IsWork(w, events[0]) then 1 else 0) + Works(Next(w, events[0]), events[1..])
  }

  lemma StepDrains(w: World, e: Event)
    requires Inv(w) && Enabled(w, e) && !AddsWork(e)
    ensures Next(w, e).nextId == w.nextId
    ensures Total(Next(w, e).rows, w.nextId) + (if IsWork(w, e) then 1 else 0) <= Total(w.rows, w.nextId)
  {
    var w' := Next(w, e);
    forall id: nat | id < w.nextId ensures WeightAt(w'.rows, id) <= WeightAt(w.rows, id) {
      StepWeights(w, e, id);
    }
    TotalFalls(w.rows, w'.rows, w.nextId);
    if IsWork(w, e) {
      var id := WorkLightens(w, e);
    }
  }

  /** Without new tasks or retries a run has at most as many working events as the total weight it began with. */
  lemma {:induction false} Drains(w: World, events: seq<Event>)
    requires Inv(w) && ValidRun(w, events) && QuietResets(w, events)
    requires forall e | e in events :: !AddsWork(e)
    ensures EndOf(w, events).nextId == w.nextId
    ensures Total(EndOf(w, events).rows, w.nextId) + Works(w, events) <= Total(w.rows, w.nextId)
    decreases |events|
  {
    if events != [] {
      StepDrains(w, events[0]);
      StepKeeps(w, events[0]);
      Drains(Next(w, events[0]), events[1..]);
    }
  }

  lemma {:induction false} TotalZero(rows: Table, n: nat)
    ensures Total(rows, n) == 0 <==> forall id: nat | id < n :: WeightAt(rows, id) == 0
  {
    if n > 0 {
      TotalZero(rows, n - 1);
    }
  }

  /** The total weight is zero exactly when nothing is pending or running. */
  lemma DrainedMeansIdle(w: World)
    requires Inv(w)
    ensures Total(w.rows, w.nextId) == 0
       <==> forall id | id in w.rows :: w.rows[id].state.Completed? || w.rows[id].state.Failed?
  {
    TotalZero(w.rows, w.nextId);
    forall id | id in w.rows
      ensures WeightAt(w.rows, id) == 0 <==> w.rows[id].state.Completed? || w.rows[id].state.Failed?
    {
      assert RowOk(w.rows[id], w.history[id], w.now);
    }
  }

  /** How long a pending task still has to wait for its back-off to pass. */
  function WaitFor(t: Task, now: real): (dt: real)
    requires t.state.Pending?
    ensures dt >= 0.0 && Ready(t, now + dt)
  {
    if t.attemptedAt.Some? && t.attemptedAt.value + Exp(t.attempts) * 20.0 >= now
    then t.attemptedAt.value + Exp(t.attempts) * 20.0 - now + 1.0
    else 0.0
  }

  /** While a task is pending and the general lane is free, some wait makes a take possible. */
  lemma PendingIsTaken(w: World, pending: nat, servers: Servers) returns (dt: real, id: nat)
    requires Inv(w) && w.resetDone && General !in w.held
    requires pending in w.rows && w.rows[pending].state.Pending?
    ensures Enabled(w, Tick(dt))
    ensures Enabled(Next(w, Tick(dt)), Take(General, id, servers))
  {
    hide RowsOk, LanesOk, Rank, WaitFor, Ready;
    dt := WaitFor(w.rows[pending], w.now);
    var now := w.now + dt;
    var eligible := set id | id in w.rows && Eligible(General, w.rows[id], now);
    assert pending in eligible;
    id := NextExists(General, w.rows, eligible, now, servers);
  }

  /** After a crash no lane is at work, and the general lane takes nothing before its reset; the reset ends what
      was interrupted, one attempt further, and keeps the invariant. */
  lemma CrashThenReset(w: World, id: nat)
    requires Inv(w)
    ensures var crashed := Next(w, Crash);
      && crashed.rows == w.rows && crashed.held == map[]
      && (forall servers :: !Enabled(crashed, Take(General, id, servers)))
      && Enabled(crashed, ResetInterrupted)
      && var w' := Next(crashed, ResetInterrupted);
         && Inv(w') && w'.rows.Keys == w.rows.Keys
         && (id in w.rows ==>
               if w.rows[id].state == Running then
                 w'.rows[id].state != Running && w'.rows[id].attempts == w.rows[id].attempts + 1
               else w'.rows[id] == w.rows[id])
  {
    StepKeeps(w, Crash);
    StepKeeps(Next(w, Crash), ResetInterrupted);
    hide RowsOk, LanesOk;
  }

  // ----- what a reset while a lane is at work leads to

  lemma {:induction false} RunThen(w: World, events: seq<Event>, e: Event)
    requires ValidRun(w, events) && Enabled(EndOf(w, events), e)
    ensures ValidRun(w, events + [e])
    ensures EndOf(w, events + [e]) == Next(EndOf(w, events), e)
    decreases |events|
  {
    if events == [] {
      assert events + [e] == [e];
      assert [e][1..] == [];
    } else {
      assert (events + [e])[1..] == events[1..] + [e];
      RunThen(Next(w, events[0]), events[1..], e);
    }
  }

  /** The inbox lane is faster than the reset of the general lane: enqueue, take, reset. */
  lemma TakenThenReset(maxAttempts: nat) returns (events: seq<Event>)
    requires maxAttempts >= 1
    ensures ValidRun(Initial(0.0), events)
    ensures var w := EndOf(Initial(0.0), events);
      && w.held == map[Inbox := 0] && w.now == 0.0 && w.resetDone
      && 0 in w.rows && w.rows.Keys == {0}
      && w.rows[0].attempts == 1 && w.rows[0].maxAttempts == maxAttempts
      && w.rows[0].state == (if 1 < maxAttempts then Pending else Failed)
      && w.rows[0].attemptedAt == Some(0.0)
      && w.rows[0].kind == VerifyAndIngestObjectFromInbox
  {
    var w0 := Initial(0.0);
    var enqueue := Enqueue(VerifyAndIngestObjectFromInbox, Payload(false, None, None, "{}"), maxAttempts);
    var take := Take(Inbox, 0, map[]);
    events := [];
    RunThen(w0, [], enqueue);
    assert [] + [enqueue] == [enqueue];
    RunThen(w0, [enqueue], take);
    RunThen(w0, [enqueue] + [take], ResetInterrupted);
    events := [enqueue] + [take] + [ResetInterrupted];
  }

  /** Then two lanes can come to hold the same task. */
  lemma TwoLanesOneTask() returns (events: seq<Event>)
    ensures ValidRun(Initial(0.0), events)
    ensures var w := EndOf(Initial(0.0), events);
      General in w.held && Inbox in w.held && w.held[General] == w.held[Inbox]
  {
    events := TakenThenReset(8);
    RunThen(Initial(0.0), events, Tick(100.0));
    events := events + [Tick(100.0)];
    assert Exp(1) == EULER;
    RunThen(Initial(0.0), events, Take(General, 0, map[]));
    events := events + [Take(General, 0, map[])];
  }

  /** And a task can be counted beyond its budget. */
  lemma OverBudget() returns (events: seq<Event>)
    ensures ValidRun(Initial(0.0), events)
    ensures var w := EndOf(Initial(0.0), events);
      0 in w.rows && w.rows[0].attempts > w.rows[0].maxAttempts
  {
    events := TakenThenReset(1);
    RunThen(Initial(0.0), events, Succeed(Inbox));
    events := events + [Succeed(Inbox)];
  }
}
