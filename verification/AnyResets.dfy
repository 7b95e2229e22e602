/** What every run of the queue keeps, also when a reset takes a task away from a lane that still works on it. */
module AnyResets {
  import opened Options
  import opened Tasks
  import opened Lanes
  import opened QueueRuns
  import opened TerminalErrors

  /** Attempts may be counted twice, by the reset and by the lane, so starts are at most as many. */
  predicate CountsOk(t: Task, h: History) {
    && t.maxAttempts >= 1
    && |h.starts| <= t.maxAttempts && |h.starts| <= t.attempts + (if t.state.Running? then 1 else 0)
    && (t.state.Pending? || t.state.Running? ==> t.attempts < t.maxAttempts)
    && (t.state.Failed? ==> t.attempts >= t.maxAttempts)
    && (h.starts != [] ==> t.attemptedAt.Some? && Last(h.starts) <= t.attemptedAt.value)
    && h.startedBefore <= t.maxAttempts * h.retries
  }

  ghost predicate Sound(t: Task, h: History, now: real) {
    && CountsOk(t, h)
    && Spaced(h.starts)
    && (forall i | 0 <= i < |h.starts| :: h.starts[i] <= now)
  }

  ghost predicate AllSound(w: World) {
    && w.rows.Keys <= w.history.Keys
    && forall id | id in w.rows :: Sound(w.rows[id], w.history[id], w.now)
  }

  // ----- one row

  lemma {:induction false} ExpGrows(m: nat, n: nat)
    requires m <= n
    ensures Exp(m) <= Exp(n)
  {
    if m < n {
      ExpGrows(m, n - 1);
    }
  }

  lemma StartSound(t: Task, h: History, now: real)
    requires Sound(t, h, now) && Ready(t, now)
    ensures Sound(Start(t, now), h.(starts := h.starts + [now]), now)
  {
    if h.starts != [] {
      ExpGrows(|h.starts|, t.attempts);
      assert (h.starts + [now])[|h.starts| - 1] == Last(h.starts);
    }
  }

  /** Whatever the state of the row is by then. */
  lemma FinishSound(t: Task, h: History, error: string, compact: bool, now: real)
    requires Sound(t, h, now)
    ensures Sound(Complete(t, now), h, now) && Sound(Errs(t, error, compact, now), h, now)
  {
    hide IsTerminal, Truncate, Spaced;
  }

  lemma ResetSound(t: Task, h: History, now: real)
    requires Sound(t, h, now)
    ensures Sound(Reset(t, now), h, now)
  {
    hide Spaced;
  }

  lemma SweptSound(t: Task, h: History, sweep: Sweep, id: nat, env: Env)
    requires Sound(t, h, env.now) && Matches(sweep, id, t, env) && Swept(sweep, t, env).Some?
    ensures Sound(Swept(sweep, t, env).value, h, env.now)
  {
    hide Spaced;
  }

  lemma RetrySound(t: Task, h: History, now: real)
    requires Sound(t, h, now) && Retryable(t)
    ensures Sound(Retry(t), Restarted(h), now)
  {
    assert t.maxAttempts * (h.retries + 1) == t.maxAttempts * h.retries + t.maxAttempts;
  }

  // ----- runs

  lemma SweepSound(w: World, e: Event, id: nat)
    requires AllSound(w) && e.SweepUp? && Enabled(w, e) && id in Next(w, e).rows
    ensures id in w.rows && Sound(Next(w, e).rows[id], w.history[id], w.now)
  {
    hide Sound, Matches;
    if id in e.picked {
      SweptSound(w.rows[id], w.history[id], e.sweep, id, EnvOf(w, e));
    }
  }

  lemma EnqueueSound(w: World, e: Event)
    requires AllSound(w) && e.Enqueue? && Enabled(w, e)
    ensures AllSound(Next(w, e))
  {
    assert Sound(Next(w, e).rows[w.nextId], Next(w, e).history[w.nextId], w.now);
    hide Sound;
  }

  lemma TakeSound(w: World, lane: Lane, id: nat, servers: Servers)
    requires AllSound(w) && Enabled(w, Take(lane, id, servers))
    ensures AllSound(Next(w, Take(lane, id, servers)))
  {
    StartSound(w.rows[id], w.history[id], w.now);
    hide Sound;
  }

  /** Every event keeps every row sound. */
  lemma StepSound(w: World, e: Event)
    requires AllSound(w) && Enabled(w, e)
    ensures AllSound(Next(w, e))
  {
    hide CountsOk, Errs, IsNext, Swept, Matches;
    match e {
      case Tick(_) =>
        hide Spaced;
      case Enqueue(_, _, _) => EnqueueSound(w, e);
      case Take(lane, id, servers) => TakeSound(w, lane, id, servers);
      case Succeed(lane) =>
        var id := w.held[lane];
        if id in w.rows {
          FinishSound(w.rows[id], w.history[id], "", false, w.now);
        }
        hide Sound;
      case Err(lane, error, compact) =>
        var id := w.held[lane];
        if id in w.rows {
          FinishSound(w.rows[id], w.history[id], error, compact, w.now);
        }
        hide Sound;
      case Crash =>
      case ResetInterrupted =>
        hide Sound;
        forall id | id in w.rows ensures Sound(Reset(w.rows[id], w.now), w.history[id], w.now) {
          ResetSound(w.rows[id], w.history[id], w.now);
        }
      case SweepUp(_, _, _, _) =>
        hide Sound;
        forall id | id in Next(w, e).rows ensures id in w.rows && Sound(Next(w, e).rows[id], w.history[id], w.now) {
          SweepSound(w, e, id);
        }
      case AdminRetry(id) =>
        RetrySound(w.rows[id], w.history[id], w.now);
        hide Sound;
    }
  }

  lemma {:induction false} RunSound(w: World, events: seq<Event>)
    requires AllSound(w) && ValidRun(w, events)
    ensures AllSound(EndOf(w, events))
    decreases |events|
  {
    hide AllSound, Enabled, Next;
    if events != [] {
      StepSound(w, events[0]);
      RunSound(Next(w, events[0]), events[1..]);
    }
  }
}
