/** The cleanup of old tasks: batches of sweeps until one of them changes nothing. */
module Cleanup {
  import opened Batches
  import opened Options
  import opened Tasks
  import opened QueueRuns
  import opened TaskTables

  const BATCH_SIZE := 10000
  const MAX_BATCHES := 100

  datatype Settings = Settings(
    completedDays: int, failedInboxDays: int, failedDays: int, compactFailedInbox: bool, compactionHours: int)

  /** The ranges that the site table enforces. */
  predicate InRange(s: Settings) {
    && 1 <= s.completedDays <= 30
    && 1 <= s.failedInboxDays <= 365
    && 1 <= s.failedDays <= 365
    && 1 <= s.compactionHours <= 168
  }

  /** The statements that a cleanup runs. */
  predicate Enabled(s: Settings, sweep: Sweep) {
    match sweep
    case DeleteCompleted(days) => days == s.completedDays
    case DeleteFailedInbox(days) => days == s.failedInboxDays
    case DeleteFailed(days) => days == s.failedDays
    case CompactFailedInbox(hours) => s.compactFailedInbox && hours == s.compactionHours
    case CompactCompletedInbox => true
    case FailTerminal => false
    case CompleteIrrelevant => true
  }

  // ----- the meaning of a cleanup for one row, without batches or order

  predicate Expired(s: Settings, id: nat, t: Task, env: Env) {
    || Matches(DeleteCompleted(s.completedDays), id, t, env)
    || Matches(DeleteFailedInbox(s.failedInboxDays), id, t, env)
    || Matches(DeleteFailed(s.failedDays), id, t, env)
  }

  function Cleaned(s: Settings, id: nat, t: Task, env: Env): Option<Task> {
    if Expired(s, id, t, env) then None
    else if s.compactFailedInbox && Matches(CompactFailedInbox(s.compactionHours), id, t, env) then
      Some(Discard(t, FAILURE_REASON))
    else if Matches(CompactCompletedInbox, id, t, env) then Some(Discard(t, SUCCESS_REASON))
    else if Matches(CompleteIrrelevant, id, t, env) then Swept(CompleteIrrelevant, t, env)
    else Some(t)
  }

  function CleanedAt(s: Settings, rows: Table, id: nat, env: Env): Option<Task> {
    if id in rows then Cleaned(s, id, rows[id], env) else None
  }

  /** No enabled statement matches a row exactly when cleaning leaves the row alone. */
  lemma CleanMeansUnmatched(s: Settings, id: nat, t: Task, env: Env)
    ensures (forall sweep | Enabled(s, sweep) :: !Matches(sweep, id, t, env)) <==> Cleaned(s, id, t, env) == Some(t)
  {
    if forall sweep | Enabled(s, sweep) :: !Matches(sweep, id, t, env) {
      assert Enabled(s, DeleteCompleted(s.completedDays)) && Enabled(s, DeleteFailedInbox(s.failedInboxDays));
      assert Enabled(s, DeleteFailed(s.failedDays)) && Enabled(s, CompactCompletedInbox);
      assert s.compactFailedInbox ==> Enabled(s, CompactFailedInbox(s.compactionHours));
      assert Enabled(s, CompleteIrrelevant);
    } else {
      var sweep :| Enabled(s, sweep) && Matches(sweep, id, t, env);
    }
  }

  /** A statement does not change what the cleanup makes of a row in the end. */
  lemma SweepKeepsMeaning(s: Settings, sweep: Sweep, id: nat, t: Task, env: Env)
    requires InRange(s) && Enabled(s, sweep) && Matches(sweep, id, t, env)
    ensures match Swept(sweep, t, env)
            case None => Cleaned(s, id, t, env) == None
            case Some(t') => Cleaned(s, id, t', env) == Cleaned(s, id, t, env)
  {
  }

  // ----- how often rows can still change

  /** How many statements may still change a row: a finished row can be compacted once and deleted once. */
  function Budget(t: Task, now: real): nat {
    match t.state
    case Running => 0
    case Pending => 1
    case Completed => if !Before(t.completedAt, now) then 0 else if t.params.Payload? then 2 else 1
    case Failed => if !Before(t.attemptedAt, now) then 0 else if t.params.Payload? then 2 else 1
  }

  function Above(rows: Table, now: real, n: nat): set<nat> {
    set id | id in rows && Budget(rows[id], now) > n
  }

  function Left(rows: Table, now: real): nat {
    |Above(rows, now, 0)| + |Above(rows, now, 1)|
  }

  lemma SweepSpends(s: Settings, sweep: Sweep, id: nat, t: Task, env: Env)
    requires InRange(s) && Enabled(s, sweep) && Matches(sweep, id, t, env)
    ensures Budget(t, env.now) >= 1
    ensures !Deletes(sweep) ==>
      && Swept(sweep, t, env).Some?
      && Budget(Swept(sweep, t, env).value, env.now) == (if sweep.CompleteIrrelevant? then 0 else 1)
    ensures !Deletes(sweep) && !sweep.CompleteIrrelevant? ==> Budget(t, env.now) == 2
  {
  }

  /** Every changed row uses up some of the budget. */
  lemma BatchSpends(s: Settings, sweep: Sweep, rows: Table, picked: set<nat>, env: Env)
    requires InRange(s) && Enabled(s, sweep) && picked <= Matching(rows, sweep, env)
    ensures Left(SweepRows(rows, sweep, picked, env), env.now) + |picked| <= Left(rows, env.now)
  {
    hide Budget, Matches, Swept, Enabled;
    var rows' := SweepRows(rows, sweep, picked, env);
    var one, two := Above(rows, env.now, 0), Above(rows, env.now, 1);
    var one', two' := Above(rows', env.now, 0), Above(rows', env.now, 1);
    forall id | id in picked
      ensures Budget(rows[id], env.now) >= 1
      ensures !Deletes(sweep) ==>
        && id in rows'
        && Budget(rows'[id], env.now) == (if sweep.CompleteIrrelevant? then 0 else 1)
      ensures !Deletes(sweep) && !sweep.CompleteIrrelevant? ==> Budget(rows[id], env.now) == 2
    {
      SweepSpends(s, sweep, id, rows[id], env);
    }
    if Deletes(sweep) || sweep.CompleteIrrelevant? {
      assert picked <= one && one' <= one - picked && two' <= two;
      Subset(one', one - picked);
      Subset(two', two);
    } else {
      assert picked <= two && one' <= one && two' <= two - picked;
      Subset(one', one);
      Subset(two', two - picked);
    }
  }

  // ----- a partly cleaned table

  /** What a table looks like at any moment of the cleanup of another. */
  ghost predicate PartlyCleaned(s: Settings, before: Table, rows: Table, env: Env) {
    && rows.Keys <= before.Keys
    && (forall id | id in before :: CleanedAt(s, rows, id, env) == CleanedAt(s, before, id, env))
    && (forall id | id in before && id !in rows :: Expired(s, id, before[id], env))
    && (forall id | id in before && before[id].state.Running? :: id in rows && rows[id] == before[id])
  }

  lemma ExpiredBefore(s: Settings, before: Table, rows: Table, id: nat, env: Env)
    requires PartlyCleaned(s, before, rows, env) && id in rows && Expired(s, id, rows[id], env)
    ensures Expired(s, id, before[id], env)
  {
    assert CleanedAt(s, rows, id, env) == CleanedAt(s, before, id, env);
  }

  lemma DeletesExpired(s: Settings, sweep: Sweep, id: nat, t: Task, env: Env)
    requires Enabled(s, sweep) && Matches(sweep, id, t, env)
    ensures Deletes(sweep) ==> Expired(s, id, t, env)
    ensures !t.state.Running?
  {
  }

  lemma BatchKeepsMeaning(s: Settings, before: Table, sweep: Sweep, rows: Table, picked: set<nat>, env: Env)
    requires InRange(s) && Enabled(s, sweep) && picked <= Matching(rows, sweep, env)
    requires PartlyCleaned(s, before, rows, env)
    ensures PartlyCleaned(s, before, SweepRows(rows, sweep, picked, env), env)
  {
    hide Cleaned, Matches, Swept, Expired, Enabled;
    var rows' := SweepRows(rows, sweep, picked, env);
    forall id | id in picked
      ensures CleanedAt(s, rows', id, env) == CleanedAt(s, rows, id, env)
      ensures id !in rows' ==> Expired(s, id, before[id], env)
      ensures !rows[id].state.Running?
    {
      SweepKeepsMeaning(s, sweep, id, rows[id], env);
      DeletesExpired(s, sweep, id, rows[id], env);
      SweptOrDeleted(sweep, rows[id], env);
      if Deletes(sweep) {
        ExpiredBefore(s, before, rows, id, env);
      }
    }
    forall id | id in before ensures CleanedAt(s, rows', id, env) == CleanedAt(s, rows, id, env) {
    }
  }

  lemma SweptOrDeleted(sweep: Sweep, t: Task, env: Env)
    ensures Deletes(sweep) <==> Swept(sweep, t, env).None?
  {
  }

  /** A batch that changes nothing leaves nothing that its statement matches. */
  lemma EmptyBatch(rows: Table, sweep: Sweep, env: Env, picked: set<nat>)
    requires IsBatch(rows, sweep, env, BATCH_SIZE, picked) && |picked| == 0
    ensures SweepRows(rows, sweep, picked, env) == rows
    ensures forall id | id in rows :: !Matches(sweep, id, rows[id], env)
  {
    assert Matching(rows, sweep, env) == {};
    forall id | id in rows ensures !Matches(sweep, id, rows[id], env) {
      assert id !in Matching(rows, sweep, env);
    }
  }

  lemma BatchIsPicked(rows: Table, sweep: Sweep, env: Env, picked: set<nat>)
    requires IsBatch(rows, sweep, env, BATCH_SIZE, picked)
    ensures picked <= Matching(rows, sweep, env)
    ensures |Matching(rows, sweep, env)| <= BATCH_SIZE ==> picked == Matching(rows, sweep, env)
    ensures |Matching(rows, sweep, env)| > BATCH_SIZE ==> |picked| == BATCH_SIZE
  {
    var matching := Matching(rows, sweep, env);
    if |matching| <= BATCH_SIZE {
      assert |matching - picked| == 0;
    }
  }

  ghost predicate Settled(s: Settings, rows: Table, env: Env) {
    forall id, sweep | id in rows && Enabled(s, sweep) :: !Matches(sweep, id, rows[id], env)
  }

  // ----- how many rows are left for each statement

  /** No statement matches a row that it did not match before. */
  ghost predicate Fewer(s: Settings, before: Table, rows: Table, env: Env) {
    forall sweep | Enabled(s, sweep) :: Matching(rows, sweep, env) <= Matching(before, sweep, env)
  }

  /** A statement has no row left, or a full batch fewer. */
  ghost predicate Worked(sweep: Sweep, before: Table, rows: Table, env: Env) {
    || Matching(rows, sweep, env) == {}
    || |Matching(rows, sweep, env)| + BATCH_SIZE <= |Matching(before, sweep, env)|
  }

  lemma SweepEnablesNothing(s: Settings, sweep: Sweep, other: Sweep, id: nat, t: Task, env: Env)
    requires InRange(s) && Enabled(s, sweep) && Enabled(s, other) && Matches(sweep, id, t, env)
    ensures match Swept(sweep, t, env)
            case None => true
            case Some(t') => Matches(other, id, t', env) ==> Matches(other, id, t, env) && other != sweep
  {
  }

  /** A batch leaves exactly its unpicked rows to its statement, and nothing new to any other. */
  lemma BatchLeaves(s: Settings, sweep: Sweep, rows: Table, picked: set<nat>, env: Env)
    requires InRange(s) && Enabled(s, sweep) && picked <= Matching(rows, sweep, env)
    ensures Fewer(s, rows, SweepRows(rows, sweep, picked, env), env)
    ensures Matching(SweepRows(rows, sweep, picked, env), sweep, env) == Matching(rows, sweep, env) - picked
  {
    hide Matches, Swept, Enabled;
    var rows' := SweepRows(rows, sweep, picked, env);
    forall other, id | Enabled(s, other) && id in Matching(rows', other, env)
      ensures id in Matching(rows, other, env) && !(other == sweep && id in picked)
    {
      if id in picked {
        SweepEnablesNothing(s, sweep, other, id, rows[id], env);
        SweptOrDeleted(sweep, rows[id], env);
      }
    }
  }

  lemma BatchWorks(s: Settings, before: Table, sweep: Sweep, rows: Table, picked: set<nat>, env: Env)
    requires InRange(s) && Enabled(s, sweep) && IsBatch(rows, sweep, env, BATCH_SIZE, picked)
    requires Fewer(s, before, rows, env)
    ensures var rows' := SweepRows(rows, sweep, picked, env);
      && Fewer(s, before, rows', env) && Worked(sweep, before, rows', env)
      && forall other | Enabled(s, other) && Worked(other, before, rows, env) :: Worked(other, before, rows', env)
  {
    BatchIsPicked(rows, sweep, env, picked);
    var rows' := SweepRows(rows, sweep, picked, env);
    hide Matching, SweepRows, Enabled, IsBatch;
    BatchLeaves(s, sweep, rows, picked, env);
    Subset(Matching(rows, sweep, env), Matching(before, sweep, env));
    forall other | Enabled(s, other) && Worked(other, before, rows, env) ensures Worked(other, before, rows', env) {
      Subset(Matching(rows', other, env), Matching(rows, other, env));
    }
  }

  lemma SettledPicksNothing(s: Settings, sweep: Sweep, rows: Table, picked: set<nat>, env: Env)
    requires Settled(s, rows, env) && Enabled(s, sweep) && picked <= Matching(rows, sweep, env)
    ensures picked == {}
  {
    hide Enabled, Matches;
    assert Matching(rows, sweep, env) == {};
  }

  /** Runs one statement of a batch. */
  method RunEnabled(table: TaskTable, s: Settings, sweep: Sweep, env: Env, ghost first: Table) returns (changed: nat)
    requires InRange(s) && Enabled(s, sweep)
    requires table.Valid() && env.now == table.now && Fewer(s, first, table.rows, env)
    modifies table`rows
    ensures table.Valid()
    ensures forall before | PartlyCleaned(s, before, old(table.rows), env) :: PartlyCleaned(s, before, table.rows, env)
    ensures Left(table.rows, env.now) + changed <= Left(old(table.rows), env.now)
    ensures changed == 0 ==> table.rows == old(table.rows)
    ensures changed == 0 ==> forall id | id in table.rows :: !Matches(sweep, id, table.rows[id], env)
    ensures Settled(s, old(table.rows), env) ==> changed == 0
    ensures Fewer(s, first, table.rows, env) && Worked(sweep, first, table.rows, env)
    ensures forall other | Enabled(s, other) && Worked(other, first, old(table.rows), env) ::
      Worked(other, first, table.rows, env)
  {
    hide Matches, Swept, Cleaned, Budget, Expired, PartlyCleaned, Left, SweepRows, IsBatch, Enabled, Fewer, Worked, Inv;
    ghost var rows := table.rows;
    ghost var picked;
    changed, picked := table.RunSweep(sweep, env, BATCH_SIZE);
    BatchIsPicked(rows, sweep, env, picked);
    BatchSpends(s, sweep, rows, picked, env);
    BatchWorks(s, first, sweep, rows, picked, env);
    if Settled(s, rows, env) {
      SettledPicksNothing(s, sweep, rows, picked, env);
    }
    forall before | PartlyCleaned(s, before, rows, env) ensures PartlyCleaned(s, before, table.rows, env) {
      BatchKeepsMeaning(s, before, sweep, rows, picked, env);
    }
    if changed == 0 {
      EmptyBatch(rows, sweep, env, picked);
    }
  }

  /** Runs every enabled statement once. */
  method CleanupBatch(table: TaskTable, s: Settings, env: Env) returns (changed: nat)
    requires InRange(s) && table.Valid() && env.now == table.now
    modifies table`rows
    ensures table.Valid()
    ensures forall before | PartlyCleaned(s, before, old(table.rows), env) :: PartlyCleaned(s, before, table.rows, env)
    ensures Left(table.rows, env.now) + changed <= Left(old(table.rows), env.now)
    ensures changed == 0 ==> table.rows == old(table.rows)
    ensures changed == 0 <==> Settled(s, old(table.rows), env)
    ensures forall sweep | Enabled(s, sweep) :: Worked(sweep, old(table.rows), table.rows, env)
  {
    hide Matches, Swept, Cleaned, Budget, Expired, PartlyCleaned, Left, Fewer, Worked, Matching, Inv;
    ghost var first := table.rows;
    NothingDoneYet(s, first, env);
    var completed := RunEnabled(table, s, DeleteCompleted(s.completedDays), env, first);
    var failedInbox := RunEnabled(table, s, DeleteFailedInbox(s.failedInboxDays), env, first);
    var failed := RunEnabled(table, s, DeleteFailed(s.failedDays), env, first);
    var compactedFailed := 0;
    if s.compactFailedInbox {
      compactedFailed := RunEnabled(table, s, CompactFailedInbox(s.compactionHours), env, first);
    }
    var compactedCompleted := RunEnabled(table, s, CompactCompletedInbox, env, first);
    var irrelevant := RunEnabled(table, s, CompleteIrrelevant, env, first);
    changed := completed + failedInbox + failed + compactedFailed + compactedCompleted + irrelevant;
  }

  lemma NothingDoneYet(s: Settings, rows: Table, env: Env)
    ensures Fewer(s, rows, rows, env)
  {
  }

  /** After some batches every statement has no row left, or that many full batches fewer. */
  ghost predicate WorkedBatches(s: Settings, before: Table, rows: Table, env: Env, batches: nat) {
    forall sweep | Enabled(s, sweep) ::
      || Matching(rows, sweep, env) == {}
      || |Matching(rows, sweep, env)| + batches * BATCH_SIZE <= |Matching(before, sweep, env)|
  }

  lemma AnotherBatch(s: Settings, before: Table, rows: Table, rows': Table, env: Env, batches: nat)
    requires WorkedBatches(s, before, rows, env, batches)
    requires forall sweep | Enabled(s, sweep) :: Worked(sweep, rows, rows', env)
    ensures WorkedBatches(s, before, rows', env, batches + 1)
  {
    hide Matching, Enabled;
    forall sweep | Enabled(s, sweep)
      ensures || Matching(rows', sweep, env) == {}
              || |Matching(rows', sweep, env)| + (batches + 1) * BATCH_SIZE <= |Matching(before, sweep, env)|
    {
      assert Worked(sweep, rows, rows', env);
    }
  }

  /** What a caller can check beforehand: no enabled statement matches more rows than all batches but the
      last can change. */
  ghost predicate Manageable(s: Settings, rows: Table, env: Env) {
    forall sweep | Enabled(s, sweep) :: |Matching(rows, sweep, env)| <= 990_000
  }

  /** Before the last batch a manageable table has nothing left to do. */
  lemma ManageableIsDone(s: Settings, before: Table, rows: Table, env: Env, batches: nat)
    requires Manageable(s, before, env) && batches >= MAX_BATCHES - 1
    requires WorkedBatches(s, before, rows, env, batches)
    ensures Settled(s, rows, env)
  {
    hide Matches, Enabled;
    forall id, sweep | id in rows && Enabled(s, sweep) ensures !Matches(sweep, id, rows[id], env) {
      assert batches * BATCH_SIZE >= (MAX_BATCHES - 1) * BATCH_SIZE;
      assert |Matching(rows, sweep, env)| == 0;
      assert id !in Matching(rows, sweep, env);
    }
  }

  // ----- what is left, field by field

  predicate IsIngestion(k: Kind) {
    k == IngestObjectFromInbox || k == VerifyAndIngestObjectFromInbox
  }

  /** A time that lies more than so many seconds back. */
  predicate Longer(at: Option<real>, seconds: real, now: real) {
    at.Some? && now - at.value > seconds
  }

  /** Completed rows go when their retention is over, and so do failed ones, those of an ingestion also after a
      retention of their own. */
  predicate Outlived(s: Settings, t: Task, now: real) {
    || (t.state == Completed && Longer(t.completedAt, 86400.0 * s.completedDays as real, now))
    || (t.state == Failed && Longer(t.attemptedAt, 86400.0 * s.failedDays as real, now))
    || (t.state == Failed && IsIngestion(t.kind) && Longer(t.attemptedAt, 86400.0 * s.failedInboxDays as real, now))
  }

  /** A finished ingestion that still has its payload loses it: a completed one after an hour, a failed one
      after the hours of the setting. Verifications of what concerns nothing here are completed. */
  function Kept(s: Settings, id: nat, t: Task, env: Env): Task {
    if t.state == Failed && IsIngestion(t.kind) && t.params.Payload? && s.compactFailedInbox
       && Longer(t.attemptedAt, 3600.0 * s.compactionHours as real, env.now) then
      t.(params := Discarded("inbox task params removed after permanent failure", Octets(TextOf(t.params))))
    else if t.state == Completed && IsIngestion(t.kind) && t.params.Payload? && Longer(t.completedAt, 3600.0, env.now) then
      t.(params := Discarded("inbox task params removed after successful ingest", Octets(TextOf(t.params))))
    else if t.state == Pending && t.kind == VerifyAndIngestObjectFromInbox && id in env.irrelevant then
      t.(state := Completed, attempts := t.attempts + 1, completedAt := Some(env.now), latestError := None)
    else t
  }

  lemma CleanedExactly(s: Settings, id: nat, t: Task, env: Env)
    ensures Cleaned(s, id, t, env) == if Outlived(s, t, env.now) then None else Some(Kept(s, id, t, env))
  {
    hide Octets, TextOf;
  }

  /** The cleanup of old tasks at a fixed clock. When it stops at an empty batch no enabled statement matches
      any row, and the table is exactly the old one with every row cleaned. It does so whenever there is not
      too much to do at the start. */
  method CleanupOldTasks(table: TaskTable, s: Settings, env: Env) returns (changed: nat, ghost settled: bool)
    requires InRange(s) && table.Valid() && env.now == table.now
    modifies table`rows
    ensures table.Valid()
    ensures PartlyCleaned(s, old(table.rows), table.rows, env)
    ensures changed <= 2 * |old(table.rows)|
    ensures changed < 100 || Manageable(s, old(table.rows), env) ==> settled
    ensures settled ==> Settled(s, table.rows, env)
    ensures settled ==>
      forall id | id in old(table.rows) ::
        match Cleaned(s, id, old(table.rows)[id], env)
        case None => id !in table.rows
        case Some(t) => id in table.rows && table.rows[id] == t
    ensures settled ==>
      forall id | id in old(table.rows) ::
        if Outlived(s, old(table.rows)[id], env.now) then id !in table.rows
        else id in table.rows && table.rows[id] == Kept(s, id, old(table.rows)[id], env)
  {
    hide Matches, Cleaned, Expired, Enabled, Matching, Worked, Inv, Outlived, Kept;
    changed, settled := 0, false;
    var batches := 0;
    LeftAtMostTwice(table.rows, env.now);
    ghost var before := table.rows;
    AllToDo(s, before, env);
    while batches < MAX_BATCHES
      invariant batches <= MAX_BATCHES && batches <= changed && !settled
      invariant table.Valid() && env.now == table.now
      invariant PartlyCleaned(s, before, table.rows, env)
      invariant WorkedBatches(s, before, table.rows, env, batches)
      invariant Left(table.rows, env.now) + changed <= 2 * |before|
      invariant Manageable(s, before, env) ==> batches < MAX_BATCHES
    {
      ghost var rows := table.rows;
      var n := CleanupBatch(table, s, env);
      AnotherBatch(s, before, rows, table.rows, env, batches);
      if Manageable(s, before, env) && batches == MAX_BATCHES - 1 {
        ManageableIsDone(s, before, rows, env, batches);
      }
      if n == 0 {
        settled := true;
        break;
      }
      batches := batches + 1;
      changed := changed + n;
    }
    if settled {
      SettledIsCleaned(s, before, table.rows, env);
      forall id | id in before
        ensures Cleaned(s, id, before[id], env) == if Outlived(s, before[id], env.now) then None else Some(Kept(s, id, before[id], env))
      {
        CleanedExactly(s, id, before[id], env);
      }
    }
  }

  lemma AllToDo(s: Settings, rows: Table, env: Env)
    ensures PartlyCleaned(s, rows, rows, env) && WorkedBatches(s, rows, rows, env, 0)
  {
  }

  lemma LeftAtMostTwice(rows: Table, now: real)
    ensures Left(rows, now) <= 2 * |rows|
  {
    Subset(Above(rows, now, 0), rows.Keys);
    Subset(Above(rows, now, 1), rows.Keys);
  }

  lemma SettledIsCleaned(s: Settings, before: Table, rows: Table, env: Env)
    requires PartlyCleaned(s, before, rows, env) && Settled(s, rows, env)
    ensures forall id | id in before ::
        match Cleaned(s, id, before[id], env)
        case None => id !in rows
        case Some(t) => id in rows && rows[id] == t
  {
    hide Matches, Cleaned, Expired, Enabled;
    forall id | id in before
      ensures match Cleaned(s, id, before[id], env) case None => id !in rows case Some(t) => id in rows && rows[id] == t
    {
      assert CleanedAt(s, rows, id, env) == CleanedAt(s, before, id, env);
      if id in rows {
        CleanMeansUnmatched(s, id, rows[id], env);
      }
    }
  }

  /** Whatever a cleanup deletes was completed or failed and past its retention, and what is settled stays
      settled: a second cleanup at the same time would change nothing. */
  lemma CleanedIsFixed(s: Settings, id: nat, t: Task, env: Env)
    requires InRange(s)
    ensures Cleaned(s, id, t, env) == None ==> t.state.Completed? || t.state.Failed?
    ensures t.state.Running? ==> Cleaned(s, id, t, env) == Some(t)
    ensures match Cleaned(s, id, t, env) case None => true case Some(t') => Cleaned(s, id, t', env) == Some(t')
  {
  }
}
