/** What the statements that enqueue recurring work insert, said of the rows of the task table. */
module Producers {
  import opened Options
  import opened Tasks
  import opened QueueRuns
  import opened Enqueue

  /** A task is the recurring work that a key names. */
  predicate IsFor(t: Task, key: Key) {
    match key
    case SeedHosts => t.kind == SeedCommunityDiscoveryHosts
    case SeedDiscourse => t.kind == SeedDiscourseDiscoveryHosts
    case HostDiscovery(host) => t.kind == DiscoverServerCommunities && t.params.Payload? && t.params.host == Some(host)
    case HostProbe(host) => t.kind == ProbeCommunityHostInteraction && t.params.Payload? && t.params.host == Some(host)
    case Featured(c) => t.kind == FetchCommunityFeatured && t.params.Payload? && t.params.community == Some(c)
    case Outbox(c, preview) =>
      t.kind == FetchCommunityOutbox && t.params.Payload? && t.params.community == Some(c) && t.params.preview == preview
  }

  /** Some such task is pending or running. */
  predicate Busy(rows: Table, key: Key) {
    exists id | id in rows :: IsFor(rows[id], key) && (rows[id].state == Pending || rows[id].state == Running)
  }

  /** Some such task was completed less than so many seconds ago. */
  predicate CompletedWithin(rows: Table, key: Key, seconds: real, now: real) {
    exists id | id in rows ::
      && IsFor(rows[id], key) && rows[id].state == Completed
      && rows[id].completedAt.Some? && now - rows[id].completedAt.value < seconds
  }

  predicate FailedWithin(rows: Table, key: Key, seconds: real, now: real) {
    exists id | id in rows ::
      && IsFor(rows[id], key) && rows[id].state == Failed
      && rows[id].attemptedAt.Some? && now - rows[id].attemptedAt.value < seconds
  }

  /** Work that nobody has or does, and that was not done or tried too recently. */
  predicate IsDue(rows: Table, now: real, key: Key) {
    && !Busy(rows, key)
    && match key
       case SeedHosts => !CompletedWithin(rows, key, 86400.0, now) && !FailedWithin(rows, key, 21600.0, now)
       case SeedDiscourse => !CompletedWithin(rows, key, 604800.0, now) && !FailedWithin(rows, key, 21600.0, now)
       case Outbox(c, preview) =>
         if preview then !CompletedWithin(rows, key, 7200.0, now) && !FailedWithin(rows, key, 1800.0, now)
         else
           && !Busy(rows, Outbox(c, true))
           && !FailedWithin(rows, key, 21600.0, now) && !FailedWithin(rows, Outbox(c, true), 21600.0, now)
       case _ => true
  }

  lemma IsForExactly(t: Task, key: Key)
    ensures About(t, key) <==> IsFor(t, key)
  {
  }

  lemma ConditionsExactly(rows: Table, now: real, key: Key, seconds: real)
    ensures ActiveAbout(rows, key) <==> Busy(rows, key)
    ensures CompletedAbout(rows, key, now - seconds) <==> CompletedWithin(rows, key, seconds, now)
    ensures FailedAbout(rows, key, now - seconds) <==> FailedWithin(rows, key, seconds, now)
  {
    hide About, IsFor;
    forall id | id in rows ensures About(rows[id], key) <==> IsFor(rows[id], key) {
      IsForExactly(rows[id], key);
    }
  }

  lemma DueExactly(rows: Table, now: real, key: Key)
    ensures Allowed(rows, now, key) <==> IsDue(rows, now, key)
  {
    hide ActiveAbout, Busy, CompletedAbout, CompletedWithin, FailedAbout, FailedWithin;
    ConditionsExactly(rows, now, key, 86400.0);
    ConditionsExactly(rows, now, key, 604800.0);
    ConditionsExactly(rows, now, key, 21600.0);
    ConditionsExactly(rows, now, key, 7200.0);
    ConditionsExactly(rows, now, key, 1800.0);
    if key.Outbox? {
      ConditionsExactly(rows, now, Outbox(key.community, true), 21600.0);
    }
  }

  // ----- which candidates are inserted

  /** How many of the first n keys are due. */
  function DueBefore(rows: Table, now: real, keys: seq<Key>, n: nat): nat
    requires n <= |keys|
  {
    if n == 0 then 0 else DueBefore(rows, now, keys, n - 1) + if IsDue(rows, now, keys[n - 1]) then 1 else 0
  }

  lemma {:induction false} SelectPrefix(rows: Table, now: real, keys: seq<Key>, key: Key)
    ensures Select(rows, now, keys + [key]) == Select(rows, now, keys) + if IsDue(rows, now, key) then [key] else []
  {
    hide Allowed, IsDue;
    DueExactly(rows, now, key);
    if keys == [] {
      assert keys + [key] == [key] && [key][1..] == [];
      assert Select(rows, now, []) == [];
    } else {
      assert (keys + [key])[1..] == keys[1..] + [key];
      SelectPrefix(rows, now, keys[1..], key);
    }
  }

  /** A candidate stands among those that are due exactly behind the due ones before it. */
  lemma {:induction false} SelectExactly(rows: Table, now: real, keys: seq<Key>, n: nat)
    requires n <= |keys|
    ensures var due := Select(rows, now, keys[..n]);
      && |due| == DueBefore(rows, now, keys, n)
      && forall i | 0 <= i < n && IsDue(rows, now, keys[i]) ::
           DueBefore(rows, now, keys, i) < |due| && due[DueBefore(rows, now, keys, i)] == keys[i]
  {
    hide IsDue;
    if n > 0 {
      SelectExactly(rows, now, keys, n - 1);
      SelectPrefix(rows, now, keys[..n - 1], keys[n - 1]);
      assert keys[..n] == keys[..n - 1] + [keys[n - 1]];
    }
  }

  lemma {:induction false} SelectedIsDue(rows: Table, now: real, keys: seq<Key>)
    ensures forall key | key in Select(rows, now, keys) :: key in keys && IsDue(rows, now, key)
  {
    hide Allowed, IsDue;
    if keys != [] {
      DueExactly(rows, now, keys[0]);
      SelectedIsDue(rows, now, keys[1..]);
    }
  }

  /** The keys that a statement is about, and how many of them it may insert. */
  ghost predicate IsCandidate(s: Statement, key: Key) {
    match s
    case EnqueueSeedHosts => key == SeedHosts
    case EnqueueSeedDiscourse => key == SeedDiscourse
    case EnqueueDueDiscovery(hosts, _) => key.HostDiscovery? && key.host in hosts
    case EnqueueDueProbes(hosts) => key.HostProbe? && key.host in hosts
    case EnqueueFollowedOutboxes(communities) => key.Outbox? && !key.preview && key.community in communities
    case EnqueueFeatured(c, followed) => followed && key == Featured(c)
    case EnqueueOutboxPreview(c, remote) => remote && key == Outbox(c, true)
  }

  lemma CandidatesExactly(s: Statement, key: Key)
    ensures key in Candidates(s) <==> IsCandidate(s, key)
  {
    match s
    case EnqueueDueDiscovery(hosts, _) =>
      if IsCandidate(s, key) {
        var i :| 0 <= i < |hosts| && hosts[i] == key.host;
        assert Candidates(s)[i] == key;
      }
    case EnqueueDueProbes(hosts) =>
      if IsCandidate(s, key) {
        var i :| 0 <= i < |hosts| && hosts[i] == key.host;
        assert Candidates(s)[i] == key;
      }
    case EnqueueFollowedOutboxes(communities) =>
      if IsCandidate(s, key) {
        var i :| 0 <= i < |communities| && communities[i] == key.community;
        assert Candidates(s)[i] == key;
      }
    case _ =>
  }

  /** At most so many of the due ones. */
  function Room(s: Statement, wanted: nat): nat {
    match s
    case EnqueueDueDiscovery(_, limit) => if wanted <= limit then wanted else limit
    case EnqueueDueProbes(_) => if wanted <= 50 then wanted else 50
    case _ => wanted
  }

  /** A statement inserts its candidates that are due, in their order, as many as its limit admits: a candidate is
      inserted if and only if it is due and there is still room behind the due ones before it. */
  lemma InsertedExactly(rows: Table, now: real, s: Statement, i: nat)
    requires WellFormed(s) && i < |Candidates(s)|
    ensures var keys := Candidates(s);
      var before, all := DueBefore(rows, now, keys, i), DueBefore(rows, now, keys, |keys|);
      && (keys[i] in Inserted(rows, now, s) <==> IsDue(rows, now, keys[i]) && before < Room(s, all))
      && |Inserted(rows, now, s)| == Room(s, all)
  {
    hide IsDue, IsCandidate, Candidates;
    var keys := Candidates(s);
    assert keys[..|keys|] == keys;
    SelectExactly(rows, now, keys, |keys|);
    SelectedIsDue(rows, now, keys);
    DistinctCandidates(s);
    SelectFacts(rows, now, keys);
    var due, n := Select(rows, now, keys), DueBefore(rows, now, keys, i);
    if keys[i] in Inserted(rows, now, s) {
      var j :| 0 <= j < |Inserted(rows, now, s)| && Inserted(rows, now, s)[j] == keys[i];
      assert due[j] == keys[i] == due[n];
    }
    if IsDue(rows, now, keys[i]) && n < Room(s, |due|) {
      assert Inserted(rows, now, s)[n] == keys[i];
    }
  }

  lemma DistinctCandidates(s: Statement)
    requires WellFormed(s)
    ensures Distinct(Candidates(s))
  {
  }

  // ----- the rows that come of it

  /** A row for new work, to be taken at once. */
  ghost predicate IsNew(t: Task, key: Key, maxAttempts: nat) {
    IsFor(t, key) && t.state == Pending && t.attempts == 0 && t.maxAttempts == maxAttempts && t.attemptedAt == None
  }

  lemma FirstRow(w: World, key: Key, text: string, maxAttempts: nat)
    requires maxAttempts >= 1
    ensures var w' := Next(w, QueueRuns.Event.Enqueue(KindOf(key), ParamsOf(key, text), maxAttempts));
      && w'.nextId == w.nextId + 1 && w'.rows == w.rows[w.nextId := w'.rows[w.nextId]]
      && IsNew(w'.rows[w.nextId], key, maxAttempts)
  {
  }

  /** New rows stand behind the old ones, which stay as they are: one for each key, in their order. */
  lemma {:induction false} RowsInserted(w: World, keys: seq<Key>, text: string, maxAttempts: nat)
    requires maxAttempts >= 1 && forall id | id in w.rows :: id < w.nextId
    ensures var w' := InsertAll(w, keys, text, maxAttempts);
      && w'.nextId == w.nextId + |keys|
      && (forall id: nat :: id in w'.rows <==> id in w.rows || w.nextId <= id < w.nextId + |keys|)
      && (forall id | id in w.rows :: w'.rows[id] == w.rows[id])
      && forall i | 0 <= i < |keys| :: IsNew(w'.rows[w.nextId + i], keys[i], maxAttempts)
    decreases |keys|
  {
    hide IsNew, Next, KindOf, ParamsOf;
    if keys != [] {
      FirstRow(w, keys[0], text, maxAttempts);
      KeyOfParams(keys[0], text);
      var w1 := Next(w, QueueRuns.Event.Enqueue(KindOf(keys[0]), ParamsOf(keys[0], text), maxAttempts));
      RowsInserted(w1, keys[1..], text, maxAttempts);
      var w' := InsertAll(w, keys, text, maxAttempts);
      forall i | 0 <= i < |keys| ensures IsNew(w'.rows[w.nextId + i], keys[i], maxAttempts) {
        if i > 0 {
          assert keys[1..][i - 1] == keys[i] && w1.nextId + (i - 1) == w.nextId + i;
        }
      }
    }
  }
}
