/** The two servers of the follow protocol with the channels between them, changed statement by statement. */
module FollowServers {
  import opened FollowProtocol
  import opened Options
  import L = LocalObjectRef

  /** What an Undo names: the id of the activity of the follow, or the URI of the follow if it had none. */
  function IdOrUri(p: Pair, apId: Option<string>, base: L.BaseUrl): string {
    if apId.Some? then apId.value else L.LocalUri(L.CommunityFollow(p.community, p.follower), base).Serialize()
  }

  class Servers {
    const base: L.BaseUrl
    // here
    var rows: map<Pair, Follow>
    var undos: seq<Undone>
    var outbox: seq<Activity>
    // there
    var remoteRows: map<Pair, string>
    var accepts: seq<string>
    // the nonces that were drawn
    ghost var used: set<string>

    ghost function World(): World
      reads this
    {
      FollowProtocol.World.World(base, LocalSide(rows, undos, outbox), RemoteSide(remoteRows, accepts), used)
    }

    /** The invariant of every orderly run. */
    ghost predicate Valid()
      reads this
    {
      Inv(World())
    }

    /** The rows there once everything in flight has arrived. */
    ghost function Coming(): map<Pair, string>
      reads this
    {
      Drained(remoteRows, outbox)
    }

    constructor (base: L.BaseUrl)
      requires base.WellFormed() && base.Strippable()
      ensures Valid() && World() == Initial(base)
    {
      this.base := base;
      rows, undos, outbox, remoteRows, accepts, used := map[], [], [], map[], [], {};
      new;
      InitialIsFine(base);
    }

    /** The insert of a request to follow; an existing row stays as it is. */
    method InsertRow(p: Pair) returns (isNew: bool)
      requires Valid()
      modifies `rows
      ensures Valid() && World() == Next(old(World()), Insert(p))
      ensures (isNew <==> p !in old(rows)) && Coming() == old(Coming())
      ensures rows == if isNew then old(rows)[p := Follow(None, false)] else old(rows)
    {
      InsertKeeps(World(), p);
      isNew := p !in rows;
      if isNew {
        rows := rows[p := Follow(None, false)];
      }
    }

    /** Stamps the row with a fresh id and sends the follow. The servers stay on their way to agreement if and
        only if the row is still there. */
    method SendActivity(p: Pair, nonce: string)
      requires Valid() && nonce !in used
      modifies `rows, `outbox, `used
      ensures World() == Next(old(World()), Send(p, nonce))
      ensures Valid() <==> p in old(rows)
      ensures p in Coming() && Named(Coming()[p], base) == Some(p)
      ensures forall u | u in undos :: u.followApId != Some(Coming()[p])
    {
      ghost var w := World();
      StepKeepsExactly(w, Send(p, nonce));
      SentId(w, p, nonce);
      hide IdFor, Inv, Named;
      var id := IdFor(p, nonce, base);
      if p in rows {
        rows := rows[p := rows[p].(apId := Some(id))];
      }
      outbox := outbox + [FollowIt(p, id)];
      used := used + {nonce};
      InvMeansOrderly(w, Send(p, nonce));
    }

    /** A request to follow, when nothing comes between its insert and its send. */
    method RequestToFollow(p: Pair, nonce: string) returns (sent: bool)
      requires Valid() && nonce !in used
      modifies `rows, `outbox, `used
      ensures Valid() && p in rows
      ensures sent <==> !(p in old(rows) && old(rows)[p].accepted)
      ensures sent <==> !rows[p].accepted
      ensures if sent then p in Coming() && rows[p].apId == Some(Coming()[p]) else World() == old(World())
    {
      hide Inv, Named, IdFor;
      var isNew := InsertRow(p);
      sent := isNew || !rows[p].accepted;
      if sent {
        SendActivity(p, nonce);
        CurrentIsComing(World(), p);
      }
    }

    /** Deletes a follow and records its undo in one transaction, then sends the undo. In the end there is no
        row there either, and every other follow is as it was. */
    method UnfollowCommunity(p: Pair)
      requires Valid()
      modifies `rows, `undos, `outbox
      ensures Valid() && World() == Next(old(World()), Undo(p))
      ensures p !in rows && Coming() == old(Coming()) - {p}
      ensures p !in old(rows) ==> undos == old(undos) && outbox == old(outbox)
      ensures p in old(rows) ==>
        && undos == old(undos) + [Undone(p, old(rows)[p].apId)] && rows == old(rows) - {p}
        && outbox == old(outbox) + [UndoIt(IdOrUri(p, old(rows)[p].apId, base))]
    {
      ghost var w := World();
      UnfollowKeeps(w, p);
      UnfollowComes(w, p);
      hide Inv, UndoneId;
      if p in rows {
        var u := Undone(p, rows[p].apId);
        rows := rows - {p};
        undos := undos + [u];
        outbox := outbox + [UndoIt(UndoneId(u, base))];
      }
    }

    /** Undoes every local follow of a community that nobody here tracks any more. The rows that the delete
        statement returns are given in its order. */
    method UnfollowUntracked(deleted: seq<Pair>) returns (undone: nat)
      requires Valid() && forall p | p in deleted :: p in rows
      requires forall i, j | 0 <= i < j < |deleted| :: deleted[i] != deleted[j]
      modifies `rows, `undos, `outbox
      ensures Valid() && undone == |deleted|
      ensures World() == Next(old(World()), UndoAll(deleted))
    {
      hide Inv, UndoneId, UnfollowAll;
      ghost var w := World();
      var before := rows;
      rows := map p | p in rows && p !in deleted :: rows[p];
      var newUndos := RecordUndos(before, deleted);
      SendUndos(newUndos);
      undone := |newUndos|;
      UnfollowAllKeeps(w, deleted);
      BulkIsOneByOne(w.local, deleted, base);
    }

    method RecordUndos(before: map<Pair, Follow>, deleted: seq<Pair>) returns (newUndos: seq<Undone>)
      requires forall p | p in deleted :: p in before
      modifies `undos
      ensures newUndos == UndoneOf(before, deleted) && undos == old(undos) + newUndos
    {
      newUndos := [];
      for i := 0 to |deleted|
        invariant newUndos == UndoneOf(before, deleted[..i])
        invariant undos == old(undos) + newUndos
      {
        var u := Undone(deleted[i], before[deleted[i]].apId);
        undos := undos + [u];
        newUndos := newUndos + [u];
        assert deleted[..i + 1] == deleted[..i] + [deleted[i]];
      }
      assert deleted[..|deleted|] == deleted;
    }

    method SendUndos(newUndos: seq<Undone>)
      modifies `outbox
      ensures outbox == old(outbox) + Activities(newUndos, base)
    {
      hide UndoneId;
      for i := 0 to |newUndos|
        invariant outbox == old(outbox) + Activities(newUndos[..i], base)
      {
        outbox := outbox + [UndoIt(UndoneId(newUndos[i], base))];
        assert newUndos[..i + 1][..i] == newUndos[..i];
      }
      assert newUndos[..|newUndos|] == newUndos;
    }

    /** The janitor sends a recorded undo again; nothing comes of it. */
    method SendUndoAgain(i: nat)
      requires Valid() && i < |undos|
      modifies `outbox
      ensures Valid() && World() == Next(old(World()), ResendUndo(i))
      ensures Coming() == old(Coming())
      ensures outbox == old(outbox) + [UndoIt(IdOrUri(undos[i].pair, undos[i].followApId, base))]
    {
      ghost var w := World();
      ResendUndoKeeps(w, undos[i]);
      outbox := outbox + [UndoIt(UndoneId(undos[i], base))];
      BothConverge(w, World());
    }

    /** The cleanup of stale communities forgets a follow that was not accepted. The servers stay on their way
        to agreement if and only if it was never sent. */
    method ForgetStale(p: Pair)
      requires Valid() && p in rows && !rows[p].accepted
      modifies `rows
      ensures World() == Next(old(World()), Forget(p))
      ensures Valid() <==> old(rows)[p].apId.None?
    {
      ghost var w := World();
      StepKeepsExactly(w, Forget(p));
      rows := rows - {p};
      InvMeansOrderly(w, Forget(p));
    }

    /** The first activity arrives there. A Follow inserts the row or replaces its id, and is accepted; an Undo
        deletes the rows with its id. What everything in flight comes to is not changed by that. */
    method DeliverThere()
      requires Valid() && outbox != []
      modifies `outbox, `remoteRows, `accepts
      ensures Valid() && World() == Next(old(World()), ToRemote)
      ensures Coming() == old(Coming())
      ensures outbox == old(outbox)[1..]
      ensures match old(outbox)[0]
              case FollowIt(p, id) => remoteRows == old(remoteRows)[p := id] && accepts == old(accepts) + [id]
              case UndoIt(id) =>
                && accepts == old(accepts) && id !in remoteRows.Values
                && forall p | p in old(remoteRows) && old(remoteRows)[p] != id ::
                     p in remoteRows && remoteRows[p] == old(remoteRows)[p]
    {
      hide Inv, Drained, Named, Enabled;
      ghost var w := World();
      FirstArrives(w);
      var a := outbox[0];
      outbox := outbox[1..];
      match a {
        case FollowIt(p, id) =>
          remoteRows := remoteRows[p := id];
          accepts := accepts + [id];
        case UndoIt(id) =>
          remoteRows := map p | p in remoteRows && remoteRows[p] != id :: remoteRows[p];
      }
      assert World() == Next(w, ToRemote);
    }

    /** The first Accept arrives here: the follow that it names is accepted, whichever of its ids it names, and
        no id changes. */
    method DeliverHere()
      requires Valid() && accepts != []
      modifies `rows, `accepts
      ensures Valid() && World() == Next(old(World()), ToLocal)
      ensures forall p | Named(old(accepts)[0], base) == Some(p) && p in rows :: rows[p].accepted
      ensures rows.Keys == old(rows).Keys && forall p | p in rows :: rows[p].apId == old(rows)[p].apId
      ensures forall p | p in rows && Named(old(accepts)[0], base) != Some(p) :: rows[p] == old(rows)[p]
      ensures accepts == old(accepts)[1..]
    {
      hide Inv, Drained, Named, Enabled;
      ghost var w := World();
      FirstAccept(w);
      var named := Named(accepts[0], base);
      accepts := accepts[1..];
      if named.Some? && named.value in rows {
        rows := rows[named.value := rows[named.value].(accepted := true)];
      }
      assert World() == Next(w, ToLocal);
    }
  }

  /** Whenever nothing is in flight, the rows there are the stamped rows here, which are accepted; the two
      servers agree if and only if every follow here was sent. */
  lemma QuietServersAgree(servers: Servers)
    requires servers.Valid() && servers.outbox == [] && servers.accepts == []
    ensures servers.remoteRows == IdsHere(servers.rows)
    ensures forall p | p in servers.rows && servers.rows[p].apId.Some? :: servers.rows[p].accepted
    ensures Agree(servers.World()) <==> forall p | p in servers.rows :: servers.rows[p].apId.Some?
  {
    QuietAgrees(servers.World());
  }

  // ----- what single steps come to

  lemma FirstArrives(w: World)
    requires Inv(w) && w.local.outbox != []
    ensures Enabled(w, ToRemote) && Inv(Next(w, ToRemote))
    ensures var w' := Next(w, ToRemote);
      Drained(w'.remote.rows, w'.local.outbox) == Drained(w.remote.rows, w.local.outbox)
  {
    ToRemoteKeeps(w);
    hide Inv, Applied;
  }

  lemma FirstAccept(w: World)
    requires Inv(w) && w.remote.outbox != []
    ensures Enabled(w, ToLocal) && Inv(Next(w, ToLocal))
  {
    ToLocalKeeps(w);
  }

  lemma InvMeansOrderly(w: World, step: Step)
    requires Inv(w) && Enabled(w, step)
    ensures Inv(Next(w, step)) <==> Orderly(w, step)
  {
    hide Inv, Orderly, Next, Enabled, Converging;
    StepKeepsExactly(w, step);
    if Inv(Next(w, step)) {
      InvConverges(Next(w, step));
    }
  }

  lemma SentId(w: World, p: Pair, nonce: string)
    requires Inv(w) && nonce !in w.used
    ensures var w' := Next(w, Send(p, nonce));
      var coming := Drained(w'.remote.rows, w'.local.outbox);
      && p in coming && Named(coming[p], w.base) == Some(p)
      && forall u | u in w.local.undos :: u.followApId != Some(coming[p])
  {
    var id, w' := IdFor(p, nonce, w.base), Next(w, Send(p, nonce));
    assert MadeFor(p, id, w') by { assert nonce in w'.used; }
    NamedIsThePair(w', p, id);
    hide IdFor, Named, GoodBase, BeingAccepted, UndosAreRecorded, Converging;
    DrainedAppend(w.remote.rows, w.local.outbox, FollowIt(p, id));
    forall u | u in w.local.undos ensures u.followApId != Some(id) {
      if u.followApId.Some? {
        FreshIdIsNew(w, p, nonce, u.pair, u.followApId.value);
      }
    }
  }

  lemma CurrentIsComing(w: World, p: Pair)
    requires Inv(w) && p in w.local.rows && p in Drained(w.remote.rows, w.local.outbox)
    ensures w.local.rows[p].apId == Some(Drained(w.remote.rows, w.local.outbox)[p])
  {
    assert p in IdsHere(w.local.rows);
  }

  lemma UnfollowComes(w: World, p: Pair)
    requires Inv(w)
    ensures var l := Unfollow(w.local, p, w.base);
      Drained(w.remote.rows, l.outbox) == Drained(w.remote.rows, w.local.outbox) - {p}
  {
    UnfollowKeeps(w, p);
    hide IdsOk, UndosAreRecorded, BeingAccepted, GoodBase, UndoneId;
    var w' := w.(local := Unfollow(w.local, p, w.base));
    assert IdsHere(w'.local.rows) == IdsHere(w.local.rows) - {p};
  }

  lemma BothConverge(w: World, w': World)
    requires Inv(w) && Inv(w') && w'.local.rows == w.local.rows
    ensures Drained(w.remote.rows, w.local.outbox) == Drained(w'.remote.rows, w'.local.outbox)
  {
  }

  // ----- one transaction for many follows

  function UndoneOf(rows: map<Pair, Follow>, deleted: seq<Pair>): (undone: seq<Undone>)
    requires forall p | p in deleted :: p in rows
    ensures |undone| == |deleted|
  {
    seq(|deleted|, i requires 0 <= i < |deleted| => Undone(deleted[i], rows[deleted[i]].apId))
  }

  function Activities(undone: seq<Undone>, base: L.BaseUrl): seq<Activity> {
    seq(|undone|, i requires 0 <= i < |undone| => UndoIt(UndoneId(undone[i], base)))
  }

  lemma UndoneFirst(rows: map<Pair, Follow>, deleted: seq<Pair>)
    requires deleted != [] && forall p | p in deleted :: p in rows
    requires deleted[0] !in deleted[1..]
    ensures UndoneOf(rows, deleted) == [Undone(deleted[0], rows[deleted[0]].apId)] + UndoneOf(rows - {deleted[0]}, deleted[1..])
  {
    assert forall p | p in deleted[1..] :: p in rows - {deleted[0]};
  }

  lemma ActivitiesFirst(u: Undone, rest: seq<Undone>, base: L.BaseUrl)
    ensures Activities([u] + rest, base) == [UndoIt(UndoneId(u, base))] + Activities(rest, base)
  {
    hide UndoneId;
  }

  lemma RowsWithout(rows: map<Pair, Follow>, first: Pair, rest: seq<Pair>)
    ensures (map p | p in rows && p !in [first] + rest :: rows[p]) == map p | p in rows - {first} && p !in rest :: rows[p]
  {
  }

  /** Deleting the rows together, recording all undos and sending them afterwards comes to the same as
      undoing one follow after the other. */
  lemma {:induction false} BulkIsOneByOne(l: LocalSide, deleted: seq<Pair>, base: L.BaseUrl)
    requires forall p | p in deleted :: p in l.rows
    requires forall i, j | 0 <= i < j < |deleted| :: deleted[i] != deleted[j]
    ensures UnfollowAll(l, deleted, base) == LocalSide(
      map p | p in l.rows && p !in deleted :: l.rows[p],
      l.undos + UndoneOf(l.rows, deleted),
      l.outbox + Activities(UndoneOf(l.rows, deleted), base))
    decreases |deleted|
  {
    hide UndoneId, Activities, UndoneOf;
    if deleted == [] {
      NoneUndone(l.rows, base);
      assert (map p | p in l.rows && p !in deleted :: l.rows[p]) == l.rows;
    } else {
      var first, rest := deleted[0], deleted[1..];
      var u, l' := Undone(first, l.rows[first].apId), Unfollow(l, first, base);
      assert deleted == [first] + rest && first !in rest;
      BulkIsOneByOne(l', rest, base);
      UndoneFirst(l.rows, deleted);
      ActivitiesFirst(u, UndoneOf(l'.rows, rest), base);
      RowsWithout(l.rows, first, rest);
      assert l.undos + ([u] + UndoneOf(l'.rows, rest)) == l'.undos + UndoneOf(l'.rows, rest);
    }
  }

  lemma NoneUndone(rows: map<Pair, Follow>, base: L.BaseUrl)
    ensures UndoneOf(rows, []) == [] && Activities([], base) == []
  {
  }
}
