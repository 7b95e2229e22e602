/** Following a community on another server: Follow, Accept and Undo between the server of the follower
    (here) and the server of the community (there), over two channels that keep their order. */
module FollowProtocol {
  import opened Decimal
  import opened Options
  import L = LocalObjectRef
  import U = UriRoundTrip

  datatype Pair = Pair(community: I64, follower: I64)

  // A follow of a remote community by a local user, and the record of one that was undone.
  datatype Follow = Follow(apId: Option<string>, accepted: bool)
  datatype Undone = Undone(pair: Pair, followApId: Option<string>)

  datatype Activity = FollowIt(pair: Pair, id: string) | UndoIt(followId: string)

  datatype LocalSide = LocalSide(rows: map<Pair, Follow>, undos: seq<Undone>, outbox: seq<Activity>)

  // There a follow has only the id of its activity; it is accepted as soon as it exists. The outbox holds
  // the ids of the follows that are accepted.
  datatype RemoteSide = RemoteSide(rows: map<Pair, string>, outbox: seq<string>)

  datatype World = World(base: L.BaseUrl, local: LocalSide, remote: RemoteSide, used: set<string>)

  // ----- what each server does to its own side

  function IdFor(p: Pair, nonce: string, base: L.BaseUrl): string {
    U.FollowId(p.community, p.follower, nonce, base)
  }

  function InsertFollow(l: LocalSide, p: Pair): LocalSide {
    if p in l.rows then l else l.(rows := l.rows[p := Follow(None, false)])
  }

  /** Stamps the row with a new id, if there still is a row, and sends the follow in any case. */
  function SendFollow(l: LocalSide, p: Pair, id: string): LocalSide {
    l.(rows := if p in l.rows then l.rows[p := l.rows[p].(apId := Some(id))] else l.rows,
       outbox := l.outbox + [FollowIt(p, id)])
  }

  /** The activity that an undo names: the last id of the follow, or its plain URI if it never had one. */
  function UndoneId(u: Undone, base: L.BaseUrl): string {
    match u.followApId
    case Some(id) => id
    case None => L.LocalUri(L.CommunityFollow(u.pair.community, u.pair.follower), base).Serialize()
  }

  function SendUndo(l: LocalSide, u: Undone, base: L.BaseUrl): LocalSide {
    l.(outbox := l.outbox + [UndoIt(UndoneId(u, base))])
  }

  function Unfollow(l: LocalSide, p: Pair, base: L.BaseUrl): LocalSide {
    if p in l.rows then
      var u := Undone(p, l.rows[p].apId);
      SendUndo(l.(rows := l.rows - {p}, undos := l.undos + [u]), u, base)
    else l
  }

  function UnfollowAll(l: LocalSide, pairs: seq<Pair>, base: L.BaseUrl): LocalSide
    decreases |pairs|
  {
    if pairs == [] then l else UnfollowAll(Unfollow(l, pairs[0], base), pairs[1..], base)
  }

  /** The follow that an accepted id names, if it is one of ours. */
  function Named(id: string, base: L.BaseUrl): Option<Pair> {
    match L.TryFromUri(id, base)
    case Some(CommunityFollow(community, follower)) => Some(Pair(community, follower))
    case Some(CommunityFollowJoin(community, follower)) => Some(Pair(community, follower))
    case _ => None
  }

  function ReceiveAccept(l: LocalSide, id: string, base: L.BaseUrl): LocalSide {
    match Named(id, base)
    case None => l
    case Some(p) => if p in l.rows then l.(rows := l.rows[p := l.rows[p].(accepted := true)]) else l
  }

  function Applied(rows: map<Pair, string>, a: Activity): map<Pair, string> {
    match a
    case FollowIt(p, id) => rows[p := id]
    case UndoIt(id) => map p | p in rows && rows[p] != id :: rows[p]
  }

  function Receive(r: RemoteSide, a: Activity): RemoteSide {
    RemoteSide(Applied(r.rows, a), if a.FollowIt? then r.outbox + [a.id] else r.outbox)
  }

  // ----- runs

  // Inserting the row of a follow is one step; stamping it with an id and sending it is another, which may come
  // later, come again, and come without a row. The cleanup of stale communities forgets follows that were not
  // accepted. Activities arrive there in the order in which they were sent, unless one overtakes others.
  datatype Step =
    | Insert(pair: Pair)
    | Send(pair: Pair, nonce: string)
    | Undo(pair: Pair)
    | UndoAll(pairs: seq<Pair>)
    | ResendUndo(i: nat)
    | Forget(pair: Pair)
    | ToRemote
    | ToLocal
    | Overtake(i: nat)

  ghost predicate Enabled(w: World, step: Step) {
    match step
    case Insert(_) => true
    case Send(p, nonce) => nonce !in w.used
    case Undo(_) => true
    case UndoAll(_) => true
    case ResendUndo(i) => i < |w.local.undos|
    case Forget(p) => p in w.local.rows && !w.local.rows[p].accepted
    case ToRemote => w.local.outbox != []
    case ToLocal => w.remote.outbox != []
    case Overtake(i) => i < |w.local.outbox|
  }

  function Without(s: seq<Activity>, i: nat): seq<Activity>
    requires i < |s|
  {
    s[..i] + s[i + 1..]
  }

  ghost function Next(w: World, step: Step): World
    requires Enabled(w, step)
  {
    match step
    case Insert(p) => w.(local := InsertFollow(w.local, p))
    case Send(p, nonce) => w.(local := SendFollow(w.local, p, IdFor(p, nonce, w.base)), used := w.used + {nonce})
    case Undo(p) => w.(local := Unfollow(w.local, p, w.base))
    case UndoAll(pairs) => w.(local := UnfollowAll(w.local, pairs, w.base))
    case ResendUndo(i) => w.(local := SendUndo(w.local, w.local.undos[i], w.base))
    case Forget(p) => w.(local := w.local.(rows := w.local.rows - {p}))
    case ToRemote =>
      w.(local := w.local.(outbox := w.local.outbox[1..]), remote := Receive(w.remote, w.local.outbox[0]))
    case ToLocal =>
      w.(local := ReceiveAccept(w.local, w.remote.outbox[0], w.base),
         remote := w.remote.(outbox := w.remote.outbox[1..]))
    case Overtake(i) =>
      w.(local := w.local.(outbox := Without(w.local.outbox, i)), remote := Receive(w.remote, w.local.outbox[i]))
  }

  ghost predicate ValidRun(w: World, steps: seq<Step>)
    decreases |steps|
  {
    steps == [] || (Enabled(w, steps[0]) && ValidRun(Next(w, steps[0]), steps[1..]))
  }

  ghost function EndOf(w: World, steps: seq<Step>): World
    requires ValidRun(w, steps)
    decreases |steps|
  {
    if steps == [] then w else EndOf(Next(w, steps[0]), steps[1..])
  }

  function Initial(base: L.BaseUrl): World {
    World(base, LocalSide(map[], [], []), RemoteSide(map[], []), {})
  }

  // ----- what becomes of one follow

  function Drained(rows: map<Pair, string>, inFlight: seq<Activity>): map<Pair, string>
    decreases |inFlight|
  {
    if inFlight == [] then rows else Drained(Applied(rows, inFlight[0]), inFlight[1..])
  }

  function IdsHere(rows: map<Pair, Follow>): map<Pair, string> {
    map p | p in rows && rows[p].apId.Some? :: rows[p].apId.value
  }

  function At(rows: map<Pair, string>, p: Pair): Option<string> {
    if p in rows then Some(rows[p]) else None
  }

  /** What one activity makes of the row of one pair. */
  function Fate(v: Option<string>, p: Pair, a: Activity): Option<string> {
    match a
    case FollowIt(q, id) => if q == p then Some(id) else v
    case UndoIt(id) => if v == Some(id) then None else v
  }

  function FateOf(v: Option<string>, p: Pair, inFlight: seq<Activity>): Option<string>
    decreases |inFlight|
  {
    if inFlight == [] then v else FateOf(Fate(v, p, inFlight[0]), p, inFlight[1..])
  }

  /** Follows of other pairs and undos of other ids never matter to a row. */
  lemma {:induction false} DrainedFate(rows: map<Pair, string>, inFlight: seq<Activity>, p: Pair)
    ensures At(Drained(rows, inFlight), p) == FateOf(At(rows, p), p, inFlight)
    decreases |inFlight|
  {
    if inFlight != [] {
      assert At(Applied(rows, inFlight[0]), p) == Fate(At(rows, p), p, inFlight[0]);
      DrainedFate(Applied(rows, inFlight[0]), inFlight[1..], p);
    }
  }

  lemma {:induction false} FateConcat(v: Option<string>, p: Pair, a: seq<Activity>, b: seq<Activity>)
    ensures FateOf(v, p, a + b) == FateOf(FateOf(v, p, a), p, b)
    decreases |a|
  {
    if a == [] {
      assert a + b == b;
    } else {
      assert (a + b)[1..] == a[1..] + b;
      FateConcat(Fate(v, p, a[0]), p, a[1..], b);
    }
  }

  ghost predicate Sent(outbox: seq<Activity>, p: Pair) {
    exists a: Activity :: a in outbox && a.FollowIt? && a.pair == p
  }

  /** The row is gone, or an undo of it is on its way. */
  predicate Gone(v: Option<string>, inFlight: seq<Activity>) {
    v.None? || UndoIt(v.value) in inFlight
  }

  /** Two rows end the same exactly when they are the same, a follow replaces them, or both are undone. */
  lemma {:induction false} FateSame(v: Option<string>, v': Option<string>, p: Pair, inFlight: seq<Activity>)
    ensures FateOf(v, p, inFlight) == FateOf(v', p, inFlight)
       <==> v == v' || Sent(inFlight, p) || (Gone(v, inFlight) && Gone(v', inFlight))
    decreases |inFlight|
  {
    if inFlight != [] {
      var a, rest := inFlight[0], inFlight[1..];
      assert inFlight == [a] + rest;
      FateSame(Fate(v, p, a), Fate(v', p, a), p, rest);
      if Sent(rest, p) {
        var b: Activity :| b in rest && b.FollowIt? && b.pair == p;
        assert b in inFlight;
      }
      if a.FollowIt? && a.pair == p {
        assert a in inFlight;
      } else if Sent(inFlight, p) {
        var b: Activity :| b in inFlight && b.FollowIt? && b.pair == p;
        assert b in rest;
      }
    }
  }

  /** An activity may overtake those in front of it when it makes no difference to any row: in order or early
      the row is the same, a later follow replaces it, or it is undone later either way. */
  ghost predicate MayOvertake(rows: map<Pair, string>, outbox: seq<Activity>, i: nat)
    requires i < |outbox|
  {
    forall p: Pair ::
      var before, a, after := outbox[..i], outbox[i], outbox[i + 1..];
      var inOrder, early := Fate(FateOf(At(rows, p), p, before), p, a), FateOf(Fate(At(rows, p), p, a), p, before);
      inOrder == early || Sent(after, p) || (Gone(inOrder, after) && Gone(early, after))
  }

  /** Delivering an activity early changes nothing in the end if and only if it may overtake. */
  lemma OvertakeExactly(rows: map<Pair, string>, outbox: seq<Activity>, i: nat)
    requires i < |outbox|
    ensures Drained(Applied(rows, outbox[i]), Without(outbox, i)) == Drained(rows, outbox)
       <==> MayOvertake(rows, outbox, i)
  {
    hide Fate, FateOf, Drained, Applied, Gone, Sent, At;
    var before, a, after := outbox[..i], outbox[i], outbox[i + 1..];
    var left, right := Drained(Applied(rows, a), Without(outbox, i)), Drained(rows, outbox);
    forall p: Pair
      ensures At(left, p) == At(right, p)
         <==> var inOrder, early := Fate(FateOf(At(rows, p), p, before), p, a), FateOf(Fate(At(rows, p), p, a), p, before);
              inOrder == early || Sent(after, p) || (Gone(inOrder, after) && Gone(early, after))
    {
      OvertakenFate(rows, outbox, i, p);
      FateSame(Fate(FateOf(At(rows, p), p, before), p, a), FateOf(Fate(At(rows, p), p, a), p, before), p, after);
    }
    SameRows(left, right);
  }

  lemma OvertakenFate(rows: map<Pair, string>, outbox: seq<Activity>, i: nat, p: Pair)
    requires i < |outbox|
    ensures var before, a, after := outbox[..i], outbox[i], outbox[i + 1..];
      && At(Drained(rows, outbox), p) == FateOf(Fate(FateOf(At(rows, p), p, before), p, a), p, after)
      && At(Drained(Applied(rows, a), Without(outbox, i)), p) == FateOf(FateOf(Fate(At(rows, p), p, a), p, before), p, after)
  {
    var before, a, after := outbox[..i], outbox[i], outbox[i + 1..];
    assert At(Applied(rows, a), p) == Fate(At(rows, p), p, a);
    hide Fate, Drained, Applied, At;
    DrainedFate(rows, outbox, p);
    DrainedFate(Applied(rows, a), Without(outbox, i), p);
    assert outbox == before + ([a] + after);
    FateConcat(At(rows, p), p, before, [a] + after);
    assert ([a] + after)[0] == a && ([a] + after)[1..] == after;
    FateConcat(Fate(At(rows, p), p, a), p, before, after);
  }

  lemma SameRows(a: map<Pair, string>, b: map<Pair, string>)
    ensures a == b <==> forall p :: At(a, p) == At(b, p)
  {
    if forall p :: At(a, p) == At(b, p) {
      forall p ensures p in a <==> p in b {
        assert At(a, p) == At(b, p);
      }
      forall p | p in a ensures a[p] == b[p] {
        assert At(a, p) == At(b, p);
      }
    }
  }

  /** Two activities that do not concern the same follow. */
  predicate Independent(a: Activity, b: Activity) {
    match a
    case FollowIt(p, x) => if b.FollowIt? then b.pair != p || b.id == x else b.followId != x
    case UndoIt(x) => b.FollowIt? ==> b.id != x
  }

  /** What is independent of everything in front of it may overtake it. */
  lemma IndependentMayOvertake(rows: map<Pair, string>, outbox: seq<Activity>, i: nat)
    requires i < |outbox| && forall j | 0 <= j < i :: Independent(outbox[i], outbox[j])
    ensures MayOvertake(rows, outbox, i)
  {
    var before, a := outbox[..i], outbox[i];
    forall p: Pair ensures Fate(FateOf(At(rows, p), p, before), p, a) == FateOf(Fate(At(rows, p), p, a), p, before) {
      IndependentFate(At(rows, p), p, before, a);
    }
  }

  lemma {:induction false} IndependentFate(v: Option<string>, p: Pair, before: seq<Activity>, a: Activity)
    requires forall j | 0 <= j < |before| :: Independent(a, before[j])
    ensures Fate(FateOf(v, p, before), p, a) == FateOf(Fate(v, p, a), p, before)
    decreases |before|
  {
    if before != [] {
      assert Independent(a, before[0]);
      assert Fate(Fate(v, p, before[0]), p, a) == Fate(Fate(v, p, a), p, before[0]);
      IndependentFate(Fate(v, p, before[0]), p, before[1..], a);
    }
  }

  // ----- the invariant

  ghost predicate GoodBase(base: L.BaseUrl) {
    base.WellFormed() && base.Strippable()
  }

  /** An id that was made for a follow. */
  ghost predicate MadeFor(p: Pair, id: string, w: World) {
    exists nonce :: nonce in w.used && id == IdFor(p, nonce, w.base)
  }

  /** The ids in use were made for their follows, here, there and on their way; undone ids are not in use. */
  ghost predicate IdsOk(w: World) {
    && (forall p | p in w.local.rows && w.local.rows[p].apId.Some? :: MadeFor(p, w.local.rows[p].apId.value, w))
    && (forall p | p in w.remote.rows :: MadeFor(p, w.remote.rows[p], w))
    && (forall u | u in w.local.undos && u.followApId.Some? :: MadeFor(u.pair, u.followApId.value, w))
    && (forall u, p | u in w.local.undos && p in w.local.rows && u.followApId.Some? :: u.followApId != w.local.rows[p].apId)
    && (forall a: Activity | a in w.local.outbox && a.FollowIt? :: MadeFor(a.pair, a.id, w))
  }

  /** Once everything in flight has arrived there, the rows there are the stamped rows here. */
  ghost predicate Converging(w: World) {
    Drained(w.remote.rows, w.local.outbox) == IdsHere(w.local.rows)
  }

  ghost predicate AcceptSent(outbox: seq<string>, p: Pair, base: L.BaseUrl) {
    exists id :: id in outbox && Named(id, base) == Some(p)
  }

  /** A stamped follow that is not accepted has a Follow or an Accept on its way. */
  ghost predicate BeingAccepted(w: World) {
    forall p | p in w.local.rows && w.local.rows[p].apId.Some? && !w.local.rows[p].accepted ::
      Sent(w.local.outbox, p) || AcceptSent(w.remote.outbox, p, w.base)
  }

  /** Every Undo on its way names a recorded undo. */
  ghost predicate UndosAreRecorded(w: World) {
    forall a: Activity | a in w.local.outbox && a.UndoIt? :: Recorded(w.local.undos, a.followId, w.base)
  }

  ghost predicate Recorded(undos: seq<Undone>, id: string, base: L.BaseUrl) {
    exists u :: u in undos && UndoneId(u, base) == id
  }

  ghost predicate Inv(w: World) {
    GoodBase(w.base) && IdsOk(w) && UndosAreRecorded(w) && Converging(w) && BeingAccepted(w)
  }

  lemma IdsOfPairsDiffer(w: World, p: Pair, q: Pair, id: string)
    requires GoodBase(w.base) && MadeFor(p, id, w) && MadeFor(q, id, w)
    ensures p == q
  {
    hide U.FollowId;
    var m :| m in w.used && id == IdFor(p, m, w.base);
    var n :| n in w.used && id == IdFor(q, n, w.base);
    U.FollowIdsDiffer(p.community, p.follower, m, q.community, q.follower, n, w.base);
  }

  lemma FreshIdIsNew(w: World, p: Pair, nonce: string, q: Pair, id: string)
    requires GoodBase(w.base) && nonce !in w.used && MadeFor(q, id, w)
    ensures id != IdFor(p, nonce, w.base)
  {
    hide U.FollowId;
    var n :| n in w.used && id == IdFor(q, n, w.base);
    if id == IdFor(p, nonce, w.base) {
      U.FollowIdsDiffer(p.community, p.follower, nonce, q.community, q.follower, n, w.base);
    }
  }

  lemma NamedIsThePair(w: World, p: Pair, id: string)
    requires GoodBase(w.base) && MadeFor(p, id, w)
    ensures Named(id, w.base) == Some(p)
  {
    hide U.FollowId, L.TryFromUri;
    var n :| n in w.used && id == IdFor(p, n, w.base);
    U.FollowIdNamesTheFollow(p.community, p.follower, n, w.base);
  }

  /** The plain URI of a follow is the id of no activity. */
  lemma PlainIsNotMade(w: World, u: Undone, q: Pair, id: string)
    requires GoodBase(w.base) && u.followApId.None? && MadeFor(q, id, w)
    ensures UndoneId(u, w.base) != id
  {
    hide L.TryFromUri, L.LocalUri;
    var n :| n in w.used && id == IdFor(q, n, w.base);
    U.PlainFollowIsNoId(u.pair.community, u.pair.follower, q.community, q.follower, n, w.base);
  }

  lemma {:induction false} DrainedAppend(rows: map<Pair, string>, inFlight: seq<Activity>, a: Activity)
    ensures Drained(rows, inFlight + [a]) == Applied(Drained(rows, inFlight), a)
    decreases |inFlight|
  {
    if inFlight == [] {
      assert inFlight + [a] == [a] && [a][1..] == [];
    } else {
      assert (inFlight + [a])[1..] == inFlight[1..] + [a];
      DrainedAppend(Applied(rows, inFlight[0]), inFlight[1..], a);
    }
  }

  lemma StillSent(outbox: seq<Activity>, a: Activity)
    ensures forall q | Sent(outbox, q) :: Sent(outbox + [a], q)
  {
    forall q | Sent(outbox, q) ensures Sent(outbox + [a], q) {
      var b: Activity :| b in outbox && b.FollowIt? && b.pair == q;
      assert b in outbox + [a];
    }
  }

  lemma MadeForStays(w: World, w': World)
    requires w'.base == w.base && w.used <= w'.used
    ensures forall q, i | MadeFor(q, i, w) :: MadeFor(q, i, w')
  {
    hide IdFor;
    forall q, i | MadeFor(q, i, w) ensures MadeFor(q, i, w') {
      var n :| n in w.used && i == IdFor(q, n, w.base);
      assert n in w'.used;
    }
  }

  lemma InsertKeeps(w: World, p: Pair)
    requires Inv(w)
    ensures Inv(w.(local := InsertFollow(w.local, p)))
  {
    hide GoodBase, Named, MadeFor;
    var w' := w.(local := InsertFollow(w.local, p));
    MadeForStaysHere(w, w');
    assert IdsHere(w'.local.rows) == IdsHere(w.local.rows);
  }

  lemma MadeForStaysHere(w: World, w': World)
    requires w'.base == w.base && w.used == w'.used
    ensures forall q, i :: MadeFor(q, i, w) <==> MadeFor(q, i, w')
  {
    MadeForStays(w, w');
    MadeForStays(w', w);
  }

  lemma SendIds(w: World, p: Pair, nonce: string)
    requires Inv(w) && nonce !in w.used && p in w.local.rows
    ensures IdsOk(Next(w, Send(p, nonce)))
  {
    hide IdFor, GoodBase, Named, Converging, BeingAccepted, UndosAreRecorded;
    var id, w' := IdFor(p, nonce, w.base), Next(w, Send(p, nonce));
    MadeForStays(w, w');
    assert MadeFor(p, id, w') by { assert nonce in w'.used; }
    forall u | u in w.local.undos && u.followApId.Some? ensures u.followApId != Some(id) {
      FreshIdIsNew(w, p, nonce, u.pair, u.followApId.value);
    }
  }

  lemma SendKeeps(w: World, p: Pair, nonce: string)
    requires Inv(w) && nonce !in w.used && p in w.local.rows
    ensures Inv(Next(w, Send(p, nonce)))
  {
    SendIds(w, p, nonce);
    hide IdFor, GoodBase, Named, IdsOk, UndoneId;
    var id, w' := IdFor(p, nonce, w.base), Next(w, Send(p, nonce));
    DrainedAppend(w.remote.rows, w.local.outbox, FollowIt(p, id));
    assert IdsHere(w'.local.rows) == IdsHere(w.local.rows)[p := id];
    assert Sent(w'.local.outbox, p) by { assert FollowIt(p, id) in w'.local.outbox; }
    StillSent(w.local.outbox, FollowIt(p, id));
  }

  /** A follow that is sent without a row comes to be there and not here. */
  lemma SendWithoutRow(w: World, p: Pair, nonce: string)
    requires nonce !in w.used && p !in w.local.rows
    ensures !Converging(Next(w, Send(p, nonce)))
    ensures p in Drained(w.remote.rows, Next(w, Send(p, nonce)).local.outbox)
  {
    hide IdFor;
    DrainedAppend(w.remote.rows, w.local.outbox, FollowIt(p, IdFor(p, nonce, w.base)));
  }

  lemma UndoneIsNotUsed(w: World, u: Undone)
    requires Inv(w) && (u.followApId.Some? ==> forall p | p in w.local.rows :: u.followApId != w.local.rows[p].apId)
    ensures forall p | p in w.local.rows :: w.local.rows[p].apId != Some(UndoneId(u, w.base))
  {
    hide GoodBase, Converging, BeingAccepted, MadeFor, UndosAreRecorded;
    forall p | p in w.local.rows ensures w.local.rows[p].apId != Some(UndoneId(u, w.base)) {
      if u.followApId.None? && w.local.rows[p].apId.Some? {
        PlainIsNotMade(w, u, p, w.local.rows[p].apId.value);
      }
    }
  }

  lemma UnfollowIds(w: World, p: Pair)
    requires Inv(w) && p in w.local.rows
    ensures IdsOk(w.(local := Unfollow(w.local, p, w.base)))
    ensures w.local.rows[p].apId.Some? ==>
      forall q | q in w.local.rows && q != p :: w.local.rows[q].apId != w.local.rows[p].apId
  {
    hide GoodBase, Named, Converging, BeingAccepted, UndosAreRecorded, UndoneId;
    var w' := w.(local := Unfollow(w.local, p, w.base));
    MadeForStays(w, w');
    hide MadeFor;
    if w.local.rows[p].apId.Some? {
      var id := w.local.rows[p].apId.value;
      forall q | q in w.local.rows && q != p ensures w.local.rows[q].apId != Some(id) {
        if w.local.rows[q].apId == Some(id) {
          IdsOfPairsDiffer(w, p, q, id);
        }
      }
    }
  }

  lemma UndoRecorded(w: World, undos: seq<Undone>, u: Undone)
    requires UndosAreRecorded(w) && u in undos && forall v | v in w.local.undos :: v in undos
    ensures forall id | Recorded(w.local.undos, id, w.base) :: Recorded(undos, id, w.base)
    ensures Recorded(undos, UndoneId(u, w.base), w.base)
  {
    hide UndoneId;
    forall id | Recorded(w.local.undos, id, w.base) ensures Recorded(undos, id, w.base) {
      var v :| v in w.local.undos && UndoneId(v, w.base) == id;
      assert v in undos;
    }
  }

  lemma UnfollowKeeps(w: World, p: Pair)
    requires Inv(w)
    ensures Inv(w.(local := Unfollow(w.local, p, w.base)))
  {
    hide GoodBase, Named, MadeFor, IdsOk, UndoneId, Recorded;
    if p in w.local.rows {
      var u, w' := Undone(p, w.local.rows[p].apId), w.(local := Unfollow(w.local, p, w.base));
      UnfollowIds(w, p);
      UndoRecorded(w, w'.local.undos, u);
      UndoOfRow(w, p);
      DrainedAppend(w.remote.rows, w.local.outbox, UndoIt(UndoneId(u, w.base)));
      StillSent(w.local.outbox, UndoIt(UndoneId(u, w.base)));
    }
  }

  /** The undo of a row takes exactly that row away. */
  lemma UndoOfRow(w: World, p: Pair)
    requires Inv(w) && p in w.local.rows
    ensures IdsHere(w.local.rows - {p}) == Applied(IdsHere(w.local.rows), UndoIt(UndoneId(Undone(p, w.local.rows[p].apId), w.base)))
  {
    UnfollowIds(w, p);
    hide IdsOk, Converging, BeingAccepted, UndosAreRecorded, Unfollow;
    if w.local.rows[p].apId.None? {
      UndoneIsNotUsed(w, Undone(p, None));
    }
  }

  lemma {:induction false} UnfollowAllKeeps(w: World, pairs: seq<Pair>)
    requires Inv(w)
    ensures Inv(w.(local := UnfollowAll(w.local, pairs, w.base)))
    decreases |pairs|
  {
    hide Inv, Unfollow;
    if pairs != [] {
      UnfollowKeeps(w, pairs[0]);
      UnfollowAllKeeps(w.(local := Unfollow(w.local, pairs[0], w.base)), pairs[1..]);
    }
  }

  lemma ResendUndoKeeps(w: World, u: Undone)
    requires Inv(w) && u in w.local.undos
    ensures Inv(w.(local := SendUndo(w.local, u, w.base)))
  {
    UndoneIsNotUsed(w, u);
    hide GoodBase, Named, UndoneId;
    var w' := w.(local := SendUndo(w.local, u, w.base));
    MadeForStays(w, w');
    hide MadeFor;
    UndoRecorded(w, w.local.undos, u);
    hide Recorded;
    DrainedAppend(w.remote.rows, w.local.outbox, UndoIt(UndoneId(u, w.base)));
    assert IdsHere(w.local.rows) == Applied(IdsHere(w.local.rows), UndoIt(UndoneId(u, w.base)));
    StillSent(w.local.outbox, UndoIt(UndoneId(u, w.base)));
  }

  /** A follow may be forgotten without an Undo exactly while it was never sent. */
  lemma ForgetExactly(w: World, p: Pair)
    requires Inv(w) && Enabled(w, Forget(p))
    ensures Converging(Next(w, Forget(p))) <==> w.local.rows[p].apId.None?
    ensures w.local.rows[p].apId.None? ==> Inv(Next(w, Forget(p)))
  {
    hide GoodBase, Named, UndoneId;
    var w' := Next(w, Forget(p));
    MadeForStays(w, w');
    hide MadeFor;
    if w.local.rows[p].apId.None? {
      assert IdsHere(w'.local.rows) == IdsHere(w.local.rows);
    } else {
      assert p in IdsHere(w.local.rows) && p !in IdsHere(w'.local.rows);
    }
  }

  /** What arrives there, in whatever order, keeps everything but the order. */
  lemma ArrivalIds(w: World, i: nat)
    requires Inv(w) && i < |w.local.outbox|
    ensures IdsOk(Next(w, Overtake(i))) && UndosAreRecorded(Next(w, Overtake(i)))
  {
    hide IdFor, GoodBase, Named, Converging, BeingAccepted, UndoneId;
    var w', a := Next(w, Overtake(i)), w.local.outbox[i];
    MadeForStays(w, w');
    assert a in w.local.outbox && forall b | b in Without(w.local.outbox, i) :: b in w.local.outbox;
    hide MadeFor, Recorded;
  }

  lemma ArrivalAccepts(w: World, i: nat)
    requires Inv(w) && i < |w.local.outbox|
    ensures BeingAccepted(Next(w, Overtake(i)))
  {
    hide IdFor, GoodBase, Named, MadeFor, UndoneId, Converging, UndosAreRecorded;
    var w', a := Next(w, Overtake(i)), w.local.outbox[i];
    forall p | p in w.local.rows && w.local.rows[p].apId.Some? && !w.local.rows[p].accepted
      ensures Sent(w'.local.outbox, p) || AcceptSent(w'.remote.outbox, p, w.base)
    {
      if AcceptSent(w.remote.outbox, p, w.base) {
        var id :| id in w.remote.outbox && Named(id, w.base) == Some(p);
        assert id in w'.remote.outbox;
      } else {
        var b: Activity :| b in w.local.outbox && b.FollowIt? && b.pair == p;
        if b == a {
          NamedIsThePair(w, p, a.id);
          assert a.id in w'.remote.outbox;
        } else {
          assert b in w'.local.outbox;
        }
      }
    }
  }

  lemma OvertakeKeepsExactly(w: World, i: nat)
    requires Inv(w) && i < |w.local.outbox|
    ensures Converging(Next(w, Overtake(i))) <==> MayOvertake(w.remote.rows, w.local.outbox, i)
    ensures MayOvertake(w.remote.rows, w.local.outbox, i) ==> Inv(Next(w, Overtake(i)))
  {
    hide IdsOk, UndosAreRecorded, BeingAccepted, MayOvertake, GoodBase;
    ArrivalIds(w, i);
    ArrivalAccepts(w, i);
    OvertakeExactly(w.remote.rows, w.local.outbox, i);
  }

  lemma ToRemoteKeeps(w: World)
    requires Inv(w) && w.local.outbox != []
    ensures Inv(Next(w, ToRemote))
  {
    hide IdsOk, UndosAreRecorded, BeingAccepted, GoodBase, Receive;
    assert Without(w.local.outbox, 0) == w.local.outbox[1..];
    assert Next(w, Overtake(0)) == Next(w, ToRemote);
    ArrivalIds(w, 0);
    ArrivalAccepts(w, 0);
    DrainedFirst(w);
  }

  lemma DrainedFirst(w: World)
    requires Converging(w) && w.local.outbox != []
    ensures Converging(Next(w, ToRemote))
  {
  }

  lemma ToLocalKeeps(w: World)
    requires Inv(w) && w.remote.outbox != []
    ensures Inv(Next(w, ToLocal))
  {
    hide IdFor, GoodBase, Named, UndoneId;
    var w', id := Next(w, ToLocal), w.remote.outbox[0];
    MadeForStays(w, w');
    hide MadeFor, Recorded;
    assert forall p | p in w.local.rows :: w'.local.rows[p].apId == w.local.rows[p].apId;
    assert IdsHere(w'.local.rows) == IdsHere(w.local.rows);
    forall p | p in w'.local.rows && w'.local.rows[p].apId.Some? && !w'.local.rows[p].accepted
      ensures Sent(w'.local.outbox, p) || AcceptSent(w'.remote.outbox, p, w.base)
    {
      if AcceptSent(w.remote.outbox, p, w.base) {
        var other :| other in w.remote.outbox && Named(other, w.base) == Some(p);
        assert other != id;
        assert other in w'.remote.outbox;
      }
    }
  }

  /** What the protocol needs of a step: a follow that is sent still has its row, a follow that is forgotten
      was never sent, and what overtakes may do so. */
  ghost predicate Orderly(w: World, step: Step)
    requires Enabled(w, step)
  {
    match step
    case Send(p, _) => p in w.local.rows
    case Forget(p) => w.local.rows[p].apId.None?
    case Overtake(i) => MayOvertake(w.remote.rows, w.local.outbox, i)
    case _ => true
  }

  /** An orderly step keeps the invariant, and any other step ends the convergence of the two servers. */
  lemma StepKeepsExactly(w: World, step: Step)
    requires Inv(w) && Enabled(w, step)
    ensures Orderly(w, step) ==> Inv(Next(w, step))
    ensures Converging(Next(w, step)) <==> Orderly(w, step)
  {
    hide MayOvertake, IdsOk, BeingAccepted, UndosAreRecorded, Converging, IdFor, Unfollow, UnfollowAll, SendUndo,
         InsertFollow, SendFollow, GoodBase, Receive, ReceiveAccept;
    match step {
      case Insert(p) => InsertKeeps(w, p);
      case Send(p, nonce) =>
        if p in w.local.rows {
          SendKeeps(w, p, nonce);
        } else {
          SendWithoutRow(w, p, nonce);
        }
      case Undo(p) => UnfollowKeeps(w, p);
      case UndoAll(pairs) => UnfollowAllKeeps(w, pairs);
      case ResendUndo(i) => ResendUndoKeeps(w, w.local.undos[i]);
      case Forget(p) => ForgetExactly(w, p);
      case ToRemote => ToRemoteKeeps(w);
      case ToLocal => ToLocalKeeps(w);
      case Overtake(i) => OvertakeKeepsExactly(w, i);
    }
  }

  ghost predicate OrderlyRun(w: World, steps: seq<Step>)
    requires ValidRun(w, steps)
    decreases |steps|
  {
    steps == [] || (Orderly(w, steps[0]) && OrderlyRun(Next(w, steps[0]), steps[1..]))
  }

  ghost predicate AlwaysConverging(w: World, steps: seq<Step>)
    requires ValidRun(w, steps)
    decreases |steps|
  {
    Converging(w) && (steps != [] ==> AlwaysConverging(Next(w, steps[0]), steps[1..]))
  }

  lemma {:induction false} RunKeepsExactly(w: World, steps: seq<Step>)
    requires Inv(w) && ValidRun(w, steps)
    ensures AlwaysConverging(w, steps) <==> OrderlyRun(w, steps)
    ensures OrderlyRun(w, steps) ==> Inv(EndOf(w, steps))
    decreases |steps|
  {
    hide Inv, Enabled, Next, Orderly, Converging;
    assert Converging(w) by { InvConverges(w); }
    if steps != [] {
      StepKeepsExactly(w, steps[0]);
      if Orderly(w, steps[0]) {
        RunKeepsExactly(Next(w, steps[0]), steps[1..]);
      }
    }
  }

  lemma InvConverges(w: World)
    requires Inv(w)
    ensures Converging(w)
  {
  }

  lemma InitialIsFine(base: L.BaseUrl)
    requires base.WellFormed() && base.Strippable()
    ensures Inv(Initial(base))
  {
  }

  /** The two servers stay on their way to agreement all through a run if and only if every step of the run is
      orderly. */
  lemma ConvergesExactly(base: L.BaseUrl, steps: seq<Step>)
    requires base.WellFormed() && base.Strippable() && ValidRun(Initial(base), steps)
    ensures AlwaysConverging(Initial(base), steps) <==> OrderlyRun(Initial(base), steps)
  {
    hide Inv;
    InitialIsFine(base);
    RunKeepsExactly(Initial(base), steps);
  }

  // ----- agreement

  ghost predicate Agree(w: World) {
    && w.local.rows.Keys == w.remote.rows.Keys
    && forall p | p in w.local.rows ::
         w.local.rows[p].apId == Some(w.remote.rows[p]) && w.local.rows[p].accepted
  }

  ghost predicate Quiet(w: World) {
    w.local.outbox == [] && w.remote.outbox == []
  }

  /** Every follow here was sent. */
  predicate AllSent(w: World) {
    forall p | p in w.local.rows :: w.local.rows[p].apId.Some?
  }

  lemma QuietAgrees(w: World)
    requires Inv(w) && Quiet(w)
    ensures w.remote.rows == IdsHere(w.local.rows)
    ensures forall p | p in w.local.rows && w.local.rows[p].apId.Some? :: w.local.rows[p].accepted
    ensures Agree(w) <==> AllSent(w)
  {
    hide Named, GoodBase, MadeFor;
    assert w.remote.rows == IdsHere(w.local.rows);
    forall p | p in w.local.rows && w.local.rows[p].apId.Some? ensures w.local.rows[p].accepted {
      assert !Sent(w.local.outbox, p) && !AcceptSent(w.remote.outbox, p, w.base);
    }
    assert AllSent(w) ==> w.local.rows.Keys == w.remote.rows.Keys;
  }

  /** In every orderly run: whenever nothing is in flight, the rows there are the stamped rows here, under the
      same ids, and those are accepted; so the servers agree if and only if every follow here was sent. */
  lemma ServersAgree(base: L.BaseUrl, steps: seq<Step>)
    requires base.WellFormed() && base.Strippable()
    requires ValidRun(Initial(base), steps) && OrderlyRun(Initial(base), steps) && Quiet(EndOf(Initial(base), steps))
    ensures var w := EndOf(Initial(base), steps);
      && w.remote.rows == IdsHere(w.local.rows)
      && (forall p | p in w.local.rows && w.local.rows[p].apId.Some? :: w.local.rows[p].accepted)
      && (Agree(w) <==> AllSent(w))
  {
    hide Inv, Quiet, Agree, AllSent;
    InitialIsFine(base);
    RunKeepsExactly(Initial(base), steps);
    QuietAgrees(EndOf(Initial(base), steps));
  }

  /** In every orderly run an Undo on its way, late or repeated and in whatever order it arrives, can remove the
      row of a follow there only if that very activity of the follow was undone here, and never the activity
      that the follow has here now. */
  lemma UndoSparesNewer(base: L.BaseUrl, steps: seq<Step>, i: nat, p: Pair)
    requires base.WellFormed() && base.Strippable()
    requires ValidRun(Initial(base), steps) && OrderlyRun(Initial(base), steps)
    requires var w := EndOf(Initial(base), steps);
      && i < |w.local.outbox| && w.local.outbox[i].UndoIt?
      && p in w.remote.rows && p !in Receive(w.remote, w.local.outbox[i]).rows
    ensures var w := EndOf(Initial(base), steps);
      && Undone(p, Some(w.remote.rows[p])) in w.local.undos
      && (p in w.local.rows ==> w.local.rows[p].apId != Some(w.remote.rows[p]))
  {
    hide Inv;
    InitialIsFine(base);
    RunKeepsExactly(Initial(base), steps);
    UndoRemovesUndone(EndOf(Initial(base), steps), i, p);
  }

  lemma UndoRemovesUndone(w: World, i: nat, p: Pair)
    requires Inv(w) && i < |w.local.outbox| && w.local.outbox[i].UndoIt?
    requires p in w.remote.rows && w.remote.rows[p] == w.local.outbox[i].followId
    ensures Undone(p, Some(w.remote.rows[p])) in w.local.undos
    ensures p in w.local.rows ==> w.local.rows[p].apId != Some(w.remote.rows[p])
  {
    hide MadeFor, GoodBase, Converging, BeingAccepted;
    var id := w.remote.rows[p];
    assert Recorded(w.local.undos, id, w.base);
    var u :| u in w.local.undos && UndoneId(u, w.base) == id;
    if u.followApId.None? {
      PlainIsNotMade(w, u, p, id);
    } else {
      IdsOfPairsDiffer(w, u.pair, p, id);
    }
  }

  /** From every state, orderly or not, everything in flight can be delivered; what is there then is what it
      all comes to, and the follows here keep their ids. Of a state of an orderly run the servers agree then,
      if every follow here was sent. */
  lemma {:induction false} Settles(w: World) returns (steps: seq<Step>)
    ensures forall step | step in steps :: step == ToRemote || step == ToLocal
    ensures ValidRun(w, steps)
    ensures var w' := EndOf(w, steps);
      && Quiet(w') && w'.remote.rows == Drained(w.remote.rows, w.local.outbox)
      && IdsHere(w'.local.rows) == IdsHere(w.local.rows) && w'.local.rows.Keys == w.local.rows.Keys
      && (Inv(w) ==> Inv(w'))
    decreases 2 * |w.local.outbox| + |w.remote.outbox|
  {
    hide Inv, IdsHere, ReceiveAccept;
    if w.local.outbox != [] {
      if Inv(w) {
        ToRemoteKeeps(w);
      }
      var rest := Settles(Next(w, ToRemote));
      steps := [ToRemote] + rest;
      assert steps[1..] == rest;
    } else if w.remote.outbox != [] {
      if Inv(w) {
        ToLocalKeeps(w);
      }
      AcceptKeepsIds(w.local, w.remote.outbox[0], w.base);
      var rest := Settles(Next(w, ToLocal));
      steps := [ToLocal] + rest;
      assert steps[1..] == rest;
    } else {
      steps := [];
    }
  }

  lemma AcceptKeepsIds(l: LocalSide, id: string, base: L.BaseUrl)
    ensures IdsHere(ReceiveAccept(l, id, base).rows) == IdsHere(l.rows)
    ensures ReceiveAccept(l, id, base).rows.Keys == l.rows.Keys
    ensures ReceiveAccept(l, id, base).outbox == l.outbox
  {
    hide Named;
    assert forall p | p in l.rows :: ReceiveAccept(l, id, base).rows[p].apId == l.rows[p].apId;
  }

  // ----- when a follow counts as accepted

  /** An Accept names a follow by its URI or by the URI of its activity; an activity id has a nonce besides. */
  lemma NamedExactly(p: Pair, nonce: string, base: L.BaseUrl)
    requires GoodBase(base)
    ensures Named(L.LocalUri(L.CommunityFollow(p.community, p.follower), base).Serialize(), base) == Some(p)
    ensures Named(L.LocalUri(L.CommunityFollowJoin(p.community, p.follower), base).Serialize(), base) == Some(p)
    ensures Named(IdFor(p, nonce, base), base) == Some(p)
  {
    hide L.TryFromUri, L.LocalUri, U.FollowId;
    U.RoundTrip(L.CommunityFollow(p.community, p.follower), base);
    U.RoundTrip(L.CommunityFollowJoin(p.community, p.follower), base);
    U.FollowIdNamesTheFollow(p.community, p.follower, nonce, base);
  }

  /** The row of a follow is there in every state of a run. */
  ghost predicate Stays(w: World, steps: seq<Step>, p: Pair)
    requires ValidRun(w, steps)
    decreases |steps|
  {
    p in w.local.rows && (steps != [] ==> Stays(Next(w, steps[0]), steps[1..], p))
  }

  /** The next step delivers an Accept here that names a follow. */
  ghost predicate AcceptArrives(w: World, step: Step, p: Pair) {
    step.ToLocal? && w.remote.outbox != [] && Named(w.remote.outbox[0], w.base) == Some(p)
  }

  /** Somewhere in a run an Accept arrives that names a follow whose row is there from then on. */
  ghost predicate AcceptCame(w: World, steps: seq<Step>, p: Pair)
    requires ValidRun(w, steps)
    decreases |steps|
  {
    && steps != []
    && ((AcceptArrives(w, steps[0], p) && Stays(w, steps, p)) || AcceptCame(Next(w, steps[0]), steps[1..], p))
  }

  lemma {:induction false} UnfollowAllOnlyDeletes(l: LocalSide, pairs: seq<Pair>, base: L.BaseUrl)
    ensures forall p | p in UnfollowAll(l, pairs, base).rows :: p in l.rows && UnfollowAll(l, pairs, base).rows[p] == l.rows[p]
    decreases |pairs|
  {
    hide UndoneId;
    if pairs != [] {
      UnfollowAllOnlyDeletes(Unfollow(l, pairs[0], base), pairs[1..], base);
    }
  }

  /** After a step a follow is accepted exactly when it was before or the step delivers an Accept that names it;
      a row that is new is not. */
  lemma StepAccepts(w: World, step: Step, p: Pair)
    requires Enabled(w, step) && p in Next(w, step).local.rows
    ensures Next(w, step).local.rows[p].accepted
       <==> p in w.local.rows && (w.local.rows[p].accepted || AcceptArrives(w, step, p))
  {
    hide Named, IdFor, UndoneId, UnfollowAll;
    if step.UndoAll? {
      UnfollowAllOnlyDeletes(w.local, step.pairs, w.base);
    }
  }

  lemma {:induction false} AcceptedFrom(w: World, steps: seq<Step>, p: Pair)
    requires ValidRun(w, steps) && p in EndOf(w, steps).local.rows
    ensures EndOf(w, steps).local.rows[p].accepted
       <==> AcceptCame(w, steps, p) || (Stays(w, steps, p) && w.local.rows[p].accepted)
    decreases |steps|
  {
    hide Enabled, Next, AcceptArrives;
    if steps != [] {
      var w' := Next(w, steps[0]);
      AcceptedFrom(w', steps[1..], p);
      if p in w'.local.rows {
        StepAccepts(w, steps[0], p);
      } else {
        assert !Stays(w', steps[1..], p);
      }
    }
  }

  /** In every run, orderly or not: a follow is accepted if and only if an Accept that names it has arrived since
      its row was last inserted. */
  lemma AcceptedExactly(base: L.BaseUrl, steps: seq<Step>, p: Pair)
    requires ValidRun(Initial(base), steps) && p in EndOf(Initial(base), steps).local.rows
    ensures EndOf(Initial(base), steps).local.rows[p].accepted <==> AcceptCame(Initial(base), steps, p)
  {
    AcceptedFrom(Initial(base), steps, p);
    assert !Stays(Initial(base), steps, p);
  }

  // ----- what steps that are not orderly lead to

  lemma {:induction false} RunThen(w: World, steps: seq<Step>, more: seq<Step>)
    requires ValidRun(w, steps) && ValidRun(EndOf(w, steps), more)
    ensures ValidRun(w, steps + more) && EndOf(w, steps + more) == EndOf(EndOf(w, steps), more)
    decreases |steps|
  {
    hide Enabled, Next;
    if steps == [] {
      assert steps + more == more;
    } else {
      assert (steps + more)[1..] == steps[1..] + more;
      RunThen(Next(w, steps[0]), steps[1..], more);
    }
  }

  /** After any run: when a follow is sent although its row is gone, delivering everything ends with a row
      there and none here. */
  lemma SentTooLate(base: L.BaseUrl, steps: seq<Step>, p: Pair, nonce: string) returns (rest: seq<Step>)
    requires ValidRun(Initial(base), steps)
    requires nonce !in EndOf(Initial(base), steps).used && p !in EndOf(Initial(base), steps).local.rows
    ensures ValidRun(Initial(base), steps + rest) && Quiet(EndOf(Initial(base), steps + rest))
    ensures p in EndOf(Initial(base), steps + rest).remote.rows && p !in EndOf(Initial(base), steps + rest).local.rows
  {
    hide IdFor, Drained;
    var w := EndOf(Initial(base), steps);
    SendWithoutRow(w, p, nonce);
    var deliveries := Settles(Next(w, Send(p, nonce)));
    rest := [Send(p, nonce)] + deliveries;
    assert rest[0] == Send(p, nonce) && rest[1..] == deliveries;
    RunThen(Initial(base), steps, rest);
  }

  /** Such a run exists: insert, unfollow, and only then send. */
  lemma UnfollowedWhileSending(base: L.BaseUrl, p: Pair, nonce: string) returns (steps: seq<Step>)
    ensures ValidRun(Initial(base), steps) && Quiet(EndOf(Initial(base), steps))
    ensures p !in EndOf(Initial(base), steps).local.rows && p in EndOf(Initial(base), steps).remote.rows
  {
    hide IdFor, UndoneId;
    var first := [Insert(p), Undo(p)];
    assert first[1..] == [Undo(p)] && [Undo(p)][1..] == [];
    var w0 := Initial(base);
    var w1 := Next(w0, Insert(p));
    assert ValidRun(w1, [Undo(p)]) && EndOf(w1, [Undo(p)]) == Next(w1, Undo(p));
    assert ValidRun(w0, first) && EndOf(w0, first) == Next(w1, Undo(p));
    var rest := SentTooLate(base, first, p, nonce);
    steps := first + rest;
  }

  lemma DrainedTwo(rows: map<Pair, string>, a: Activity, b: Activity)
    ensures Drained(rows, [a]) == Applied(rows, a)
    ensures Drained(rows, [a, b]) == Applied(Applied(rows, a), b)
  {
    hide Applied;
    assert [a][1..] == [] && [b][1..] == [] && [a, b][1..] == [b];
    assert Drained(Applied(rows, a), [b]) == Applied(Applied(rows, a), b);
  }

  /** A follow that overtakes an older one of the same pair, with nothing behind them, leaves the servers with
      different ids in the end. */
  lemma OvertakenFollow(w: World, p: Pair, older: string, newer: string)
    requires Inv(w) && older != newer
    requires w.local.outbox == [FollowIt(p, older), FollowIt(p, newer)]
    ensures !Orderly(w, Overtake(1))
    ensures var w' := Next(w, Overtake(1));
      && At(Drained(w'.remote.rows, w'.local.outbox), p) == Some(older)
      && At(IdsHere(w'.local.rows), p) == Some(newer)
  {
    var outbox := w.local.outbox;
    assert Without(outbox, 1) == [FollowIt(p, older)];
    DrainedTwo(w.remote.rows, FollowIt(p, older), FollowIt(p, newer));
    DrainedTwo(Applied(w.remote.rows, FollowIt(p, newer)), FollowIt(p, older), FollowIt(p, older));
    var w' := Next(w, Overtake(1));
    assert At(Drained(w'.remote.rows, w'.local.outbox), p) == Some(older);
    assert At(IdsHere(w'.local.rows), p) == At(IdsHere(w.local.rows), p) == At(Drained(w.remote.rows, outbox), p) == Some(newer);
    hide GoodBase, IdsOk, UndosAreRecorded, BeingAccepted, MayOvertake, Drained, At;
    assert !Converging(w');
    StepKeepsExactly(w, Overtake(1));
  }

  /** Such a state is reached when a follow is sent twice. */
  lemma SentTwice(base: L.BaseUrl, p: Pair, first: string, second: string) returns (steps: seq<Step>)
    requires base.WellFormed() && base.Strippable() && first != second
    ensures ValidRun(Initial(base), steps) && OrderlyRun(Initial(base), steps)
    ensures EndOf(Initial(base), steps).local.outbox == [FollowIt(p, IdFor(p, first, base)), FollowIt(p, IdFor(p, second, base))]
    ensures IdFor(p, first, base) != IdFor(p, second, base)
  {
    NoncesDiffer(base, p, first, second);
    hide IdFor;
    steps := [Insert(p), Send(p, first), Send(p, second)];
    var w1 := Next(Initial(base), Insert(p));
    var w2 := Next(w1, Send(p, first));
    var w3 := Next(w2, Send(p, second));
    var last, rest := [Send(p, second)], [Send(p, first), Send(p, second)];
    assert last[1..] == [] && rest[1..] == last && steps[1..] == rest;
    assert ValidRun(w2, last) && OrderlyRun(w2, last) && EndOf(w2, last) == w3;
    assert ValidRun(w1, rest) && OrderlyRun(w1, rest) && EndOf(w1, rest) == w3;
  }

  lemma NoncesDiffer(base: L.BaseUrl, p: Pair, first: string, second: string)
    requires base.WellFormed() && base.Strippable() && first != second
    ensures IdFor(p, first, base) != IdFor(p, second, base)
  {
    hide U.FollowId;
    if IdFor(p, first, base) == IdFor(p, second, base) {
      U.FollowIdsDiffer(p.community, p.follower, first, p.community, p.follower, second, base);
    }
  }
}
