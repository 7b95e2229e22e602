/** The paths of local objects as they are printed, written out for each kind. */
module PrintedPaths {
  import opened Options
  import opened Decimal
  import opened Texts
  import opened Trout
  import opened LocalObjectRef
  import opened UriRoundTrip

  function One(segment: string): string {
    "/" + segment
  }

  function Two(word: string, value: string): string {
    "/" + word + "/" + value
  }

  /** A page of an outbox: the newest one, or the whole seconds of a time. */
  function PageText(p: Page): string {
    match p
    case Latest => "latest"
    case Timestamp(seconds, nanos) => Print(seconds)
  }

  lemma PageExactly(p: Page)
    ensures PrintPage(p) == PageText(p)
  {
  }

  /** What a reference adds to the path of the one that it hangs from, or to the base URL. */
  function Tail(r: Ref): string {
    match r
    case SharedInbox | CommunityInbox(_) => One("inbox")
    case Comment(c) => Two("comments", Print(c))
    case CommentLikes(_) | PostLikes(_) | CollectionTargetItemLikes(_, _) => One("likes")
    case CommentLike(_, u) => One(Print(u))
    case CollectionTarget(t) => Two("collection_targets", Print(t))
    case CollectionTargetItem(_, i) => Two("items", Print(i))
    case CollectionTargetItemComment(_, _, c) => Two("comments", Print(c))
    case CollectionTargetItemLike(_, _, u) => One(Print(u))
    case CollectionTargetFollowers(_) | CommunityFollowers(_) | UserFollowers(_) => One("followers")
    case CollectionTargetFollow(_, f) => One(Print(f))
    case Community(c) => Two("communities", Print(c))
    case CommunityFeatured(_) => One("featured")
    case CommunityFollow(_, f) => One(Print(f))
    case CommunityFollowJoin(_, _) | UserFollowJoin(_, _) => One("join")
    case CommunityOutbox(_) | UserOutbox(_) => One("outbox")
    case CommunityOutboxPage(_, p) => Two("page", PageText(p))
    case PollVote(p, u, o) => Two("polls", Print(p)) + (Two("voters", Print(u)) + Two("votes", Print(o)))
    case Post(p) => Two("posts", Print(p))
    case PostLike(_, u) => One(Print(u))
    case PrivateMessage(m) => Two("private_messages", Print(m))
    case User(u) => Two("users", Print(u))
    case UserFollowing(_) => One("following")
    case UserFollow(_, f) => One(Print(f))
    case UserLiked(_) => One("liked")
    case UserOutboxPage(_, p) => Two("page", PageText(p))
  }

  lemma {:induction false} JoinConcat(a: seq<string>, b: seq<string>)
    requires a != [] && b != []
    ensures Join(a + b) == Join(a) + ("/" + Join(b))
  {
    if |a| == 1 {
      assert (a + b)[1..] == b;
    } else {
      assert (a + b)[1..] == a[1..] + b;
      JoinConcat(a[1..], b);
      assert a[0] + ("/" + (Join(a[1..]) + ("/" + Join(b)))) == (a[0] + ("/" + Join(a[1..]))) + ("/" + Join(b));
    }
  }

  lemma JoinTwo(a: string, b: string)
    ensures Join([a]) == a && Join([a, b]) == a + "/" + b
  {
    assert [a, b][1..] == [b];
  }

  lemma SomeSegments(r: Ref)
    ensures OwnSegments(r) != []
  {
  }

  lemma {:induction false} SegmentsThere(r: Ref)
    ensures Segments(r) != []
    decreases Level(r)
  {
    hide OwnSegments;
    SomeSegments(r);
  }

  lemma BehindParent(r: Ref, parent: Ref)
    requires Parent(r) == Some(parent)
    ensures PathOf(r) == PathOf(parent) + ("/" + Join(OwnSegments(r)))
  {
    hide OwnSegments, Join;
    SomeSegments(r);
    SegmentsThere(parent);
    JoinConcat(Segments(parent), OwnSegments(r));
    assert "/" + (Join(Segments(parent)) + ("/" + Join(OwnSegments(r)))) == ("/" + Join(Segments(parent))) + ("/" + Join(OwnSegments(r)));
  }

  lemma JoinVote(p: string, u: string, o: string)
    ensures "/" + Join(["polls", p, "voters", u, "votes", o]) == Two("polls", p) + (Two("voters", u) + Two("votes", o))
  {
    var all := ["polls", p, "voters", u, "votes", o];
    JoinTwo("polls", p);
    JoinTwo("voters", u);
    JoinTwo("votes", o);
    assert all == ["polls", p] + (["voters", u] + ["votes", o]);
    hide Join;
    JoinConcat(["voters", u], ["votes", o]);
    JoinConcat(["polls", p], ["voters", u] + ["votes", o]);
  }

  lemma OneOwn(r: Ref)
    requires |OwnSegments(r)| == 1
    ensures Tail(r) == One(OwnSegments(r)[0])
  {
    hide Print, PrintPage, One;
  }

  lemma TwoOwn(r: Ref)
    requires |OwnSegments(r)| == 2
    ensures Tail(r) == Two(OwnSegments(r)[0], OwnSegments(r)[1])
  {
    hide Print, PrintPage, PageText, Two;
    if r.CommunityOutboxPage? || r.UserOutboxPage? {
      PageExactly(r.page);
    }
  }

  lemma HowMany(r: Ref)
    ensures if r.PollVote? then OwnSegments(r) == ["polls", Print(r.poll), "voters", Print(r.user), "votes", Print(r.option)]
            else |OwnSegments(r)| == 1 || |OwnSegments(r)| == 2
  {
    hide Print, PrintPage;
  }

  lemma JoinOwn(own: seq<string>)
    ensures |own| == 1 ==> "/" + Join(own) == One(own[0])
    ensures |own| == 2 ==> "/" + Join(own) == Two(own[0], own[1])
  {
    if |own| == 1 {
      JoinTwo(own[0], own[0]);
      assert own == [own[0]];
    } else if |own| == 2 {
      JoinTwo(own[0], own[1]);
      assert own == [own[0], own[1]];
    }
  }

  /** The words of the program stand between the numbers. */
  lemma TailExactly(r: Ref)
    ensures "/" + Join(OwnSegments(r)) == Tail(r)
  {
    if r.PollVote? {
      VoteExactly(r);
    } else {
      hide Join, Tail, OwnSegments, One, Two;
      HowMany(r);
      JoinOwn(OwnSegments(r));
      if |OwnSegments(r)| == 1 {
        OneOwn(r);
      } else {
        TwoOwn(r);
      }
    }
  }

  lemma VoteExactly(r: Ref)
    requires r.PollVote?
    ensures "/" + Join(OwnSegments(r)) == Tail(r)
  {
    hide Join, Print, One, Two;
    HowMany(r);
    JoinVote(Print(r.poll), Print(r.user), Print(r.option));
  }

  /** The printed path of every kind of reference, written out. */
  lemma PathExactly(r: Ref)
    ensures PathOf(r) == match Parent(r) case None => Tail(r) case Some(parent) => PathOf(parent) + Tail(r)
  {
    hide Tail, OwnSegments, Join;
    TailExactly(r);
    if Parent(r).Some? {
      BehindParent(r, Parent(r).value);
    }
  }
}
