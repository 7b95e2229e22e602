/** References to local objects, the URIs they print as, and the routing tree that reads them back. */
module LocalObjectRef {
  import opened Options
  import opened Decimal
  import opened Texts
  import opened Trout

  // ----- timestamps of outbox pages

  // The whole seconds that a chrono date-time can hold.
  const MIN_SECONDS: int := -8_334_601_228_800
  const MAX_SECONDS: int := 8_210_266_876_799

  datatype TimestampOrLatest = Latest | Timestamp(seconds: int, nanos: nat)

  type Page = p: TimestampOrLatest |
      p.Timestamp? ==> MIN_SECONDS <= p.seconds <= MAX_SECONDS && p.nanos < 1_000_000_000
    witness Latest

  function PrintPage(p: Page): string {
    match p
    case Latest => "latest"
    case Timestamp(seconds, _) => Print(seconds)
  }

  function ParsePage(s: string): Option<Page> {
    if s == "latest" then Some(Latest)
    else
      match Parse(s)
      case None => None
      case Some(n) => if MIN_SECONDS <= n <= MAX_SECONDS then Some(Timestamp(n, 0)) else None
  }

  // ----- references

  datatype Ref =
    | Comment(comment: I64)
    | CommentLikes(comment: I64)
    | CommentLike(comment: I64, user: I64)
    | CollectionTarget(target: I64)
    | CollectionTargetItem(target: I64, item: I64)
    | CollectionTargetItemComment(target: I64, item: I64, itemComment: I64)
    | CollectionTargetItemLikes(target: I64, item: I64)
    | CollectionTargetItemLike(target: I64, item: I64, user: I64)
    | CollectionTargetFollowers(target: I64)
    | CollectionTargetFollow(target: I64, follower: I64)
    | Community(community: I64)
    | CommunityFeatured(community: I64)
    | CommunityFollowers(community: I64)
    | CommunityFollow(community: I64, follower: I64)
    | CommunityFollowJoin(community: I64, follower: I64)
    | CommunityInbox(community: I64)
    | CommunityOutbox(community: I64)
    | CommunityOutboxPage(community: I64, page: Page)
    | PollVote(poll: I64, user: I64, option: I64)
    | Post(post: I64)
    | PostLikes(post: I64)
    | PostLike(post: I64, user: I64)
    | PrivateMessage(message: I64)
    | SharedInbox
    | User(user: I64)
    | UserFollowers(user: I64)
    | UserFollowing(user: I64)
    | UserFollow(user: I64, follower: I64)
    | UserFollowJoin(user: I64, follower: I64)
    | UserLiked(user: I64)
    | UserOutbox(user: I64)
    | UserOutboxPage(user: I64, page: Page)

  /** What a reference keeps of an outbox page once printed: the whole seconds. */
  function CutPage(p: Page): Page {
    if p.Timestamp? then Timestamp(p.seconds, 0) else p
  }

  function Cut(r: Ref): Ref {
    match r
    case CommunityOutboxPage(c, p) => CommunityOutboxPage(c, CutPage(p))
    case UserOutboxPage(u, p) => UserOutboxPage(u, CutPage(p))
    case _ => r
  }

  /** Nothing but the fraction of a second of a page is lost. */
  lemma CutExactly(r: Ref)
    ensures match r
            case CommunityOutboxPage(c, Timestamp(seconds, _)) => Cut(r) == CommunityOutboxPage(c, Timestamp(seconds, 0))
            case UserOutboxPage(u, Timestamp(seconds, _)) => Cut(r) == UserOutboxPage(u, Timestamp(seconds, 0))
            case _ => Cut(r) == r
  {
  }

  // ----- base URLs

  /** An absolute http(s) URL as the `url` crate keeps it: scheme and authority, path, query, fragment. */
  datatype BaseUrl = BaseUrl(origin: string, path: string, query: Option<string>, fragment: Option<string>) {
    predicate WellFormed() {
      && origin != "" && origin[|origin| - 1] != '/'
      && '?' !in origin && '#' !in origin
      && path != "" && path[0] == '/'
      && '?' !in path && '#' !in path
    }

    /** The base URLs that the parser can strip: no query, no fragment, no trailing slash after a path. */
    predicate Strippable() {
      && query == None
      && fragment == None
      && (path == "/" || path == "" || path[|path| - 1] != '/')
    }

    function Tail(): string {
      (match query case None => "" case Some(q) => "?" + q) +
      (match fragment case None => "" case Some(f) => "#" + f)
    }

    function Serialize(): string {
      origin + path + Tail()
    }

    /** `path_segments_mut().push`: a slash unless the path is the bare root, then the segment. */
    function Push(segment: string): BaseUrl {
      if segment == "." || segment == ".." then this
      else this.(path := if |path| > 1 then path + "/" + segment else path + segment)
    }

    function Extend(segments: seq<string>): BaseUrl
      decreases |segments|
    {
      if segments == [] then this else Push(segments[0]).Extend(segments[1..])
    }
  }

  // ----- printing

  // The literal words of local paths.
  datatype Word =
    | CommentsWord | LikesWord | CollectionTargetsWord | ItemsWord | FollowersWord | CommunitiesWord
    | FeaturedWord | JoinWord | InboxWord | OutboxWord | PageWord | PrivateMessagesWord | PollsWord
    | VotersWord | VotesWord | PostsWord | UsersWord | FollowingWord | LikedWord

  function Text(w: Word): string {
    match w
    case CommentsWord => "comments"
    case LikesWord => "likes"
    case CollectionTargetsWord => "collection_targets"
    case ItemsWord => "items"
    case FollowersWord => "followers"
    case CommunitiesWord => "communities"
    case FeaturedWord => "featured"
    case JoinWord => "join"
    case InboxWord => "inbox"
    case OutboxWord => "outbox"
    case PageWord => "page"
    case PrivateMessagesWord => "private_messages"
    case PollsWord => "polls"
    case VotersWord => "voters"
    case VotesWord => "votes"
    case PostsWord => "posts"
    case UsersWord => "users"
    case FollowingWord => "following"
    case LikedWord => "liked"
  }

  /** Enough of a word to tell it from the others: its length and its first, third and last letters. */
  function Letters(w: Word): (int, char, char, char) {
    match w
    case CommentsWord => (8, 'c', 'm', 's')
    case LikesWord => (5, 'l', 'k', 's')
    case CollectionTargetsWord => (18, 'c', 'l', 's')
    case ItemsWord => (5, 'i', 'e', 's')
    case FollowersWord => (9, 'f', 'l', 's')
    case CommunitiesWord => (11, 'c', 'm', 's')
    case FeaturedWord => (8, 'f', 'a', 'd')
    case JoinWord => (4, 'j', 'i', 'n')
    case InboxWord => (5, 'i', 'b', 'x')
    case OutboxWord => (6, 'o', 't', 'x')
    case PageWord => (4, 'p', 'g', 'e')
    case PrivateMessagesWord => (16, 'p', 'i', 's')
    case PollsWord => (5, 'p', 'l', 's')
    case VotersWord => (6, 'v', 't', 's')
    case VotesWord => (5, 'v', 't', 's')
    case PostsWord => (5, 'p', 's', 's')
    case UsersWord => (5, 'u', 'e', 's')
    case FollowingWord => (9, 'f', 'l', 'g')
    case LikedWord => (5, 'l', 'k', 'd')
  }

  lemma TextLetters(w: Word)
    ensures Letters(w).0 == |Text(w)| >= 4
    ensures Letters(w).1 == Text(w)[0]
    ensures Letters(w).2 == Text(w)[2]
    ensures Letters(w).3 == Text(w)[|Text(w)| - 1]
  {
    match w { case _ => }
  }

  lemma TextPlain(w: Word)
    ensures Plain(Text(w))
  {
    match w { case _ => }
  }

  lemma WordFacts()
    ensures forall w {:trigger Text(w)} :: Plain(Text(w))
    ensures forall w, v {:trigger Text(w), Text(v)} :: Text(w) == Text(v) ==> w == v
  {
    hide Text;
    forall w ensures Plain(Text(w)) {
      TextPlain(w);
    }
    forall w, v | Text(w) == Text(v) ensures w == v {
      TextLetters(w);
      TextLetters(v);
    }
  }

  /** The reference whose URI a reference extends; none for those that extend the base URL itself. */
  function Parent(r: Ref): Option<Ref> {
    match r
    case CommentLikes(c) => Some(Comment(c))
    case CommentLike(c, _) => Some(CommentLikes(c))
    case CollectionTargetItem(t, _) => Some(CollectionTarget(t))
    case CollectionTargetItemComment(t, i, _) => Some(CollectionTargetItem(t, i))
    case CollectionTargetItemLikes(t, i) => Some(CollectionTargetItem(t, i))
    case CollectionTargetItemLike(t, i, _) => Some(CollectionTargetItemLikes(t, i))
    case CollectionTargetFollowers(t) => Some(CollectionTarget(t))
    case CollectionTargetFollow(t, _) => Some(CollectionTargetFollowers(t))
    case CommunityFeatured(c) => Some(Community(c))
    case CommunityFollowers(c) => Some(Community(c))
    case CommunityFollow(c, _) => Some(CommunityFollowers(c))
    case CommunityFollowJoin(c, f) => Some(CommunityFollow(c, f))
    case CommunityInbox(c) => Some(Community(c))
    case CommunityOutbox(c) => Some(Community(c))
    case CommunityOutboxPage(c, _) => Some(CommunityOutbox(c))
    case PostLikes(p) => Some(Post(p))
    case PostLike(p, _) => Some(PostLikes(p))
    case UserFollowers(u) => Some(User(u))
    case UserFollowing(u) => Some(User(u))
    case UserFollow(u, _) => Some(UserFollowers(u))
    case UserFollowJoin(u, f) => Some(UserFollow(u, f))
    case UserLiked(u) => Some(User(u))
    case UserOutbox(u) => Some(User(u))
    case UserOutboxPage(u, _) => Some(UserOutbox(u))
    case _ => None
  }

  /** The segments that printing a reference pushes after those of its parent. */
  function OwnSegments(r: Ref): seq<string> {
    match r
    case Comment(c) => [Text(CommentsWord), Print(c)]
    case CommentLike(_, u) => [Print(u)]
    case CollectionTarget(t) => [Text(CollectionTargetsWord), Print(t)]
    case CollectionTargetItem(_, i) => [Text(ItemsWord), Print(i)]
    case CollectionTargetItemComment(_, _, c) => [Text(CommentsWord), Print(c)]
    case CollectionTargetItemLike(_, _, u) => [Print(u)]
    case CollectionTargetFollow(_, f) => [Print(f)]
    case Community(c) => [Text(CommunitiesWord), Print(c)]
    case CommunityFeatured(_) => [Text(FeaturedWord)]
    case CommunityFollow(_, f) => [Print(f)]
    case CommunityOutboxPage(_, p) => [Text(PageWord), PrintPage(p)]
    case PollVote(p, u, o) => [Text(PollsWord), Print(p), Text(VotersWord), Print(u), Text(VotesWord), Print(o)]
    case Post(p) => [Text(PostsWord), Print(p)]
    case PostLike(_, u) => [Print(u)]
    case PrivateMessage(m) => [Text(PrivateMessagesWord), Print(m)]
    case User(u) => [Text(UsersWord), Print(u)]
    case UserFollowing(_) => [Text(FollowingWord)]
    case UserFollow(_, f) => [Print(f)]
    case UserLiked(_) => [Text(LikedWord)]
    case UserOutboxPage(_, p) => [Text(PageWord), PrintPage(p)]
    case SharedInbox | CommunityInbox(_) => [Text(InboxWord)]
    case CommunityOutbox(_) | UserOutbox(_) => [Text(OutboxWord)]
    case CommentLikes(_) | CollectionTargetItemLikes(_, _) | PostLikes(_) => [Text(LikesWord)]
    case CollectionTargetFollowers(_) | CommunityFollowers(_) | UserFollowers(_) => [Text(FollowersWord)]
    case CommunityFollowJoin(_, _) | UserFollowJoin(_, _) => [Text(JoinWord)]
  }

  /** How many references a reference hangs from. */
  function Level(r: Ref): nat {
    match r
    case CommunityFollowJoin(_, _) | UserFollowJoin(_, _) | CollectionTargetItemLike(_, _, _) => 3
    case CommentLike(_, _) | CollectionTargetItemComment(_, _, _) | CollectionTargetItemLikes(_, _)
       | CollectionTargetFollow(_, _) | CommunityFollow(_, _) | CommunityOutboxPage(_, _)
       | PostLike(_, _) | UserFollow(_, _) | UserOutboxPage(_, _) => 2
    case _ => if Parent(r).Some? then 1 else 0
  }

  function Segments(r: Ref): seq<string>
    decreases Level(r)
  {
    match Parent(r)
    case None => OwnSegments(r)
    case Some(parent) => Segments(parent) + OwnSegments(r)
  }

  function LocalUri(r: Ref, base: BaseUrl): BaseUrl {
    base.Extend(Segments(r))
  }

  lemma {:induction false} ExtendConcat(base: BaseUrl, a: seq<string>, b: seq<string>)
    ensures base.Extend(a + b) == base.Extend(a).Extend(b)
    decreases |a|
  {
    if a == [] {
      assert a + b == b;
    } else {
      assert (a + b)[1..] == a[1..] + b;
      ExtendConcat(base.Push(a[0]), a[1..], b);
    }
  }

  method ExtendPath(base: BaseUrl, segments: seq<string>) returns (res: BaseUrl)
    ensures res == base.Extend(segments)
  {
    res := base;
    for i := 0 to |segments|
      invariant res == base.Extend(segments[..i])
    {
      ExtendConcat(base, segments[..i], [segments[i]]);
      assert segments[..i + 1] == segments[..i] + [segments[i]];
      res := res.Push(segments[i]);
    }
    assert segments[..|segments|] == segments;
  }

  /** Any other segment is appended behind a slash; a segment of one or two dots is not. */
  lemma PushExactly(base: BaseUrl, segment: string)
    ensures base.Push(".") == base.Push("..") == base
    ensures segment != "." && segment != ".." ==>
      base.Push(segment) == base.(path := (if |base.path| <= 1 then base.path else base.path + "/") + segment)
  {
  }

  lemma UriOfParent(r: Ref, parent: Ref, base: BaseUrl)
    requires Parent(r) == Some(parent)
    ensures LocalUri(r, base) == LocalUri(parent, base).Extend(OwnSegments(r))
  {
    ExtendConcat(base, Segments(parent), OwnSegments(r));
  }

  /** Prints a reference by printing the one it hangs from and pushing its own segments. */
  method ToLocalUri(r: Ref, base: BaseUrl) returns (res: BaseUrl)
    ensures res == LocalUri(r, base)
    decreases Level(r)
  {
    res := base;
    if Parent(r).Some? {
      var parent := Parent(r).value;
      res := ToLocalUri(parent, base);
      UriOfParent(r, parent, base);
    }
    res := ExtendPath(res, OwnSegments(r));
  }

  // ----- the routing tree, with its nodes named

  datatype Arg = IdArg(id: I64) | PageArg(page: Page)

  function ParseId(segment: string): Option<Arg> {
    match Parse(segment) case None => None case Some(n) => Some(IdArg(n))
  }

  function ParsePageArg(segment: string): Option<Arg> {
    match ParsePage(segment) case None => None case Some(p) => Some(PageArg(p))
  }

  datatype Node =
    | Root
    | CommentsNode | CommentNode | CommentLikesNode | CommentLikeNode
    | TargetsNode | TargetNode | ItemsNode | ItemNode | ItemCommentsNode | ItemCommentNode
    | ItemLikesNode | ItemLikeNode | TargetFollowersNode | TargetFollowNode
    | CommunitiesNode | CommunityNode | FeaturedNode | CommunityFollowersNode | CommunityFollowNode
    | CommunityJoinNode | CommunityInboxNode | CommunityOutboxNode | CommunityPagesNode | CommunityPageNode
    | SharedInboxNode
    | MessagesNode | MessageNode
    | PollsNode | PollNode | VotersNode | VoterNode | VotesNode | VoteNode
    | PostsNode | PostNode | PostLikesNode | PostLikeNode
    | UsersNode | UserNode | UserFollowersNode | UserFollowNode | UserJoinNode
    | UserFollowingNode | UserLikedNode | UserOutboxNode | UserPagesNode | UserPageNode

  // The children of a node: literal words, in the order they were added, or one parsed segment.
  datatype Kids = Words(words: seq<(Word, Node)>) | Ids(node: Node) | Pages(node: Node)

  function KidsOf(n: Node): Kids {
    match n
    case Root => Words([
      (CommentsWord, CommentsNode),
      (CollectionTargetsWord, TargetsNode),
      (CommunitiesWord, CommunitiesNode),
      (InboxWord, SharedInboxNode),
      (PrivateMessagesWord, MessagesNode),
      (PollsWord, PollsNode),
      (PostsWord, PostsNode),
      (UsersWord, UsersNode)])
    case CommentsNode => Ids(CommentNode)
    case CommentNode => Words([(LikesWord, CommentLikesNode)])
    case CommentLikesNode => Ids(CommentLikeNode)
    case TargetsNode => Ids(TargetNode)
    case TargetNode => Words([(ItemsWord, ItemsNode), (FollowersWord, TargetFollowersNode)])
    case ItemsNode => Ids(ItemNode)
    case ItemNode => Words([(CommentsWord, ItemCommentsNode), (LikesWord, ItemLikesNode)])
    case ItemCommentsNode => Ids(ItemCommentNode)
    case ItemLikesNode => Ids(ItemLikeNode)
    case TargetFollowersNode => Ids(TargetFollowNode)
    case CommunitiesNode => Ids(CommunityNode)
    case CommunityNode => Words([
      (FeaturedWord, FeaturedNode),
      (FollowersWord, CommunityFollowersNode),
      (InboxWord, CommunityInboxNode),
      (OutboxWord, CommunityOutboxNode)])
    case CommunityFollowersNode => Ids(CommunityFollowNode)
    case CommunityFollowNode => Words([(JoinWord, CommunityJoinNode)])
    case CommunityOutboxNode => Words([(PageWord, CommunityPagesNode)])
    case CommunityPagesNode => Pages(CommunityPageNode)
    case MessagesNode => Ids(MessageNode)
    case PollsNode => Ids(PollNode)
    case PollNode => Words([(VotersWord, VotersNode)])
    case VotersNode => Ids(VoterNode)
    case VoterNode => Words([(VotesWord, VotesNode)])
    case VotesNode => Ids(VoteNode)
    case PostsNode => Ids(PostNode)
    case PostNode => Words([(LikesWord, PostLikesNode)])
    case PostLikesNode => Ids(PostLikeNode)
    case UsersNode => Ids(UserNode)
    case UserNode => Words([
      (FollowersWord, UserFollowersNode),
      (FollowingWord, UserFollowingNode),
      (LikedWord, UserLikedNode),
      (OutboxWord, UserOutboxNode)])
    case UserFollowersNode => Ids(UserFollowNode)
    case UserFollowNode => Words([(JoinWord, UserJoinNode)])
    case UserOutboxNode => Words([(PageWord, UserPagesNode)])
    case UserPagesNode => Pages(UserPageNode)
    case _ => Words([])
  }

  function Children(n: Node): seq<Branch<Node, Arg>> {
    match KidsOf(n)
    case Words(words) =>
      seq(|words|, i requires 0 <= i < |words| => Branch(Literal(Text(words[i].0)), words[i].1))
    case Ids(next) => [Branch(Parsed(ParseId), next)]
    case Pages(next) => [Branch(Parsed(ParsePageArg), next)]
  }

  predicate Shape(args: seq<Arg>, ids: nat, page: bool) {
    && |args| == ids + (if page then 1 else 0)
    && (forall i | 0 <= i < ids :: args[i].IdArg?)
    && (page ==> args[ids].PageArg?)
  }

  /** What the handler of a node makes of the arguments parsed on the way to it; some nodes have none. */
  function Handle(n: Node, args: seq<Arg>): Option<Ref> {
    match n
    case SharedInboxNode => if Shape(args, 0, false) then Some(SharedInbox) else None
    case CommentNode => if Shape(args, 1, false) then Some(Comment(args[0].id)) else None
    case CommentLikesNode => if Shape(args, 1, false) then Some(CommentLikes(args[0].id)) else None
    case TargetNode => if Shape(args, 1, false) then Some(CollectionTarget(args[0].id)) else None
    case TargetFollowersNode => if Shape(args, 1, false) then Some(CollectionTargetFollowers(args[0].id)) else None
    case CommunityNode => if Shape(args, 1, false) then Some(Community(args[0].id)) else None
    case FeaturedNode => if Shape(args, 1, false) then Some(CommunityFeatured(args[0].id)) else None
    case CommunityFollowersNode => if Shape(args, 1, false) then Some(CommunityFollowers(args[0].id)) else None
    case CommunityInboxNode => if Shape(args, 1, false) then Some(CommunityInbox(args[0].id)) else None
    case CommunityOutboxNode => if Shape(args, 1, false) then Some(CommunityOutbox(args[0].id)) else None
    case PostNode => if Shape(args, 1, false) then Some(Post(args[0].id)) else None
    case PostLikesNode => if Shape(args, 1, false) then Some(PostLikes(args[0].id)) else None
    case MessageNode => if Shape(args, 1, false) then Some(PrivateMessage(args[0].id)) else None
    case UserNode => if Shape(args, 1, false) then Some(User(args[0].id)) else None
    case UserFollowersNode => if Shape(args, 1, false) then Some(UserFollowers(args[0].id)) else None
    case UserFollowingNode => if Shape(args, 1, false) then Some(UserFollowing(args[0].id)) else None
    case UserLikedNode => if Shape(args, 1, false) then Some(UserLiked(args[0].id)) else None
    case UserOutboxNode => if Shape(args, 1, false) then Some(UserOutbox(args[0].id)) else None
    case CommentLikeNode =>
      if Shape(args, 2, false) then Some(CommentLike(args[0].id, args[1].id)) else None
    case ItemNode =>
      if Shape(args, 2, false) then Some(CollectionTargetItem(args[0].id, args[1].id)) else None
    case ItemLikesNode =>
      if Shape(args, 2, false) then Some(CollectionTargetItemLikes(args[0].id, args[1].id)) else None
    case TargetFollowNode =>
      if Shape(args, 2, false) then Some(CollectionTargetFollow(args[0].id, args[1].id)) else None
    case CommunityFollowNode =>
      if Shape(args, 2, false) then Some(CommunityFollow(args[0].id, args[1].id)) else None
    case CommunityJoinNode =>
      if Shape(args, 2, false) then Some(CommunityFollowJoin(args[0].id, args[1].id)) else None
    case PostLikeNode =>
      if Shape(args, 2, false) then Some(PostLike(args[0].id, args[1].id)) else None
    case UserFollowNode =>
      if Shape(args, 2, false) then Some(UserFollow(args[0].id, args[1].id)) else None
    case UserJoinNode =>
      if Shape(args, 2, false) then Some(UserFollowJoin(args[0].id, args[1].id)) else None
    case CommunityPageNode =>
      if Shape(args, 1, true) then Some(CommunityOutboxPage(args[0].id, args[1].page)) else None
    case UserPageNode =>
      if Shape(args, 1, true) then Some(UserOutboxPage(args[0].id, args[1].page)) else None
    case ItemCommentNode =>
      if Shape(args, 3, false) then Some(CollectionTargetItemComment(args[0].id, args[1].id, args[2].id))
      else None
    case ItemLikeNode =>
      if Shape(args, 3, false) then Some(CollectionTargetItemLike(args[0].id, args[1].id, args[2].id))
      else None
    case VoteNode =>
      if Shape(args, 3, false) then Some(PollVote(args[0].id, args[1].id, args[2].id))
      else None
    case _ => None
  }

  const ROUTES: Router<Node, Arg, Ref> := Router(Children, Handle)

  function TryFromPath(path: string): Option<Ref> {
    if path == "" || path[0] != '/' then None else Route(ROUTES, Root, path[1..], [])
  }

  function TryStripHost(uri: string, base: BaseUrl): Option<string> {
    var host := TrimSlashes(base.Serialize());
    if !(host <= uri) then None
    else
      var remaining := uri[|host|..];
      Some(remaining[..FirstOf(remaining, {'?', '#'})])
  }

  function TryFromUri(uri: string, base: BaseUrl): Option<Ref> {
    match TryStripHost(uri, base)
    case None => None
    case Some(remaining) => TryFromPath(remaining)
  }

  // ----- routing a printed path

  /** The node of the routing tree that a reference ends at. */
  function NodeOf(r: Ref): Node {
    match r
    case SharedInbox => SharedInboxNode
    case Comment(_) => CommentNode
    case CommentLikes(_) => CommentLikesNode
    case CollectionTarget(_) => TargetNode
    case CollectionTargetFollowers(_) => TargetFollowersNode
    case Community(_) => CommunityNode
    case CommunityFeatured(_) => FeaturedNode
    case CommunityFollowers(_) => CommunityFollowersNode
    case CommunityInbox(_) => CommunityInboxNode
    case CommunityOutbox(_) => CommunityOutboxNode
    case Post(_) => PostNode
    case PostLikes(_) => PostLikesNode
    case PrivateMessage(_) => MessageNode
    case User(_) => UserNode
    case UserFollowers(_) => UserFollowersNode
    case UserFollowing(_) => UserFollowingNode
    case UserLiked(_) => UserLikedNode
    case UserOutbox(_) => UserOutboxNode
    case CommentLike(_, _) => CommentLikeNode
    case CollectionTargetItem(_, _) => ItemNode
    case CollectionTargetItemLikes(_, _) => ItemLikesNode
    case CollectionTargetFollow(_, _) => TargetFollowNode
    case CommunityFollow(_, _) => CommunityFollowNode
    case CommunityFollowJoin(_, _) => CommunityJoinNode
    case PostLike(_, _) => PostLikeNode
    case UserFollow(_, _) => UserFollowNode
    case UserFollowJoin(_, _) => UserJoinNode
    case CommunityOutboxPage(_, _) => CommunityPageNode
    case UserOutboxPage(_, _) => UserPageNode
    case CollectionTargetItemComment(_, _, _) => ItemCommentNode
    case CollectionTargetItemLike(_, _, _) => ItemLikeNode
    case PollVote(_, _, _) => VoteNode
  }

  /** The arguments that the segments of a reference parse to. */
  function ArgsOf(r: Ref): seq<Arg> {
    match r
    case SharedInbox => []
    case Comment(a) => [IdArg(a)]
    case CommentLikes(a) => [IdArg(a)]
    case CollectionTarget(a) => [IdArg(a)]
    case CollectionTargetFollowers(a) => [IdArg(a)]
    case Community(a) => [IdArg(a)]
    case CommunityFeatured(a) => [IdArg(a)]
    case CommunityFollowers(a) => [IdArg(a)]
    case CommunityInbox(a) => [IdArg(a)]
    case CommunityOutbox(a) => [IdArg(a)]
    case Post(a) => [IdArg(a)]
    case PostLikes(a) => [IdArg(a)]
    case PrivateMessage(a) => [IdArg(a)]
    case User(a) => [IdArg(a)]
    case UserFollowers(a) => [IdArg(a)]
    case UserFollowing(a) => [IdArg(a)]
    case UserLiked(a) => [IdArg(a)]
    case UserOutbox(a) => [IdArg(a)]
    case CommentLike(a, b) => [IdArg(a), IdArg(b)]
    case CollectionTargetItem(a, b) => [IdArg(a), IdArg(b)]
    case CollectionTargetItemLikes(a, b) => [IdArg(a), IdArg(b)]
    case CollectionTargetFollow(a, b) => [IdArg(a), IdArg(b)]
    case CommunityFollow(a, b) => [IdArg(a), IdArg(b)]
    case CommunityFollowJoin(a, b) => [IdArg(a), IdArg(b)]
    case PostLike(a, b) => [IdArg(a), IdArg(b)]
    case UserFollow(a, b) => [IdArg(a), IdArg(b)]
    case UserFollowJoin(a, b) => [IdArg(a), IdArg(b)]
    case CommunityOutboxPage(a, p) => [IdArg(a), PageArg(CutPage(p))]
    case UserOutboxPage(a, p) => [IdArg(a), PageArg(CutPage(p))]
    case CollectionTargetItemComment(a, b, c) => [IdArg(a), IdArg(b), IdArg(c)]
    case CollectionTargetItemLike(a, b, c) => [IdArg(a), IdArg(b), IdArg(c)]
    case PollVote(a, b, c) => [IdArg(a), IdArg(b), IdArg(c)]
  }

  lemma HandlerOf(r: Ref)
    ensures Handle(NodeOf(r), ArgsOf(r)) == Some(Cut(r))
  {
  }

  function IdStep(id: I64): Step<Arg> { Step(0, Print(id), [IdArg(id)]) }

  function PageStep(p: Page): Step<Arg> { Step(0, PrintPage(p), [PageArg(CutPage(p))]) }

  lemma PrintedId(id: I64)
    ensures Plain(Print(id)) && ParseId(Print(id)) == Some(IdArg(id))
  {
    ParsePrint(id);
    PrintIsPlain(id);
  }

  lemma PrintedPage(p: Page)
    ensures Plain(PrintPage(p)) && ParsePageArg(PrintPage(p)) == Some(PageArg(CutPage(p)))
    ensures CutPage(p) == match p case Latest => Latest case Timestamp(seconds, _) => Timestamp(seconds, 0)
  {
    if p.Timestamp? {
      ParsePrint(p.seconds);
      PrintIsPlain(p.seconds);
    }
  }

  /** The steps of the routing tree that the own segments of a reference take. */
  function OwnSteps(r: Ref): seq<Step<Arg>> {
    match r
    case Comment(c) => [Step(0, Text(CommentsWord), []), IdStep(c)]
    case CollectionTarget(t) => [Step(1, Text(CollectionTargetsWord), []), IdStep(t)]
    case Community(c) => [Step(2, Text(CommunitiesWord), []), IdStep(c)]
    case SharedInbox => [Step(3, Text(InboxWord), [])]
    case PrivateMessage(m) => [Step(4, Text(PrivateMessagesWord), []), IdStep(m)]
    case PollVote(p, u, o) => [
      Step(5, Text(PollsWord), []), IdStep(p), Step(0, Text(VotersWord), []), IdStep(u), Step(0, Text(VotesWord), []), IdStep(o)]
    case Post(p) => [Step(6, Text(PostsWord), []), IdStep(p)]
    case User(u) => [Step(7, Text(UsersWord), []), IdStep(u)]
    case CommentLikes(_) => [Step(0, Text(LikesWord), [])]
    case CommentLike(_, u) => [IdStep(u)]
    case CollectionTargetItem(_, i) => [Step(0, Text(ItemsWord), []), IdStep(i)]
    case CollectionTargetItemComment(_, _, c) => [Step(0, Text(CommentsWord), []), IdStep(c)]
    case CollectionTargetItemLikes(_, _) => [Step(1, Text(LikesWord), [])]
    case CollectionTargetItemLike(_, _, u) => [IdStep(u)]
    case CollectionTargetFollowers(_) => [Step(1, Text(FollowersWord), [])]
    case CollectionTargetFollow(_, f) => [IdStep(f)]
    case CommunityFeatured(_) => [Step(0, Text(FeaturedWord), [])]
    case CommunityFollowers(_) => [Step(1, Text(FollowersWord), [])]
    case CommunityFollow(_, f) => [IdStep(f)]
    case CommunityFollowJoin(_, _) => [Step(0, Text(JoinWord), [])]
    case CommunityInbox(_) => [Step(2, Text(InboxWord), [])]
    case CommunityOutbox(_) => [Step(3, Text(OutboxWord), [])]
    case CommunityOutboxPage(_, p) => [Step(0, Text(PageWord), []), PageStep(p)]
    case PostLikes(_) => [Step(0, Text(LikesWord), [])]
    case PostLike(_, u) => [IdStep(u)]
    case UserFollowers(_) => [Step(0, Text(FollowersWord), [])]
    case UserFollowing(_) => [Step(1, Text(FollowingWord), [])]
    case UserFollow(_, f) => [IdStep(f)]
    case UserFollowJoin(_, _) => [Step(0, Text(JoinWord), [])]
    case UserLiked(_) => [Step(2, Text(LikedWord), [])]
    case UserOutbox(_) => [Step(3, Text(OutboxWord), [])]
    case UserOutboxPage(_, p) => [Step(0, Text(PageWord), []), PageStep(p)]
  }

  function StartNode(r: Ref): Node {
    match Parent(r) case None => Root case Some(p) => NodeOf(p)
  }

  function StartArgs(r: Ref): seq<Arg> {
    match Parent(r) case None => [] case Some(p) => ArgsOf(p)
  }

  ghost predicate OwnLeads(r: Ref) {
    Leads(ROUTES, StartNode(r), StartArgs(r), OwnSteps(r), NodeOf(r), ArgsOf(r))
  }

  lemma OneStep(n: Node, args: seq<Arg>, s: Step<Arg>, end: Node, endArgs: seq<Arg>)
    requires Takes(ROUTES, n, s) && Children(n)[s.child].node == end && args + s.args == endArgs
    ensures Leads(ROUTES, n, args, [s], end, endArgs)
  {
    hide KidsOf;
  }

  lemma TwoSteps(n: Node, args: seq<Arg>, s: Step<Arg>, mid: Node, t: Step<Arg>, end: Node, endArgs: seq<Arg>)
    requires Takes(ROUTES, n, s) && Children(n)[s.child].node == mid && s.args == []
    requires Takes(ROUTES, mid, t) && Children(mid)[t.child].node == end && args + t.args == endArgs
    ensures Leads(ROUTES, n, args, [s, t], end, endArgs)
  {
    hide KidsOf;
    assert args + s.args == args;
    OneStep(mid, args, t, end, endArgs);
    assert [s, t][1..] == [t];
  }

  /** The node has the word as its child of that index, and no earlier child with it. */
  ghost predicate HasWord(n: Node, child: nat, w: Word, next: Node) {
    && KidsOf(n).Words?
    && child < |KidsOf(n).words|
    && KidsOf(n).words[child] == (w, next)
    && forall j | 0 <= j < child :: KidsOf(n).words[j].0 != w
  }

  lemma TakesWord(n: Node, child: nat, w: Word, next: Node)
    requires HasWord(n, child, w, next)
    ensures Takes(ROUTES, n, Step(child, Text(w), [])) && Children(n)[child].node == next
  {
    hide KidsOf, Text;
    WordFacts();
  }

  lemma OneWord(n: Node, child: nat, w: Word, end: Node, args: seq<Arg>)
    requires HasWord(n, child, w, end)
    ensures Leads(ROUTES, n, args, [Step(child, Text(w), [])], end, args)
  {
    TakesWord(n, child, w, end);
    OneStep(n, args, Step(child, Text(w), []), end, args);
  }

  lemma OneId(n: Node, id: I64, end: Node, args: seq<Arg>, endArgs: seq<Arg>)
    requires KidsOf(n) == Ids(end)
    requires endArgs == args + [IdArg(id)]
    ensures Leads(ROUTES, n, args, [IdStep(id)], end, endArgs)
  {
    hide KidsOf, Print, Parse;
    PrintedId(id);
    OneStep(n, args, IdStep(id), end, endArgs);
  }

  lemma WordThenId(n: Node, child: nat, w: Word, mid: Node, id: I64, end: Node, args: seq<Arg>, endArgs: seq<Arg>)
    requires HasWord(n, child, w, mid) && KidsOf(mid) == Ids(end)
    requires endArgs == args + [IdArg(id)]
    ensures Leads(ROUTES, n, args, [Step(child, Text(w), []), IdStep(id)], end, endArgs)
  {
    hide KidsOf, Text, Print, Parse;
    TakesWord(n, child, w, mid);
    PrintedId(id);
    TwoSteps(n, args, Step(child, Text(w), []), mid, IdStep(id), end, endArgs);
  }

  lemma WordThenPage(n: Node, w: Word, mid: Node, p: Page, end: Node, args: seq<Arg>, endArgs: seq<Arg>)
    requires HasWord(n, 0, w, mid) && KidsOf(mid) == Pages(end)
    requires endArgs == args + [PageArg(CutPage(p))]
    ensures Leads(ROUTES, n, args, [Step(0, Text(w), []), PageStep(p)], end, endArgs)
  {
    hide KidsOf, Text, PrintPage, ParsePage;
    TakesWord(n, 0, w, mid);
    PrintedPage(p);
    TwoSteps(n, args, Step(0, Text(w), []), mid, PageStep(p), end, endArgs);
  }

  lemma RootWords()
    ensures forall j | 0 <= j < |Children(Root)| ::
      Children(Root)[j].edge.Literal? && Plain(Children(Root)[j].edge.name)
  {
    assert KidsOf(Root).Words?;
    hide Text, KidsOf;
    WordFacts();
  }

  lemma CommentRootLeads(r: Ref)
    requires r.Comment? || r.CollectionTarget? || r.Community?
    ensures OwnLeads(r)
  {
    hide Leads, Text, Print, PrintPage, Children, Handle, Cut, Segments;
    match r {
      case Comment(c) => WordThenId(Root, 0, CommentsWord, CommentsNode, c, CommentNode, [], ArgsOf(r));
      case CollectionTarget(t) => WordThenId(Root, 1, CollectionTargetsWord, TargetsNode, t, TargetNode, [], ArgsOf(r));
      case Community(c) => WordThenId(Root, 2, CommunitiesWord, CommunitiesNode, c, CommunityNode, [], ArgsOf(r));
    }
  }

  lemma MessageRootLeads(r: Ref)
    requires r.SharedInbox? || r.PrivateMessage?
    ensures OwnLeads(r)
  {
    hide Leads, Text, Print, PrintPage, Children, Handle, Cut, Segments;
    match r {
      case SharedInbox => OneWord(Root, 3, InboxWord, SharedInboxNode, []);
      case PrivateMessage(m) => WordThenId(Root, 4, PrivateMessagesWord, MessagesNode, m, MessageNode, [], ArgsOf(r));
    }
  }

  lemma PostRootLeads(r: Ref)
    requires r.Post? || r.User?
    ensures OwnLeads(r)
  {
    hide Leads, Text, Print, PrintPage, Children, Handle, Cut, Segments;
    match r {
      case Post(p) => WordThenId(Root, 6, PostsWord, PostsNode, p, PostNode, [], ArgsOf(r));
      case User(u) => WordThenId(Root, 7, UsersWord, UsersNode, u, UserNode, [], ArgsOf(r));
    }
  }

  lemma PollStart(poll: I64)
    ensures Leads(ROUTES, Root, [], [Step(5, Text(PollsWord), []), IdStep(poll)], PollNode, [IdArg(poll)])
  {
    hide Leads, Text, Print;
    WordThenId(Root, 5, PollsWord, PollsNode, poll, PollNode, [], [IdArg(poll)]);
  }

  lemma PollMiddle(poll: I64, user: I64)
    ensures Leads(ROUTES, PollNode, [IdArg(poll)], [Step(0, Text(VotersWord), []), IdStep(user)],
                  VoterNode, [IdArg(poll), IdArg(user)])
  {
    hide Leads, Text, Print;
    WordThenId(PollNode, 0, VotersWord, VotersNode, user, VoterNode, [IdArg(poll)], [IdArg(poll), IdArg(user)]);
  }

  lemma PollEnd(poll: I64, user: I64, option: I64)
    ensures Leads(ROUTES, VoterNode, [IdArg(poll), IdArg(user)], [Step(0, Text(VotesWord), []), IdStep(option)],
                  VoteNode, [IdArg(poll), IdArg(user), IdArg(option)])
  {
    hide Leads, Text, Print;
    WordThenId(VoterNode, 0, VotesWord, VotesNode, option, VoteNode,
               [IdArg(poll), IdArg(user)], [IdArg(poll), IdArg(user), IdArg(option)]);
  }

  lemma PollLeads(poll: I64, user: I64, option: I64)
    ensures OwnLeads(PollVote(poll, user, option))
  {
    hide Leads, Text, Print, PrintPage, KidsOf;
    var a := [Step(5, Text(PollsWord), []), IdStep(poll)];
    var b := [Step(0, Text(VotersWord), []), IdStep(user)];
    var c := [Step(0, Text(VotesWord), []), IdStep(option)];
    var one, two, three := [IdArg(poll)], [IdArg(poll), IdArg(user)], [IdArg(poll), IdArg(user), IdArg(option)];
    PollStart(poll);
    PollMiddle(poll, user);
    PollEnd(poll, user, option);
    LeadsOn(ROUTES, PollNode, one, b, VoterNode, two, c, VoteNode, three);
    LeadsOn(ROUTES, Root, [], a, PollNode, one, b + c, VoteNode, three);
    assert a + (b + c) == OwnSteps(PollVote(poll, user, option));
  }

  lemma TargetLeads(r: Ref)
    requires r.CollectionTargetItem? || r.CollectionTargetItemComment? || r.CollectionTargetItemLikes?
          || r.CollectionTargetItemLike? || r.CollectionTargetFollowers? || r.CollectionTargetFollow?
    ensures OwnLeads(r)
  {
    hide Leads, Text, Print, PrintPage, Children, Handle, Cut, Segments;
    match r {
      case CollectionTargetItem(t, i) => WordThenId(TargetNode, 0, ItemsWord, ItemsNode, i, ItemNode, [IdArg(t)], ArgsOf(r));
      case CollectionTargetItemComment(t, i, c) =>
        WordThenId(ItemNode, 0, CommentsWord, ItemCommentsNode, c, ItemCommentNode, [IdArg(t), IdArg(i)], ArgsOf(r));
      case CollectionTargetItemLikes(t, i) => OneWord(ItemNode, 1, LikesWord, ItemLikesNode, [IdArg(t), IdArg(i)]);
      case CollectionTargetItemLike(t, i, u) => OneId(ItemLikesNode, u, ItemLikeNode, [IdArg(t), IdArg(i)], ArgsOf(r));
      case CollectionTargetFollowers(t) => OneWord(TargetNode, 1, FollowersWord, TargetFollowersNode, [IdArg(t)]);
      case CollectionTargetFollow(t, f) => OneId(TargetFollowersNode, f, TargetFollowNode, [IdArg(t)], ArgsOf(r));
    }
  }

  lemma CommunityLeads(r: Ref)
    requires r.CommunityFeatured? || r.CommunityFollowers?
    ensures OwnLeads(r)
  {
    hide Leads, Text, Print, PrintPage, Children, Handle, Cut, Segments;
    match r {
      case CommunityFeatured(c) => OneWord(CommunityNode, 0, FeaturedWord, FeaturedNode, [IdArg(c)]);
      case CommunityFollowers(c) => OneWord(CommunityNode, 1, FollowersWord, CommunityFollowersNode, [IdArg(c)]);
    }
  }

  lemma CommunityBoxLeads(r: Ref)
    requires r.CommunityInbox? || r.CommunityOutbox?
    ensures OwnLeads(r)
  {
    hide Leads, Text, Print, PrintPage, Children, Handle, Cut, Segments;
    match r {
      case CommunityInbox(c) => OneWord(CommunityNode, 2, InboxWord, CommunityInboxNode, [IdArg(c)]);
      case CommunityOutbox(c) => OneWord(CommunityNode, 3, OutboxWord, CommunityOutboxNode, [IdArg(c)]);
    }
  }

  lemma UserLeads(r: Ref)
    requires r.UserFollowers? || r.UserFollowing?
    ensures OwnLeads(r)
  {
    hide Leads, Text, Print, PrintPage, Children, Handle, Cut, Segments;
    match r {
      case UserFollowers(u) => OneWord(UserNode, 0, FollowersWord, UserFollowersNode, [IdArg(u)]);
      case UserFollowing(u) => OneWord(UserNode, 1, FollowingWord, UserFollowingNode, [IdArg(u)]);
    }
  }

  lemma UserLikedLeads(u: I64)
    ensures OwnLeads(UserLiked(u))
  {
    hide Leads, Text, Print, PrintPage, Children, Handle, Cut, Segments;
    OneWord(UserNode, 2, LikedWord, UserLikedNode, [IdArg(u)]);
  }

  lemma UserOutboxLeads(u: I64)
    ensures OwnLeads(UserOutbox(u))
  {
    hide Leads, Text, Print, PrintPage, Children, Handle, Cut, Segments;
    OneWord(UserNode, 3, OutboxWord, UserOutboxNode, [IdArg(u)]);
  }

  lemma CommunityFollowLeads(r: Ref)
    requires r.CommunityFollow? || r.CommunityFollowJoin?
    ensures OwnLeads(r)
  {
    hide Leads, Text, Print, PrintPage, Children, Handle, Cut, Segments;
    match r {
      case CommunityFollow(c, f) => OneId(CommunityFollowersNode, f, CommunityFollowNode, [IdArg(c)], ArgsOf(r));
      case CommunityFollowJoin(c, f) =>
        OneWord(CommunityFollowNode, 0, JoinWord, CommunityJoinNode, [IdArg(c), IdArg(f)]);
    }
  }

  lemma UserFollowLeads(u: I64, f: I64)
    ensures OwnLeads(UserFollow(u, f))
  {
    hide Leads, Text, Print, PrintPage, Children, Handle, Cut, Segments;
    OneId(UserFollowersNode, f, UserFollowNode, [IdArg(u)], ArgsOf(UserFollow(u, f)));
  }

  lemma UserJoinLeads(u: I64, f: I64)
    ensures OwnLeads(UserFollowJoin(u, f))
  {
    hide Leads, Text, Print, PrintPage, Children, Handle, Cut, Segments;
    OneWord(UserFollowNode, 0, JoinWord, UserJoinNode, [IdArg(u), IdArg(f)]);
  }

  lemma CommunityPageLeads(c: I64, p: Page)
    ensures OwnLeads(CommunityOutboxPage(c, p))
  {
    hide Leads, Text, Print, PrintPage, Children, Handle, Cut, Segments;
    WordThenPage(CommunityOutboxNode, PageWord, CommunityPagesNode, p, CommunityPageNode, [IdArg(c)],
                 ArgsOf(CommunityOutboxPage(c, p)));
  }

  lemma UserPageLeads(u: I64, p: Page)
    ensures OwnLeads(UserOutboxPage(u, p))
  {
    hide Leads, Text, Print, PrintPage, Children, Handle, Cut, Segments;
    WordThenPage(UserOutboxNode, PageWord, UserPagesNode, p, UserPageNode, [IdArg(u)], ArgsOf(UserOutboxPage(u, p)));
  }

  lemma LikeLeads(r: Ref)
    requires r.CommentLikes? || r.CommentLike? || r.PostLikes? || r.PostLike?
    ensures OwnLeads(r)
  {
    hide Leads, Text, Print, PrintPage, Children, Handle, Cut, Segments;
    match r {
      case CommentLikes(c) => OneWord(CommentNode, 0, LikesWord, CommentLikesNode, [IdArg(c)]);
      case CommentLike(c, u) => OneId(CommentLikesNode, u, CommentLikeNode, [IdArg(c)], ArgsOf(r));
      case PostLikes(p) => OneWord(PostNode, 0, LikesWord, PostLikesNode, [IdArg(p)]);
      case PostLike(p, u) => OneId(PostLikesNode, u, PostLikeNode, [IdArg(p)], ArgsOf(r));
    }
  }

  /** From where its parent ends, the own segments of a reference lead to its node. */
  lemma EveryOwnLeads(r: Ref)
    ensures OwnLeads(r)
  {
    match r {
      case CommentLikes(_) | CommentLike(_, _) | PostLikes(_) | PostLike(_, _) => LikeLeads(r);
      case CommunityFeatured(_) | CommunityFollowers(_) => CommunityLeads(r);
      case CommunityInbox(_) | CommunityOutbox(_) => CommunityBoxLeads(r);
      case UserFollowers(_) | UserFollowing(_) => UserLeads(r);
      case UserLiked(u) => UserLikedLeads(u);
      case UserOutbox(u) => UserOutboxLeads(u);
      case CommunityFollow(_, _) | CommunityFollowJoin(_, _) => CommunityFollowLeads(r);
      case UserFollow(u, f) => UserFollowLeads(u, f);
      case UserFollowJoin(u, f) => UserJoinLeads(u, f);
      case CommunityOutboxPage(c, p) => CommunityPageLeads(c, p);
      case UserOutboxPage(u, p) => UserPageLeads(u, p);
      case CollectionTargetItem(_, _) | CollectionTargetItemComment(_, _, _) | CollectionTargetItemLikes(_, _)
         | CollectionTargetItemLike(_, _, _) | CollectionTargetFollowers(_)
         | CollectionTargetFollow(_, _) => TargetLeads(r);
      case PollVote(p, u, o) => PollLeads(p, u, o);
      case SharedInbox | PrivateMessage(_) => MessageRootLeads(r);
      case Post(_) | User(_) => PostRootLeads(r);
      case Comment(_) | CollectionTarget(_) | Community(_) => CommentRootLeads(r);
    }
  }

  lemma OwnSegmentsOfSteps(r: Ref)
    ensures SegmentsOf(OwnSteps(r)) == OwnSegments(r)
  {
    hide Print, PrintPage, CutPage, Text;
  }

  function Steps(r: Ref): seq<Step<Arg>>
    decreases Level(r)
  {
    match Parent(r)
    case None => OwnSteps(r)
    case Some(parent) => Steps(parent) + OwnSteps(r)
  }

  lemma LevelOfParent(r: Ref)
    ensures Parent(r).Some? ==> Level(Parent(r).value) < Level(r)
  {
  }

  lemma {:induction false} StepsLead(r: Ref)
    ensures Leads(ROUTES, Root, [], Steps(r), NodeOf(r), ArgsOf(r))
    ensures SegmentsOf(Steps(r)) == Segments(r)
    decreases Level(r)
  {
    hide Leads, OwnSteps, OwnSegments, NodeOf, ArgsOf, Level;
    LevelOfParent(r);
    EveryOwnLeads(r);
    OwnSegmentsOfSteps(r);
    if Parent(r).Some? {
      var p := Parent(r).value;
      StepsLead(p);
      LeadsOn(ROUTES, Root, [], Steps(p), NodeOf(p), ArgsOf(p), OwnSteps(r), NodeOf(r), ArgsOf(r));
      assert SegmentsOf(Steps(r)) == SegmentsOf(Steps(p)) + SegmentsOf(OwnSteps(r));
    }
  }

  /** The path of a printed reference is made of plain segments and routes back to the reference. */
  lemma RoutePrinted(r: Ref)
    ensures Segments(r) != []
    ensures forall i | 0 <= i < |Segments(r)| :: Plain(Segments(r)[i])
    ensures Route(ROUTES, Root, Join(Segments(r)), []) == Some(Cut(r))
  {
    hide Leads, Children, Handle, NodeOf, ArgsOf, OwnSegments, Text;
    StepsLead(r);
    LeadsPlain(ROUTES, Root, [], Steps(r), NodeOf(r), ArgsOf(r));
    Follow(ROUTES, Root, [], Steps(r), NodeOf(r), ArgsOf(r));
    HandlerOf(r);
    SomeSegment(r);
  }

  lemma SomeOwnSegment(r: Ref)
    ensures OwnSegments(r) != []
  {
    hide Text, Print, PrintPage;
  }

  lemma SomeSegment(r: Ref)
    ensures Segments(r) != []
  {
    hide OwnSegments;
    SomeOwnSegment(r);
  }
}
