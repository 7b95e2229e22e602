/** Rows of the post and post_like tables. */
module Posts {
  import opened Options

  datatype Post = Post(
    local: bool,
    deleted: bool,
    created: real,
    author: Option<nat>,
    community: Option<nat>,
    apId: Option<string>,
    cachedLikes: int,
    title: Option<string>,
    contentText: Option<string>,
    contentMarkdown: Option<string>,
    contentHtml: Option<string>)

  // A like is identified by its post and its person.
  datatype LikeKey = LikeKey(post: nat, person: nat)
  datatype Like = Like(local: bool, apId: Option<string>)

  type PostTable = map<nat, Post>
  type LikeTable = map<LikeKey, Like>

  /** The likes of a post by people other than the author. Without an author the comparison is never true. */
  function Counted(likes: LikeTable, post: nat, author: Option<nat>): set<LikeKey> {
    set k | k in likes && k.post == post && author.Some? && k.person != author.value
  }

  function CountLikes(likes: LikeTable, post: nat, author: Option<nat>): nat {
    |Counted(likes, post, author)|
  }
}
