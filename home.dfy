/** The home feed (frontend/src/pages/Home.jsx): the `setPosts` updaters
    that fold server answers and socket broadcasts into the list on screen,
    and the per-post tests the page renders with. Posts arrive as JSON, so
    ids are strings here. */
module Home {
  import opened Wrappers
  import opened AuthStorage
  import Strings
  import Membership

  /** `post.author` as the client receives it: `null` (what `populate`
      leaves for an author whose user document is gone; the schema makes
      the field required, so it is never missing), an id, or a populated
      user document whose `_id` may be missing. */
  datatype AuthorRef = NullAuthor | AuthorId(id: string) | AuthorDoc(docId: Option<string>)

  /** A post in the feed; `likes` is `None` when the field is missing. */
  datatype FeedPost = FeedPost(id: string, author: AuthorRef, content: Option<string>,
                               imageUrl: Option<string>, likes: Option<seq<string>>)

  function Ids(posts: seq<FeedPost>): (r: seq<string>)
    ensures |r| == |posts|
    ensures forall i :: 0 <= i < |posts| ==> r[i] == posts[i].id
  {
    seq(|posts|, i requires 0 <= i < |posts| => posts[i].id)
  }

  /** The `post:created` updater: a post already on screen (the author's
      own, added from the create response) is not shown twice; any other
      goes on top. */
  function OnPostCreated(prev: seq<FeedPost>, post: FeedPost): (r: seq<FeedPost>)
    ensures post.id in Ids(r)
    ensures forall p :: p in prev ==> p in r
    ensures |r| == if post.id in Ids(prev) then |prev| else |prev| + 1
    ensures post.id in Ids(prev) ==> r == prev
    ensures post.id !in Ids(prev) ==> r[0] == post && r[1..] == prev
  {
    if post.id in Ids(prev) then prev
    else
      assert Ids([post] + prev)[0] == post.id;
      [post] + prev
  }

  /** The `post:liked` updater, also applied to the post a like request
      returns: each post with the same id is replaced. */
  function ReplaceById(prev: seq<FeedPost>, updated: FeedPost): (r: seq<FeedPost>)
    ensures |r| == |prev|
    ensures forall i :: 0 <= i < |prev| ==> r[i].id == prev[i].id
    ensures forall i :: 0 <= i < |prev| && prev[i].id != updated.id ==> r[i] == prev[i]
    ensures forall i :: 0 <= i < |prev| && prev[i].id == updated.id ==> r[i] == updated
  {
    if |prev| == 0 then []
    else [if prev[0].id == updated.id then updated else prev[0]] + ReplaceById(prev[1..], updated)
  }

  /** The delete updater: `prev.filter((p) => p._id !== postId)`. */
  function RemoveById(prev: seq<FeedPost>, postId: string): (r: seq<FeedPost>)
    ensures postId !in Ids(r)
    ensures forall p :: p in r <==> p in prev && p.id != postId
    ensures |r| <= |prev|
  {
    if |prev| == 0 then []
    else
      var rest := RemoveById(prev[1..], postId);
      if prev[0].id == postId then rest else [prev[0]] + rest
  }

  /** `String(post.author)`: an object prints as `[object Object]` and a
      `null` author as `null`. */
  function AuthorText(a: AuthorRef): string {
    match a
    case NullAuthor => "null"
    case AuthorId(id) => id
    case AuthorDoc(_) => "[object Object]"
  }

  /** `String(user.id)`: `undefined` when the stored user has no `id`. */
  function UserIdText(user: StoredUser): (r: string)
    ensures user.id.Some? ==> r == user.id.value
    ensures user.id.None? ==> r == "undefined"
  {
    user.id.GetOr("undefined")
  }

  /** `isAuthor(post)`: compares the populated author's `_id` when there is
      one, otherwise the author field itself, with the signed-in user's id. */
  function IsAuthor(user: Option<StoredUser>, post: FeedPost): (r: bool)
    ensures user.None? ==> !r
    ensures user.Some? && post.author.AuthorId? ==> (r <==> post.author.id == UserIdText(user.value))
    ensures user.Some? && post.author.AuthorDoc? && Strings.Truthy(post.author.docId) ==>
              (r <==> post.author.docId.value == UserIdText(user.value))
    ensures user.Some? && !(post.author.AuthorDoc? && Strings.Truthy(post.author.docId)) ==>
              (r <==> AuthorText(post.author) == UserIdText(user.value))
  {
    if user.None? then false
    else if post.author.AuthorDoc? && Strings.Truthy(post.author.docId) then
      post.author.docId.value == UserIdText(user.value)
    else AuthorText(post.author) == UserIdText(user.value)
  }

  /** `hasLiked(post)`. An empty `likes` array is truthy in JavaScript, so
      only a missing field takes the early exit. */
  function HasLiked(user: Option<StoredUser>, post: FeedPost): (r: bool)
    ensures r <==> user.Some? && post.likes.Some? && UserIdText(user.value) in post.likes.value
  {
    if user.None? || post.likes.None? then false
    else AnyEquals(post.likes.value, UserIdText(user.value))
  }

  /** `likes.some((id) => String(id) === String(uid))`. */
  function AnyEquals(likes: seq<string>, uid: string): (r: bool)
    ensures r <==> uid in likes
  {
    if |likes| == 0 then false
    else likes[0] == uid || AnyEquals(likes[1..], uid)
  }

  /** `p.likes ? p.likes.length : 0`. */
  function LikesCount(post: FeedPost): (n: nat)
    ensures post.likes.None? ==> n == 0
    ensures post.likes.Some? ==> n == |post.likes.value|
  {
    if post.likes.Some? then |post.likes.value| else 0
  }

  /** The like button's text. */
  function LikesLabel(count: nat): (r: string)
    ensures count == 0 ==> r == "Like"
    ensures count == 1 ==> r == "1 like"
    ensures count > 1 ==> r == Strings.Decimal(count) + " likes"
  {
    if count == 0 then "Like"
    else Strings.Decimal(count) + " like" + (if count != 1 then "s" else "")
  }

  /** What `handleLike` does: the request it sends, if any, and the list
      afterwards. `response` is the post in the answer, or `None` when the
      request failed. */
  datatype LikeOutcome = LikeOutcome(request: Option<string>, posts: seq<FeedPost>)

  function HandleLike(user: Option<StoredUser>, postId: string, response: Option<FeedPost>,
                      posts: seq<FeedPost>): (out: LikeOutcome)
    ensures user.None? ==> out == LikeOutcome(None, posts)
    ensures user.Some? ==> out.request == Some("/posts/" + postId + "/like")
    ensures user.Some? && response.None? ==> out.posts == posts
    ensures user.Some? && response.Some? ==> out.posts == ReplaceById(posts, response.value)
  {
    if user.None? then LikeOutcome(None, posts)
    else
      var shown := if response.Some? then ReplaceById(posts, response.value) else posts;
      LikeOutcome(Some("/posts/" + postId + "/like"), shown)
  }

  /** `handleDelete`: the list loses the post only when the request
      succeeded. */
  function HandleDelete(postId: string, deleted: bool, posts: seq<FeedPost>): (r: seq<FeedPost>)
    ensures deleted ==> r == RemoveById(posts, postId)
    ensures !deleted ==> r == posts
  {
    if deleted then RemoveById(posts, postId) else posts
  }

  /** The list on screen never shows two posts with one id: each updater
      keeps ids unique. */
  lemma UpdatersKeepIdsUnique(prev: seq<FeedPost>, post: FeedPost, postId: string)
    requires Membership.NoDuplicates(Ids(prev))
    ensures Membership.NoDuplicates(Ids(OnPostCreated(prev, post)))
    ensures Membership.NoDuplicates(Ids(ReplaceById(prev, post)))
    ensures Membership.NoDuplicates(Ids(RemoveById(prev, postId)))
  {
    if post.id !in Ids(prev) {
      ConsKeepsIdsUnique(post, prev);
    }
    assert Ids(ReplaceById(prev, post)) == Ids(prev);
    RemoveKeepsIdsUnique(prev, postId);
  }

  lemma {:induction false} RemoveKeepsIdsUnique(prev: seq<FeedPost>, postId: string)
    requires Membership.NoDuplicates(Ids(prev))
    ensures Membership.NoDuplicates(Ids(RemoveById(prev, postId)))
    decreases |prev|
  {
    if |prev| > 0 {
      var tail := prev[1..];
      HeadIdFresh(prev);
      RemoveKeepsIdsUnique(tail, postId);
      var rest := RemoveById(tail, postId);
      if prev[0].id != postId {
        IdsOfSubset(rest, tail);
        ConsKeepsIdsUnique(prev[0], rest);
      }
    }
  }

  /** In a list without repeated ids, the first id is not among the rest. */
  lemma HeadIdFresh(posts: seq<FeedPost>)
    requires |posts| > 0 && Membership.NoDuplicates(Ids(posts))
    ensures posts[0].id !in Ids(posts[1..])
    ensures Membership.NoDuplicates(Ids(posts[1..]))
  {
    var ids, tail := Ids(posts), Ids(posts[1..]);
    forall k | 0 <= k < |tail|
      ensures tail[k] == ids[k + 1] && tail[k] != ids[0]
    {
      assert posts[1..][k] == posts[k + 1];
    }
  }

  /** A post whose id is new can go in front without repeating an id. */
  lemma ConsKeepsIdsUnique(head: FeedPost, posts: seq<FeedPost>)
    requires head.id !in Ids(posts) && Membership.NoDuplicates(Ids(posts))
    ensures Membership.NoDuplicates(Ids([head] + posts))
  {
    var ids := Ids([head] + posts);
    forall i, j | 0 <= i < j < |ids|
      ensures ids[i] != ids[j]
    {
      assert ids[j] == Ids(posts)[j - 1];
      if i > 0 {
        assert ids[i] == Ids(posts)[i - 1];
      }
    }
  }

  /** Fewer posts show fewer ids. */
  lemma IdsOfSubset(a: seq<FeedPost>, b: seq<FeedPost>)
    requires forall p :: p in a ==> p in b
    ensures forall x :: x in Ids(a) ==> x in Ids(b)
  {
    forall x | x in Ids(a)
      ensures x in Ids(b)
    {
      var i :| 0 <= i < |a| && Ids(a)[i] == x;
      assert a[i] in b;
      var k :| 0 <= k < |b| && b[k] == a[i];
      assert Ids(b)[k] == x;
    }
  }

  /** A broadcast that arrives twice changes the list once. */
  lemma CreatedTwiceIsCreatedOnce(prev: seq<FeedPost>, post: FeedPost)
    ensures OnPostCreated(OnPostCreated(prev, post), post) == OnPostCreated(prev, post)
  {
  }

  /** A like that reaches a freshly broadcast post replaces it in place, on
      top of the list. */
  lemma LikedAfterCreated(prev: seq<FeedPost>, post: FeedPost, liked: FeedPost)
    requires post.id !in Ids(prev) && liked.id == post.id
    ensures ReplaceById(OnPostCreated(prev, post), liked) == [liked] + prev
  {
    assert OnPostCreated(prev, post) == [post] + prev;
    ReplaceHead(post, prev, liked);
    ReplaceAbsent(prev, liked);
  }

  /** Replacing an id the list does not hold changes nothing. */
  lemma ReplaceAbsent(prev: seq<FeedPost>, updated: FeedPost)
    requires updated.id !in Ids(prev)
    ensures ReplaceById(prev, updated) == prev
  {
    var r := ReplaceById(prev, updated);
    forall i | 0 <= i < |prev|
      ensures r[i] == prev[i]
    {
      assert Ids(prev)[i] == prev[i].id;
    }
  }

  lemma ReplaceHead(head: FeedPost, rest: seq<FeedPost>, updated: FeedPost)
    requires head.id == updated.id
    ensures ReplaceById([head] + rest, updated) == [updated] + ReplaceById(rest, updated)
  {
    assert ([head] + rest)[1..] == rest;
  }

  /** Deleting keeps the order of the posts that stay: removing from a
      concatenation is the concatenation of the removals. */
  lemma {:induction false} RemoveKeepsOrder(a: seq<FeedPost>, b: seq<FeedPost>, postId: string)
    ensures RemoveById(a + b, postId) == RemoveById(a, postId) + RemoveById(b, postId)
    decreases |a|
  {
    if |a| == 0 {
      assert a + b == b;
    } else {
      assert (a + b)[1..] == a[1..] + b;
      RemoveKeepsOrder(a[1..], b, postId);
    }
  }

  /** Deleting a post that was just broadcast leaves the list as if it had
      never arrived. */
  lemma RemoveUndoesCreate(prev: seq<FeedPost>, post: FeedPost)
    requires post.id !in Ids(prev)
    ensures RemoveById(OnPostCreated(prev, post), post.id) == RemoveById(prev, post.id)
  {
    assert ([post] + prev)[1..] == prev;
  }

  /** The label names the count exactly: two different counts never share
      a label. */
  lemma LabelShowsCount(n: nat, m: nat)
    requires LikesLabel(n) == LikesLabel(m)
    ensures n == m
  {
    if n > 1 && m > 1 {
      assert LikesLabel(n)[..|LikesLabel(n)| - 6] == Strings.Decimal(n);
      assert LikesLabel(m)[..|LikesLabel(m)| - 6] == Strings.Decimal(m);
      Strings.DecimalInjective(n, m);
    }
  }
}
