/** The post routes (backend/routes/posts.js). Each handler takes the store,
    the cache (`null` when the server runs without Redis), the Socket.IO
    server (`null` when absent), the authenticated user's id, the request's
    fields, and the outcome of each cache command. Writes delete the cached
    feed; the deletion is not awaited and its failure is only logged. */
module PostRoutes {
  import opened Wrappers
  import opened Models
  import opened Http
  import opened CacheLayer
  import opened FanOut
  import opened Feeds
  import Membership
  import Query
  import Strings

  /** The body of a like/unlike response. */
  datatype LikeBody = LikeBody(post: Post, liked: bool)

  /** A `{ message }` body. */
  datatype Message = Message(message: string)

  /** The schema's `trim: true` on `content`, applied when the field is set. */
  function TrimContent(content: Option<string>): (r: Option<string>)
    ensures r.Some? <==> content.Some?
    ensures r.Some? ==> Strings.IsTrimmed(r.value) && forall ch :: ch in r.value ==> ch in content.value
  {
    if content.Some? then Some(Strings.Trim(content.value)) else None
  }

  /** `redis.del(POSTS_CACHE_KEY)` when a cache is configured. */
  method InvalidateFeed(redis: Cache?, delFails: bool)
    modifies redis
    ensures redis != null ==> redis.entries == AfterDel(old(redis.entries), PostsCacheKey, delFails)
  {
    if redis != null {
      redis.Del(PostsCacheKey, delFails);
    }
  }

  /** POST /api/posts. No validation: a missing content is stored as missing. */
  method CreatePost(db: Database, redis: Cache?, io: Broadcaster?, actor: Id,
                    content: Option<string>, imageUrl: Option<string>, now: Timestamp, delFails: bool)
    returns (reply: Reply<Post>)
    requires db.Valid()
    modifies db`posts, db`nextId, redis, io
    ensures db.Valid()
    ensures reply.Respond? && reply.status == 201
    ensures reply.body == Post(old(db.nextId), actor, TrimContent(content), imageUrl.GetOr(""), [], [], now)
    ensures reply.body.id !in old(db.posts)
    ensures db.posts == old(db.posts)[reply.body.id := reply.body]
    ensures io != null ==> io.sent == old(io.sent) + [PostCreated(reply.body)]
    ensures redis != null ==> redis.entries == AfterDel(old(redis.entries), PostsCacheKey, delFails)
    ensures redis != null && !delFails ==> PostsCacheCoherent(db.posts, redis.entries)
  {
    var id := db.NewId();
    var post := Post(id, actor, TrimContent(content), imageUrl.GetOr(""), [], [], now);
    db.PutPost(post);
    if io != null {
      io.Emit(PostCreated(post));
    }
    InvalidateFeed(redis, delFails);
    reply := Respond(201, post);
  }

  /** GET /api/posts: the cached list when there is one, otherwise the fifty
      newest posts, which are then cached for a minute. A cache error on
      either command falls through to the store. */
  method GetFeed(db: Database, redis: Cache?, getFails: bool, setFails: bool)
    returns (reply: Reply<Payload>, fromStore: bool)
    requires db.Valid()
    modifies redis
    ensures reply.Respond? && reply.status == 200
    ensures fromStore <==> redis == null || getFails || PostsCacheKey !in old(redis.entries)
    ensures !fromStore ==> reply.body == old(redis.entries)[PostsCacheKey].payload
                           && redis.entries == old(redis.entries)
    ensures fromStore ==> reply.body.PostList? && IsLatestPosts(db.posts, reply.body.posts)
    ensures fromStore && redis != null ==>
      redis.entries == if setFails then old(redis.entries)
                       else old(redis.entries)[PostsCacheKey := Entry(reply.body, PostsCacheTtl)]
    // The cache is transparent: while it is coherent the client cannot tell
    // a cached answer from a fresh one, and the cache stays coherent.
    ensures redis == null || PostsCacheCoherent(db.posts, old(redis.entries)) ==>
      reply.body.PostList? && IsLatestPosts(db.posts, reply.body.posts)
    ensures redis != null && PostsCacheCoherent(db.posts, old(redis.entries)) ==>
      PostsCacheCoherent(db.posts, redis.entries)
  {
    if redis != null {
      var cached := redis.Get(PostsCacheKey, getFails);
      if cached.Hit? {
        return Respond(200, cached.payload), false;
      }
    }
    var posts := Query.TopK(db.posts, PostId, Recency, FeedLimit);
    var body := PostList(posts);
    if redis != null {
      redis.SetEx(PostsCacheKey, PostsCacheTtl, body, setFails);
    }
    return Respond(200, body), true;
  }

  /** POST /api/posts/:id/like: likes the post when the actor has not liked
      it yet, otherwise removes the actor's like. */
  method LikePost(db: Database, redis: Cache?, io: Broadcaster?, actor: Id, postId: Id, delFails: bool)
    returns (reply: Reply<LikeBody>)
    requires db.Valid()
    modifies db`posts, redis, io
    ensures db.Valid()
    ensures postId !in old(db.posts) ==>
      && reply == Next(CreateError(404, "Post not found"))
      && db.posts == old(db.posts)
      && (redis != null ==> redis.entries == old(redis.entries))
      && (io != null ==> io.sent == old(io.sent))
    ensures postId in old(db.posts) ==>
      var before := old(db.posts)[postId];
      var t := Membership.Toggle(before.likes, actor);
      && reply == Respond(200, LikeBody(before.(likes := t.list), t.added))
      && db.posts == old(db.posts)[postId := before.(likes := t.list)]
      && (io != null ==> io.sent == old(io.sent) + [PostLiked(before.(likes := t.list))])
      && (redis != null ==> redis.entries == AfterDel(old(redis.entries), PostsCacheKey, delFails))
  {
    if postId !in db.posts {
      return Next(CreateError(404, "Post not found"));
    }
    var post := db.posts[postId];
    var t := Membership.Toggle(post.likes, actor);
    var updated := post.(likes := t.list);
    db.PutPost(updated);
    if io != null {
      io.Emit(PostLiked(updated));
    }
    InvalidateFeed(redis, delFails);
    reply := Respond(200, LikeBody(updated, t.added));
  }

  /** What a like toggle means for the stored list: `liked` tells whether
      the actor's like is now counted, and the count moves by exactly one. */
  lemma LikeToggleMeaning(likes: seq<Id>, actor: Id)
    ensures var t := Membership.Toggle(likes, actor);
      && (t.added <==> actor !in likes)
      && |t.list| == (if t.added then |likes| + 1 else |likes| - 1)
      && (Membership.NoDuplicates(likes) ==> Membership.NoDuplicates(t.list) && (actor in t.list <==> t.added))
  {
    Membership.ToggleSpec(likes, actor);
    if Membership.NoDuplicates(likes) {
      Membership.ToggleKeepsNoDuplicates(likes, actor);
      Membership.ToggleMembership(likes, actor);
    }
  }

  /** POST /api/posts/:id/comment. The content is checked before the post
      is looked up. */
  method CommentPost(db: Database, redis: Cache?, actor: Id, postId: Id,
                     content: Option<string>, now: Timestamp, delFails: bool)
    returns (reply: Reply<Post>)
    requires db.Valid()
    modifies db`posts, redis
    ensures db.Valid()
    ensures !Strings.Truthy(content) ==>
      && reply == Next(CreateError(400, "Comment content required"))
      && db.posts == old(db.posts)
      && (redis != null ==> redis.entries == old(redis.entries))
    ensures Strings.Truthy(content) && postId !in old(db.posts) ==>
      && reply == Next(CreateError(404, "Post not found"))
      && db.posts == old(db.posts)
      && (redis != null ==> redis.entries == old(redis.entries))
    ensures Strings.Truthy(content) && postId in old(db.posts) ==>
      var before := old(db.posts)[postId];
      var after := before.(comments := before.comments + [Comment(actor, content.value, now)]);
      && reply == Respond(200, after)
      && db.posts == old(db.posts)[postId := after]
      && (redis != null ==> redis.entries == AfterDel(old(redis.entries), PostsCacheKey, delFails))
  {
    if !Strings.Truthy(content) {
      return Next(CreateError(400, "Comment content required"));
    }
    if postId !in db.posts {
      return Next(CreateError(404, "Post not found"));
    }
    var post := db.posts[postId];
    var updated := post.(comments := post.comments + [Comment(actor, content.value, now)]);
    db.PutPost(updated);
    InvalidateFeed(redis, delFails);
    reply := Respond(200, updated);
  }

  /** GET /api/posts/:id, the one post route that needs no token. */
  function GetPost(posts: map<Id, Post>, postId: Id): (reply: Reply<Post>)
    ensures reply.Respond? <==> postId in posts
    ensures reply.Respond? ==> reply == Respond(200, posts[postId])
    ensures reply.Next? ==> reply.error == CreateError(404, "Post not found")
  {
    if postId in posts then Respond(200, posts[postId]) else Next(CreateError(404, "Post not found"))
  }

  /** The outcome of the existence and ownership checks that guard delete
      and update: 404 before 403. */
  function OwnershipCheck(posts: map<Id, Post>, postId: Id, actor: Id): (r: Option<Error>)
    ensures r == None <==> postId in posts && posts[postId].author == actor
    ensures postId !in posts ==> r == Some(CreateError(404, "Post not found"))
    ensures postId in posts && posts[postId].author != actor ==> r == Some(CreateError(403, "Not allowed"))
  {
    if postId !in posts then Some(CreateError(404, "Post not found"))
    else if posts[postId].author != actor then Some(CreateError(403, "Not allowed"))
    else None
  }

  /** DELETE /api/posts/:id: only the author may delete. */
  method DeletePost(db: Database, redis: Cache?, actor: Id, postId: Id, delFails: bool)
    returns (reply: Reply<Message>)
    requires db.Valid()
    modifies db`posts, redis
    ensures db.Valid()
    ensures OwnershipCheck(old(db.posts), postId, actor).Some? ==>
      && reply == Next(OwnershipCheck(old(db.posts), postId, actor).value)
      && db.posts == old(db.posts)
      && (redis != null ==> redis.entries == old(redis.entries))
    ensures OwnershipCheck(old(db.posts), postId, actor).None? ==>
      && reply == Respond(200, Message("Post deleted"))
      && db.posts == old(db.posts) - {postId}
      && (redis != null ==> redis.entries == AfterDel(old(redis.entries), PostsCacheKey, delFails))
  {
    var check := OwnershipCheck(db.posts, postId, actor);
    if check.Some? {
      return Next(check.value);
    }
    db.posts := db.posts - {postId};
    InvalidateFeed(redis, delFails);
    reply := Respond(200, Message("Post deleted"));
  }

  /** The fields of a post after an update: each field given in the body
      replaces the stored one (`content` is trimmed); missing fields keep
      their value. */
  function Updated(post: Post, content: Option<string>, imageUrl: Option<string>): (r: Post)
    ensures r.id == post.id && r.author == post.author && r.likes == post.likes
    ensures r.comments == post.comments && r.createdAt == post.createdAt
    ensures r.content == if content.Some? then TrimContent(content) else post.content
    ensures r.imageUrl == imageUrl.GetOr(post.imageUrl)
  {
    post.(content := if content.Some? then TrimContent(content) else post.content,
          imageUrl := imageUrl.GetOr(post.imageUrl))
  }

  /** PUT /api/posts/:id: only the author may update. */
  method UpdatePost(db: Database, redis: Cache?, actor: Id, postId: Id,
                    content: Option<string>, imageUrl: Option<string>, delFails: bool)
    returns (reply: Reply<Post>)
    requires db.Valid()
    modifies db`posts, redis
    ensures db.Valid()
    ensures OwnershipCheck(old(db.posts), postId, actor).Some? ==>
      && reply == Next(OwnershipCheck(old(db.posts), postId, actor).value)
      && db.posts == old(db.posts)
      && (redis != null ==> redis.entries == old(redis.entries))
    ensures OwnershipCheck(old(db.posts), postId, actor).None? ==>
      var after := Updated(old(db.posts)[postId], content, imageUrl);
      && reply == Respond(200, after)
      && db.posts == old(db.posts)[postId := after]
      && (redis != null ==> redis.entries == AfterDel(old(redis.entries), PostsCacheKey, delFails))
  {
    var check := OwnershipCheck(db.posts, postId, actor);
    if check.Some? {
      return Next(check.value);
    }
    var after := Updated(db.posts[postId], content, imageUrl);
    db.PutPost(after);
    InvalidateFeed(redis, delFails);
    reply := Respond(200, after);
  }

  /** Updating with an empty body changes nothing. */
  lemma EmptyUpdateIsIdentity(post: Post)
    ensures Updated(post, None, None) == post
  {
  }

  /** A write that reaches the store and whose cache deletion succeeds
      leaves no stale feed behind, whatever the cache held before. */
  lemma DeletionRestoresCoherence(posts: map<Id, Post>, entries: map<string, Entry>)
    ensures PostsCacheCoherent(posts, AfterDel(entries, PostsCacheKey, false))
  {
  }
}
