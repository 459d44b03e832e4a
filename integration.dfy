/** How the pieces meet: what the client sends reaches the middleware as
    intended, the error a route forwards is what the client sees, and the
    client's view of a post agrees with the server's rules. On the wire an
    id is its decimal text. */
module Integration {
  import opened Wrappers
  import opened Models
  import opened Http
  import Strings
  import Membership
  import AuthMiddleware
  import AuthRoutes
  import ErrorHandler
  import Uploads
  import PostRoutes
  import AuthStorage
  import ApiClient
  import Home

  /** An id as the client receives it. */
  function IdText(id: Id): string {
    Strings.Decimal(id)
  }

  function ClientLikes(likes: seq<Id>): (r: seq<string>)
    ensures |r| == |likes|
    ensures forall i :: 0 <= i < |likes| ==> r[i] == IdText(likes[i])
  {
    seq(|likes|, i requires 0 <= i < |likes| => IdText(likes[i]))
  }

  /** A stored post as the JSON the client reads. Every answer and broadcast
      of the post routes populates the author (`populate("author", ...)`,
      whose document keeps its `_id`); the store keeps the bare id, which is
      what the client sees when nothing is populated. The lemmas below hold
      for both forms. */
  function ClientPost(p: Post, populated: bool): Home.FeedPost {
    var author := if populated then Home.AuthorDoc(Some(IdText(p.author))) else Home.AuthorId(IdText(p.author));
    Home.FeedPost(IdText(p.id), author, p.content, Some(p.imageUrl), Some(ClientLikes(p.likes)))
  }

  /** Two ids look the same on the client only when they are the same. */
  lemma IdTextInList(likes: seq<Id>, actor: Id)
    ensures IdText(actor) in ClientLikes(likes) <==> actor in likes
  {
    var r := ClientLikes(likes);
    if IdText(actor) in r {
      var i :| 0 <= i < |r| && r[i] == IdText(actor);
      Strings.DecimalInjective(likes[i], actor);
    }
  }

  /** A token the client stores goes out as `Bearer <token>` and lets the
      request through as the user it was signed for, on every request and
      on uploads alike. */
  lemma StoredTokenAuthenticates(token: string, id: Id, verify: string -> Option<Id>)
    requires token != "" && ' ' !in token
    requires verify(token) == Some(id)
    ensures AuthMiddleware.Authenticate(Some(ApiClient.BearerHeader(token)), verify) == AuthMiddleware.Authenticated(id)
    ensures var h := ApiClient.UploadHeaders(Some(token));
      "Authorization" in h && AuthMiddleware.Authenticate(Some(h["Authorization"]), verify) == AuthMiddleware.Authenticated(id)
  {
    AuthMiddleware.SignedTokenAuthenticates(token, id, verify);
  }

  /** Without a stored token no header is sent, and a guarded route answers
      401 "Authorization token missing". */
  lemma NoTokenIsRejected(verify: string -> Option<Id>)
    ensures "Authorization" !in ApiClient.UploadHeaders(None)
    ensures AuthMiddleware.Authenticate(None, verify) == AuthMiddleware.Rejected(401, "Authorization token missing")
  {
    var out := AuthMiddleware.Authenticate(None, verify);
    assert !Strings.StartsWith("", AuthMiddleware.BearerPrefix);
  }

  /** Saving a profile while `cc_token` is missing stores the text `null`
      as the token; it is truthy, so later requests carry `Bearer null` and
      are refused as invalid rather than as missing. */
  lemma NullTokenIsInvalid(verify: string -> Option<Id>)
    requires verify("null").None?
    ensures AuthStorage.TokenText(None) == "null"
    ensures AuthMiddleware.Authenticate(Some(ApiClient.BearerHeader(AuthStorage.TokenText(None))), verify)
            == AuthMiddleware.Rejected(401, "Token invalid or expired")
  {
    AuthMiddleware.BearerRoundTrip("null");
  }

  /** A file of the wrong type reaches the client as a 400 with the
      filter's message, in every environment. */
  lemma WrongTypeIs400(file: Uploads.IncomingFile, now: nat, random: nat, isProduction: bool)
    requires !Uploads.FileFilter(file.mimeType)
    ensures var r := Uploads.Receive(Some(file), now, random);
      && r.Refused?
      && ErrorHandler.Handle(r.error, false, isProduction).status == 400
      && ErrorHandler.Handle(r.error, false, isProduction).body.message == Uploads.FilterMessage
  {
    ErrorHandler.CreatedErrorReachesClient(400, Uploads.FilterMessage, isProduction);
  }

  /** An image over the size limit is refused with multer's own error,
      which carries no status: the client sees a 500, and in production
      only "Internal server error". */
  lemma OversizedImageIs500(file: Uploads.IncomingFile, now: nat, random: nat, isProduction: bool)
    requires Uploads.FileFilter(file.mimeType) && file.size > Uploads.MaxFileSize
    ensures var r := Uploads.Receive(Some(file), now, random);
      && r.Refused?
      && ErrorHandler.Handle(r.error, false, isProduction).status == 500
      && (isProduction ==> ErrorHandler.Handle(r.error, false, isProduction).body.message == "Internal server error")
  {
  }

  /** After a like request, the heart the client draws for the actor shows
      exactly what the server answered in `liked`. */
  lemma HeartMatchesLiked(post: Post, actor: Id, user: AuthStorage.StoredUser, populated: bool)
    requires Membership.NoDuplicates(post.likes)
    requires user.id == Some(IdText(actor))
    ensures var t := Membership.Toggle(post.likes, actor);
      Home.HasLiked(Some(user), ClientPost(post.(likes := t.list), populated)) <==> t.added
    ensures var t := Membership.Toggle(post.likes, actor);
      Home.LikesCount(ClientPost(post.(likes := t.list), populated)) == |t.list|
  {
    var t := Membership.Toggle(post.likes, actor);
    PostRoutes.LikeToggleMeaning(post.likes, actor);
    IdTextInList(t.list, actor);
  }

  /** The client offers edit and delete on a post exactly when the server
      would let the signed-in user make them. */
  lemma AuthorControlsMatchServer(posts: map<Id, Post>, postId: Id, actor: Id,
                                  user: AuthStorage.StoredUser, populated: bool)
    requires postId in posts
    requires user.id == Some(IdText(actor))
    ensures Home.IsAuthor(Some(user), ClientPost(posts[postId], populated))
            <==> PostRoutes.OwnershipCheck(posts, postId, actor).None?
  {
    var author := posts[postId].author;
    if IdText(author) == IdText(actor) {
      Strings.DecimalInjective(author, actor);
    }
  }

  /** No id prints as `undefined`. */
  lemma IdTextIsNotUndefined(id: Id)
    ensures IdText(id) != "undefined"
  {
    assert "undefined"[0] == 'u';
  }

  /** A post whose author document is gone reaches the client with a `null`
      author, which prints as `null`: neither a signed-in user nor one
      saved without an `id` (whose id prints as `undefined`) is offered
      its controls. */
  lemma NullAuthorOwnedByNone(actor: Id, user: AuthStorage.StoredUser, post: Home.FeedPost)
    requires user.id.None? || user.id == Some(IdText(actor))
    requires post.author.NullAuthor?
    ensures !Home.IsAuthor(Some(user), post)
  {
    assert "null"[0] == 'n';
  }

  /** After a profile save the session user is the `PUT /users/me` answer,
      which has no `id`, and `String(user.id)` is `undefined`: the client
      then offers edit and delete on no post, not even one the server lets
      the user change, and draws every heart empty, until the next sign-in. */
  lemma ProfileSaveHidesControls(posts: map<Id, Post>, postId: Id,
                                 user: AuthStorage.StoredUser, populated: bool)
    requires postId in posts
    requires user.id.None?
    ensures PostRoutes.OwnershipCheck(posts, postId, posts[postId].author).None?
    ensures !Home.IsAuthor(Some(user), ClientPost(posts[postId], populated))
    ensures !Home.HasLiked(Some(user), ClientPost(posts[postId], populated))
  {
    var post := posts[postId];
    IdTextIsNotUndefined(post.author);
    forall i | 0 <= i < |post.likes|
      ensures ClientLikes(post.likes)[i] != "undefined"
    {
      IdTextIsNotUndefined(post.likes[i]);
    }
  }

  /** Registering and then logging in with the same email and password
      signs the user in as the account just made, with the same kind of
      token, when `matches` accepts a password against its own hash. */
  method RegisterThenLogin(db: Database, name: string, email: string, password: string,
                           hash: string -> string, matches: (string, string) -> bool,
                           sign: (Id, string) -> string, lifetime: Option<string>)
    returns (registered: Reply<AuthRoutes.Session>, loggedIn: Reply<AuthRoutes.Session>)
    requires db.Valid() && AuthRoutes.UniqueEmails(db.users)
    requires forall p :: matches(p, hash(p))
    requires name != "" && email != "" && password != ""
    requires AuthRoutes.Normalize(name) != "" && AuthRoutes.Normalize(email) != ""
    requires !AuthRoutes.EmailTaken(db.users, AuthRoutes.Normalize(email))
    modifies db`users, db`nextId
    ensures registered.Respond? && registered.status == 201
    ensures loggedIn.Respond? && loggedIn.status == 200
    ensures loggedIn.body == registered.body
  {
    registered := AuthRoutes.Register(db, Some(name), Some(email), Some(password), None, None,
                                      hash(password), sign, lifetime);
    var id := registered.body.user.id;
    assert matches(password, hash(password));
    loggedIn := AuthRoutes.Login(db, Some(email), Some(password), matches, sign, lifetime);
    assert db.users[id].email == AuthRoutes.Normalize(email);
  }

  /** A like followed by an unlike from the same user leaves the stored post
      as it was. */
  method LikeThenUnlike(db: Database, actor: Id, postId: Id)
    returns (first: Reply<PostRoutes.LikeBody>, second: Reply<PostRoutes.LikeBody>)
    requires db.Valid() && postId in db.posts && actor !in db.posts[postId].likes
    modifies db`posts
    ensures first.Respond? && first.body.liked
    ensures second.Respond? && !second.body.liked
    ensures db.posts == old(db.posts)
  {
    var before := db.posts[postId];
    Membership.ToggleTwiceFromAbsent(before.likes, actor);
    first := PostRoutes.LikePost(db, null, null, actor, postId, false);
    second := PostRoutes.LikePost(db, null, null, actor, postId, false);
    assert db.posts[postId] == before;
  }
}
