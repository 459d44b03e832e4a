# CampusConnect core, modelled in Dafny

CampusConnect is a campus social network: an Express/MongoDB backend with an
optional Redis cache and Socket.IO broadcasts, and a React client. This
project models the parts of it that carry rules:

- the participant-list toggles behind post likes, event attendance and club
  membership, including the two-sided club/user membership record;
- the cache-aside feeds (latest posts, events list) and the cache
  invalidation every write performs, with Redis commands that may fail;
- request validation and error mapping:
  - registration and login;
  - the bearer-token middleware;
  - the central error handler;
  - the upload filter, the stored file name and the public URL;
- on the client:
  - the feed updaters on the home page;
  - the profile editor's skills field and submit sequence;
  - the base-URL derivation and Authorization header in the request helpers;
  - the `localStorage` session helpers.

Each source file has its own module. Two modules are shared: `Strings` holds the JavaScript
string operations the code relies on (`split`, `trim`, `startsWith`,
`indexOf`, `join`, number printing, `path.extname`'s parts), and `Membership`
holds `indexOf`/`push`/`splice` and MongoDB's `$addToSet`/`$pull`. State the
backend changes in place is kept in classes:

- `Models.Database` holds one map per collection and the id counter;
- `CacheLayer.Cache` holds the Redis entries with their time-to-live;
- `FanOut.Broadcaster` holds the broadcasts sent;
- `AuthStorage.LocalStorage` is the browser's storage;
- `ApiClient.RequestConfig` holds an outgoing request's headers.

The route handlers are methods over these classes, and a `null` cache or
broadcaster stands for one that is not configured. Each handler takes the
actor id the middleware established as a parameter. Cache command failures are boolean parameters,
so every contract holds whether a command succeeds or fails. Password hashing, token signing and verification,
JSON serialisation, `Date.now()` and `Math.random()` enter as parameters.

On the client, ids are strings. `Integration` connects the two sides: an id
travels as its decimal text, and `Strings.DecimalInjective` makes that
rendering faithful.

## Model

| member | source | states |
|---|---|---|
| Membership.IndexOf | backend/routes/posts.js:105 | `indexOf`: -1 exactly when absent, otherwise the first position holding the element |
| Membership.Toggle | backend/routes/posts.js:105-115 | `added` iff the actor was absent, and then the actor is appended at the end; the length grows by one when added and shrinks by one otherwise (the same toggle as backend/routes/events.js:111-127 and backend/routes/clubs.js:64-73) |
| Membership.ToggleSpec | backend/routes/posts.js:105-115 | when the actor was present, exactly its first occurrence is removed |
| Membership.ToggleKeepsOthers | backend/routes/events.js:111-127 | no participant other than the actor is added or removed |
| Membership.ToggleMembership | backend/routes/clubs.js:64-73 | on a duplicate-free list the actor is present afterwards iff the toggle added it |
| Membership.ToggleKeepsNoDuplicates | backend/routes/posts.js:105-115 | a duplicate-free list stays duplicate-free |
| Membership.ToggleTwiceFromAbsent | backend/routes/posts.js:105-115 | from the absent state two toggles restore the exact list |
| Membership.ToggleTwiceFromPresent | backend/routes/posts.js:105-115 | from the present state two toggles restore the same elements (same multiset and set), the actor moving to the end |
| Membership.AddToSet | backend/routes/clubs.js:36-38 | `$addToSet` leaves the element present, adds nothing else and keeps a list duplicate-free |
| Membership.Pull | backend/routes/clubs.js:74-76 | `$pull` removes every occurrence and nothing else |
| Models.Database.NewId | backend/routes/posts.js:29-30 | a new document gets an id used by no collection |
| Models.Database.PutUser | backend/routes/auth.js:42 | `save()` stores the document under its id and changes nothing else |
| Models.Database.PutPost | backend/routes/posts.js:117 | as above, for posts |
| Models.Database.PutClub | backend/routes/clubs.js:79 | as above, for clubs |
| Models.Database.PutEvent | backend/routes/events.js:47 | as above, for events |
| CacheLayer.AfterDel | backend/routes/posts.js:43-47 | a `del` that succeeds removes exactly the key; one that fails changes nothing |
| CacheLayer.Tick | backend/routes/posts.js:81-85 | a second passing shortens every time-to-live by one and drops the entries that reach zero |
| CacheLayer.ExpiresAfterTtl | backend/routes/posts.js:81-85 | an entry set for `t` seconds is there, unchanged, for `n < t` seconds and gone from `n = t` on |
| CacheLayer.Cache.Get | backend/routes/posts.js:60-71 | `get` gives the stored value, `null` when absent, or an error when the command fails |
| CacheLayer.Cache.SetEx | backend/routes/posts.js:79-89 | `setEx` stores the value with its lifetime unless it fails |
| CacheLayer.Cache.Del | backend/routes/posts.js:43-47 | the entries become `AfterDel` of the old ones |
| CacheLayer.Cache.Advance | backend/routes/posts.js:81-85 | one tick of expiry |
| FanOut.Broadcaster.Emit | backend/routes/posts.js:36-39 | `io.emit` appends exactly one broadcast |
| Query.Best | backend/routes/posts.js:73-76 | a key of the remaining documents that no other remaining document outranks |
| Query.TopK | backend/routes/posts.js:73-76 | `find().sort().limit(k)`: `min(k, n)` distinct stored documents in non-increasing rank, and no document left out ranks above one returned |
| Query.AppendKeepsOrder | backend/routes/posts.js:73-76 | a document ranked no higher than any listed one may follow them |
| Query.AppendKeepsBound | backend/routes/posts.js:73-76 | after the best remaining document is listed, no remaining one outranks a listed one |
| Query.TopRankedComesFirst | backend/routes/posts.js:73-76 | the document that outranks all others is first in every correct answer |
| Feeds.NewestPostHeadsFeed | backend/routes/posts.js:73-76 | the post created after every other heads any correct feed |
| Feeds.EarliestEventHeadsList | backend/routes/events.js:81-83 | the event starting before every other heads any correct events list |
| Feeds.CoherentAfterExpiry | backend/routes/posts.js:16-17 | once the 60-second entry has expired, the cache can no longer serve a stale feed |
| PostRoutes.TrimContent | backend/models/Post.js:21 | the stored content is present iff given, trimmed, and made of the given characters |
| PostRoutes.InvalidateFeed | backend/routes/posts.js:42-47 | with a cache configured, `del("posts:latest")` is issued |
| PostRoutes.CreatePost | backend/routes/posts.js:20-53 | 201 with a new post whose author is the actor, content trimmed, image defaulting to `""`, no likes or comments; stored under a fresh id; broadcast as `post:created`; feed key deleted, which leaves the cache coherent |
| PostRoutes.GetFeed | backend/routes/posts.js:56-95 | a hit returns the cached list untouched; a miss or a failed `get` returns the 50 newest posts and attempts `setEx("posts:latest", 60)`, whose failure changes nothing in the answer; a coherent cache makes the answer a correct feed and stays coherent |
| PostRoutes.LikePost | backend/routes/posts.js:98-144 | unknown post: 404, nothing written, invalidated or broadcast; otherwise the toggled post is stored, broadcast as `post:liked`, returned with `liked`, and the feed key deleted |
| PostRoutes.LikeToggleMeaning | backend/routes/posts.js:105-115 | `liked` iff the actor had not liked the post; the count moves by one; on a duplicate-free list the actor's like is now counted iff `liked` |
| PostRoutes.CommentPost | backend/routes/posts.js:147-175 | missing or empty content: 400 before any lookup; unknown post: 404; otherwise exactly one comment by the actor is appended at the end and the feed key deleted |
| PostRoutes.GetPost | backend/routes/posts.js:178-189 | the stored post with 200, or 404 "Post not found" |
| PostRoutes.OwnershipCheck | backend/routes/posts.js:194-202 | an unknown post gives 404 before a non-author gives 403 "Not allowed"; no error iff the actor is the author |
| PostRoutes.DeletePost | backend/routes/posts.js:192-218 | on 404/403 nothing changes and nothing is invalidated; otherwise exactly that post is removed, `{ message: "Post deleted" }` returned and the feed key deleted |
| PostRoutes.Updated | backend/routes/posts.js:234-235 | `content` and `imageUrl` are overwritten only when given; every other field is kept |
| PostRoutes.UpdatePost | backend/routes/posts.js:221-252 | on 404/403 the post is unchanged; otherwise the updated post is stored and returned and the feed key deleted |
| PostRoutes.EmptyUpdateIsIdentity | backend/routes/posts.js:234-235 | an update with neither field leaves the post as it was |
| PostRoutes.DeletionRestoresCoherence | backend/routes/posts.js:206-212 | a successful `del` leaves the cache coherent with any store |
| EventRoutes.InvalidateEvents | backend/routes/events.js:50-55 | with a cache configured, `del("events:upcoming")` is issued |
| EventRoutes.CreateEvent | backend/routes/events.js:19-61 | missing or empty title, or a falsy start date (absent, `null`, `false`, `0`, `""`): 400, nothing saved or invalidated; otherwise 201 with `createdBy` the actor, stored under a fresh id, events key deleted |
| EventRoutes.GetEvents | backend/routes/events.js:64-101 | as the feed: cached list on a hit, otherwise the 50 earliest-starting events, best-effort cached for 60 seconds |
| EventRoutes.JoinEvent | backend/routes/events.js:104-143 | unknown event: 404, no change; otherwise the toggle is stored, `joined` iff the actor was absent, `attendeesCount` is old+1 or old−1, and the events key is deleted on both branches |
| ClubRoutes.AddClub | backend/routes/clubs.js:36-38 | only the actor's `clubs` changes, by `$addToSet`; a missing user changes nothing |
| ClubRoutes.PullClub | backend/routes/clubs.js:74-76 | only the actor's `clubs` changes, by `$pull` |
| ClubRoutes.CreateClub | backend/routes/clubs.js:17-44 | missing name: 400, nothing created; otherwise 201 with `admins = members = [actor]`, the club added to the actor's list as a set, and the two membership records kept in agreement |
| ClubRoutes.CreateKeepsConsistent | backend/routes/clubs.js:25-38 | creating a club with its creator as sole member keeps the club and user records in agreement |
| ClubRoutes.ListClubs | backend/routes/clubs.js:47-54 | at most 100 distinct stored clubs |
| ClubRoutes.JoinClub | backend/routes/clubs.js:57-88 | unknown club: 404, neither side changes; otherwise `joined` iff the actor was absent, `membersCount` is the new length, and members and the user's `clubs` change together |
| ClubRoutes.JoinKeepsConsistent | backend/routes/clubs.js:64-79 | join and leave keep the two membership records in agreement |
| ClubRoutes.JoinKeepsConsistentOf | backend/routes/clubs.js:64-79 | the same, under the agreement as a precondition |
| ClubRoutes.UpdateKeepsConsistent | backend/routes/clubs.js:64-79 | any change that moves only the actor in or out of one club, on both sides alike, keeps the agreement |
| ClubRoutes.JoinThenLeaveRestores | backend/routes/clubs.js:64-79 | joining then leaving restores the club exactly and the user's set of clubs |
| AuthRoutes.Normalize | backend/models/User.js:6-12 | `trim: true`: the stored value has no whitespace at either end, and a value without any is kept as it is |
| AuthRoutes.TokenLifetime | backend/routes/auth.js:47 | `JWT_EXPIRES_IN`, else `"7d"` |
| AuthRoutes.View | backend/routes/auth.js:52-58 | the session user has id, name, email, college and year, and no password |
| AuthRoutes.FindByEmail | backend/routes/auth.js:27 | the user with that email, or none exists |
| AuthRoutes.Register | backend/routes/auth.js:17-63 | missing field: 400, no user; taken email: 400 "Email already registered", registry unchanged; otherwise 201 with a new user storing the hash, never the password, and a token signed over the new id; unique emails stay unique |
| AuthRoutes.AddingFreshEmailKeepsUnique | backend/models/User.js:10 | adding a user with an unused email keeps emails unique |
| AuthRoutes.Login | backend/routes/auth.js:66-103 | missing field: 400; every other failure is the same 400 "Invalid credentials"; success means the email and password match a stored user and returns a token signed over that user's id |
| AuthMiddleware.BearerToken | backend/middleware/auth.js:5-6 | a token is taken only from a header starting with `Bearer `, and it holds no space |
| AuthMiddleware.Authenticate | backend/middleware/auth.js:4-19 | 401 "Authorization token missing" for a missing or empty token, 401 "Token invalid or expired" when verification fails, otherwise the request goes on as exactly the verified id |
| AuthMiddleware.BearerRoundTrip | backend/middleware/auth.js:6 | `Bearer <token>` yields the token back |
| AuthMiddleware.ExtraWordsIgnored | backend/middleware/auth.js:6 | only the second space-separated piece is the token |
| AuthMiddleware.SignedTokenAuthenticates | backend/middleware/auth.js:13-15 | a token that verifies lets the request through as its id |
| Http.CreateError | backend/routes/posts.js:10-14 | `createError`: an error carrying the message and the code in `statusCode`, with no `status` (the same helper is defined in each route file) |
| ErrorHandler.StatusOf | backend/middleware/errorHandler.js:8 | `statusCode` when truthy, else `status` when truthy, else 500 (so an explicit 0 falls through too) |
| ErrorHandler.Handle | backend/middleware/errorHandler.js:1-30 | after headers are sent the error is delegated; otherwise the status is `StatusOf`, `success` is false, the message is "Internal server error" for a 500 in production and else the error's own message or "Something went wrong", and the stack is sent only outside production |
| ErrorHandler.CreatedErrorReachesClient | backend/middleware/errorHandler.js:8-15 | an error from `createError` reaches the client with its status and message, unless it is a 500 in production |
| ErrorHandler.ProductionMasksFaults | backend/middleware/errorHandler.js:12-15 | in production a 500 says only "Internal server error" and has no stack |
| ErrorHandler.UnclassifiedIsInternal | backend/middleware/errorHandler.js:8-15 | an error without a status is a 500, with its own message or "Something went wrong" outside production |
| Uploads.Extname | backend/routes/uploads.js:28 | the extension is empty or one `.` followed by no `.` or `/` |
| Uploads.Receive | backend/routes/uploads.js:35-48 | no file means no file; a type failing the filter is refused with 400 and the fixed message; an image over 5 MiB is refused with an error carrying no status; otherwise it is stored under the generated name |
| Uploads.UploadReply | backend/routes/uploads.js:52-64 | a refusal is passed on; no file is 400 "File not provided"; a stored file is 201 with `{ url, filename }` |
| Uploads.ProfileUpload | backend/routes/uploads.js:68-101 | no file: 400; unknown user: 404, nothing written; otherwise the avatar becomes the URL and the user is returned without password |
| Uploads.FilterIsUnanchored | backend/routes/uploads.js:36-37 | one of the four words anywhere in the type passes the filter |
| Uploads.FileFilter | backend/routes/uploads.js:35-42 | only a type holding a `g` can pass, so one without (such as `application/pdf`) is refused |
| Uploads.ExtnameOfSegment | backend/routes/uploads.js:28 | for a name without `/`, the extension starts at its last `.`, except for a leading dot and `..` |
| Uploads.ExtnameOf | backend/routes/uploads.js:28 | `stem.e` has extension `.e` |
| Uploads.ExtnameAt | backend/routes/uploads.js:28 | a `/`-free name whose last `.` is past its first character has the extension that starts there |
| Uploads.NotDotDot | backend/routes/uploads.js:28 | `stem.e` is `..` only for the stem `.` with an empty `e` |
| Uploads.ExtnameWithoutDot | backend/routes/uploads.js:28 | a name without `.` has no extension |
| Uploads.DotfileHasNoExtension | backend/routes/uploads.js:28 | `.bashrc` has no extension |
| Uploads.DecimalHasNoPunctuation | backend/routes/uploads.js:30 | the printed numbers hold no `.` or `/` |
| Uploads.StoredFilename | backend/routes/uploads.js:27-32 | the stored name ends with, and has, the original's extension and holds no `/` |
| Uploads.StemKeepsExtension | backend/routes/uploads.js:28-30 | behind a stem without `.` or `/`, the original's extension stays the name's extension |
| Uploads.FileUrl | backend/routes/uploads.js:57-59 | the URL lies under `/uploads/` of the request's host, and its last segment is the file name when that holds no `/` |
| Strings.ContainsInfix | backend/routes/uploads.js:37 | a string contains every infix |
| Strings.ContainsKeepsChars | backend/routes/uploads.js:37 | a string contains each character of what it contains |
| Strings.StartsWith | backend/middleware/auth.js:6 | `startsWith`: the string is the prefix followed by the rest |
| Strings.Or | backend/middleware/errorHandler.js:15 | `a \|\| b` on strings: `a` when non-empty, else `b` |
| Strings.FirstIndex | backend/middleware/auth.js:6 | the first position of a character that occurs in the string |
| Strings.LastIndex | backend/routes/uploads.js:28 | `lastIndexOf`: -1 iff absent, otherwise a position of the character with none after it |
| Strings.LastIndexOfConcat | backend/routes/uploads.js:28 | the last occurrence is the one followed by none |
| Strings.DropTrailing | backend/routes/uploads.js:28 | a prefix without the trailing characters, all of them removed |
| Strings.FirstIndexOfConcat | backend/middleware/auth.js:6 | the first occurrence is the one preceded by none |
| Strings.Split | backend/middleware/auth.js:6 | `split(c)` gives at least one piece, none containing `c`; `SplitThenJoin` shows the pieces rejoin to the input |
| Strings.SplitThenJoin | frontend/src/pages/ProfileEdit.jsx:113-114 | joining the pieces of `split(c)` with `c` gives the string back: no character is lost |
| Strings.SplitAtFirst | backend/middleware/auth.js:6 | the first piece is everything before the first separator |
| Strings.Join | frontend/src/pages/ProfileEdit.jsx:109 | `join`: `""` for no parts, the part itself for one, otherwise the first part followed by the separator |
| Strings.PrefixEach | frontend/src/pages/ProfileEdit.jsx:109 | each part with the lead in front |
| Strings.SplitJoin | frontend/src/pages/ProfileEdit.jsx:109-116 | splitting a joined list gives the parts back, padding attached |
| Strings.TrimStart | backend/models/Post.js:21 | drops exactly the leading whitespace |
| Strings.TrimEnd | backend/models/Post.js:21 | drops exactly the trailing whitespace |
| Strings.Trim | backend/models/User.js:6 | `trim()`: no whitespace at either end, only characters of the input |
| Strings.TrimIsInfix | backend/models/User.js:6 | the trimmed string is a contiguous part of the input |
| Strings.TrimKeepsOut | frontend/src/pages/ProfileEdit.jsx:115 | trimming adds no character |
| Strings.TrimmedIsFixed | frontend/src/pages/ProfileEdit.jsx:115 | trimming a trimmed string changes nothing |
| Strings.TrimAfterPadding | frontend/src/pages/ProfileEdit.jsx:115 | leading whitespace is all trimming removes from padding plus a trimmed string |
| Strings.DigitChar | backend/routes/uploads.js:30 | the character of a digit |
| Strings.Decimal | backend/routes/uploads.js:30 | number printing: digits only, at least one, no leading zero |
| Strings.DecimalInjective | frontend/src/pages/Home.jsx:310 | different numbers print differently |
| Home.Ids | frontend/src/pages/Home.jsx:43 | the `_id` of each post, in order |
| Home.OnPostCreated | frontend/src/pages/Home.jsx:41-46 | a post whose id is on screen leaves the list unchanged; otherwise it is prepended and the length grows by one |
| Home.ReplaceById | frontend/src/pages/Home.jsx:49-53 | posts with the id are replaced, all others and the length kept |
| Home.RemoveById | frontend/src/pages/Home.jsx:76 | exactly the posts with other ids remain |
| Home.UserIdText | frontend/src/pages/Home.jsx:103-110 | `String(user.id)`: the id, or `undefined` when the stored user has none |
| Home.IsAuthor | frontend/src/pages/Home.jsx:101-107 | false without a user; compares the populated author's `_id` when present, else `String(post.author)` (`null` for a dangling author, `[object Object]` for a document without `_id`), with `String(user.id)` |
| Home.HasLiked | frontend/src/pages/Home.jsx:109-112 | true iff there is a user, a `likes` field, and `String(user.id)` in it |
| Home.LikesCount | frontend/src/pages/Home.jsx:234 | the number of likes, 0 when the field is absent |
| Home.AnyEquals | frontend/src/pages/Home.jsx:111 | `some(===)` is membership |
| Home.LikesLabel | frontend/src/pages/Home.jsx:308-312 | "Like" for 0, "1 like" for 1, "n likes" above |
| Home.HandleLike | frontend/src/pages/Home.jsx:83-99 | without a user no request is sent and the list is unchanged; otherwise the answer's post replaces its namesakes |
| Home.HandleDelete | frontend/src/pages/Home.jsx:73-80 | the post leaves the list only when the delete succeeded |
| Home.UpdatersKeepIdsUnique | frontend/src/pages/Home.jsx:41-53 | every updater keeps ids on screen unique |
| Home.RemoveKeepsIdsUnique | frontend/src/pages/Home.jsx:76 | filtering keeps ids unique |
| Home.ConsKeepsIdsUnique | frontend/src/pages/Home.jsx:41-46 | a post with a new id can be prepended without repeating an id |
| Home.CreatedTwiceIsCreatedOnce | frontend/src/pages/Home.jsx:41-46 | a repeated `post:created` changes the list once |
| Home.LikedAfterCreated | frontend/src/pages/Home.jsx:41-53 | a like reaching a just-broadcast post replaces it on top |
| Home.ReplaceAbsent | frontend/src/pages/Home.jsx:49-53 | replacing an id the list does not hold changes nothing |
| Home.ReplaceHead | frontend/src/pages/Home.jsx:49-53 | a first post with the id is replaced and the rest handled alike |
| Home.RemoveKeepsOrder | frontend/src/pages/Home.jsx:76 | deleting keeps the relative order of the rest |
| Home.RemoveUndoesCreate | frontend/src/pages/Home.jsx:41-46 | deleting a just-broadcast post undoes its arrival |
| Home.LabelShowsCount | frontend/src/pages/Home.jsx:234 | different counts get different labels |
| ProfileEdit.InitForm | frontend/src/pages/ProfileEdit.jsx:23-29 | missing fields default to `""`, non-array skills to `[]` |
| ProfileEdit.TrimNonEmpty | frontend/src/pages/ProfileEdit.jsx:115-116 | every result is non-empty, trimmed and comma-free |
| ProfileEdit.FormatSkills | frontend/src/pages/ProfileEdit.jsx:109 | the field shows `""` for no skills, the skill itself for one, otherwise the first skill followed by `", "`; FormatThenParse is its inverse |
| ProfileEdit.ParseSkills | frontend/src/pages/ProfileEdit.jsx:113-116 | every parsed skill is non-empty, trimmed and comma-free |
| ProfileEdit.FormatThenParse | frontend/src/pages/ProfileEdit.jsx:109-116 | re-parsing the `", "`-joined display of such skills gives the same list |
| ProfileEdit.SplitFormatted | frontend/src/pages/ProfileEdit.jsx:109-114 | the displayed list splits on its commas into the first skill and the others behind one space each |
| ProfileEdit.KeepsPaddedSkill | frontend/src/pages/ProfileEdit.jsx:115-116 | a skill behind a space comes out of trim-and-filter without the space |
| ProfileEdit.ParsePadded | frontend/src/pages/ProfileEdit.jsx:114-116 | the space after each comma is trimmed away |
| ProfileEdit.ParseIsStable | frontend/src/pages/ProfileEdit.jsx:109-116 | one parse settles the field |
| ProfileEdit.AvatarUrl | frontend/src/pages/ProfileEdit.jsx:38-43 | the upload's `url`, else its `filename`, else the previous value |
| ProfileEdit.Submit | frontend/src/pages/ProfileEdit.jsx:32-55 | nothing without a user or after a failed upload; the PUT body is the form with `avatarUrl` overridden; the answer is saved beside the stored token and becomes the session user |
| ApiClient.ApiBaseUrl | frontend/src/utils/api.js:4-5 | the configured URL, else `/api` in production, else the local server |
| ApiClient.StripApiSuffix | frontend/src/utils/api.js:26 | one final `/api` or `/api/` is removed; other bases are unchanged |
| ApiClient.SocketBaseUrl | frontend/src/utils/api.js:20-27 | a relative base gives the window origin, an absolute one loses its `/api` ending |
| ApiClient.StripsOneSuffix | frontend/src/utils/api.js:26 | only the last `/api` is removed |
| ApiClient.UploadsReachTheApi | frontend/src/utils/api.js:34-45 | uploads go to the API server's `/uploads` route |
| ApiClient.ProductionUsesOrigin | frontend/src/utils/api.js:22-24 | a production build without configuration uses the page's origin |
| ApiClient.AttachToken | frontend/src/utils/api.js:13-17 | `Authorization: Bearer <token>` iff a non-empty token is stored; no other header changes |
| ApiClient.UploadHeaders | frontend/src/utils/api.js:38-42 | multipart content type, and the Authorization header iff a token is stored |
| AuthStorage.LocalStorage.GetItem | frontend/src/utils/auth.js:13 | the stored string, or `null` |
| AuthStorage.LocalStorage.SetItem | frontend/src/utils/auth.js:3 | stores one key |
| AuthStorage.LocalStorage.RemoveItem | frontend/src/utils/auth.js:8 | removes one key |
| AuthStorage.SaveAuth | frontend/src/utils/auth.js:2-5 | writes the token under `cc_token` and the serialised user under `cc_user` |
| AuthStorage.ClearAuth | frontend/src/utils/auth.js:7-10 | removes exactly those two keys |
| AuthStorage.GetUser | frontend/src/utils/auth.js:12-14 | the parsed `cc_user`, `null` when absent or unparsable |
| AuthStorage.Token | frontend/src/utils/api.js:14 | the stored token, if any |
| AuthStorage.SavedUserIsRead | frontend/src/utils/auth.js:2-14 | after `saveAuth(t, u)`, `getUser()` is `u` when JSON round-trips it, and the token is `t` |
| AuthStorage.SaveKeepsOthers | frontend/src/utils/auth.js:2-5 | no other key changes |
| AuthStorage.ClearedForgetsSession | frontend/src/utils/auth.js:7-14 | after `clearAuth()` there is no user and no token, every other key kept |
| Integration.ClientLikes | frontend/src/pages/Home.jsx:111 | the likes as the client receives them |
| Integration.IdTextInList | frontend/src/pages/Home.jsx:111 | an id's text is among the likes' texts iff the id is among the likes |
| Integration.StoredTokenAuthenticates | backend/middleware/auth.js:4-19 | a stored, verifiable token passes the middleware as its user, on requests and uploads |
| Integration.NoTokenIsRejected | frontend/src/utils/api.js:38-42 | without a token no header is sent and a guarded route answers 401 "Authorization token missing" |
| Integration.NullTokenIsInvalid | frontend/src/pages/ProfileEdit.jsx:48 | a missing token saved back is stored as `null`, sent as `Bearer null`, and refused as invalid |
| Integration.WrongTypeIs400 | backend/routes/uploads.js:35-42 | the filter's refusal reaches the client as 400 with its message |
| Integration.OversizedImageIs500 | backend/routes/uploads.js:46 | an oversized image reaches the client as a 500 |
| Integration.HeartMatchesLiked | frontend/src/pages/Home.jsx:109-112 | after a like request the heart drawn is the server's `liked`, and the count is the new length |
| Integration.AuthorControlsMatchServer | frontend/src/pages/Home.jsx:101-107 | the client offers edit and delete iff the server would allow them |
| Integration.NullAuthorOwnedByNone | frontend/src/pages/Home.jsx:105-106 | a post whose author `populate` left `null` offers its controls to no user, whether signed in with an id or saved without one |
| Integration.ProfileSaveHidesControls | frontend/src/pages/ProfileEdit.jsx:45-49 | once the id-less user a profile save stores is the session user, no post shows edit or delete, not even one the server lets its author change, and no heart is filled |
| Integration.RegisterThenLogin | backend/routes/auth.js:17-103 | after a successful registration, login with the same credentials succeeds as that user with the same session |
| Integration.LikeThenUnlike | backend/routes/posts.js:105-115 | a like then an unlike restore the stored post |

## Left out

- Transport and process wiring: Express routing, Socket.IO delivery, the Mongoose connection, `backend/server.js` and `backend/config/redis.js`. Broadcasts are a log, and the cache is a map of entries.
- Concurrency: the model runs one request at a time. It does not cover lost updates between two toggles or races between invalidation and repopulation.
- Redis commands the routes do not await (`del(...).catch`) are modelled as completing before the response.
- Time: expiry is an abstract one-second tick. `Date.now()`, `Math.random()` and the comment timestamp are parameters.
- bcrypt and JSON Web Tokens are parameters. Login is proved for any `matches`. `Integration.RegisterThenLogin` assumes `matches(p, hash(p))`.
- JSON serialisation is a parameter of the storage helpers. A cached payload is taken to read back as written.
- Mongoose `populate` is not modelled on the server: the stored post keeps the author's id. Every post answer and broadcast (feed, create, like, update) populates the author in the source. `Integration.ClientPost` renders either form, and the `Integration` lemmas hold for both.
- Mongoose casting errors are not modelled: a malformed id, or a truthy `startDate` that is no date, is a 500 in the source. Here every id is well formed, every truthy start date carries its cast date, and a title is a string.
- Timestamps' `updatedAt` is not modelled.
- PostRoutes.Updated: a JSON `null` for `content` or `imageUrl` is not modelled. `Option` stands only for an absent field, while the source assigns and stores an explicit `null` (`if (content !== undefined)`).
- AuthRoutes.Register: the email is trimmed but not lowercased. The schema's `lowercase` setter uses full Unicode case mapping, which the model does not define. So two emails differing only in case are distinct here.
- AuthRoutes.Register: a schema validation failure is reduced to "a required field is empty after trimming". Its wording is a fixed error with no status.
- Uploads: multer's other errors (an unexpected field, more than one file) and the disk itself (the directory created at start-up, write failures) are not modelled.
- `backend/routes/users.js` is not part of this model.
- The presentation components and formatting are not part of this model. This covers `formatDate` and every page other than Home and ProfileEdit.
- EventRoutes.GetEvents: the route is called "upcoming" but applies no date filter, and it does not resolve the creator. The model follows the code: past events are listed, ordered by start date.
- ProfileEdit.Submit: the loading flag and `setUser` are reduced to the returned session user. The avatar choice is a flag.
- ProfileEdit.Submit: the user it stores is the `PUT /users/me` answer, a Mongoose document serialised with `_id` and no `id` (backend/routes/users.js:50-65, otherwise not part of this model). Every user the client keeps after a profile save therefore has no `id`. `Integration.ProfileSaveHidesControls` states what the feed then shows.
- Integration.HeartMatchesLiked: holds only for a session user carrying the actor's `id`, as login and registration store it. After a profile save the heart is always empty (`Integration.ProfileSaveHidesControls`).
- Integration.AuthorControlsMatchServer: holds only for a session user carrying the actor's `id`, as login and registration store it. After a profile save no post offers edit or delete (`Integration.ProfileSaveHidesControls`).
