/** The two cached lists: the latest posts (newest first) and the events
    list (earliest start first), their cache keys and lifetimes, and what
    it means for a cached copy to be a correct answer for the store. */
module Feeds {
  import opened Models
  import opened CacheLayer
  import Query

  const PostsCacheKey: string := "posts:latest"
  const PostsCacheTtl: nat := 60
  const EventsCacheKey: string := "events:upcoming"
  const EventsCacheTtl: nat := 60
  /** Both lists are cut at fifty documents. */
  const FeedLimit: nat := 50

  function PostId(p: Post): Id { p.id }
  /** `sort({ createdAt: -1 })`: a later post ranks higher. */
  function Recency(p: Post): int { p.createdAt }

  function EventId(e: Event): Id { e.id }
  /** `sort({ startDate: 1 })`: an earlier start ranks higher. */
  function Earliness(e: Event): int { -e.startDate }

  /** `r` is a correct answer to the posts feed query. */
  ghost predicate IsLatestPosts(posts: map<Id, Post>, r: seq<Post>) {
    Query.IsTopK(posts, PostId, Recency, FeedLimit, r)
  }

  /** `r` is a correct answer to the events list query. */
  ghost predicate IsEventList(events: map<Id, Event>, r: seq<Event>) {
    Query.IsTopK(events, EventId, Earliness, FeedLimit, r)
  }

  /** Whatever the cache holds under the posts key is a correct answer for
      the posts currently stored. */
  ghost predicate PostsCacheCoherent(posts: map<Id, Post>, entries: map<string, Entry>) {
    PostsCacheKey in entries ==>
      entries[PostsCacheKey].payload.PostList? && IsLatestPosts(posts, entries[PostsCacheKey].payload.posts)
  }

  ghost predicate EventsCacheCoherent(events: map<Id, Event>, entries: map<string, Entry>) {
    EventsCacheKey in entries ==>
      entries[EventsCacheKey].payload.EventList? && IsEventList(events, entries[EventsCacheKey].payload.events)
  }

  /** A post created after every other post heads any correct feed. */
  lemma NewestPostHeadsFeed(posts: map<Id, Post>, r: seq<Post>, p: Id)
    requires IsLatestPosts(posts, r) && p in posts
    requires forall q :: q in posts && q != p ==> posts[q].createdAt < posts[p].createdAt
    ensures |r| >= 1 && r[0] == posts[p]
  {
    Query.TopRankedComesFirst(posts, PostId, Recency, FeedLimit, r, p);
  }

  /** The event that starts before every other heads any correct events list. */
  lemma EarliestEventHeadsList(events: map<Id, Event>, r: seq<Event>, e: Id)
    requires IsEventList(events, r) && e in events
    requires forall q :: q in events && q != e ==> events[e].startDate < events[q].startDate
    ensures |r| >= 1 && r[0] == events[e]
  {
    Query.TopRankedComesFirst(events, EventId, Earliness, FeedLimit, r, e);
  }

  /** Once the entry has expired the cache no longer answers for the store. */
  lemma CoherentAfterExpiry(posts: map<Id, Post>, entries: map<string, Entry>, n: nat)
    requires PostsCacheKey in entries && 0 < entries[PostsCacheKey].ttl <= n
    ensures PostsCacheKey !in Elapse(entries, n)
    ensures PostsCacheCoherent(posts, Elapse(entries, n))
  {
    ExpiresAfterTtl(entries, n, PostsCacheKey);
  }
}
