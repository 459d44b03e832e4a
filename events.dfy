/** The event routes (backend/routes/events.js), with the same conventions
    as the post routes: the cache may be absent and each of its commands
    may fail. */
module EventRoutes {
  import opened Wrappers
  import opened Models
  import opened Http
  import opened CacheLayer
  import opened Feeds
  import Membership
  import Query
  import Strings

  /** The body of a join/leave response. */
  datatype JoinBody = JoinBody(attendeesCount: nat, joined: bool)

  /** `redis.del(EVENTS_CACHE_KEY)` when a cache is configured. */
  method InvalidateEvents(redis: Cache?, delFails: bool)
    modifies redis
    ensures redis != null ==> redis.entries == AfterDel(old(redis.entries), EventsCacheKey, delFails)
  {
    if redis != null {
      redis.Del(EventsCacheKey, delFails);
    }
  }

  /** The event a valid creation request stores. */
  function NewEvent(id: Id, actor: Id, title: string, description: Option<string>, location: Option<string>,
                    startDate: Timestamp, endDate: Option<Timestamp>, coverImageUrl: Option<string>): Event
  {
    Event(id, title, description.GetOr(""), location.GetOr(""), startDate, endDate, actor, [],
          coverImageUrl.GetOr(""))
  }

  /** The request's `startDate` as `!startDate` sees it: any falsy JSON
      value (absent, `null`, `false`, `0`, `""`) is refused, and a truthy
      one comes with the date Mongoose casts it to. */
  datatype RawDate = FalsyDate | TruthyDate(cast: Timestamp)

  /** POST /api/events. A missing or empty title, or a falsy start date, is
      refused with 400 before anything is stored. */
  method CreateEvent(db: Database, redis: Cache?, actor: Id, title: Option<string>,
                     description: Option<string>, location: Option<string>,
                     startDate: RawDate, endDate: Option<Timestamp>,
                     coverImageUrl: Option<string>, delFails: bool)
    returns (reply: Reply<Event>)
    requires db.Valid()
    modifies db`events, db`nextId, redis
    ensures db.Valid()
    ensures !Strings.Truthy(title) || startDate.FalsyDate? ==>
      && reply == Next(CreateError(400, "Title and startDate are required for an event"))
      && db.events == old(db.events)
      && (redis != null ==> redis.entries == old(redis.entries))
    ensures Strings.Truthy(title) && startDate.TruthyDate? ==>
      && reply.Respond? && reply.status == 201
      && reply.body == NewEvent(old(db.nextId), actor, title.value, description, location,
                                startDate.cast, endDate, coverImageUrl)
      && reply.body.id !in old(db.events)
      && db.events == old(db.events)[reply.body.id := reply.body]
      && (redis != null ==> redis.entries == AfterDel(old(redis.entries), EventsCacheKey, delFails))
  {
    if !Strings.Truthy(title) || startDate.FalsyDate? {
      return Next(CreateError(400, "Title and startDate are required for an event"));
    }
    var id := db.NewId();
    var event := NewEvent(id, actor, title.value, description, location, startDate.cast, endDate, coverImageUrl);
    db.PutEvent(event);
    InvalidateEvents(redis, delFails);
    reply := Respond(201, event);
  }

  /** GET /api/events, which needs no token: the cached list, or the fifty
      events with the earliest start dates, past ones included. */
  method GetEvents(db: Database, redis: Cache?, getFails: bool, setFails: bool)
    returns (reply: Reply<Payload>, fromStore: bool)
    requires db.Valid()
    modifies redis
    ensures reply.Respond? && reply.status == 200
    ensures fromStore <==> redis == null || getFails || EventsCacheKey !in old(redis.entries)
    ensures !fromStore ==> reply.body == old(redis.entries)[EventsCacheKey].payload
                           && redis.entries == old(redis.entries)
    ensures fromStore ==> reply.body.EventList? && IsEventList(db.events, reply.body.events)
    ensures fromStore && redis != null ==>
      redis.entries == if setFails then old(redis.entries)
                       else old(redis.entries)[EventsCacheKey := Entry(reply.body, EventsCacheTtl)]
    ensures redis == null || EventsCacheCoherent(db.events, old(redis.entries)) ==>
      reply.body.EventList? && IsEventList(db.events, reply.body.events)
    ensures redis != null && EventsCacheCoherent(db.events, old(redis.entries)) ==>
      EventsCacheCoherent(db.events, redis.entries)
  {
    if redis != null {
      var cached := redis.Get(EventsCacheKey, getFails);
      if cached.Hit? {
        return Respond(200, cached.payload), false;
      }
    }
    var events := Query.TopK(db.events, EventId, Earliness, FeedLimit);
    var body := EventList(events);
    if redis != null {
      redis.SetEx(EventsCacheKey, EventsCacheTtl, body, setFails);
    }
    return Respond(200, body), true;
  }

  /** POST /api/events/:id/join: joins when the actor is not attending,
      otherwise leaves; the cache is invalidated on both branches. */
  method JoinEvent(db: Database, redis: Cache?, actor: Id, eventId: Id, delFails: bool)
    returns (reply: Reply<JoinBody>)
    requires db.Valid()
    modifies db`events, redis
    ensures db.Valid()
    ensures eventId !in old(db.events) ==>
      && reply == Next(CreateError(404, "Event not found"))
      && db.events == old(db.events)
      && (redis != null ==> redis.entries == old(redis.entries))
    ensures eventId in old(db.events) ==>
      var before := old(db.events)[eventId];
      var t := Membership.Toggle(before.attendees, actor);
      && reply == Respond(200, JoinBody(|t.list|, t.added))
      && db.events == old(db.events)[eventId := before.(attendees := t.list)]
      && (redis != null ==> redis.entries == AfterDel(old(redis.entries), EventsCacheKey, delFails))
    // `joined` tells whether the actor now attends, and the count reported
    // is one more or one less than before.
    ensures eventId in old(db.events) ==>
      && (reply.body.joined <==> actor !in old(db.events)[eventId].attendees)
      && reply.body.attendeesCount == |old(db.events)[eventId].attendees| + (if reply.body.joined then 1 else -1)
  {
    if eventId !in db.events {
      return Next(CreateError(404, "Event not found"));
    }
    var event := db.events[eventId];
    var t := Membership.Toggle(event.attendees, actor);
    Membership.ToggleSpec(event.attendees, actor);
    db.PutEvent(event.(attendees := t.list));
    InvalidateEvents(redis, delFails);
    reply := Respond(200, JoinBody(|t.list|, t.added));
  }
}
