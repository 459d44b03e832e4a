/** The four MongoDB collections of the backend (the schemas under backend/models) and
    the document store that holds them. Schema defaults (`""` for optional
    strings, `[]` for arrays) are applied by the route handlers that create
    documents. */
module Models {
  import opened Wrappers

  /** A document id. The store hands them out in increasing order. */
  type Id = nat

  /** Milliseconds since the epoch. */
  type Timestamp = int

  datatype User = User(
    id: Id,
    name: string,
    email: string,
    password: string,   // what the registration stored: the bcrypt hash
    college: string,
    year: string,
    skills: seq<string>,
    clubs: seq<Id>,
    avatarUrl: string)

  datatype Comment = Comment(author: Id, content: string, createdAt: Timestamp)

  datatype Post = Post(
    id: Id,
    author: Id,
    content: Option<string>,
    imageUrl: string,
    likes: seq<Id>,
    comments: seq<Comment>,
    createdAt: Timestamp)

  datatype Club = Club(
    id: Id,
    name: string,
    description: string,
    admins: seq<Id>,
    members: seq<Id>,
    coverImageUrl: string)

  datatype Event = Event(
    id: Id,
    title: string,
    description: string,
    location: string,
    startDate: Timestamp,
    endDate: Option<Timestamp>,
    createdBy: Id,
    attendees: seq<Id>,
    coverImageUrl: string)

  /** The persistence service: one map per collection, keyed by document id,
      and the next id to hand out. */
  class Database {
    var users: map<Id, User>
    var posts: map<Id, Post>
    var clubs: map<Id, Club>
    var events: map<Id, Event>
    var nextId: Id

    /** Every document is stored under its own id, and every id in use was
        handed out before `nextId`. */
    ghost predicate Valid()
      reads this
    {
      && (forall k :: k in users ==> k < nextId && users[k].id == k)
      && (forall k :: k in posts ==> k < nextId && posts[k].id == k)
      && (forall k :: k in clubs ==> k < nextId && clubs[k].id == k)
      && (forall k :: k in events ==> k < nextId && events[k].id == k)
    }

    constructor ()
      ensures Valid()
      ensures users == map[] && posts == map[] && clubs == map[] && events == map[]
    {
      users, posts, clubs, events := map[], map[], map[], map[];
      nextId := 0;
    }

    /** A fresh ObjectId, used by no collection. */
    method NewId() returns (id: Id)
      requires Valid()
      modifies this`nextId
      ensures Valid()
      ensures id == old(nextId) && nextId == id + 1
      ensures id !in users && id !in posts && id !in clubs && id !in events
    {
      id := nextId;
      nextId := nextId + 1;
    }

    /** `save()`: stores a document under its id, which was handed out
        before; an existing document with that id is replaced. */
    method PutUser(u: User)
      requires Valid() && u.id < nextId
      modifies this`users
      ensures Valid()
      ensures users == old(users)[u.id := u]
    {
      users := users[u.id := u];
    }

    method PutPost(p: Post)
      requires Valid() && p.id < nextId
      modifies this`posts
      ensures Valid()
      ensures posts == old(posts)[p.id := p]
    {
      posts := posts[p.id := p];
    }

    method PutClub(c: Club)
      requires Valid() && c.id < nextId
      modifies this`clubs
      ensures Valid()
      ensures clubs == old(clubs)[c.id := c]
    {
      clubs := clubs[c.id := c];
    }

    method PutEvent(e: Event)
      requires Valid() && e.id < nextId
      modifies this`events
      ensures Valid()
      ensures events == old(events)[e.id := e]
    {
      events := events[e.id := e];
    }
  }
}
