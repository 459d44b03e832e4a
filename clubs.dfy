/** The club routes (backend/routes/clubs.js). Membership is recorded twice:
    in the club's `members` and in each user's `clubs`; the routes update
    both sides, and `Consistent` states that the two agree. */
module ClubRoutes {
  import opened Wrappers
  import opened Models
  import opened Http
  import Membership
  import Query
  import Strings

  /** The body of a join/leave response. */
  datatype JoinBody = JoinBody(membersCount: nat, joined: bool)

  /** `Club.find().limit(100)`. */
  const ClubListLimit: nat := 100

  function ClubId(c: Club): Id { c.id }
  /** The club list is not sorted: every club ranks the same. */
  function Unordered(c: Club): int { 0 }

  /** The two records of club membership agree: a stored user is a member
      of a stored club exactly when the club is in the user's list; member
      lists hold no duplicates, and neither side points at a missing
      document. */
  ghost predicate Consistent(users: map<Id, User>, clubs: map<Id, Club>) {
    && (forall c :: c in clubs ==> Membership.NoDuplicates(clubs[c].members))
    && (forall c, u :: c in clubs && u in users ==> (u in clubs[c].members <==> c in users[u].clubs))
    && (forall u, c :: u in users && c in users[u].clubs ==> c in clubs)
    && (forall c, u :: c in clubs && u in clubs[c].members ==> u in users)
  }

  /** `User.findByIdAndUpdate(actor, { $addToSet: { clubs: club } })`:
      nothing happens when there is no such user. */
  function AddClub(users: map<Id, User>, actor: Id, club: Id): (r: map<Id, User>)
    ensures r.Keys == users.Keys
    ensures forall u :: u in r ==> r[u].id == users[u].id
    ensures forall u :: u in users && u != actor ==> r[u] == users[u]
    ensures actor in users ==> r[actor] == users[actor].(clubs := Membership.AddToSet(users[actor].clubs, club))
  {
    if actor in users then users[actor := users[actor].(clubs := Membership.AddToSet(users[actor].clubs, club))]
    else users
  }

  /** `User.findByIdAndUpdate(actor, { $pull: { clubs: club } })`. */
  function PullClub(users: map<Id, User>, actor: Id, club: Id): (r: map<Id, User>)
    ensures r.Keys == users.Keys
    ensures forall u :: u in r ==> r[u].id == users[u].id
    ensures forall u :: u in users && u != actor ==> r[u] == users[u]
    ensures actor in users ==> r[actor] == users[actor].(clubs := Membership.Pull(users[actor].clubs, club))
  {
    if actor in users then users[actor := users[actor].(clubs := Membership.Pull(users[actor].clubs, club))]
    else users
  }

  /** POST /api/clubs: the creator becomes the club's only admin and member,
      and the club joins the creator's list. */
  method CreateClub(db: Database, actor: Id, name: Option<string>,
                    description: Option<string>, coverImageUrl: Option<string>)
    returns (reply: Reply<Club>)
    requires db.Valid()
    modifies db`clubs, db`users, db`nextId
    ensures db.Valid()
    ensures !Strings.Truthy(name) ==>
      reply == Next(CreateError(400, "Club name is required"))
      && db.clubs == old(db.clubs) && db.users == old(db.users)
    ensures Strings.Truthy(name) ==>
      && reply.Respond? && reply.status == 201
      && reply.body == Club(old(db.nextId), name.value, description.GetOr(""), [actor], [actor],
                            coverImageUrl.GetOr(""))
      && reply.body.id !in old(db.clubs)
      && db.clubs == old(db.clubs)[reply.body.id := reply.body]
      && db.users == AddClub(old(db.users), actor, reply.body.id)
    ensures old(Consistent(db.users, db.clubs)) && actor in old(db.users) ==> Consistent(db.users, db.clubs)
  {
    if !Strings.Truthy(name) {
      return Next(CreateError(400, "Club name is required"));
    }
    var id := db.NewId();
    var club := Club(id, name.value, description.GetOr(""), [actor], [actor], coverImageUrl.GetOr(""));
    ghost var users0, clubs0 := db.users, db.clubs;
    db.PutClub(club);
    if actor in db.users {
      db.PutUser(db.users[actor].(clubs := Membership.AddToSet(db.users[actor].clubs, id)));
    }
    CreateKeepsConsistent(users0, clubs0, actor, club);
    reply := Respond(201, club);
  }

  /** Creating a club keeps the two records of membership in agreement,
      when the creator is a stored user. */
  lemma CreateKeepsConsistent(users: map<Id, User>, clubs: map<Id, Club>, actor: Id, club: Club)
    requires club.id !in clubs && club.members == [actor]
    ensures Consistent(users, clubs) && actor in users ==>
      Consistent(AddClub(users, actor, club.id), clubs[club.id := club])
  {
    if Consistent(users, clubs) && actor in users {
      var users', clubs' := AddClub(users, actor, club.id), clubs[club.id := club];
      forall c, u | c in clubs' && u in users'
        ensures u in clubs'[c].members <==> c in users'[u].clubs
      {
        if c == club.id {
          assert c !in users[u].clubs;
        }
      }
    }
  }

  /** GET /api/clubs, which needs no token: at most a hundred clubs, in no
      particular order. */
  method ListClubs(db: Database) returns (reply: Reply<seq<Club>>)
    requires db.Valid()
    ensures reply.Respond? && reply.status == 200
    ensures |reply.body| == Query.Min(ClubListLimit, |db.clubs|)
    ensures forall i :: 0 <= i < |reply.body| ==> reply.body[i].id in db.clubs && db.clubs[reply.body[i].id] == reply.body[i]
    ensures Membership.NoDuplicates(Query.Ids(reply.body, ClubId))
  {
    var clubs := Query.TopK(db.clubs, ClubId, Unordered, ClubListLimit);
    reply := Respond(200, clubs);
  }

  /** POST /api/clubs/:id/join: joins when the actor is not a member (and
      adds the club to the actor's list), otherwise leaves (and pulls it). */
  method JoinClub(db: Database, actor: Id, clubId: Id) returns (reply: Reply<JoinBody>)
    requires db.Valid()
    modifies db`clubs, db`users
    ensures db.Valid()
    ensures clubId !in old(db.clubs) ==>
      reply == Next(CreateError(404, "Club not found"))
      && db.clubs == old(db.clubs) && db.users == old(db.users)
    ensures clubId in old(db.clubs) ==>
      var before := old(db.clubs)[clubId];
      var t := Membership.Toggle(before.members, actor);
      && reply == Respond(200, JoinBody(|t.list|, t.added))
      && db.clubs == old(db.clubs)[clubId := before.(members := t.list)]
      && db.users == if t.added then AddClub(old(db.users), actor, clubId)
                     else PullClub(old(db.users), actor, clubId)
    ensures old(Consistent(db.users, db.clubs)) && actor in old(db.users) ==> Consistent(db.users, db.clubs)
  {
    if clubId !in db.clubs {
      return Next(CreateError(404, "Club not found"));
    }
    var club := db.clubs[clubId];
    var t := Membership.Toggle(club.members, actor);
    ghost var users0, clubs0 := db.users, db.clubs;
    if actor in db.users {
      var user := db.users[actor];
      if t.added {
        db.PutUser(user.(clubs := Membership.AddToSet(user.clubs, clubId)));
      } else {
        db.PutUser(user.(clubs := Membership.Pull(user.clubs, clubId)));
      }
    }
    db.PutClub(club.(members := t.list));
    JoinKeepsConsistent(users0, clubs0, actor, clubId);
    reply := Respond(200, JoinBody(|t.list|, t.added));
  }

  /** Joining or leaving keeps the two records of membership in agreement,
      when the actor is a stored user. */
  lemma JoinKeepsConsistent(users: map<Id, User>, clubs: map<Id, Club>, actor: Id, clubId: Id)
    requires clubId in clubs
    ensures var t := Membership.Toggle(clubs[clubId].members, actor);
      Consistent(users, clubs) && actor in users ==>
      Consistent(if t.added then AddClub(users, actor, clubId) else PullClub(users, actor, clubId),
                 clubs[clubId := clubs[clubId].(members := t.list)])
  {
    if Consistent(users, clubs) && actor in users {
      JoinKeepsConsistentOf(users, clubs, actor, clubId);
    }
  }

  lemma JoinKeepsConsistentOf(users: map<Id, User>, clubs: map<Id, Club>, actor: Id, clubId: Id)
    requires Consistent(users, clubs) && actor in users && clubId in clubs
    ensures var t := Membership.Toggle(clubs[clubId].members, actor);
      Consistent(if t.added then AddClub(users, actor, clubId) else PullClub(users, actor, clubId),
                 clubs[clubId := clubs[clubId].(members := t.list)])
  {
    var s := clubs[clubId].members;
    var t := Membership.Toggle(s, actor);
    var users' := if t.added then AddClub(users, actor, clubId) else PullClub(users, actor, clubId);
    Membership.ToggleKeepsNoDuplicates(s, actor);
    Membership.ToggleMembership(s, actor);
    forall u | u != actor
      ensures u in t.list <==> u in s
    {
      Membership.ToggleKeepsOthers(s, actor, u);
    }
    UpdateKeepsConsistent(users, clubs, actor, clubId, users', t.list);
  }

  /** The agreement survives any change that moves only `actor` in or out
      of one club, on both sides alike. */
  lemma UpdateKeepsConsistent(users: map<Id, User>, clubs: map<Id, Club>, actor: Id, clubId: Id,
                              users': map<Id, User>, members: seq<Id>)
    requires Consistent(users, clubs) && actor in users && clubId in clubs
    requires Membership.NoDuplicates(members)
    requires forall u :: u != actor ==> (u in members <==> u in clubs[clubId].members)
    requires users'.Keys == users.Keys
    requires forall u :: u in users && u != actor ==> users'[u] == users[u]
    requires forall c :: c != clubId ==> (c in users'[actor].clubs <==> c in users[actor].clubs)
    requires clubId in users'[actor].clubs <==> actor in members
    ensures Consistent(users', clubs[clubId := clubs[clubId].(members := members)])
  {
    var clubs' := clubs[clubId := clubs[clubId].(members := members)];
    forall c, u | c in clubs' && u in users'
      ensures u in clubs'[c].members <==> c in users'[u].clubs
    {
    }
  }

  /** Joining a club and then leaving it restores both the club and the
      user's list of clubs, when the actor was not a member before. */
  lemma JoinThenLeaveRestores(users: map<Id, User>, clubs: map<Id, Club>, actor: Id, clubId: Id)
    requires Consistent(users, clubs) && actor in users && clubId in clubs
    requires actor !in clubs[clubId].members
    ensures var club := clubs[clubId];
      var t1 := Membership.Toggle(club.members, actor);
      var t2 := Membership.Toggle(t1.list, actor);
      && t1.added && !t2.added
      && club.(members := t2.list) == club
      && (forall c :: c in PullClub(AddClub(users, actor, clubId), actor, clubId)[actor].clubs <==>
                      c in users[actor].clubs)
  {
    var club := clubs[clubId];
    Membership.ToggleSpec(club.members, actor);
    Membership.ToggleTwiceFromAbsent(club.members, actor);
    assert clubId !in users[actor].clubs;
  }
}
