/** Registration and login (backend/routes/auth.js). Password hashing and
    token signing belong to bcrypt and the JSON Web Token library, which are
    parameters: `hashed` is the hash bcrypt returns for this registration,
    `matches` is `bcrypt.compare`, and `sign` signs a payload `{ id }` with
    the configured lifetime. */
module AuthRoutes {
  import opened Wrappers
  import opened Models
  import opened Http
  import Strings

  /** The user fields a session exposes: never the password. */
  datatype ClientUser = ClientUser(id: Id, name: string, email: string, college: string, year: string)

  /** `{ token, user }`. */
  datatype Session = Session(token: string, user: ClientUser)

  /** The token lifetime: `JWT_EXPIRES_IN`, or seven days. */
  function TokenLifetime(configured: Option<string>): (r: string)
    ensures Strings.Truthy(configured) ==> r == configured.value
    ensures !Strings.Truthy(configured) ==> r == "7d"
  {
    Strings.Or(configured, "7d")
  }

  /** The schema's `trim: true` on `name` and `email`, which Mongoose also
      applies to the email in a query filter. */
  function Normalize(s: string): (r: string)
    ensures Strings.IsTrimmed(r)
    ensures Strings.IsTrimmed(s) ==> r == s
  {
    Strings.Trim(s)
  }

  /** The error Mongoose raises when a required field is empty after
      trimming. It carries no status, so the error handler makes it a 500. */
  const RequiredFieldMissing: Error :=
    Error(None, None, Some("User validation failed"), "ValidationError: User validation failed")

  /** The unique index on `email`: no two users share one. */
  ghost predicate UniqueEmails(users: map<Id, User>) {
    forall a, b :: a in users && b in users && users[a].email == users[b].email ==> a == b
  }

  /** Some stored user already has this email. */
  ghost predicate EmailTaken(users: map<Id, User>, email: string) {
    exists u :: u in users && users[u].email == email
  }

  function View(u: User): (v: ClientUser)
    ensures v.id == u.id && v.name == u.name && v.email == u.email
    ensures v.college == u.college && v.year == u.year
  {
    ClientUser(u.id, u.name, u.email, u.college, u.year)
  }

  /** `User.findOne({ email })`. */
  method FindByEmail(users: map<Id, User>, email: string) returns (r: Option<Id>)
    ensures r.Some? ==> r.value in users && users[r.value].email == email
    ensures r.None? ==> forall u :: u in users ==> users[u].email != email
  {
    var todo := users.Keys;
    while todo != {}
      invariant todo <= users.Keys
      invariant forall u :: u in users && u !in todo ==> users[u].email != email
      decreases todo
    {
      var u :| u in todo;
      if users[u].email == email {
        return Some(u);
      }
      todo := todo - {u};
    }
    return None;
  }

  /** `name && email && password`. */
  predicate Filled(name: Option<string>, email: Option<string>, password: Option<string>) {
    Strings.Truthy(name) && Strings.Truthy(email) && Strings.Truthy(password)
  }

  /** POST /api/auth/register. */
  method Register(db: Database, name: Option<string>, email: Option<string>, password: Option<string>,
                  college: Option<string>, year: Option<string>,
                  hashed: string, sign: (Id, string) -> string, lifetime: Option<string>)
    returns (reply: Reply<Session>)
    requires db.Valid()
    modifies db`users, db`nextId
    ensures db.Valid()
    ensures !Filled(name, email, password) ==>
      reply == Next(CreateError(400, "Name, email and password required")) && db.users == old(db.users)
    ensures Filled(name, email, password) && EmailTaken(old(db.users), Normalize(email.value)) ==>
      reply == Next(CreateError(400, "Email already registered")) && db.users == old(db.users)
    ensures Filled(name, email, password) && !EmailTaken(old(db.users), Normalize(email.value))
            && (Normalize(name.value) == "" || Normalize(email.value) == "") ==>
      reply == Next(RequiredFieldMissing) && db.users == old(db.users)
    ensures Filled(name, email, password) && !EmailTaken(old(db.users), Normalize(email.value))
            && Normalize(name.value) != "" && Normalize(email.value) != "" ==>
      var user := User(old(db.nextId), Normalize(name.value), Normalize(email.value), hashed,
                       college.GetOr(""), year.GetOr(""), [], [], "");
      && user.id !in old(db.users)
      && db.users == old(db.users)[user.id := user]
      && reply == Respond(201, Session(sign(user.id, TokenLifetime(lifetime)), View(user)))
    ensures UniqueEmails(old(db.users)) ==> UniqueEmails(db.users)
  {
    if !Filled(name, email, password) {
      return Next(CreateError(400, "Name, email and password required"));
    }
    var key := Normalize(email.value);
    var existing := FindByEmail(db.users, key);
    if existing.Some? {
      assert EmailTaken(db.users, key);
      return Next(CreateError(400, "Email already registered"));
    }
    if Normalize(name.value) == "" || key == "" {
      return Next(RequiredFieldMissing);
    }
    var id := db.NewId();
    var user := User(id, Normalize(name.value), key, hashed, college.GetOr(""), year.GetOr(""), [], [], "");
    AddingFreshEmailKeepsUnique(db.users, user);
    db.PutUser(user);
    reply := Respond(201, Session(sign(id, TokenLifetime(lifetime)), View(user)));
  }

  lemma AddingFreshEmailKeepsUnique(users: map<Id, User>, user: User)
    requires !EmailTaken(users, user.email)
    ensures UniqueEmails(users) ==> UniqueEmails(users[user.id := user])
  {
  }

  /** POST /api/auth/login. An unknown email and a wrong password give the
      same answer, so a client cannot tell which accounts exist. */
  method Login(db: Database, email: Option<string>, password: Option<string>,
               matches: (string, string) -> bool, sign: (Id, string) -> string, lifetime: Option<string>)
    returns (reply: Reply<Session>)
    requires db.Valid()
    ensures !(Strings.Truthy(email) && Strings.Truthy(password)) ==>
      reply == Next(CreateError(400, "Email and password required"))
    ensures Strings.Truthy(email) && Strings.Truthy(password) && reply.Next? ==>
      reply.error == CreateError(400, "Invalid credentials")
    ensures reply.Respond? ==>
      && reply.status == 200
      && reply.body.user.id in db.users
      && db.users[reply.body.user.id].email == Normalize(email.value)
      && matches(password.value, db.users[reply.body.user.id].password)
      && reply.body == Session(sign(reply.body.user.id, TokenLifetime(lifetime)), View(db.users[reply.body.user.id]))
    ensures UniqueEmails(db.users) && Strings.Truthy(email) && Strings.Truthy(password) ==>
      forall u :: (u in db.users && db.users[u].email == Normalize(email.value)
                   && matches(password.value, db.users[u].password)) ==> reply.Respond? && reply.body.user.id == u
  {
    if !(Strings.Truthy(email) && Strings.Truthy(password)) {
      return Next(CreateError(400, "Email and password required"));
    }
    var found := FindByEmail(db.users, Normalize(email.value));
    if found.None? {
      return Next(CreateError(400, "Invalid credentials"));
    }
    var user := db.users[found.value];
    if !matches(password.value, user.password) {
      return Next(CreateError(400, "Invalid credentials"));
    }
    reply := Respond(200, Session(sign(user.id, TokenLifetime(lifetime)), View(user)));
  }
}
