/** The signup, login and "who am I" handlers: an ordered chain of checks from the request
    body and the user table to a status code, a public payload and the lifetime of the
    session cookie. The token inside the cookie is left out; only its `maxAge` is kept. */
module UserController {
  import opened Wrappers
  import opened Text
  import opened Database
  import opened Http
  import UserModel

  const Hour := 60 * 60
  const Week := 60 * 60 * 24 * 7

  /** What a successful reply reveals of a user: its id and username, never the digest. */
  datatype PublicUser = PublicUser(id: int, username: string)

  datatype SignupBody = SignupBody(username: Option<string>, password: Option<string>)
  datatype LoginBody = LoginBody(username: Option<string>, password: Option<string>, remember: Option<bool>)

  /** A reply, and the `maxAge` of the session cookie set with it, if one is set. */
  datatype AuthReply = AuthReply(reply: Reply<PublicUser>, cookieMaxAge: Option<nat>)

  /** `!field` on a string field of the body: absent or empty. */
  predicate Missing(field: Option<string>)
  {
    field.None? || field.value == ""
  }

  /** `${e}` for a thrown Error. */
  function ErrorText(message: string): string
  {
    "Error: " + message
  }

  function Public(user: User): PublicUser
  {
    PublicUser(user.id, user.username)
  }

  /** The tail of `handleSignup` once `createUser` has returned or thrown: a created user gets 201
      and a one-hour cookie; an error whose message mentions "already" is a conflict (409), any
      other error is a server error (500), and neither sets a cookie. */
  function SignupReply(created: Result<User>): (r: AuthReply)
    ensures r.reply.success <==> created.Success?
    ensures created.Success? ==>
      r.reply.status == 201 && r.reply.data == Some(PublicUser(created.value.id, created.value.username))
      && r.cookieMaxAge == Some(3600)
    ensures created.Failure? ==> r.reply.data.None? && r.cookieMaxAge.None?
    ensures created.Failure? ==> (r.reply.status == 409 <==> Contains(created.error, "already"))
    ensures created.Failure? ==> (r.reply.status == 500 <==> !Contains(created.error, "already"))
  {
    match created
    case Success(user) =>
      AuthReply(Reply(201, true, Some(Public(user)), "User created successfully"), Some(Hour))
    case Failure(e) =>
      if Contains(e, "already") then AuthReply(Error(409, "Username already registered"), None)
      else AuthReply(Error(500, "Internal Server Error: " + ErrorText(e)), None)
  }

  /** The error `createUser` throws for a taken username is the one the handler turns into 409. */
  lemma AlreadyRegisteredIsConflict()
    ensures Contains(UserModel.AlreadyRegistered, "already")
    ensures SignupReply(Failure(UserModel.AlreadyRegistered)).reply.status == 409
  {
    assert UserModel.AlreadyRegistered[12..19] == "already";
    ContainsAt(UserModel.AlreadyRegistered, "already", 12);
  }

  /** `handleSignup`: 400 before any lookup when a field is missing or empty; 409 and no change
      when the username is taken; otherwise 201 with the new user's id and username and a
      one-hour cookie. */
  method HandleSignup(db: Db, body: SignupBody, salt: nat) returns (r: AuthReply)
    requires db.Valid()
    modifies db`users, db`usernames, db`nextUserId
    ensures db.Valid()
    ensures Missing(body.username) || Missing(body.password) ==>
      r.reply.status == 400 && r.cookieMaxAge.None? && db.users == old(db.users) && db.usernames == old(db.usernames)
    ensures !Missing(body.username) && !Missing(body.password) && UsernameTaken(old(db.users), body.username.value) ==>
      r.reply.status == 409 && r.reply.msg == "Username already registered" && r.cookieMaxAge.None?
      && db.users == old(db.users)
    ensures !Missing(body.username) && !Missing(body.password) && !UsernameTaken(old(db.users), body.username.value) ==>
      && r.reply.status == 201
      && r.reply.data == Some(PublicUser(old(db.nextUserId), body.username.value))
      && r.cookieMaxAge == Some(3600)
      && db.users == old(db.users)[old(db.nextUserId) := User(old(db.nextUserId), body.username.value, Hash(body.password.value, salt), 0)]
  {
    if Missing(body.username) || Missing(body.password) {
      return AuthReply(Error(400, "Missing username or password"), None);
    }
    var created := UserModel.CreateUser(db, body.username.value, body.password.value, salt);
    AlreadyRegisteredIsConflict();
    r := SignupReply(created);
  }

  /** The cookie lifetime chosen by `handleLogin`: a week when `remember` is truthy, an hour otherwise. */
  function MaxAge(remember: Option<bool>): (age: nat)
    ensures remember == Some(true) ==> age == 604800
    ensures remember != Some(true) ==> age == 3600
  {
    if remember == Some(true) then Week else Hour
  }

  /** `handleLogin`: 400 when a field is missing or empty, then 404 for an unknown username,
      then 401 for a wrong password, and only then 200 with the user's id and username and a
      cookie whose lifetime depends on `remember`. */
  function HandleLogin(db: Db, body: LoginBody): (r: AuthReply)
    reads db
    requires db.Valid()
    ensures r.reply.status == 400 <==> Missing(body.username) || Missing(body.password)
    ensures r.reply.status == 404 <==>
      !Missing(body.username) && !Missing(body.password) && !UsernameTaken(db.users, body.username.value)
    ensures r.reply.status == 401 <==>
      && !Missing(body.username) && !Missing(body.password)
      && (exists id :: id in db.users && db.users[id].username == body.username.value
                       && !Compare(body.password.value, db.users[id].password))
    ensures r.reply.status == 200 <==>
      && !Missing(body.username) && !Missing(body.password)
      && (exists id :: id in db.users && db.users[id].username == body.username.value
                       && Compare(body.password.value, db.users[id].password))
    ensures r.reply.success <==> r.reply.status == 200
    ensures r.cookieMaxAge.Some? <==> r.reply.status == 200
    ensures r.reply.status == 200 ==>
      && r.cookieMaxAge == Some(if body.remember == Some(true) then 604800 else 3600)
      && r.reply.data.Some? && r.reply.data.value.id in db.users
      && db.users[r.reply.data.value.id].username == body.username.value
      && r.reply.data.value.username == body.username.value
  {
    if Missing(body.username) || Missing(body.password) then
      AuthReply(Error(400, "Missing username or password"), None)
    else
      match UserModel.GetUserByUsername(db, body.username.value)
      case None => AuthReply(Error(404, "\U{1F6AB} User not found"), None)
      case Some(user) =>
        if !Compare(body.password.value, user.password) then AuthReply(Error(401, "\U{274C} Invalid password"), None)
        else AuthReply(Reply(200, true, Some(Public(user)), "Login successful"), Some(MaxAge(body.remember)))
  }

  /** `getMe`: 401 without a session user id, 404 when that user is gone, otherwise the user's
      id and username. */
  function GetMe(db: Db, userId: Option<int>): (r: Reply<PublicUser>)
    reads db
    requires db.Valid()
    ensures r.status == 401 <==> !Truthy(userId)
    ensures r.status == 404 <==> Truthy(userId) && userId.value !in db.users
    ensures r.status == 200 <==> Truthy(userId) && userId.value in db.users
    ensures r.status == 200 ==> r.success && r.data == Some(PublicUser(userId.value, db.users[userId.value].username))
  {
    if !Truthy(userId) then Error(401, "Unauthorized")
    else match UserModel.GetUserById(db, userId.value)
      case None => Error(404, "User not found")
      case Some(user) => Reply(200, true, Some(Public(user)), "")
  }
}
