/** The user registry: usernames are unique, passwords are stored only as bcrypt digests. */
module UserModel {
  import opened Wrappers
  import opened Database

  const AlreadyRegistered := "Username is already registered"

  /** `getUserByUsername`: the one user with that username, or none. The lookup goes through
      the unique index; the contract speaks of the user table itself. */
  function GetUserByUsername(db: Db, username: string): (r: Option<User>)
    reads db
    requires db.Valid()
    ensures r.Some? <==> UsernameTaken(db.users, username)
    ensures r.Some? ==> r.value.id in db.users && db.users[r.value.id] == r.value && r.value.username == username
    ensures r.Some? ==> forall id :: id in db.users && db.users[id].username == username ==> id == r.value.id
  {
    if username in db.usernames then
      var id := db.usernames[username];
      assert id in db.users && db.users[id].username == username;
      Some(db.users[id])
    else None
  }

  /** `getUserById`: the user with that id, or none. */
  function GetUserById(db: Db, id: int): (r: Option<User>)
    reads db
    requires db.Valid()
    ensures r.Some? <==> id in db.users
    ensures r.Some? ==> r.value.id == id && r.value == db.users[id]
  {
    if id in db.users then Some(db.users[id]) else None
  }

  /** `createUser`: refuses a username that is already registered, changing nothing; otherwise
      inserts exactly one user with that username, the digest of the password and a live score
      of 0 (the schema default), so usernames stay unique. */
  method CreateUser(db: Db, username: string, password: string, salt: nat) returns (r: Result<User>)
    requires db.Valid()
    modifies db`users, db`usernames, db`nextUserId
    ensures db.Valid()
    ensures UsernameTaken(old(db.users), username) ==>
      r == Failure(AlreadyRegistered) && db.users == old(db.users) && db.usernames == old(db.usernames)
      && db.nextUserId == old(db.nextUserId)
    ensures !UsernameTaken(old(db.users), username) ==>
      && r.Success?
      && r.value == User(old(db.nextUserId), username, Hash(password, salt), 0)
      && r.value.id !in old(db.users)
      && db.users == old(db.users)[r.value.id := r.value]
      && db.nextUserId == old(db.nextUserId) + 1
  {
    var existing := GetUserByUsername(db, username);
    if existing.Some? {
      return Failure(AlreadyRegistered);
    }
    var hashedPassword := Hash(password, salt);
    var user := User(db.nextUserId, username, hashedPassword, 0);
    db.users := db.users[user.id := user];
    db.usernames := db.usernames[username := user.id];
    db.nextUserId := db.nextUserId + 1;
    r := Success(user);
  }

  /** Every stored user is the one its username finds. */
  lemma RegisteredIsFound(db: Db, user: User)
    requires db.Valid() && user.id in db.users && db.users[user.id] == user
    ensures GetUserByUsername(db, user.username) == Some(user)
  {
  }
}
