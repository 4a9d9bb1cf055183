/** The relational schema the backend reads and writes, held in memory: the user
    table with its unique index on `username`, the static card catalog, and the
    collection table, which has no uniqueness constraint. */
module Database {
  import opened Wrappers

  /** A bcrypt digest. The hashing primitive stays outside the model: a digest
      records the salt it was drawn with and is checked only through `Compare`. */
  datatype Digest = Digest(salt: nat, secret: string)

  /** bcrypt reads at most this many bytes of a password. */
  const BcryptMaxBytes := 72

  /** The part of a password bcrypt reads: everything after the 72nd byte is ignored. */
  function Truncate(password: string): (t: string)
    ensures |t| <= BcryptMaxBytes && t <= password
    ensures |password| <= BcryptMaxBytes ==> t == password
    ensures |password| > BcryptMaxBytes ==> t == password[..BcryptMaxBytes]
  {
    if |password| <= BcryptMaxBytes then password else password[..BcryptMaxBytes]
  }

  /** `bcrypt.compare(password, digest)`. */
  predicate Compare(password: string, d: Digest)
  {
    Truncate(password) == d.secret
  }

  /** `bcrypt.hash(password, rounds)` with the salt drawn by the library supplied as `salt`:
      the digest accepts exactly the passwords that agree with this one on their first 72 bytes,
      so a password shorter than 72 bytes is accepted alone. */
  function Hash(password: string, salt: nat): (d: Digest)
    ensures d.salt == salt
    ensures forall attempt :: Compare(attempt, d) <==> Truncate(attempt) == Truncate(password)
    ensures |password| < BcryptMaxBytes ==>
      forall attempt :: Compare(attempt, d) <==> attempt == password
  {
    Digest(salt, Truncate(password))
  }

  /** Two passwords that differ only after their 72nd byte open the same digest. */
  lemma LongPasswordsCollide(password: string, other: string, salt: nat)
    requires |password| > BcryptMaxBytes && |other| > BcryptMaxBytes
    requires password[..BcryptMaxBytes] == other[..BcryptMaxBytes]
    ensures Compare(other, Hash(password, salt))
  {
  }

  datatype User = User(id: int, username: string, password: Digest, liveScore: int)

  /** A catalog card; `matchId` is nullable in the schema. */
  datatype Card = Card(id: int, detail: string, matchId: Option<int>, gameModeId: int)

  datatype CollectionRow = CollectionRow(id: int, userId: int, card1Id: int, card2Id: int, gameModeId: int)

  /** The database: each table keyed as the schema keys it. */
  class Db {
    var users: map<int, User>
    /** the unique index on `User.username` */
    var usernames: map<string, int>
    /** the next value of the user table's autoincrement key */
    var nextUserId: int
    var cards: map<int, Card>
    var collections: seq<CollectionRow>
    /** the next value of the collection table's autoincrement key */
    var nextRowId: int

    ghost predicate Valid()
      reads this
    {
      && (forall id :: id in users ==> users[id].id == id && id < nextUserId)
      && (forall name :: name in usernames ==> usernames[name] in users && users[usernames[name]].username == name)
      && (forall id :: id in users ==> users[id].username in usernames && usernames[users[id].username] == id)
      && (forall id :: id in cards ==> cards[id].id == id)
      && (forall row :: row in collections ==> row.id < nextRowId && row.card1Id in cards && row.card2Id in cards)
    }

    /** A database seeded with a card catalog and no users or collection rows. */
    constructor (catalog: map<int, Card>)
      requires forall id :: id in catalog ==> catalog[id].id == id
      ensures Valid()
      ensures users == map[] && usernames == map[] && cards == catalog && collections == []
    {
      users := map[];
      usernames := map[];
      nextUserId := 1;
      cards := catalog;
      collections := [];
      nextRowId := 1;
    }
  }

  /** Some user of the table has this username. */
  ghost predicate UsernameTaken(users: map<int, User>, username: string)
  {
    exists id :: id in users && users[id].username == username
  }
}
