/** The game handlers: validate the request, call the game model, and pick the status. */
module GameController {
  import opened Wrappers
  import opened Database
  import opened Http
  import GameModel

  /** A JavaScript number: NaN, an integer, or some other number (a fraction or an infinity). */
  datatype Numeric = NaN | Int(value: int) | NonInteger

  /** The range of Prisma's `Int` type, a signed 32-bit integer. */
  predicate Int32(v: int)
  {
    -0x8000_0000 <= v < 0x8000_0000
  }

  /** A number Prisma accepts as a value for an `Int` column; any other number makes the query
      throw a validation error. */
  predicate Queryable(n: Numeric)
  {
    n.Int? && Int32(n.value)
  }

  const PrismaValidation := "PrismaClientValidationError: Invalid value provided. Expected Int."

  datatype ScoreUpdate = ScoreUpdate(score: int, isMatch: bool)

  /** `startGame`: 401 and no change without a session user; otherwise the user's live score
      becomes 0 (200), or the update throws for a missing user (500) and nothing changes. */
  method StartGame(db: Db, userId: Option<int>) returns (r: Reply<()>)
    requires db.Valid()
    modifies db`users
    ensures db.Valid()
    ensures !Truthy(userId) ==> r.status == 401 && db.users == old(db.users)
    ensures Truthy(userId) && userId.value !in old(db.users) ==> r.status == 500 && db.users == old(db.users)
    ensures Truthy(userId) && userId.value in old(db.users) ==>
      r.status == 200 && r.success && db.users == GameModel.WithScore(old(db.users), userId.value, 0)
  {
    if !Truthy(userId) {
      return Error(401, "Unauthorized");
    }
    var outcome := GameModel.StartNewGame(db, userId.value);
    if outcome.Fail? {
      return Error(500, "Error starting game: Error: " + outcome.error);
    }
    r := Reply(200, true, None, "Game started");
  }

  /** `updateGame`: 400 unless there is a session user and both card ids are numbers; a number
      Prisma refuses gives 500; then the match is evaluated BEFORE the score moves, so an unknown
      card gives 500 and leaves the score alone; otherwise the score moves by one and both values
      are returned. A body field that is not of type number is `None`. */
  method UpdateGame(db: Db, userId: Option<int>, card1Id: Option<Numeric>, card2Id: Option<Numeric>)
    returns (r: Reply<ScoreUpdate>)
    requires db.Valid()
    modifies db`users
    ensures db.Valid()
    ensures !Truthy(userId) || card1Id.None? || card2Id.None? ==> r.status == 400 && db.users == old(db.users)
    ensures Truthy(userId) && card1Id.Some? && card2Id.Some? && !(Queryable(card1Id.value) && Queryable(card2Id.value)) ==>
      r.status == 500 && db.users == old(db.users)
    ensures Truthy(userId) && card1Id.Some? && card2Id.Some? && Queryable(card1Id.value) && Queryable(card2Id.value) ==>
      var matched := GameModel.IsCardMatch(db, card1Id.value.value, card2Id.value.value);
      && (matched.Failure? ==> r.status == 500 && db.users == old(db.users))
      && (matched.Success? && userId.value !in old(db.users) ==> r.status == 500 && db.users == old(db.users))
      && (matched.Success? && userId.value in old(db.users) ==>
            && r.status == 200 && r.success && r.data.Some?
            && r.data.value.isMatch == matched.value
            && r.data.value.score == old(db.users)[userId.value].liveScore + (if matched.value then 1 else -1)
            && db.users == GameModel.WithScore(old(db.users), userId.value, r.data.value.score))
  {
    if !Truthy(userId) || card1Id.None? || card2Id.None? {
      return Error(400, "Invalid input format");
    }
    if !Queryable(card1Id.value) || !Queryable(card2Id.value) {
      return Error(500, "Error updating game: " + PrismaValidation);
    }
    var isMatch := GameModel.IsCardMatch(db, card1Id.value.value, card2Id.value.value);
    if isMatch.Failure? {
      return Error(500, "Error updating game: Error: " + isMatch.error);
    }
    var score := GameModel.UpdateLiveGame(db, userId.value, isMatch.value);
    if score.Failure? {
      return Error(500, "Error updating game: Error: " + score.error);
    }
    r := Reply(200, true, Some(ScoreUpdate(score.value, isMatch.value)), "");
  }

  /** `finishGame`: as `startGame`, the live score returns to 0. */
  method FinishGame(db: Db, userId: Option<int>) returns (r: Reply<()>)
    requires db.Valid()
    modifies db`users
    ensures db.Valid()
    ensures !Truthy(userId) ==> r.status == 401 && db.users == old(db.users)
    ensures Truthy(userId) && userId.value !in old(db.users) ==> r.status == 500 && db.users == old(db.users)
    ensures Truthy(userId) && userId.value in old(db.users) ==>
      r.status == 200 && r.success && db.users == GameModel.WithScore(old(db.users), userId.value, 0)
  {
    if !Truthy(userId) {
      return Error(401, "Unauthorized");
    }
    var outcome := GameModel.EndGame(db, userId.value);
    if outcome.Fail? {
      return Error(500, "Error finishing game: Error: " + outcome.error);
    }
    r := Reply(200, true, None, "Game finished and score reset");
  }

  /** `getCardsByGameMode`: 400 for a parameter that is not a number, 500 for a number Prisma
      refuses, otherwise exactly the cards of that mode. */
  function GetCardsByGameMode(db: Db, gameModeId: Numeric): (r: Reply<set<Card>>)
    reads db
    requires db.Valid()
    ensures r.status == 400 <==> gameModeId.NaN?
    ensures r.status == 500 <==> !gameModeId.NaN? && !Queryable(gameModeId)
    ensures r.status == 200 <==> Queryable(gameModeId)
    ensures Queryable(gameModeId) ==>
      r.success && r.data.Some?
      && forall c :: c in r.data.value <==> c.id in db.cards && db.cards[c.id] == c && c.gameModeId == gameModeId.value
  {
    match gameModeId
    case NaN => Error(400, "Invalid or missing gameModeId")
    case NonInteger => Error(500, "Error: " + PrismaValidation)
    case Int(g) =>
      if !Int32(g) then Error(500, "Error: " + PrismaValidation)
      else Reply(200, true, Some(GameModel.GetCardsByGameMode(db, g)), "")
  }

  /** `getCardDetail`: 400 for a parameter that is not a number, 500 for a number Prisma refuses,
      404 for an id not in the catalog, otherwise that card. */
  function GetCardDetail(db: Db, cardId: Numeric): (r: Reply<Card>)
    reads db
    requires db.Valid()
    ensures r.status == 400 <==> cardId.NaN?
    ensures r.status == 500 <==> !cardId.NaN? && !Queryable(cardId)
    ensures r.status == 404 <==> Queryable(cardId) && cardId.value !in db.cards
    ensures r.status == 200 <==> Queryable(cardId) && cardId.value in db.cards
    ensures r.status == 200 ==> r.success && r.data == Some(db.cards[cardId.value])
  {
    match cardId
    case NaN => Error(400, "Invalid cardId")
    case NonInteger => Error(500, "Error: " + PrismaValidation)
    case Int(id) =>
      if !Int32(id) then Error(500, "Error: " + PrismaValidation)
      else match GameModel.GetCardDetail(db, id)
      case None => Error(404, "Card not found")
      case Some(card) => Reply(200, true, Some(card), "")
  }
}
