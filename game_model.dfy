/** The live-score tracker and the card lookups of the game model: every user row
    carries one mutable `liveScore`, zeroed when a round starts or finishes and moved
    by one for each pair the player submits. */
module GameModel {
  import opened Wrappers
  import opened Database
  import opened Seqs

  /** The message of the error Prisma throws when `update` finds no row. */
  const RecordNotFound := "Record to update not found."
  const CardNotFound := "Card not found"

  /** The users table with one user's live score replaced. */
  function WithScore(users: map<int, User>, userId: int, score: int): map<int, User>
    requires userId in users
  {
    users[userId := users[userId].(liveScore := score)]
  }

  /** `startNewGame`: the user's live score becomes 0; no other user and no other field changes.
      A missing user makes the update throw and changes nothing. */
  method StartNewGame(db: Db, userId: int) returns (r: Outcome)
    requires db.Valid()
    modifies db`users
    ensures db.Valid()
    ensures userId in old(db.users) ==> r == Pass && db.users == WithScore(old(db.users), userId, 0)
    ensures userId !in old(db.users) ==> r == Fail(RecordNotFound) && db.users == old(db.users)
  {
    if userId !in db.users {
      return Fail(RecordNotFound);
    }
    db.users := WithScore(db.users, userId, 0);
    r := Pass;
  }

  /** `updateLiveGame`: adds +1 for a match and -1 otherwise, with no floor, and returns the
      score after the update. */
  method UpdateLiveGame(db: Db, userId: int, isMatch: bool) returns (r: Result<int>)
    requires db.Valid()
    modifies db`users
    ensures db.Valid()
    ensures userId in old(db.users) ==>
      && r.Success?
      && r.value - old(db.users)[userId].liveScore == (if isMatch then 1 else -1)
      && db.users == WithScore(old(db.users), userId, r.value)
    ensures userId !in old(db.users) ==> r == Failure(RecordNotFound) && db.users == old(db.users)
  {
    if userId !in db.users {
      return Failure(RecordNotFound);
    }
    var scoreDelta := if isMatch then 1 else -1;
    db.users := WithScore(db.users, userId, db.users[userId].liveScore + scoreDelta);
    r := Success(db.users[userId].liveScore);
  }

  /** `endGame`: the user's live score becomes 0, like `startNewGame`. */
  method EndGame(db: Db, userId: int) returns (r: Outcome)
    requires db.Valid()
    modifies db`users
    ensures db.Valid()
    ensures userId in old(db.users) ==> r == Pass && db.users == WithScore(old(db.users), userId, 0)
    ensures userId !in old(db.users) ==> r == Fail(RecordNotFound) && db.users == old(db.users)
  {
    if userId !in db.users {
      return Fail(RecordNotFound);
    }
    db.users := WithScore(db.users, userId, 0);
    r := Pass;
  }

  /** The score after a run of `updateLiveGame` calls starting from `start`, one per result. */
  function ScoreAfter(start: int, results: seq<bool>): int
  {
    if results == [] then start
    else ScoreAfter(start, results[..|results| - 1]) + (if results[|results| - 1] then 1 else -1)
  }

  /** The score moves by the number of matches minus the number of misses: each call moves it
      by exactly one, and a run with more misses than matches ends below its start. */
  lemma {:induction false} ScoreAfterCounts(start: int, results: seq<bool>)
    ensures ScoreAfter(start, results) == start + 2 * CountTrue(results) - |results|
    ensures start - |results| <= ScoreAfter(start, results) <= start + |results|
  {
    if results != [] {
      ScoreAfterCounts(start, results[..|results| - 1]);
    }
  }

  /** A run of `updateLiveGame` calls for one registered user, one per result, in order: the
      k-th call returns the score after the first k + 1 results, and the stored score ends at
      the score after all of them. */
  method UpdateLiveGames(db: Db, userId: int, results: seq<bool>) returns (scores: seq<int>)
    requires db.Valid() && userId in db.users
    modifies db`users
    ensures db.Valid()
    ensures db.users == WithScore(old(db.users), userId, ScoreAfter(old(db.users)[userId].liveScore, results))
    ensures |scores| == |results|
    ensures forall k :: 0 <= k < |results| ==>
      scores[k] == ScoreAfter(old(db.users)[userId].liveScore, results[..k + 1])
  {
    ghost var users0 := db.users;
    ghost var start := db.users[userId].liveScore;
    scores := [];
    for k := 0 to |results|
      invariant db.Valid() && userId in db.users
      invariant db.users == WithScore(users0, userId, ScoreAfter(start, results[..k]))
      invariant |scores| == k
      invariant forall j :: 0 <= j < k ==> scores[j] == ScoreAfter(start, results[..j + 1])
    {
      var r := UpdateLiveGame(db, userId, results[k]);
      assert results[..k + 1][..k] == results[..k];
      scores := scores + [r.value];
    }
    assert results[..|results|] == results;
  }

  /** A whole round for a registered user: the score starts at 0, follows the submitted results
      one call at a time, and is 0 again once the round ends. */
  method PlayRound(db: Db, userId: int, results: seq<bool>) returns (scores: seq<int>)
    requires db.Valid() && userId in db.users
    modifies db`users
    ensures db.Valid()
    ensures |scores| == |results|
    ensures forall k :: 0 <= k < |results| ==> scores[k] == ScoreAfter(0, results[..k + 1])
    ensures forall k :: 0 <= k < |results| ==> -(k + 1) <= scores[k] <= k + 1
    ensures db.users == WithScore(old(db.users), userId, 0)
  {
    var started := StartNewGame(db, userId);
    scores := UpdateLiveGames(db, userId, results);
    forall k | 0 <= k < |results|
      ensures -(k + 1) <= scores[k] <= k + 1
    {
      ScoreAfterCounts(0, results[..k + 1]);
    }
    var ended := EndGame(db, userId);
  }

  /** `card1.matchId === card2.id || card2.matchId === card1.id`: either card names the other. */
  predicate Pairs(card1: Card, card2: Card)
  {
    card1.matchId == Some(card2.id) || card2.matchId == Some(card1.id)
  }

  /** `isCardMatch`: throws when either id is not in the catalog; otherwise tells whether one
      of the two cards names the other as its match. Reads the catalog and changes nothing. */
  function IsCardMatch(db: Db, card1Id: int, card2Id: int): (r: Result<bool>)
    reads db
    requires db.Valid()
    ensures r.Failure? <==> card1Id !in db.cards || card2Id !in db.cards
    ensures r.Failure? ==> r.error == CardNotFound
    ensures r.Success? ==>
      (r.value <==> db.cards[card1Id].matchId == Some(card2Id) || db.cards[card2Id].matchId == Some(card1Id))
  {
    if card1Id !in db.cards || card2Id !in db.cards then Failure(CardNotFound)
    else Success(Pairs(db.cards[card1Id], db.cards[card2Id]))
  }

  /** The order of the two ids does not matter. */
  lemma IsCardMatchSymmetric(db: Db, card1Id: int, card2Id: int)
    requires db.Valid()
    ensures IsCardMatch(db, card1Id, card2Id) == IsCardMatch(db, card2Id, card1Id)
  {
  }

  /** `getCardsByGameMode`: exactly the catalog cards of that game mode. */
  function GetCardsByGameMode(db: Db, gameModeId: int): (r: set<Card>)
    reads db
    requires db.Valid()
    ensures forall c :: c in r <==> c.id in db.cards && db.cards[c.id] == c && c.gameModeId == gameModeId
  {
    set id | id in db.cards && db.cards[id].gameModeId == gameModeId :: db.cards[id]
  }

  /** `getCardDetail`: the card with that id, or none. */
  function GetCardDetail(db: Db, cardId: int): (r: Option<Card>)
    reads db
    requires db.Valid()
    ensures r.Some? <==> cardId in db.cards
    ensures r.Some? ==> r.value.id == cardId && r.value == db.cards[cardId]
  {
    if cardId in db.cards then Some(db.cards[cardId]) else None
  }
}
