/** The collection handlers: a required-field check, the model call, and the status. The
    session user id is always set here, since the routes sit behind the authentication step. */
module CollectionController {
  import opened Wrappers
  import opened Database
  import opened Http
  import opened CollectionModel

  const MissingFields := "Missing card IDs or gameModeId"

  /** `!card1Id || !card2Id || !gameModeId` on numeric body fields: absent or 0 is falsy. */
  predicate AnyFalsy(card1Id: Option<int>, card2Id: Option<int>, gameModeId: Option<int>)
  {
    !Truthy(card1Id) || !Truthy(card2Id) || !Truthy(gameModeId)
  }

  /** `addToCollection`: 400 and no change when a field is falsy, 0 included; otherwise the
      created row (200), or 500 when the model throws for an unknown card. */
  method Add(db: Db, userId: int, card1Id: Option<int>, card2Id: Option<int>, gameModeId: Option<int>)
    returns (r: Reply<CollectionRow>)
    requires db.Valid()
    modifies db`collections, db`nextRowId
    ensures db.Valid()
    ensures AnyFalsy(card1Id, card2Id, gameModeId) ==>
      r == Error(400, MissingFields) && db.collections == old(db.collections)
    ensures !AnyFalsy(card1Id, card2Id, gameModeId) && (card1Id.value !in db.cards || card2Id.value !in db.cards) ==>
      r.status == 500 && !r.success && db.collections == old(db.collections)
    ensures !AnyFalsy(card1Id, card2Id, gameModeId) && card1Id.value in db.cards && card2Id.value in db.cards ==>
      && r.status == 200 && r.success
      && r.data == Some(CollectionRow(old(db.nextRowId), userId, card1Id.value, card2Id.value, gameModeId.value))
      && db.collections == old(db.collections) + [r.data.value]
  {
    if AnyFalsy(card1Id, card2Id, gameModeId) {
      return Error(400, MissingFields);
    }
    var added := AddToCollection(db, userId, card1Id.value, card2Id.value, gameModeId.value);
    if added.Failure? {
      return Error(500, "Error: Error: " + added.error);
    }
    r := Reply(200, true, Some(added.value), "");
  }

  /** `removeFromCollection`: 400 and no change when a field is falsy; otherwise every row with
      that tuple is deleted and the reply is a success however many rows went, none included. */
  method Remove(db: Db, userId: int, card1Id: Option<int>, card2Id: Option<int>, gameModeId: Option<int>)
    returns (r: Reply<()>)
    requires db.Valid()
    modifies db`collections
    ensures db.Valid()
    ensures AnyFalsy(card1Id, card2Id, gameModeId) ==>
      r == Error(400, MissingFields) && db.collections == old(db.collections)
    ensures !AnyFalsy(card1Id, card2Id, gameModeId) ==>
      && r.status == 200 && r.success && r.msg == "Removed successfully"
      && db.collections == DeleteMany(old(db.collections), ByTuple(userId, card1Id.value, card2Id.value, gameModeId.value))
  {
    if AnyFalsy(card1Id, card2Id, gameModeId) {
      return Error(400, MissingFields);
    }
    var _ := RemoveFromCollection(db, userId, card1Id.value, card2Id.value, gameModeId.value);
    r := Reply(200, true, None, "Removed successfully");
  }

  /** `clearCollection`: every row of the user is deleted and the reply is always a success. */
  method Clear(db: Db, userId: int) returns (r: Reply<()>)
    requires db.Valid()
    modifies db`collections
    ensures db.Valid()
    ensures r.status == 200 && r.success
    ensures db.collections == DeleteMany(old(db.collections), ByUser(userId))
  {
    var _ := ClearUserCollection(db, userId);
    r := Reply(200, true, None, "All items cleared from collection");
  }

  /** `getAllUserCollections`: the user's rows with their cards joined in. */
  function List(db: Db, userId: int): (r: Reply<seq<Entry>>)
    reads db
    requires db.Valid()
    ensures r.status == 200 && r.success && r.data == Some(GetAllUserCollections(db, userId))
    ensures |r.data.value| == |FindMany(db.collections, ByUser(userId))|
    ensures forall e :: e in r.data.value ==> e.row in db.collections && e.row.userId == userId
  {
    var entries := GetAllUserCollections(db, userId);
    assert forall e :: e in entries ==> exists i :: 0 <= i < |entries| && entries[i] == e;
    Reply(200, true, Some(entries), "")
  }
}
