/** The collection table: rows `(userId, card1Id, card2Id, gameModeId)` with an autoincrement
    id and no uniqueness constraint, so the same tuple may be saved many times. */
module CollectionModel {
  import opened Wrappers
  import opened Database

  const CardsNotFound := "One or both cards not found"

  /** The `where` clauses the model passes to `findMany` and `deleteMany`. */
  datatype Where =
    | ByUser(userId: int)
    | ByTuple(userId: int, card1Id: int, card2Id: int, gameModeId: int)

  predicate Hits(w: Where, row: CollectionRow)
  {
    match w
    case ByUser(u) => row.userId == u
    case ByTuple(u, c1, c2, g) => row.userId == u && row.card1Id == c1 && row.card2Id == c2 && row.gameModeId == g
  }

  /** `findMany({ where })`: the rows the clause selects, in table order. */
  function FindMany(rows: seq<CollectionRow>, w: Where): (r: seq<CollectionRow>)
    ensures |r| <= |rows|
  {
    if rows == [] then []
    else FindMany(rows[..|rows| - 1], w) + (if Hits(w, rows[|rows| - 1]) then [rows[|rows| - 1]] else [])
  }

  /** `deleteMany({ where })`: the table without the rows the clause selects, in table order. */
  function DeleteMany(rows: seq<CollectionRow>, w: Where): (r: seq<CollectionRow>)
    ensures |r| <= |rows|
  {
    if rows == [] then []
    else DeleteMany(rows[..|rows| - 1], w) + (if Hits(w, rows[|rows| - 1]) then [] else [rows[|rows| - 1]])
  }

  /** `findMany` returns each selected row as often as it is stored, and no other row. */
  lemma {:induction false} FindManyCount(rows: seq<CollectionRow>, w: Where, x: CollectionRow)
    ensures multiset(FindMany(rows, w))[x] == if Hits(w, x) then multiset(rows)[x] else 0
    ensures x in FindMany(rows, w) <==> x in rows && Hits(w, x)
  {
    if rows != [] {
      var init, last := rows[..|rows| - 1], rows[|rows| - 1];
      assert rows == init + [last];
      FindManyCount(init, w, x);
    }
  }

  /** `deleteMany` removes every selected row and keeps every other row as often as it is stored. */
  lemma {:induction false} DeleteManyCount(rows: seq<CollectionRow>, w: Where, x: CollectionRow)
    ensures multiset(DeleteMany(rows, w))[x] == if Hits(w, x) then 0 else multiset(rows)[x]
    ensures x in DeleteMany(rows, w) <==> x in rows && !Hits(w, x)
  {
    if rows != [] {
      var init, last := rows[..|rows| - 1], rows[|rows| - 1];
      assert rows == init + [last];
      DeleteManyCount(init, w, x);
    }
  }

  /** Every row `deleteMany` keeps is a stored row. */
  lemma DeleteManyInTable(rows: seq<CollectionRow>, w: Where)
    ensures forall x :: x in DeleteMany(rows, w) ==> x in rows
  {
    forall x | x in DeleteMany(rows, w)
      ensures x in rows
    {
      DeleteManyCount(rows, w, x);
    }
  }

  /** The rows a `deleteMany` removes are the rows a `findMany` with the same clause returns,
      so the count it reports is their number. */
  lemma {:induction false} DeleteManySize(rows: seq<CollectionRow>, w: Where)
    ensures |DeleteMany(rows, w)| + |FindMany(rows, w)| == |rows|
  {
    if rows != [] {
      DeleteManySize(rows[..|rows| - 1], w);
    }
  }

  /** A `deleteMany` that selects nothing leaves the table exactly as it was. */
  lemma {:induction false} DeleteManyNoHit(rows: seq<CollectionRow>, w: Where)
    requires forall x :: x in rows ==> !Hits(w, x)
    ensures DeleteMany(rows, w) == rows
  {
    if rows != [] {
      var init, last := rows[..|rows| - 1], rows[|rows| - 1];
      assert rows == init + [last];
      assert last in rows;
      DeleteManyNoHit(init, w);
    }
  }

  /** A `findMany` over a table where nothing is selected returns nothing. */
  lemma {:induction false} FindManyNoHit(rows: seq<CollectionRow>, w: Where)
    requires forall x :: x in rows ==> !Hits(w, x)
    ensures FindMany(rows, w) == []
  {
    if rows != [] {
      var init, last := rows[..|rows| - 1], rows[|rows| - 1];
      assert rows == init + [last];
      assert last in rows;
      FindManyNoHit(init, w);
    }
  }

  /** Appending one row extends every `findMany` result by that row when the clause selects it. */
  lemma FindManyAppend(rows: seq<CollectionRow>, row: CollectionRow, w: Where)
    ensures FindMany(rows + [row], w) == FindMany(rows, w) + (if Hits(w, row) then [row] else [])
  {
    assert (rows + [row])[..|rows + [row]| - 1] == rows;
  }

  /** Clearing a user leaves no row of that user: a listing afterwards is empty, and clearing
      again changes nothing. */
  lemma ClearThenList(rows: seq<CollectionRow>, userId: int)
    ensures FindMany(DeleteMany(rows, ByUser(userId)), ByUser(userId)) == []
    ensures DeleteMany(DeleteMany(rows, ByUser(userId)), ByUser(userId)) == DeleteMany(rows, ByUser(userId))
  {
    var cleared := DeleteMany(rows, ByUser(userId));
    forall x | x in cleared
      ensures !Hits(ByUser(userId), x)
    {
      DeleteManyCount(rows, ByUser(userId), x);
    }
    DeleteManyNoHit(cleared, ByUser(userId));
    FindManyNoHit(cleared, ByUser(userId));
  }

  /** Clearing one user leaves every other user's listing as it was, order included. */
  lemma {:induction false} ClearKeepsOthers(rows: seq<CollectionRow>, userId: int, other: int)
    requires other != userId
    ensures FindMany(DeleteMany(rows, ByUser(userId)), ByUser(other)) == FindMany(rows, ByUser(other))
  {
    if rows != [] {
      var init, last := rows[..|rows| - 1], rows[|rows| - 1];
      ClearKeepsOthers(init, userId, other);
      var kept := DeleteMany(init, ByUser(userId));
      if Hits(ByUser(userId), last) {
        assert DeleteMany(rows, ByUser(userId)) == kept;
      } else {
        assert DeleteMany(rows, ByUser(userId)) == kept + [last];
        FindManyAppend(kept, last, ByUser(other));
      }
    }
  }

  /** `addToCollection`: fails, inserting nothing, when either card is not in the catalog;
      otherwise appends exactly one new row, even when the same tuple is already stored. */
  method AddToCollection(db: Db, userId: int, card1Id: int, card2Id: int, gameModeId: int)
    returns (r: Result<CollectionRow>)
    requires db.Valid()
    modifies db`collections, db`nextRowId
    ensures db.Valid()
    ensures card1Id !in db.cards || card2Id !in db.cards ==>
      r == Failure(CardsNotFound) && db.collections == old(db.collections) && db.nextRowId == old(db.nextRowId)
    ensures card1Id in db.cards && card2Id in db.cards ==>
      && r.Success?
      && r.value == CollectionRow(old(db.nextRowId), userId, card1Id, card2Id, gameModeId)
      && db.collections == old(db.collections) + [r.value]
      && db.nextRowId == old(db.nextRowId) + 1
  {
    if card1Id !in db.cards || card2Id !in db.cards {
      return Failure(CardsNotFound);
    }
    var row := CollectionRow(db.nextRowId, userId, card1Id, card2Id, gameModeId);
    db.collections := db.collections + [row];
    db.nextRowId := db.nextRowId + 1;
    r := Success(row);
  }

  /** Saving a tuple adds one to the number of stored rows with that tuple, however many there were. */
  lemma AddCountsTuple(rows: seq<CollectionRow>, row: CollectionRow)
    ensures var w := ByTuple(row.userId, row.card1Id, row.card2Id, row.gameModeId);
      |FindMany(rows + [row], w)| == |FindMany(rows, w)| + 1
  {
    FindManyAppend(rows, row, ByTuple(row.userId, row.card1Id, row.card2Id, row.gameModeId));
  }

  /** `removeFromCollection`: deletes every row equal to the tuple on all four fields, keeps
      every other row, and reports how many went. */
  method RemoveFromCollection(db: Db, userId: int, card1Id: int, card2Id: int, gameModeId: int)
    returns (count: nat)
    requires db.Valid()
    modifies db`collections
    ensures db.Valid()
    ensures db.collections == DeleteMany(old(db.collections), ByTuple(userId, card1Id, card2Id, gameModeId))
    ensures count == |FindMany(old(db.collections), ByTuple(userId, card1Id, card2Id, gameModeId))|
  {
    var w := ByTuple(userId, card1Id, card2Id, gameModeId);
    DeleteManySize(db.collections, w);
    DeleteManyInTable(db.collections, w);
    count := |db.collections| - |DeleteMany(db.collections, w)|;
    db.collections := DeleteMany(db.collections, w);
  }

  /** `clearUserCollection`: deletes every row of the user and reports how many went. */
  method ClearUserCollection(db: Db, userId: int) returns (count: nat)
    requires db.Valid()
    modifies db`collections
    ensures db.Valid()
    ensures db.collections == DeleteMany(old(db.collections), ByUser(userId))
    ensures count == |FindMany(old(db.collections), ByUser(userId))|
  {
    DeleteManySize(db.collections, ByUser(userId));
    DeleteManyInTable(db.collections, ByUser(userId));
    count := |db.collections| - |DeleteMany(db.collections, ByUser(userId))|;
    db.collections := DeleteMany(db.collections, ByUser(userId));
  }

  /** Every row `findMany` returns is a stored row the clause selects. */
  lemma FindManyInTable(rows: seq<CollectionRow>, w: Where)
    ensures forall i :: 0 <= i < |FindMany(rows, w)| ==> FindMany(rows, w)[i] in rows && Hits(w, FindMany(rows, w)[i])
  {
    forall i | 0 <= i < |FindMany(rows, w)|
      ensures FindMany(rows, w)[i] in rows && Hits(w, FindMany(rows, w)[i])
    {
      FindManyCount(rows, w, FindMany(rows, w)[i]);
    }
  }

  /** A listed row with both of its cards joined in (`include: { card1: true, card2: true }`). */
  datatype Entry = Entry(row: CollectionRow, card1: Card, card2: Card)

  /** `getAllUserCollections`: the user's rows, in table order, each with its two cards. */
  function GetAllUserCollections(db: Db, userId: int): (r: seq<Entry>)
    reads db
    requires db.Valid()
    ensures |r| == |FindMany(db.collections, ByUser(userId))|
    ensures forall i :: 0 <= i < |r| ==> r[i].row in db.collections && r[i].row.userId == userId
    ensures forall i :: 0 <= i < |r| ==>
      && r[i].row == FindMany(db.collections, ByUser(userId))[i]
      && r[i].card1 == db.cards[r[i].row.card1Id]
      && r[i].card2 == db.cards[r[i].row.card2Id]
  {
    var rows, cards := FindMany(db.collections, ByUser(userId)), db.cards;
    FindManyInTable(db.collections, ByUser(userId));
    seq(|rows|, i requires 0 <= i < |rows| => Entry(rows[i], cards[rows[i].card1Id], cards[rows[i].card2Id]))
  }
}
