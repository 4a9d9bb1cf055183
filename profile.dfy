/**
 * The profile page: the signed-in user's saved pairs with derived statistics,
 * and the delete-one and clear-all actions on that list.
 */
module Profile {
  import opened Wrappers
  import opened Seqs
  import opened CollectionController
  import CollectionModel

  /**
   * One saved pair as the page reads it. `gameDate` and the game mode's name
   * are optional because the page reads fields that may be absent from what
   * the server sends; reading `.name` of an absent game mode throws.
   */
  datatype Entry = Entry(id: int, gameDate: Option<string>, gameMode: Option<string>)

  datatype Stats = Stats(totalCards: nat, correctCards: nat, languages: seq<string>, averageScore: int)

  const EmptyStats := Stats(0, 0, [], 0)

  /** `[...new Set(names)]`: each name once, in order of first occurrence. */
  function Dedup(names: seq<string>): (r: seq<string>)
    ensures NoDup(r)
    ensures forall n :: n in r <==> n in names
    ensures |r| <= |names|
  {
    if names == [] then []
    else
      var d := Dedup(names[..|names| - 1]);
      var last := names[|names| - 1];
      assert names == names[..|names| - 1] + [last];
      if last in d then d else d + [last]
  }

  /** The game-mode names of a list whose entries all carry one. */
  function ModeNames(list: seq<Entry>): (names: seq<string>)
    requires forall e :: e in list ==> e.gameMode.Some?
    ensures |names| == |list|
    ensures forall n :: n in names <==> exists e :: e in list && e.gameMode == Some(n)
  {
    var names := seq(|list|, i requires 0 <= i < |list| => list[i].gameMode.value);
    assert forall n :: n in names ==> exists e :: e in list && e.gameMode == Some(n) by {
      forall n | n in names
        ensures exists e :: e in list && e.gameMode == Some(n)
      {
        var i :| 0 <= i < |names| && names[i] == n;
        assert list[i] in list;
      }
    }
    assert forall e :: e in list ==> e.gameMode.value in names by {
      forall e | e in list
        ensures e.gameMode.value in names
      {
        var i :| 0 <= i < |list| && list[i] == e;
        assert names[i] == e.gameMode.value;
      }
    }
    names
  }

  /**
   * The statistics the page derives from a list: `None` when reading some
   * entry's game-mode name throws.
   */
  function StatsOf(list: seq<Entry>): (r: Option<Stats>)
    ensures r.Some? <==> forall e :: e in list ==> e.gameMode.Some?
    ensures r.Some? ==>
      && r.value.totalCards == |list| && r.value.correctCards == |list| && r.value.averageScore == 0
      && NoDup(r.value.languages)
      && forall n :: n in r.value.languages <==> exists e :: e in list && e.gameMode == Some(n)
  {
    if forall e :: e in list ==> e.gameMode.Some? then
      Some(Stats(|list|, |list|, Dedup(ModeNames(list)), 0))
    else None
  }

  /** `collection.filter(card => !(card.id === cardId && card.gameDate === gameDate))`. */
  function RemoveEntries(list: seq<Entry>, cardId: int, gameDate: Option<string>): (r: seq<Entry>)
    ensures |r| <= |list|
    ensures forall e :: e in r <==> e in list && !(e.id == cardId && e.gameDate == gameDate)
  {
    if list == [] then []
    else
      var last := list[|list| - 1];
      assert list == list[..|list| - 1] + [last];
      RemoveEntries(list[..|list| - 1], cardId, gameDate) +
        (if last.id == cardId && last.gameDate == gameDate then [] else [last])
  }

  /** Filtering a list with one more entry at the end filters that entry on its own. */
  lemma RemoveEntriesSnoc(list: seq<Entry>, e: Entry, cardId: int, gameDate: Option<string>)
    ensures RemoveEntries(list + [e], cardId, gameDate) ==
      RemoveEntries(list, cardId, gameDate) + (if e.id == cardId && e.gameDate == gameDate then [] else [e])
  {
    assert (list + [e])[..|list + [e]| - 1] == list;
  }

  /** The filter works entry by entry, so the entries it keeps stay in their order. */
  lemma {:induction false} RemoveEntriesAppend(a: seq<Entry>, b: seq<Entry>, cardId: int, gameDate: Option<string>)
    ensures RemoveEntries(a + b, cardId, gameDate) == RemoveEntries(a, cardId, gameDate) + RemoveEntries(b, cardId, gameDate)
  {
    if b == [] {
      assert a + b == a;
    } else {
      var init, last := b[..|b| - 1], b[|b| - 1];
      var tail := if last.id == cardId && last.gameDate == gameDate then [] else [last];
      assert a + b == (a + init) + [last];
      assert b == init + [last];
      calc {
        RemoveEntries(a + b, cardId, gameDate);
        { RemoveEntriesSnoc(a + init, last, cardId, gameDate); }
        RemoveEntries(a + init, cardId, gameDate) + tail;
        { RemoveEntriesAppend(a, init, cardId, gameDate); }
        RemoveEntries(a, cardId, gameDate) + RemoveEntries(init, cardId, gameDate) + tail;
        RemoveEntries(a, cardId, gameDate) + (RemoveEntries(init, cardId, gameDate) + tail);
        { RemoveEntriesSnoc(init, last, cardId, gameDate); }
        RemoveEntries(a, cardId, gameDate) + RemoveEntries(b, cardId, gameDate);
      }
    }
  }

  /** A list without the deleted entry is left as it is. */
  lemma {:induction false} RemoveEntriesAbsent(list: seq<Entry>, cardId: int, gameDate: Option<string>)
    requires forall e :: e in list ==> !(e.id == cardId && e.gameDate == gameDate)
    ensures RemoveEntries(list, cardId, gameDate) == list
  {
    if list != [] {
      RemoveEntriesAbsent(list[..|list| - 1], cardId, gameDate);
      assert list == list[..|list| - 1] + [list[|list| - 1]];
    }
  }

  /**
   * The list as the server's `getAllUserCollections` sends it: a row with its
   * two cards, carrying neither a game date nor a game mode.
   */
  function FromServer(entries: seq<CollectionModel.Entry>): (r: seq<Entry>)
    ensures |r| == |entries|
    ensures forall k :: 0 <= k < |r| ==> r[k].id == entries[k].row.id
    ensures forall e :: e in r ==> e.gameDate.None? && e.gameMode.None?
  {
    seq(|entries|, k requires 0 <= k < |entries| => Entry(entries[k].row.id, None, None))
  }

  /**
   * Deriving the statistics from a non-empty list of the server's shape
   * throws, so a user with saved pairs is sent to the login page.
   */
  lemma ServerListBreaksStats(entries: seq<CollectionModel.Entry>)
    requires entries != []
    ensures StatsOf(FromServer(entries)).None?
  {
    assert FromServer(entries)[0] in FromServer(entries);
  }

  /** The body `removeFromCollection(cardId)` sends: only the first field is filled in. */
  datatype RemoveCall = RemoveCall(card1Id: Option<int>, card2Id: Option<int>, gameModeId: Option<int>)

  /**
   * The server refuses the delete request this page sends, with status 400, so
   * the entry disappears from the page but stays in the table.
   */
  lemma DeleteRequestRefused(cardId: int)
    ensures var call := RemoveCall(Some(cardId), None, None);
      AnyFalsy(call.card1Id, call.card2Id, call.gameModeId)
  {
  }

  /** The page state. `navigatedTo` records the last navigation requested. */
  class ProfilePage {
    var username: string
    var collection: seq<Entry>
    var stats: Stats
    var navigatedTo: Option<string>
    var removeCalls: seq<RemoveCall>
    var clearCalls: nat

    constructor ()
      ensures username == "" && collection == [] && stats == EmptyStats
      ensures navigatedTo == None && removeCalls == [] && clearCalls == 0
    {
      username, collection, stats := "", [], EmptyStats;
      navigatedTo, removeCalls, clearCalls := None, [], 0;
    }

    /**
     * The load effect: with no signed-in user the page goes to the login page;
     * otherwise it shows the fetched list and its statistics, and goes to the
     * login page when deriving them throws, after the list is already shown.
     */
    method Load(me: Option<string>, fetched: seq<Entry>)
      modifies this`username, this`collection, this`stats, this`navigatedTo
      ensures me.None? || me.value == "" ==>
        navigatedTo == Some("/login") && username == old(username) &&
        collection == old(collection) && stats == old(stats)
      ensures me.Some? && me.value != "" ==> username == me.value && collection == fetched
      ensures me.Some? && me.value != "" && StatsOf(fetched).Some? ==>
        stats == StatsOf(fetched).value && navigatedTo == old(navigatedTo)
      ensures me.Some? && me.value != "" && StatsOf(fetched).None? ==>
        stats == old(stats) && navigatedTo == Some("/login")
    {
      if me.None? || me.value == "" {
        navigatedTo := Some("/login");
        return;
      }
      username := me.value;
      collection := fetched;
      var derived := StatsOf(fetched);
      if derived.None? {
        navigatedTo := Some("/login");
        return;
      }
      stats := derived.value;
    }

    /**
     * `deleteCard`: sends the request, then filters the list whatever the
     * server answered, and recomputes the statistics from the filtered list.
     */
    method DeleteCard(cardId: int, gameDate: Option<string>)
      modifies this`collection, this`stats, this`removeCalls
      ensures removeCalls == old(removeCalls) + [RemoveCall(Some(cardId), None, None)]
      ensures collection == RemoveEntries(old(collection), cardId, gameDate)
      ensures StatsOf(collection).Some? ==> stats == StatsOf(collection).value
      ensures StatsOf(collection).None? ==> stats == old(stats)
    {
      removeCalls := removeCalls + [RemoveCall(Some(cardId), None, None)];
      var updatedCollection := RemoveEntries(collection, cardId, gameDate);
      collection := updatedCollection;
      var derived := StatsOf(updatedCollection);
      if derived.Some? {
        stats := derived.value;
      }
    }

    /** `handleClearCollection`: only after confirmation, empties the list and zeroes the statistics. */
    method HandleClearCollection(confirmed: bool)
      modifies this`collection, this`stats, this`clearCalls
      ensures !confirmed ==> collection == old(collection) && stats == old(stats) && clearCalls == old(clearCalls)
      ensures confirmed ==> collection == [] && stats == EmptyStats && clearCalls == old(clearCalls) + 1
      ensures confirmed ==> StatsOf(collection) == Some(stats)
    {
      if confirmed {
        clearCalls := clearCalls + 1;
        collection := [];
        stats := EmptyStats;
      }
    }
  }
}
