/**
 * The summary page shown after a game: it rebuilds the mode's card pairs from
 * the catalog, marks which of them the player attempted and got right, lets
 * the player pick pairs and saves the picked ones to the collection.
 */
module Summary {
  import opened Wrappers
  import opened Http
  import opened Database
  import opened Seqs

  /** One evaluated pair the game page hands over: `{ card1Id, card2Id, isMatch }`. */
  datatype Attempt = Attempt(card1Id: int, card2Id: int, isMatch: bool)

  datatype Side = Side(id: int, detail: string)

  /** A rebuilt pair; the random display colour is not modelled. */
  datatype Question = Question(
    id: int, card1: Side, card2: Side,
    isCorrect: bool, wasAttempted: bool, isAddedToProfile: bool, gameModeId: int)

  /** The two catalog cards a question was built from. */
  datatype Source = Source(first: Card, second: Card)

  /** A card other than `card` that shares its `matchId`. */
  predicate Partners(c: Card, card: Card)
  {
    c.id != card.id && c.matchId == card.matchId
  }

  /** `allCards.find(c => c.id !== card.id && c.matchId === card.matchId)`. */
  function FindPartner(allCards: seq<Card>, card: Card): (r: Option<Card>)
    ensures r.Some? ==> r.value in allCards && Partners(r.value, card)
    ensures r.None? <==> forall c :: c in allCards ==> !Partners(c, card)
  {
    if allCards == [] then None
    else if Partners(allCards[0], card) then Some(allCards[0])
    else FindPartner(allCards[1..], card)
  }

  /** The partner found is the card at the first position that partners `card`. */
  lemma {:induction false} FindPartnerFirst(allCards: seq<Card>, card: Card, i: nat)
    requires i < |allCards| && Partners(allCards[i], card)
    requires forall k :: 0 <= k < i ==> !Partners(allCards[k], card)
    ensures FindPartner(allCards, card) == Some(allCards[i])
  {
    if i > 0 {
      assert !Partners(allCards[0], card);
      FindPartnerFirst(allCards[1..], card, i - 1);
    }
  }

  /** An attempt names the two cards, in either order. */
  predicate Names(a: Attempt, id1: int, id2: int)
  {
    (a.card1Id == id1 && a.card2Id == id2) || (a.card1Id == id2 && a.card2Id == id1)
  }

  /** `matchedPairs.find(...)`: the first attempt naming the two cards. */
  function FindAttempt(attempts: seq<Attempt>, id1: int, id2: int): (r: Option<Attempt>)
    ensures r.Some? ==> r.value in attempts && Names(r.value, id1, id2)
    ensures r.None? <==> forall a :: a in attempts ==> !Names(a, id1, id2)
  {
    if attempts == [] then None
    else if Names(attempts[0], id1, id2) then Some(attempts[0])
    else FindAttempt(attempts[1..], id1, id2)
  }

  /** The attempt found is the one at the first position naming the two cards. */
  lemma {:induction false} FindAttemptFirst(attempts: seq<Attempt>, id1: int, id2: int, i: nat)
    requires i < |attempts| && Names(attempts[i], id1, id2)
    requires forall k :: 0 <= k < i ==> !Names(attempts[k], id1, id2)
    ensures FindAttempt(attempts, id1, id2) == Some(attempts[i])
  {
    if i > 0 {
      assert !Names(attempts[0], id1, id2);
      FindAttemptFirst(attempts[1..], id1, id2, i - 1);
    }
  }


  /** A card that opens a pair: truthy `matchId`, a partner, and both details fetched. */
  predicate Ready(allCards: seq<Card>, details: map<int, string>, c: Card)
  {
    && Truthy(c.matchId)
    && FindPartner(allCards, c).Some?
    && c.id in details && FindPartner(allCards, c).value.id in details
  }

  /** The `matchId`s already turned into a question. */
  function MatchIds(sources: seq<Source>): set<int>
  {
    set j | 0 <= j < |sources| && sources[j].first.matchId.Some? :: sources[j].first.matchId.value
  }

  lemma MatchIdsFresh(sources: seq<Source>, v: int)
    requires v !in MatchIds(sources)
    ensures forall j :: 0 <= j < |sources| ==> sources[j].first.matchId != Some(v)
  {
  }

  lemma MatchIdsGrow(sources: seq<Source>, s: Source)
    requires s.first.matchId.Some?
    ensures MatchIds(sources + [s]) == MatchIds(sources) + {s.first.matchId.value}
  {
    var grown := sources + [s];
    assert forall j :: 0 <= j < |sources| ==> grown[j] == sources[j];
    assert grown[|sources|] == s;
  }

  /** What the question at `position` says about the pair it was built from. */
  ghost predicate Describes(
    q: Question, position: nat, s: Source,
    allCards: seq<Card>, details: map<int, string>, attempts: seq<Attempt>, gameModeId: int)
  {
    && s.first in allCards && Ready(allCards, details, s.first)
    && FindPartner(allCards, s.first) == Some(s.second)
    && q.id == position + 1
    && q.card1 == Side(s.first.id, details[s.first.id])
    && q.card2 == Side(s.second.id, details[s.second.id])
    && q.wasAttempted == FindAttempt(attempts, s.first.id, s.second.id).Some?
    && q.isCorrect == (FindAttempt(attempts, s.first.id, s.second.id).Some? &&
                       FindAttempt(attempts, s.first.id, s.second.id).value.isMatch)
    && !q.isAddedToProfile && q.gameModeId == gameModeId
  }

  /** The questions built so far describe their sources, one `matchId` each. */
  ghost predicate Built(
    questions: seq<Question>, sources: seq<Source>,
    allCards: seq<Card>, details: map<int, string>, attempts: seq<Attempt>, gameModeId: int)
  {
    && |questions| == |sources|
    && (forall j :: 0 <= j < |questions| ==>
          Describes(questions[j], j, sources[j], allCards, details, attempts, gameModeId))
    && (forall j, l :: 0 <= j < l < |sources| ==> sources[j].first.matchId != sources[l].first.matchId)
  }

  /** Every card before position `k` that could open a pair has its `matchId` in `ids`. */
  ghost predicate Covered(allCards: seq<Card>, details: map<int, string>, k: nat, ids: set<int>)
    requires k <= |allCards|
  {
    forall i :: 0 <= i < k && Ready(allCards, details, allCards[i]) ==> allCards[i].matchId.value in ids
  }

  lemma CoveredStep(allCards: seq<Card>, details: map<int, string>, k: nat, ids: set<int>, grown: set<int>)
    requires k < |allCards| && Covered(allCards, details, k, ids) && ids <= grown
    requires Ready(allCards, details, allCards[k]) ==> allCards[k].matchId.value in grown
    ensures Covered(allCards, details, k + 1, grown)
  {
  }

  /**
   * The scan that produced the sources, up to position `k`: `openers[j]` is the position of
   * the card that opened question j. Positions increase, each holds its question's first
   * card, and every card before it that could open a pair has a `matchId` an earlier
   * question already took.
   */
  ghost predicate ScanOrder(
    allCards: seq<Card>, details: map<int, string>, sources: seq<Source>, openers: seq<nat>, k: nat)
  {
    && |openers| == |sources|
    && (forall j :: 0 <= j < |openers| ==>
          openers[j] < k && openers[j] < |allCards| && allCards[openers[j]] == sources[j].first)
    && (forall j, l :: 0 <= j < l < |openers| ==> openers[j] < openers[l])
    && (forall j, i ::
          0 <= j < |openers| && 0 <= i < openers[j] && i < |allCards| && Ready(allCards, details, allCards[i]) ==>
          allCards[i].matchId.value in MatchIds(sources[..j]))
  }

  /** Opening a question at position `k`, once every earlier ready card is covered, extends the scan. */
  lemma ScanOrderGrows(
    allCards: seq<Card>, details: map<int, string>, sources: seq<Source>, openers: seq<nat>, k: nat, s: Source)
    requires k < |allCards| && allCards[k] == s.first
    requires ScanOrder(allCards, details, sources, openers, k)
    requires Covered(allCards, details, k, MatchIds(sources))
    ensures ScanOrder(allCards, details, sources + [s], openers + [k], k + 1)
  {
    var ss, os := sources + [s], openers + [k];
    assert ss[..|sources|] == sources;
    forall j | 0 <= j < |sources|
      ensures ss[..j] == sources[..j]
    {
    }
  }

  /**
   * A question's first card is the earliest ready card of its `matchId`: no ready card before
   * its opener shares that `matchId`. So of two cards naming each other's `matchId`, the one
   * listed first is `card1`.
   */
  lemma {:induction false} OpenerComesFirst(
    allCards: seq<Card>, details: map<int, string>, sources: seq<Source>, openers: seq<nat>, j: nat, i: nat)
    requires ScanOrder(allCards, details, sources, openers, |allCards|)
    requires forall a, b :: 0 <= a < b < |sources| ==> sources[a].first.matchId != sources[b].first.matchId
    requires j < |sources| && i < openers[j] && Ready(allCards, details, allCards[i])
    ensures allCards[i].matchId != sources[j].first.matchId
  {
    var v := allCards[i].matchId.value;
    assert v in MatchIds(sources[..j]);
    var a :| 0 <= a < j && sources[..j][a].first.matchId.Some? && sources[..j][a].first.matchId.value == v;
    assert sources[a].first.matchId == allCards[i].matchId;
  }

  /** The question the loop pushes for a card and its partner. */
  function QuestionFor(
    position: nat, card: Card, partner: Card,
    details: map<int, string>, attempts: seq<Attempt>, gameModeId: int): (q: Question)
    requires card.id in details && partner.id in details
    ensures q.id == position + 1 && !q.isAddedToProfile && q.gameModeId == gameModeId
  {
    var userMatch := FindAttempt(attempts, card.id, partner.id);
    Question(
      position + 1, Side(card.id, details[card.id]), Side(partner.id, details[partner.id]),
      if userMatch.Some? then userMatch.value.isMatch else false,
      userMatch.Some?, false, gameModeId)
  }

  /** Pushing the question of a card with a fresh `matchId` keeps the built list well formed. */
  lemma BuiltGrows(
    questions: seq<Question>, sources: seq<Source>, card: Card, partner: Card,
    allCards: seq<Card>, details: map<int, string>, attempts: seq<Attempt>, gameModeId: int)
    requires Built(questions, sources, allCards, details, attempts, gameModeId)
    requires card in allCards && Ready(allCards, details, card)
    requires FindPartner(allCards, card) == Some(partner)
    requires card.matchId.value !in MatchIds(sources)
    ensures Built(
      questions + [QuestionFor(|questions|, card, partner, details, attempts, gameModeId)],
      sources + [Source(card, partner)], allCards, details, attempts, gameModeId)
    ensures MatchIds(sources + [Source(card, partner)]) == MatchIds(sources) + {card.matchId.value}
  {
    var q := QuestionFor(|questions|, card, partner, details, attempts, gameModeId);
    var s := Source(card, partner);
    assert Describes(q, |questions|, s, allCards, details, attempts, gameModeId);
    MatchIdsFresh(sources, card.matchId.value);
    MatchIdsGrow(sources, s);
    var qs, ss := questions + [q], sources + [s];
    forall j | 0 <= j < |qs|
      ensures Describes(qs[j], j, ss[j], allCards, details, attempts, gameModeId)
    {
      if j < |questions| {
        assert qs[j] == questions[j] && ss[j] == sources[j];
      }
    }
  }

  /**
   * The pairing loop of `loadGameCards`. `details` holds the detail the server
   * returns for each id whose lookup succeeds; `sources` names the two cards
   * each question was built from.
   */
  method LoadGameCards(allCards: seq<Card>, details: map<int, string>, attempts: seq<Attempt>, gameModeId: int)
    returns (questions: seq<Question>, ghost sources: seq<Source>, ghost openers: seq<nat>)
    ensures |questions| == |sources|
    ensures forall j :: 0 <= j < |questions| ==>
      Describes(questions[j], j, sources[j], allCards, details, attempts, gameModeId)
    ensures forall j, l :: 0 <= j < l < |sources| ==> sources[j].first.matchId != sources[l].first.matchId
    ensures forall c :: c in allCards && Ready(allCards, details, c) ==> c.matchId.value in MatchIds(sources)
    ensures ScanOrder(allCards, details, sources, openers, |allCards|)
  {
    questions, sources, openers := [], [], [];
    var processed: set<int> := {};
    for k := 0 to |allCards|
      invariant Built(questions, sources, allCards, details, attempts, gameModeId)
      invariant processed == MatchIds(sources)
      invariant Covered(allCards, details, k, processed)
      invariant ScanOrder(allCards, details, sources, openers, k)
    {
      ghost var before := processed;
      var card := allCards[k];
      if Truthy(card.matchId) && card.matchId.value !in processed {
        var matchingCard := FindPartner(allCards, card);
        if matchingCard.Some? {
          var partner := matchingCard.value;
          if card.id in details && partner.id in details {
            BuiltGrows(questions, sources, card, partner, allCards, details, attempts, gameModeId);
            ScanOrderGrows(allCards, details, sources, openers, k, Source(card, partner));
            openers := openers + [k];
            questions := questions + [QuestionFor(|questions|, card, partner, details, attempts, gameModeId)];
            sources := sources + [Source(card, partner)];
            processed := processed + {card.matchId.value};
          }
        }
      }
      CoveredStep(allCards, details, k, before, processed);
    }
  }

  /** `toggleAddToProfile`: flips the selection of the question with that id. */
  function ToggleAddToProfile(qs: seq<Question>, questionId: int): (r: seq<Question>)
    ensures |r| == |qs|
    ensures forall k :: 0 <= k < |qs| ==> r[k].(isAddedToProfile := qs[k].isAddedToProfile) == qs[k]
    ensures forall k :: 0 <= k < |qs| ==> (r[k].isAddedToProfile != qs[k].isAddedToProfile <==> qs[k].id == questionId)
  {
    seq(|qs|, k requires 0 <= k < |qs| =>
      if qs[k].id == questionId then qs[k].(isAddedToProfile := !qs[k].isAddedToProfile) else qs[k])
  }

  /** Toggling the same question twice restores the page. */
  lemma ToggleTwice(qs: seq<Question>, questionId: int)
    ensures ToggleAddToProfile(ToggleAddToProfile(qs, questionId), questionId) == qs
  {
    var once := ToggleAddToProfile(qs, questionId);
    var twice := ToggleAddToProfile(once, questionId);
    forall k | 0 <= k < |qs|
      ensures twice[k] == qs[k]
    {
      assert once[k].id == qs[k].id;
    }
  }

  /** `questions.filter(q => q.isAddedToProfile)`. */
  function Selected(qs: seq<Question>): (r: seq<Question>)
    ensures |r| <= |qs|
    ensures forall q :: q in r <==> q in qs && q.isAddedToProfile
  {
    if qs == [] then []
    else Selected(qs[..|qs| - 1]) + (if qs[|qs| - 1].isAddedToProfile then [qs[|qs| - 1]] else [])
  }

  /** The request `addToCollection(card1.id, card2.id, gameModeId)` sends. */
  datatype AddCall = AddCall(card1Id: int, card2Id: int, gameModeId: int)

  function CallFor(q: Question): AddCall
  {
    AddCall(q.card1.id, q.card2.id, q.gameModeId)
  }

  datatype Alert = NothingSelected | Added(count: nat) | NotAdded(count: nat)

  /** Every selection cleared, nothing else changed. */
  function ClearSelection(qs: seq<Question>): (r: seq<Question>)
    ensures |r| == |qs| && Selected(r) == []
    ensures forall k :: 0 <= k < |qs| ==> r[k].(isAddedToProfile := qs[k].isAddedToProfile) == qs[k]
  {
    var r := seq(|qs|, k requires 0 <= k < |qs| => qs[k].(isAddedToProfile := false));
    assert forall q :: q in r ==> !q.isAddedToProfile;
    assert Selected(r) != [] ==> Selected(r)[0] in Selected(r);
    r
  }

  /**
   * `saveToProfile`: one add call per selected question, in page order.
   * `responses[k]` is whether the `k`-th call succeeded; a thrown error and an
   * unsuccessful reply both count as a failure.
   */
  method SaveToProfile(questions: seq<Question>, responses: seq<bool>)
    returns (calls: seq<AddCall>, successCount: int, errorCount: int, updated: seq<Question>, alerts: seq<Alert>)
    requires |responses| == |Selected(questions)|
    ensures Selected(questions) == [] ==>
      calls == [] && alerts == [NothingSelected] && updated == questions && successCount == 0 && errorCount == 0
    ensures |calls| == |Selected(questions)|
    ensures forall k :: 0 <= k < |calls| ==> calls[k] == CallFor(Selected(questions)[k])
    ensures successCount == CountTrue(responses)
    ensures successCount + errorCount == |Selected(questions)|
    ensures Selected(questions) != [] ==> (Selected(updated) == [] <==> successCount > 0)
    ensures successCount > 0 ==> updated == ClearSelection(questions)
    ensures successCount == 0 ==> updated == questions
    ensures Selected(questions) != [] ==>
      alerts == (if successCount > 0 then [Added(successCount)] else []) +
                (if errorCount > 0 then [NotAdded(errorCount)] else [])
  {
    var selectedCards := Selected(questions);
    if |selectedCards| == 0 {
      return [], 0, 0, questions, [NothingSelected];
    }
    calls, successCount, errorCount := [], 0, 0;
    for k := 0 to |selectedCards|
      invariant |calls| == k
      invariant forall i :: 0 <= i < k ==> calls[i] == CallFor(selectedCards[i])
      invariant successCount == CountTrue(responses[..k])
      invariant successCount + errorCount == k
    {
      calls := calls + [CallFor(selectedCards[k])];
      assert responses[..k + 1][..k] == responses[..k];
      if responses[k] {
        successCount := successCount + 1;
      } else {
        errorCount := errorCount + 1;
      }
    }
    assert responses[..|selectedCards|] == responses;
    alerts := [];
    updated := questions;
    if successCount > 0 {
      alerts := alerts + [Added(successCount)];
      updated := ClearSelection(questions);
    }
    if errorCount > 0 {
      alerts := alerts + [NotAdded(errorCount)];
    }
  }

  /** `questions.filter(q => q.isAddedToProfile).length`. */
  function SelectedCount(qs: seq<Question>): (n: nat)
    ensures n == |Selected(qs)|
  {
    if qs == [] then 0
    else SelectedCount(qs[..|qs| - 1]) + (if qs[|qs| - 1].isAddedToProfile then 1 else 0)
  }

  /** `questions.filter(q => q.isCorrect && q.wasAttempted).length`. */
  function CorrectAnswers(qs: seq<Question>): nat
  {
    if qs == [] then 0
    else CorrectAnswers(qs[..|qs| - 1]) + (if qs[|qs| - 1].isCorrect && qs[|qs| - 1].wasAttempted then 1 else 0)
  }

  /** `questions.filter(q => q.wasAttempted).length`. */
  function AttemptedAnswers(qs: seq<Question>): nat
  {
    if qs == [] then 0
    else AttemptedAnswers(qs[..|qs| - 1]) + (if qs[|qs| - 1].wasAttempted then 1 else 0)
  }

  /** Right answers are among the attempted ones, and those among the pairs. */
  lemma {:induction false} CountsOrdered(qs: seq<Question>)
    ensures CorrectAnswers(qs) <= AttemptedAnswers(qs) <= |qs|
  {
    if qs != [] {
      CountsOrdered(qs[..|qs| - 1]);
    }
  }

  /**
   * A rebuilt question is attempted exactly when some evaluated pair names its
   * two cards, in either order, and it counts as correct only if attempted.
   */
  lemma LoadedAttemptsMean(
    questions: seq<Question>, sources: seq<Source>,
    allCards: seq<Card>, details: map<int, string>, attempts: seq<Attempt>, gameModeId: int)
    requires |questions| == |sources|
    requires forall j :: 0 <= j < |questions| ==>
      Describes(questions[j], j, sources[j], allCards, details, attempts, gameModeId)
    ensures forall j :: 0 <= j < |questions| ==>
      (questions[j].wasAttempted <==>
        exists a :: a in attempts && Names(a, questions[j].card1.id, questions[j].card2.id))
    ensures forall j :: 0 <= j < |questions| ==> (questions[j].isCorrect ==> questions[j].wasAttempted)
  {
    forall j | 0 <= j < |questions|
      ensures questions[j].wasAttempted <==>
        exists a :: a in attempts && Names(a, questions[j].card1.id, questions[j].card2.id)
    {
      var s := sources[j];
      assert questions[j].card1.id == s.first.id && questions[j].card2.id == s.second.id;
    }
  }

  /**
   * Two catalog cards that name each other through `matchId`, which is what the
   * server's `isCardMatch` treats as a pair, are not paired here: the page pairs
   * cards whose `matchId`s are equal.
   */
  lemma MutualReferenceNotPaired(allCards: seq<Card>, a: Card, b: Card)
    requires a.id != b.id && a.matchId == Some(b.id) && b.matchId == Some(a.id)
    ensures FindPartner(allCards, a) != Some(b)
  {
  }
}
