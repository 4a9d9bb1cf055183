/**
 * The Java concept-matching board: sixteen shuffled cards, two per Java topic
 * (one showing the concept, one its description), which the player flips two
 * at a time and submits for matching. The board is local and never talks to
 * the server.
 */
module JavaBoard {
  import opened Wrappers
  import opened Seqs

  datatype CardType = Concept | Description

  /** A card's `uniqueId`, the text `<index>-a` (suffix 'a') or `<index>-b` (suffix 'b'). */
  datatype CardKey = CardKey(index: nat, suffix: char)

  datatype Topic = Topic(id: nat, concept: string, description: string)

  /** A topic's fields spread into a card, with the topic's position as `pairId`. */
  datatype BoardCard = BoardCard(topic: Topic, pairId: nat, uniqueId: CardKey, kind: CardType)

  const Topics: seq<Topic> := [
    Topic(1, "Class", "Blueprint for objects"),
    Topic(2, "Object", "Instance of a class"),
    Topic(3, "Method", "Function inside a class"),
    Topic(4, "Variable", "Container for data"),
    Topic(5, "Array", "Collection of elements"),
    Topic(6, "Loop", "Repeated execution"),
    Topic(7, "Inheritance", "Class extends another"),
    Topic(8, "Exception", "Error handling mechanism")
  ]

  /** The identifiers the deal hands out. */
  predicate OnDeck(key: CardKey)
  {
    key.index < |Topics| && (key.suffix == 'a' || key.suffix == 'b')
  }

  /** The one card the deal creates under a given identifier. */
  function CardFor(key: CardKey): (c: BoardCard)
    requires OnDeck(key)
    ensures c.uniqueId == key && c.pairId == key.index && c.topic == Topics[key.index]
    ensures c.kind == Concept <==> key.suffix == 'a'
  {
    BoardCard(Topics[key.index], key.index, key, if key.suffix == 'a' then Concept else Description)
  }

  /** The identifier at position `i` of the unshuffled deck. */
  function DeckKey(i: nat): (key: CardKey)
    requires i < 2 * |Topics|
    ensures OnDeck(key)
  {
    CardKey(i / 2, if i % 2 == 0 then 'a' else 'b')
  }

  /** The deck before shuffling: for each topic in order, its concept card then its description card. */
  function Deck(): (d: seq<BoardCard>)
    ensures |d| == 2 * |Topics|
    ensures forall i :: 0 <= i < |d| ==> d[i] == CardFor(DeckKey(i))
  {
    seq(2 * |Topics|, i requires 0 <= i < 2 * |Topics| => CardFor(DeckKey(i)))
  }

  lemma DeckKeyInjective(i: nat, j: nat)
    requires i < j < 2 * |Topics|
    ensures DeckKey(i) != DeckKey(j)
  {
    assert i == 2 * (i / 2) + i % 2;
    assert j == 2 * (j / 2) + j % 2;
  }

  /** Every identifier on the deck names a card of the unshuffled deck. */
  lemma DeckHasKey(key: CardKey)
    requires OnDeck(key)
    ensures CardFor(key) in Deck()
  {
    var i := 2 * key.index + if key.suffix == 'a' then 0 else 1;
    assert DeckKey(i) == key;
    assert Deck()[i] == CardFor(key);
  }

  lemma DeckNoDup()
    ensures NoDup(Deck())
  {
    forall i, j | 0 <= i < j < |Deck()|
      ensures Deck()[i] != Deck()[j]
    {
      DeckKeyInjective(i, j);
    }
  }

  /** A deal: some arrangement of exactly the unshuffled deck's cards. */
  ghost predicate IsDeal(cards: seq<BoardCard>)
  {
    multiset(cards) == multiset(Deck())
  }

  /** Every card of a deal is the card its identifier names, and every identifier is dealt. */
  lemma DealCanonical(cards: seq<BoardCard>)
    requires IsDeal(cards)
    ensures |cards| == 2 * |Topics|
    ensures forall c :: c in cards ==> OnDeck(c.uniqueId) && c == CardFor(c.uniqueId)
    ensures forall key :: OnDeck(key) ==> CardFor(key) in cards
  {
    assert |cards| == |multiset(cards)| == |multiset(Deck())| == |Deck()|;
    forall c | c in cards
      ensures OnDeck(c.uniqueId) && c == CardFor(c.uniqueId)
    {
      assert c in multiset(Deck());
      var i :| 0 <= i < |Deck()| && Deck()[i] == c;
    }
    forall key | OnDeck(key)
      ensures CardFor(key) in cards
    {
      DeckHasKey(key);
      assert CardFor(key) in multiset(cards);
    }
  }

  /** A deal hands out sixteen distinct identifiers. */
  lemma DealDistinct(cards: seq<BoardCard>)
    requires IsDeal(cards)
    ensures forall i, j :: 0 <= i < j < |cards| ==> cards[i].uniqueId != cards[j].uniqueId
  {
    DeckNoDup();
    PermutationKeepsNoDup(Deck(), cards);
    DealCanonical(cards);
    forall i, j | 0 <= i < j < |cards|
      ensures cards[i].uniqueId != cards[j].uniqueId
    {
      assert cards[i] in cards && cards[j] in cards;
    }
  }

  /** The deal holds a card of the given topic position and kind. */
  predicate HasCard(cards: seq<BoardCard>, p: nat, kind: CardType)
  {
    exists c :: c in cards && c.pairId == p && c.kind == kind
  }

  /** For every topic a deal holds exactly one concept card and exactly one description card. */
  lemma DealPairs(cards: seq<BoardCard>)
    requires IsDeal(cards)
    ensures forall p: nat :: p < |Topics| ==> HasCard(cards, p, Concept) && HasCard(cards, p, Description)
    ensures forall i, j :: 0 <= i < |cards| && 0 <= j < |cards| ==>
      (cards[i].pairId == cards[j].pairId && cards[i].kind == cards[j].kind ==> i == j)
  {
    DealCanonical(cards);
    DealDistinct(cards);
    forall p: nat | p < |Topics|
      ensures HasCard(cards, p, Concept) && HasCard(cards, p, Description)
    {
      assert CardFor(CardKey(p, 'a')) in cards;
      assert CardFor(CardKey(p, 'b')) in cards;
    }
    forall i, j | 0 <= i < |cards| && 0 <= j < |cards| &&
      cards[i].pairId == cards[j].pairId && cards[i].kind == cards[j].kind
      ensures i == j
    {
      assert cards[i] in cards && cards[j] in cards;
      assert cards[i].uniqueId == cards[j].uniqueId;
    }
  }

  /** `Math.floor(r * n)` for a draw `r` in [0, 1) is a position below `n`. */
  lemma DrawInRange(r: real, n: nat)
    requires 0.0 <= r < 1.0 && n >= 1
    ensures 0 <= (r * n as real).Floor < n
  {
    assert r * n as real < n as real by {
      assert (1.0 - r) * n as real > 0.0;
    }
  }

  /** `Math.floor(r * n)`: the position a draw selects among `n`. */
  function Pick(r: real, n: nat): (j: nat)
    requires 0.0 <= r < 1.0 && n >= 1
    ensures j < n
  {
    DrawInRange(r, n);
    (r * n as real).Floor
  }

  /** The values `Math.random()` may return. */
  predicate Draws(draws: seq<real>, n: nat)
  {
    |draws| == n && forall k :: 0 <= k < |draws| ==> 0.0 <= draws[k] < 1.0
  }

  /** Exchanging two positions rearranges a sequence. */
  lemma SwapKeepsMultiset<T>(s: seq<T>, i: nat, j: nat)
    requires i < |s| && j < |s|
    ensures multiset(s[i := s[j]][j := s[i]]) == multiset(s)
  {
    var t := s[i := s[j]];
    assert multiset(t) == multiset(s) - multiset{s[i]} + multiset{s[j]};
    assert multiset(t[j := s[i]]) == multiset(t) - multiset{t[j]} + multiset{s[i]};
  }

  /**
   * Fisher-Yates shuffle of a copy, counting down from the last position; the
   * random number consumed at position `i` is `draws[i]`.
   */
  method ShuffleArray<T>(items: seq<T>, draws: seq<real>) returns (shuffled: seq<T>)
    requires Draws(draws, |items|)
    ensures multiset(shuffled) == multiset(items)
  {
    var a := new T[|items|](k requires 0 <= k < |items| => items[k]);
    assert a[..] == items;
    var i := a.Length - 1;
    while i > 0
      invariant -1 <= i < a.Length
      invariant multiset(a[..]) == multiset(items)
    {
      var j := Pick(draws[i], i + 1);
      ghost var before := a[..];
      a[i], a[j] := a[j], a[i];
      assert a[..] == before[i := before[j]][j := before[i]];
      SwapKeepsMultiset(before, i, j);
      i := i - 1;
    }
    shuffled := a[..];
  }

  /** Two cards per topic, then shuffled. */
  method CreateCardPairs(draws: seq<real>) returns (cards: seq<BoardCard>)
    requires Draws(draws, 2 * |Topics|)
    ensures IsDeal(cards)
  {
    var pairs := [];
    for index := 0 to |Topics|
      invariant |pairs| == 2 * index
      invariant forall k :: 0 <= k < |pairs| ==> pairs[k] == CardFor(DeckKey(k))
    {
      pairs := pairs + [CardFor(CardKey(index, 'a')), CardFor(CardKey(index, 'b'))];
    }
    assert pairs == Deck();
    cards := ShuffleArray(pairs, draws);
  }

  /** No card of `cards` carries the identifier. */
  predicate Lacks(cards: seq<BoardCard>, key: CardKey)
  {
    forall c :: c in cards ==> c.uniqueId != key
  }

  /** `cards.find` by identifier: the first card carrying it. */
  function Find(cards: seq<BoardCard>, key: CardKey): (r: Option<BoardCard>)
    ensures r.Some? ==> r.value in cards && r.value.uniqueId == key
    ensures r.None? <==> Lacks(cards, key)
  {
    if cards == [] then None
    else if cards[0].uniqueId == key then Some(cards[0])
    else Find(cards[1..], key)
  }

  /** The card found is the one at the first position carrying the identifier. */
  lemma {:induction false} FindFirst(cards: seq<BoardCard>, key: CardKey, i: nat)
    requires i < |cards| && cards[i].uniqueId == key && Lacks(cards[..i], key)
    ensures Find(cards, key) == Some(cards[i])
  {
    if i > 0 {
      assert cards[0] in cards[..i];
      assert cards[1..][..i - 1] == cards[..i][1..];
      FindFirst(cards[1..], key, i - 1);
    }
  }

  /** Looking up a dealt identifier always finds the card it names. */
  lemma FindOnDeal(cards: seq<BoardCard>, key: CardKey)
    requires IsDeal(cards) && OnDeck(key)
    ensures Find(cards, key) == Some(CardFor(key))
  {
    DealCanonical(cards);
    assert CardFor(key) in cards;
  }

  /** `prev.filter(id => id !== key)`. */
  function Without(s: seq<CardKey>, key: CardKey): (r: seq<CardKey>)
    ensures forall x :: x in r <==> x in s && x != key
    ensures |r| <= |s|
    ensures NoDup(s) ==> NoDup(r)
  {
    if s == [] then []
    else
      var rest := Without(s[1..], key);
      assert NoDup(s) ==> s[0] !in s[1..] && NoDup(s[1..]);
      (if s[0] == key then [] else [s[0]]) + rest
  }

  /** Matched identifiers, taken two at a time, name the two cards of one topic. */
  predicate PairedUp(s: seq<CardKey>)
  {
    if |s| < 2 then s == []
    else s[|s| - 2].index == s[|s| - 1].index && PairedUp(s[..|s| - 2])
  }

  lemma PairedUpLength(s: seq<CardKey>)
    requires PairedUp(s)
    ensures |s| % 2 == 0
  {
    if |s| >= 2 {
      PairedUpLength(s[..|s| - 2]);
    }
  }

  /** The play state of the board apart from its deal: at most two distinct dealt cards are
      flipped and none of them is matched; the matched cards are distinct dealt cards that pair
      up by topic, two per point of score; and the score never passes the attempts. */
  ghost predicate Progress(flipped: seq<CardKey>, matched: seq<CardKey>, score: int, attempts: int)
  {
    && |flipped| <= 2 && NoDup(flipped) && NoDup(matched)
    && (forall k :: k in flipped ==> OnDeck(k) && k !in matched)
    && (forall k :: k in matched ==> OnDeck(k))
    && |matched| == 2 * score
    && 0 <= score <= attempts
    && PairedUp(matched)
  }

  /** Two flipped cards of one topic move to the matched list for one more point and one more
      attempt, and the play state stays consistent. */
  lemma MatchStep(flipped: seq<CardKey>, matched: seq<CardKey>, score: int, attempts: int)
    requires Progress(flipped, matched, score, attempts)
    requires |flipped| == 2 && flipped[0].index == flipped[1].index
    ensures Progress([], matched + flipped, score + 1, attempts + 1)
  {
    assert flipped[0] != flipped[1];
    var grown := matched + flipped;
    assert grown[..|matched|] == matched;
    forall i, j | 0 <= i < j < |grown|
      ensures grown[i] != grown[j]
    {
      if j >= |matched| && i < |matched| {
        assert grown[i] in matched && grown[j] in flipped;
      }
    }
  }

  /** Every key drawn from the deck; used to count them. */
  function DeckKeys(): (keys: seq<CardKey>)
    ensures |keys| == 2 * |Topics| && NoDup(keys)
    ensures forall key :: key in keys <==> OnDeck(key)
  {
    var keys := seq(2 * |Topics|, i requires 0 <= i < 2 * |Topics| => DeckKey(i));
    assert NoDup(keys) by {
      forall i, j | 0 <= i < j < |keys|
        ensures keys[i] != keys[j]
      {
        DeckKeyInjective(i, j);
      }
    }
    assert forall key :: OnDeck(key) ==> key in keys by {
      forall key | OnDeck(key)
        ensures key in keys
      {
        assert keys[2 * key.index + if key.suffix == 'a' then 0 else 1] == key;
      }
    }
    keys
  }

  /** Sixteen distinct dealt identifiers are all of them, and all of them are sixteen. */
  lemma {:induction false} AllKeysIffSixteen(s: seq<CardKey>)
    requires NoDup(s) && forall x :: x in s ==> OnDeck(x)
    ensures |s| <= 2 * |Topics|
    ensures |s| == 2 * |Topics| <==> forall key :: OnDeck(key) ==> key in s
  {
    var keys := DeckKeys();
    var all := set k | k in keys;
    NoDupSetSize(keys);
    NoDupBoundedBySet(s, all);
    if |s| == 2 * |Topics| {
      NoDupFillsSet(s, all);
    }
    if forall key :: OnDeck(key) ==> key in s {
      NoDupSetSize(s);
      NoDupBoundedBySet(keys, set x | x in s);
    }
  }

  /** The board's state: the hook variables of the page. */
  class Board {
    var cards: seq<BoardCard>
    var flipped: seq<CardKey>
    var matched: seq<CardKey>
    var score: int
    var attempts: int
    /** Mismatch flip-backs scheduled by a timer that has not fired yet. */
    var pendingFlipBacks: nat

    ghost predicate Valid()
      reads this
    {
      IsDeal(cards) && Progress(flipped, matched, score, attempts)
    }

    /** The page's initial state: a fresh deal and nothing flipped, matched or counted. */
    constructor (draws: seq<real>)
      requires Draws(draws, 2 * |Topics|)
      ensures Valid()
      ensures flipped == [] && matched == [] && score == 0 && attempts == 0 && pendingFlipBacks == 0
    {
      var deal := CreateCardPairs(draws);
      cards := deal;
      flipped := [];
      matched := [];
      score := 0;
      attempts := 0;
      pendingFlipBacks := 0;
    }

    /** A click on the card with identifier `cardId`. */
    method HandleCardClick(cardId: CardKey)
      requires Valid() && OnDeck(cardId)
      modifies this`flipped
      ensures Valid()
      ensures cardId in matched ==> flipped == old(flipped)
      ensures cardId !in matched && cardId in old(flipped) ==>
        flipped == Without(old(flipped), cardId)
      ensures cardId !in matched && cardId !in old(flipped) && |old(flipped)| >= 2 ==>
        flipped == old(flipped)
      ensures cardId !in matched && cardId !in old(flipped) && |old(flipped)| < 2 ==>
        flipped == old(flipped) + [cardId]
    {
      if cardId in matched {
        return;
      }
      if cardId in flipped {
        flipped := Without(flipped, cardId);
        return;
      }
      if |flipped| >= 2 {
        return;
      }
      flipped := flipped + [cardId];
    }

    /** Compares the two flipped cards by `pairId`; a mismatch schedules a flip-back. */
    method CheckMatch()
      requires Valid() && |flipped| == 2
      modifies this`matched, this`score, this`flipped, this`attempts, this`pendingFlipBacks
      ensures Valid()
      ensures attempts == old(attempts) + 1
      ensures old(CardFor(flipped[0]).pairId == CardFor(flipped[1]).pairId) ==>
        matched == old(matched + flipped) && score == old(score) + 1 && flipped == [] &&
        pendingFlipBacks == old(pendingFlipBacks)
      ensures old(CardFor(flipped[0]).pairId != CardFor(flipped[1]).pairId) ==>
        matched == old(matched) && score == old(score) && flipped == old(flipped) &&
        pendingFlipBacks == old(pendingFlipBacks) + 1
    {
      var firstCardId, secondCardId := flipped[0], flipped[1];
      FindOnDeal(cards, firstCardId);
      FindOnDeal(cards, secondCardId);
      var firstCard := Find(cards, firstCardId).value;
      var secondCard := Find(cards, secondCardId).value;
      assert firstCard.pairId == firstCardId.index && secondCard.pairId == secondCardId.index;
      if firstCard.pairId == secondCard.pairId {
        MatchStep(flipped, matched, score, attempts);
        matched := matched + [firstCardId, secondCardId];
        score := score + 1;
        flipped := [];
      } else {
        pendingFlipBacks := pendingFlipBacks + 1;
      }
      attempts := attempts + 1;
    }

    /** The Match button: evaluates the flipped cards only when exactly two are flipped. */
    method HandleMatch()
      requires Valid()
      modifies this`matched, this`score, this`flipped, this`attempts, this`pendingFlipBacks
      ensures Valid()
      ensures |old(flipped)| != 2 ==>
        matched == old(matched) && score == old(score) && flipped == old(flipped) &&
        attempts == old(attempts) && pendingFlipBacks == old(pendingFlipBacks)
      ensures |old(flipped)| == 2 ==> attempts == old(attempts) + 1
      ensures |old(flipped)| == 2 && old(CardFor(flipped[0]).pairId == CardFor(flipped[1]).pairId) ==>
        matched == old(matched + flipped) && score == old(score) + 1 && flipped == [] &&
        pendingFlipBacks == old(pendingFlipBacks)
      ensures |old(flipped)| == 2 && old(CardFor(flipped[0]).pairId != CardFor(flipped[1]).pairId) ==>
        matched == old(matched) && score == old(score) && flipped == old(flipped) &&
        pendingFlipBacks == old(pendingFlipBacks) + 1
    {
      if |flipped| == 2 {
        CheckMatch();
      }
    }

    /** The scheduled flip-back firing: it empties whatever is flipped at that moment. */
    method FlipBack()
      requires Valid() && pendingFlipBacks > 0
      modifies this`flipped, this`pendingFlipBacks
      ensures Valid()
      ensures flipped == [] && pendingFlipBacks == old(pendingFlipBacks) - 1
    {
      flipped := [];
      pendingFlipBacks := pendingFlipBacks - 1;
    }

    /** A new deal with every counter and selection cleared; pending timers still fire later. */
    method ResetGame(draws: seq<real>)
      requires Valid() && Draws(draws, 2 * |Topics|)
      modifies this`cards, this`flipped, this`matched, this`score, this`attempts
      ensures Valid()
      ensures flipped == [] && matched == [] && score == 0 && attempts == 0
    {
      cards := CreateCardPairs(draws);
      flipped := [];
      matched := [];
      score := 0;
      attempts := 0;
    }

    /** Whether the card shows its face: it is flipped or matched. */
    function IsCardFlipped(cardId: CardKey): (r: bool)
      reads this
      requires Valid()
      ensures r <==> cardId in flipped || cardId in matched
      ensures r ==> OnDeck(cardId)
    {
      cardId in flipped || cardId in matched
    }

    /** The game is over once sixteen identifiers are matched. */
    function GameComplete(): (r: bool)
      reads this
      requires Valid()
      ensures r <==> forall key :: OnDeck(key) ==> key in matched
      ensures r <==> score == |Topics|
    {
      AllKeysIffSixteen(matched);
      |matched| == 16
    }

    /** The score never passes the number of topics, and matched cards pair up by topic. */
    lemma ScoreBounded()
      requires Valid()
      ensures score <= |Topics| && score <= attempts
      ensures forall k :: k in matched ==> CardFor(k) in cards
    {
      AllKeysIffSixteen(matched);
      DealCanonical(cards);
    }
  }
}
