/**
 * The development-card deck (Control/DevelopmentCardsManager.cs): 26 cards,
 * shuffled once at start-up, handed out one at a time, and a catalogue of
 * card descriptions read by index.
 */
module DevelopmentCards {
  import Shuffle
  import opened Optional

  datatype CardType = Knight | Roads | Development | Monopoly | Points | NoCard

  /** The description of one card type, as the catalogue file holds it. */
  datatype CardDetails = CardDetails(name: string, description: string)

  /** n copies of one card. */
  function Copies(c: CardType, n: nat): (s: seq<CardType>)
    ensures |s| == n && forall i :: 0 <= i < n ==> s[i] == c
  {
    seq(n, _ => c)
  }

  lemma {:induction false} CopiesCount(c: CardType, n: nat)
    ensures multiset(Copies(c, n)) == multiset{}[c := n]
  {
    if n > 0 {
      CopiesCount(c, n - 1);
      assert Copies(c, n) == Copies(c, n - 1) + [c];
    }
  }

  /** cardTypes as the game declares it, before the shuffle: the types in declaration order, each repeated. */
  const InitialDeck: seq<CardType> :=
    Copies(Knight, 12) + Copies(Roads, 2) + Copies(Development, 2) + Copies(Monopoly, 2) + Copies(Points, 8)

  /** The initial deck: 26 cards, 12 knights, 2 each of roads, development and monopoly, 8 points, no NONE. */
  lemma InitialDeckContents()
    ensures |InitialDeck| == 26
    ensures multiset(InitialDeck)[Knight] == 12
    ensures multiset(InitialDeck)[Roads] == 2
    ensures multiset(InitialDeck)[Development] == 2
    ensures multiset(InitialDeck)[Monopoly] == 2
    ensures multiset(InitialDeck)[Points] == 8
    ensures multiset(InitialDeck)[NoCard] == 0
  {
    CopiesCount(Knight, 12);
    CopiesCount(Roads, 2);
    CopiesCount(Development, 2);
    CopiesCount(Monopoly, 2);
    CopiesCount(Points, 8);
  }

  /** The card FetchDevelopmentCard hands out: NONE from an empty deck, the only card, or the drawn one. */
  function FetchedCard(deck: seq<CardType>, pick: nat): (c: CardType)
    requires |deck| >= 2 ==> pick < |deck|
    ensures deck != [] ==> c in deck
    ensures deck == [] ==> c == NoCard
  {
    if |deck| == 0 then NoCard
    else if |deck| == 1 then deck[0]
    else deck[pick]
  }

  /** The deck after FetchDevelopmentCard: only a deck of two or more cards loses the card handed out. */
  function AfterFetch(deck: seq<CardType>, pick: nat): (d: seq<CardType>)
    requires |deck| >= 2 ==> pick < |deck|
    ensures |deck| >= 2 ==> |d| == |deck| - 1 && multiset(d) == multiset(deck) - multiset{deck[pick]}
  {
    if |deck| <= 1 then deck
    else
      assert deck == deck[..pick] + [deck[pick]] + deck[pick + 1..];
      deck[..pick] + deck[pick + 1..]
  }

  /** A fetch hands out a card of the deck (or NONE from an empty one) and the deck loses exactly that card, except a deck of one, which keeps it. */
  lemma FetchAccounts(deck: seq<CardType>, pick: nat)
    requires |deck| >= 2 ==> pick < |deck|
    ensures deck == [] ==> FetchedCard(deck, pick) == NoCard && AfterFetch(deck, pick) == []
    ensures deck != [] ==> FetchedCard(deck, pick) in deck
    ensures |deck| >= 2 ==> multiset(AfterFetch(deck, pick)) + multiset{FetchedCard(deck, pick)} == multiset(deck)
    ensures |deck| >= 2 ==> |AfterFetch(deck, pick)| == |deck| - 1
    ensures |deck| == 1 ==> AfterFetch(deck, pick) == deck
  {
    if |deck| >= 2 {
      assert deck == deck[..pick] + [deck[pick]] + deck[pick + 1..];
    }
  }

  /** A valid pick for every fetch of a run: each one indexes the deck as it is at that point. */
  ghost predicate ValidPicks(deck: seq<CardType>, picks: seq<nat>)
    decreases |picks|
  {
    picks == [] || ((|deck| >= 2 ==> picks[0] < |deck|) && ValidPicks(AfterFetch(deck, picks[0]), picks[1..]))
  }

  /** The deck after a run of fetches. */
  ghost function AfterFetches(deck: seq<CardType>, picks: seq<nat>): (d: seq<CardType>)
    requires ValidPicks(deck, picks)
    decreases |picks|
  {
    if picks == [] then deck else AfterFetches(AfterFetch(deck, picks[0]), picks[1..])
  }

  /**
   * Since the last card is handed out without being removed, a deck that
   * holds a card never runs empty, however many cards are fetched.
   */
  lemma {:induction false} DeckNeverEmpties(deck: seq<CardType>, picks: seq<nat>)
    requires ValidPicks(deck, picks) && deck != []
    ensures AfterFetches(deck, picks) != []
    decreases |picks|
  {
    if picks != [] {
      DeckNeverEmpties(AfterFetch(deck, picks[0]), picks[1..]);
    }
  }

  /** The shuffled deck, 26 fetches later, still holds its last card. */
  lemma FullDeckNeverEmpties(offs: seq<nat>, picks: seq<nat>)
    requires Shuffle.ValidOffsets(offs, |InitialDeck|)
    requires ValidPicks(Shuffle.Shuffled(InitialDeck, offs), picks)
    ensures |AfterFetches(Shuffle.Shuffled(InitialDeck, offs), picks)| >= 1
  {
    DeckNeverEmpties(Shuffle.Shuffled(InitialDeck, offs), picks);
  }

  /**
   * GetDevCardDetails: an index outside 0..Count reads entry 5 (the NONE
   * card), any other index reads its own entry. The guard lets index ==
   * Count through, and reading past the end throws; None stands for a read
   * that throws.
   */
  function DetailsAt(details: seq<CardDetails>, index: int): (r: Option<CardDetails>)
    ensures 0 <= index < |details| ==> r == Some(details[index])
    ensures (index < 0 || index > |details|) && |details| > 5 ==> r == Some(details[5])
    ensures r.None? <==> index == |details| || ((index < 0 || index > |details|) && |details| <= 5)
  {
    if index < 0 || index > |details| then
      (if 5 < |details| then Some(details[5]) else None)
    else if index < |details| then Some(details[index])
    else None
  }

  /** The off-by-one in the guard: the index equal to the count passes the bounds check and the read throws. */
  lemma GuardAdmitsCount(details: seq<CardDetails>)
    ensures !(|details| < 0 || |details| > |details|)
    ensures DetailsAt(details, |details|).None?
  {
  }

  class DevelopmentCardsManager {
    /** cardTypes: the cards still to hand out. */
    var cardTypes: seq<CardType>
    /** developmentCardsDetails, read from the catalogue file. */
    var details: seq<CardDetails>

    /** Start: the catalogue is taken as given and the deck is shuffled in place with the draws offs. */
    constructor (catalogue: seq<CardDetails>, offs: seq<nat>)
      requires Shuffle.ValidOffsets(offs, |InitialDeck|)
      ensures details == catalogue
      ensures cardTypes == Shuffle.Shuffled(InitialDeck, offs)
      ensures multiset(cardTypes) == multiset(InitialDeck)
    {
      details := catalogue;
      var deck := InitialDeck;
      var a := new CardType[|deck|](i requires 0 <= i < |deck| => deck[i]);
      assert a[..] == deck;
      Shuffle.ShuffleList(a, offs);
      cardTypes := a[..];
    }

    /** FetchDevelopmentCard with the drawn position pick (used only when two or more cards are left). */
    method FetchDevelopmentCard(pick: nat) returns (card: CardType)
      requires |cardTypes| >= 2 ==> pick < |cardTypes|
      modifies this`cardTypes
      ensures card == FetchedCard(old(cardTypes), pick)
      ensures cardTypes == AfterFetch(old(cardTypes), pick)
      ensures old(cardTypes) != [] ==> cardTypes != []
    {
      if |cardTypes| == 0 {
        return NoCard;
      }
      if |cardTypes| == 1 {
        return cardTypes[0];
      }
      var randomIndex := pick;
      var tmp := cardTypes[randomIndex];
      cardTypes := cardTypes[..randomIndex] + cardTypes[randomIndex + 1..];
      return tmp;
    }
  }
}
