/**
 * The 4:1 trading panel (Control/TradingManager.cs). The panel copies the
 * player's holdings twice: the initial copy stays as it was, the current
 * copy follows the player's choices. A discard click takes a resource's
 * conversion rate off the current copy and marks it as the one to give, a
 * receive click adds one card and marks it as the one to get; clicking the
 * other side of a chosen resource takes the choice back. Performing the
 * trade writes the two chosen entries back to the player's ledger.
 *
 * The state of the panel is the record Panel; the class keeps the same
 * state in fields and each handler is proved to move it as the matching
 * function does.
 */
module Trading {
  import opened Resources
  import Ledger

  datatype Panel = Panel(
    initial: Amounts,
    current: Amounts,
    rates: seq<int>,
    discarding: Resource,
    receiving: Resource,
    discardChosen: bool,
    receiveChosen: bool,
    acceptEnabled: bool)

  predicate PanelOk(p: Panel)
  {
    Ledger.WellFormed(p.initial) && Ledger.WellFormed(p.current) && |p.rates| == 5
  }

  function Rate(p: Panel, r: Resource): int
    requires PanelOk(p) && r in KindSet
  {
    p.rates[Index(r)]
  }

  /**
   * InitialisePanel: both copies are the holdings, neither side is chosen
   * and the accept button is off. The remembered resources are not reset.
   */
  function Opened(holdings: Amounts, rates: seq<int>, prev: Panel): (p: Panel)
    requires Ledger.WellFormed(holdings) && |rates| == 5
    ensures PanelOk(p)
    ensures p.initial == holdings && p.current == holdings && p.rates == rates
    ensures !p.discardChosen && !p.receiveChosen && !p.acceptEnabled
    ensures p.discarding == prev.discarding && p.receiving == prev.receiving
  {
    Panel(holdings, holdings, rates, prev.discarding, prev.receiving, false, false, false)
  }

  /**
   * UIButtonDiscardRessourceClicked(r). When r is the chosen resource to
   * receive, the click takes that choice back and the card it added. Else,
   * when the current amount does not cover the rate, nothing happens; else
   * the rate is taken off and r becomes the resource to give.
   */
  function DiscardClick(p: Panel, r: Resource): (q: Panel)
    requires PanelOk(p) && r in KindSet
    ensures PanelOk(q)
    ensures q.initial == p.initial && q.rates == p.rates
  {
    if p.receiveChosen && p.receiving == r then
      p.(receiveChosen := false, receiving := NoResource,
         current := p.current[r := p.current[r] - 1], acceptEnabled := false)
    else if p.current[r] - Rate(p, r) < 0 then p
    else
      p.(current := p.current[r := p.current[r] - Rate(p, r)],
         discarding := r, discardChosen := true, acceptEnabled := p.receiveChosen)
  }

  /**
   * UIButtonReceiveRessourceClicked(r). When r is the chosen resource to
   * give, the click takes that choice back and the rate it took; else one
   * card of r is added and r becomes the resource to receive.
   */
  function ReceiveClick(p: Panel, r: Resource): (q: Panel)
    requires PanelOk(p) && r in KindSet
    ensures PanelOk(q)
    ensures q.initial == p.initial && q.rates == p.rates
  {
    if p.discardChosen && p.discarding == r then
      p.(discardChosen := false, discarding := NoResource,
         current := p.current[r := p.current[r] + Rate(p, r)], acceptEnabled := false)
    else
      p.(current := p.current[r := p.current[r] + 1],
         receiving := r, receiveChosen := true, acceptEnabled := p.discardChosen)
  }

  /** The trade can go through: both sides are chosen and the resource to receive is a real one. */
  predicate Ready(p: Panel)
  {
    p.discardChosen && p.receiveChosen && p.receiving != NoResource
  }

  /** SetRessourceToAmount on plain holdings: a negative amount is refused. */
  function SetTo(m: Amounts, r: Resource, amount: int): (n: Amounts)
    ensures amount >= 0 ==> r in n && n[r] == amount
    ensures amount < 0 ==> n == m
    ensures forall k :: k in m && k != r ==> k in n && n[k] == m[k]
  {
    if amount < 0 then m else m[r := amount]
  }

  /** The holdings after UIButtonPerformTradeClicked: the two chosen entries of the current copy are written back. */
  function Traded(m: Amounts, p: Panel): (n: Amounts)
    requires PanelOk(p)
    requires p.discarding in KindSet && p.receiving in KindSet
    ensures forall k :: k in m && k != p.discarding && k != p.receiving ==> k in n && n[k] == m[k]
  {
    SetTo(SetTo(m, p.discarding, p.current[p.discarding]), p.receiving, p.current[p.receiving])
  }

  /**
   * The choices the panel records account for the current copy: the rate
   * taken off the resource to give, one card added to the resource to
   * receive, nothing else; both chosen resources are real and differ.
   */
  ghost predicate Pending(p: Panel)
  {
    && PanelOk(p)
    && (p.discardChosen ==> p.discarding in KindSet && p.current[p.discarding] >= 0)
    && (p.receiveChosen ==> p.receiving in KindSet)
    && (p.discardChosen && p.receiveChosen ==> p.discarding != p.receiving)
    && p.acceptEnabled == (p.discardChosen && p.receiveChosen)
    && forall k :: k in p.initial ==>
         p.current[k] == p.initial[k]
                         - (if p.discardChosen && k == p.discarding then Rate(p, k) else 0)
                         + (if p.receiveChosen && k == p.receiving then 1 else 0)
  }

  /** A freshly opened panel records no choice. */
  lemma OpenedPending(holdings: Amounts, rates: seq<int>, prev: Panel)
    requires Ledger.WellFormed(holdings) && |rates| == 5
    ensures Pending(Opened(holdings, rates, prev))
  {
  }

  /**
   * A discard click while no resource to give is chosen, or one that takes
   * back the receive choice, keeps the account. These are not all the
   * discard clicks the panel offers: see SecondDiscardForgetsFirst.
   */
  lemma DiscardClickPending(p: Panel, r: Resource)
    requires Pending(p) && r in KindSet
    requires !p.discardChosen || (p.receiveChosen && p.receiving == r)
    ensures Pending(DiscardClick(p, r))
  {
    if p.receiveChosen && p.receiving == r {
      UndoReceivePending(p, r);
    } else if p.current[r] - Rate(p, r) >= 0 {
      ChooseDiscardPending(p, r);
    }
  }

  /** The undo half of DiscardClickPending: dropping the receive choice takes its card back off. */
  lemma UndoReceivePending(p: Panel, r: Resource)
    requires Pending(p) && r in KindSet && p.receiveChosen && p.receiving == r
    ensures Pending(DiscardClick(p, r))
  {
    var q := DiscardClick(p, r);
    assert !q.receiveChosen && q.discardChosen == p.discardChosen && q.discarding == p.discarding;
    forall k | k in q.initial
      ensures q.current[k] == q.initial[k]
                - (if q.discardChosen && k == q.discarding then Rate(q, k) else 0)
    {
    }
  }

  /** The choosing half of DiscardClickPending: the rate taken off is the rate the account charges. */
  lemma ChooseDiscardPending(p: Panel, r: Resource)
    requires Pending(p) && r in KindSet && !p.discardChosen
    requires !(p.receiveChosen && p.receiving == r) && p.current[r] - Rate(p, r) >= 0
    ensures Pending(DiscardClick(p, r))
  {
    var q := DiscardClick(p, r);
    assert q.discardChosen && q.discarding == r && q.receiveChosen == p.receiveChosen;
    forall k | k in q.initial
      ensures q.current[k] == q.initial[k]
                - (if k == r then Rate(q, k) else 0)
                + (if q.receiveChosen && k == q.receiving then 1 else 0)
    {
    }
  }

  /**
   * The discard click the account does not survive. After giving d,
   * receiving r and taking r back with a discard click, discard button r is
   * still on: the receive click turned it on and the undo leaves the discard
   * buttons alone. Clicking it again chooses r to give while d's rate stays
   * off d's count, and the panel no longer records d.
   */
  lemma SecondDiscardForgetsFirst(p: Panel, r: Resource)
    requires Pending(p) && p.discardChosen && !p.receiveChosen && r in KindSet && r != p.discarding
    requires p.current[r] - Rate(p, r) >= 0 && Rate(p, p.discarding) != 0
    ensures DiscardClick(p, r).discardChosen && DiscardClick(p, r).discarding == r
    ensures DiscardClick(p, r).current[p.discarding] == p.initial[p.discarding] - Rate(p, p.discarding)
    ensures !Pending(DiscardClick(p, r))
  {
    var d := p.discarding;
    var q := DiscardClick(p, r);
    assert q.current[d] == p.current[d] == p.initial[d] - Rate(p, d);
    assert q.discarding != d && !q.receiveChosen;
  }

  /** Give d, receive r, take r back, give r, receive d: the clicks of SecondDiscardForgetsFirst. */
  function RedoneClicks(p: Panel, d: Resource, r: Resource): Panel
    requires PanelOk(p) && d in KindSet && r in KindSet
  {
    ReceiveClick(DiscardClick(DiscardClick(ReceiveClick(DiscardClick(p, d), r), r), r), d)
  }

  /** The first two clicks: d is given and r received. */
  lemma GiveThenReceive(p: Panel, d: Resource, r: Resource)
    requires PanelOk(p) && !p.discardChosen && !p.receiveChosen && d in KindSet && r in KindSet && d != r
    requires p.current[d] - Rate(p, d) >= 0
    ensures var q := ReceiveClick(DiscardClick(p, d), r);
            && q.discardChosen && q.discarding == d && q.receiveChosen && q.receiving == r
            && q.initial == p.initial && q.rates == p.rates
            && q.current[d] == p.current[d] - Rate(p, d) && q.current[r] == p.current[r] + 1
  {
  }

  /** The middle two clicks: r is taken back, then chosen to give, and d is forgotten. */
  lemma UndoThenGive(q: Panel, d: Resource, r: Resource)
    requires PanelOk(q) && d in KindSet && r in KindSet && d != r
    requires q.discardChosen && q.discarding == d && q.receiveChosen && q.receiving == r
    requires q.current[r] - 1 - Rate(q, r) >= 0
    ensures var s := DiscardClick(DiscardClick(q, r), r);
            && s.discardChosen && s.discarding == r && !s.receiveChosen
            && s.initial == q.initial && s.rates == q.rates
            && s.current[r] == q.current[r] - 1 - Rate(q, r) && s.current[d] == q.current[d]
  {
  }

  /** The last click: d is received, and the trade is ready. */
  lemma ReceiveForgotten(s: Panel, d: Resource, r: Resource)
    requires PanelOk(s) && d in KindSet && r in KindSet && d != r
    requires s.discardChosen && s.discarding == r && !s.receiveChosen
    ensures var t := ReceiveClick(s, d);
            && Ready(t) && t.discarding == r && t.receiving == d && t.initial == s.initial
            && t.current[d] == s.current[d] + 1 && t.current[r] == s.current[r]
  {
  }

  /**
   * From a panel with nothing chosen and enough of both resources, those
   * clicks make a trade ready that gives r and receives d, while both
   * rates stay off the counts and only one card comes back.
   */
  lemma RedoneClicksCount(p: Panel, d: Resource, r: Resource)
    requires PanelOk(p) && !p.discardChosen && !p.receiveChosen && d in KindSet && r in KindSet && d != r
    requires p.current[d] - Rate(p, d) >= 0 && p.current[r] - Rate(p, r) >= 0
    ensures Ready(RedoneClicks(p, d, r))
    ensures RedoneClicks(p, d, r).discarding == r && RedoneClicks(p, d, r).receiving == d
    ensures RedoneClicks(p, d, r).initial == p.initial
    ensures RedoneClicks(p, d, r).current[d] == p.current[d] - Rate(p, d) + 1
    ensures RedoneClicks(p, d, r).current[r] == p.current[r] - Rate(p, r)
  {
    GiveThenReceive(p, d, r);
    var q := ReceiveClick(DiscardClick(p, d), r);
    UndoThenGive(q, d, r);
    ReceiveForgotten(DiscardClick(DiscardClick(q, r), r), d, r);
  }

  /**
   * The clicks on 4 wood and 4 clay at rate 4: give wood, receive clay,
   * take clay back, give clay, receive wood. The trade then writes back 1
   * wood and 0 clay: seven cards are lost for the one received, where a
   * trade keeping the account (TradeEffect) costs four.
   */
  lemma RedoneDiscardLosesCards(prev: Panel)
    ensures var m := map[Wood := 4, Clay := 4, Wheat := 0, Sheep := 0, Ore := 0];
            var p := RedoneClicks(Opened(m, [4, 4, 4, 4, 4], prev), Wood, Clay);
            && Ready(p) && !Pending(p) && p.discarding == Clay && p.receiving == Wood
            && Traded(m, p)[Wood] == 1 && Traded(m, p)[Clay] == 0
  {
    var m := map[Wood := 4, Clay := 4, Wheat := 0, Sheep := 0, Ore := 0];
    var p0 := Opened(m, [4, 4, 4, 4, 4], prev);
    RedoneClicksCount(p0, Wood, Clay);
    var p := RedoneClicks(p0, Wood, Clay);
    assert p.current[Wood] == 1 && p.current[Wood] != p.initial[Wood] + 1;
  }

  /** Clicking a receive button the panel offers (none chosen yet, or the undo of the discard choice) keeps the account. */
  lemma ReceiveClickPending(p: Panel, r: Resource)
    requires Pending(p) && r in KindSet
    requires !p.receiveChosen || (p.discardChosen && p.discarding == r)
    requires p.discardChosen && p.discarding == r ==> p.current[r] + Rate(p, r) >= 0
    ensures Pending(ReceiveClick(p, r))
  {
    var q := ReceiveClick(p, r);
    forall k | k in q.initial
      ensures q.current[k] == q.initial[k]
                - (if q.discardChosen && k == q.discarding then Rate(q, k) else 0)
                + (if q.receiveChosen && k == q.receiving then 1 else 0)
    {
    }
  }

  /** Undo: choosing to give r and then clicking receive on r restores the panel's amounts and clears the choice. */
  lemma DiscardThenUndo(p: Panel, r: Resource)
    requires PanelOk(p) && r in KindSet && !p.receiveChosen
    requires p.current[r] - Rate(p, r) >= 0
    ensures ReceiveClick(DiscardClick(p, r), r).current == p.current
    ensures !ReceiveClick(DiscardClick(p, r), r).discardChosen
  {
  }

  /** Undo: choosing to receive r and then clicking discard on r restores the panel's amounts and clears the choice. */
  lemma ReceiveThenUndo(p: Panel, r: Resource)
    requires PanelOk(p) && r in KindSet && !p.discardChosen
    ensures DiscardClick(ReceiveClick(p, r), r).current == p.current
    ensures !DiscardClick(ReceiveClick(p, r), r).receiveChosen
  {
  }

  /**
   * A completed trade from a panel opened on the ledger's holdings, whose
   * clicks kept the account: the resource given loses its rate, the one
   * received gains one card, and every other count is as it was. Without
   * the account the trade can cost more (RedoneDiscardLosesCards).
   */
  lemma TradeEffect(m: Amounts, p: Panel)
    requires Pending(p) && Ready(p) && p.initial == m
    requires m[p.receiving] + 1 >= 0
    ensures Traded(m, p) == m[p.discarding := m[p.discarding] - Rate(p, p.discarding)][p.receiving := m[p.receiving] + 1]
  {
  }

  class TradingManager {
    var initial: Amounts
    var current: Amounts
    /** playerConversionRates, the ledger's rates by enumeration value. */
    var rates: seq<int>
    var discarding: Resource
    var receiving: Resource
    var discardChosen: bool
    var receiveChosen: bool
    /** acceptTradeButton.interactable. */
    var acceptEnabled: bool
    /** The discard buttons' interactable flags as InitialisePanel sets them. */
    var discardEnabled: seq<bool>

    function State(): Panel
      reads this
    {
      Panel(initial, current, rates, discarding, receiving, discardChosen, receiveChosen, acceptEnabled)
    }

    ghost predicate Valid()
      reads this
    {
      PanelOk(State())
    }

    /** The fields before the first InitialisePanel: empty copies and the enumeration's default (WOOD) in both choices. */
    constructor ()
      ensures !discardChosen && !receiveChosen && !acceptEnabled
      ensures discarding == Wood && receiving == Wood
    {
      initial, current, rates := map[], map[], [];
      discarding, receiving := Wood, Wood;
      discardChosen, receiveChosen, acceptEnabled := false, false, false;
      discardEnabled := [];
    }

    /** InitialisePanel for the player whose ledger is given. */
    method InitialisePanel(ledger: Ledger.PlayerResources)
      requires ledger.Valid()
      modifies this
      ensures Valid()
      ensures State() == Opened(ledger.amounts, ledger.rates, old(State()))
      ensures |discardEnabled| == 5
      ensures forall i :: 0 <= i < 5 ==> (discardEnabled[i] <==> initial[FromIndex(i)] >= rates[i])
    {
      initial := CloneDictionary(ledger.amounts);
      current := CloneDictionary(ledger.amounts);
      rates := ledger.rates;
      discardChosen := false;
      receiveChosen := false;
      discardEnabled := DiscardButtonsFor(initial, rates);
      acceptEnabled := false;
    }

    method UIButtonDiscardRessourceClicked(r: Resource)
      requires Valid() && r in KindSet
      modifies this
      ensures Valid()
      ensures State() == DiscardClick(old(State()), r)
      ensures discardEnabled == old(discardEnabled)
    {
      if receiveChosen && receiving == r {
        TakeBackReceive(r);
        return;
      }
      var rate := rates[Index(r)];
      if current[r] - rate < 0 {
        return;
      }
      ChooseDiscard(r, rate);
    }

    /** The undo branch of UIButtonDiscardRessourceClicked: the card added to the resource to receive is taken off again. */
    method TakeBackReceive(r: Resource)
      requires Valid() && r in KindSet && receiveChosen && receiving == r
      modifies this
      ensures State() == DiscardClick(old(State()), r)
      ensures discardEnabled == old(discardEnabled)
    {
      var updatedAmount := current[r] - 1;
      receiveChosen, receiving, current := false, NoResource, current[r := updatedAmount];
      acceptEnabled := false;
    }

    /** The choosing branch of UIButtonDiscardRessourceClicked: the rate, which the amount covers, is taken off r. */
    method ChooseDiscard(r: Resource, rate: int)
      requires Valid() && r in KindSet && !(receiveChosen && receiving == r)
      requires rate == rates[Index(r)] && current[r] - rate >= 0
      modifies this
      ensures State() == DiscardClick(old(State()), r)
      ensures discardEnabled == old(discardEnabled)
    {
      var updatedAmount := current[r] - rate;
      current, discarding, discardChosen := current[r := updatedAmount], r, true;
      acceptEnabled := discardChosen && receiveChosen;
    }

    method UIButtonReceiveRessourceClicked(r: Resource)
      requires Valid() && r in KindSet
      modifies this
      ensures Valid()
      ensures State() == ReceiveClick(old(State()), r)
      ensures discardEnabled == old(discardEnabled)
    {
      if discardChosen && discarding == r {
        TakeBackDiscard(r);
      } else {
        ChooseReceive(r);
      }
    }

    /** The undo branch of UIButtonReceiveRessourceClicked: the rate goes back to the resource that was to be given. */
    method TakeBackDiscard(r: Resource)
      requires Valid() && r in KindSet && discardChosen && discarding == r
      modifies this
      ensures State() == ReceiveClick(old(State()), r)
      ensures discardEnabled == old(discardEnabled)
    {
      var rate := rates[Index(r)];
      var updatedAmount := current[r] + rate;
      discardChosen, discarding, current, acceptEnabled := false, NoResource, current[r := updatedAmount], false;
    }

    /** The choosing branch of UIButtonReceiveRessourceClicked: one card more of r, which becomes the resource to receive. */
    method ChooseReceive(r: Resource)
      requires Valid() && r in KindSet && !(discardChosen && discarding == r)
      modifies this
      ensures State() == ReceiveClick(old(State()), r)
      ensures discardEnabled == old(discardEnabled)
    {
      var updatedAmount := current[r] + 1;
      // both sides are chosen once this side is: accept follows the discard side
      current, receiving, receiveChosen, acceptEnabled := current[r := updatedAmount], r, true, discardChosen;
    }

    /**
     * UIButtonPerformTradeClicked on the ledger of the panel's player: unless
     * the trade is ready nothing happens; else the two chosen entries are
     * written back and the panel opens again on the new holdings.
     */
    method UIButtonPerformTradeClicked(ledger: Ledger.PlayerResources)
      requires Valid() && ledger.Valid()
      requires discardChosen ==> discarding in KindSet
      modifies this, ledger`amounts
      ensures Valid() && ledger.Valid()
      ensures !Ready(old(State())) ==> State() == old(State()) && ledger.amounts == old(ledger.amounts)
      ensures Ready(old(State())) ==> ledger.amounts == Traded(old(ledger.amounts), old(State()))
      ensures Ready(old(State())) ==> State() == Opened(ledger.amounts, ledger.rates, old(State()))
    {
      if !(discardChosen && receiveChosen) {
        return;
      }
      if receiving == NoResource {
        return;
      }
      ledger.SetResourceToAmount(discarding, current[discarding]);
      ledger.SetResourceToAmount(receiving, current[receiving]);
      InitialisePanel(ledger);
    }
  }

  /** SetDiscardButtonsInteractableIfConversionRateIsSatisfied: button i is on when the initial amount covers its rate. */
  method DiscardButtonsFor(initial: Amounts, rates: seq<int>) returns (b: seq<bool>)
    requires Ledger.WellFormed(initial) && |rates| == 5
    ensures |b| == 5
    ensures forall i :: 0 <= i < 5 ==> (b[i] <==> initial[FromIndex(i)] >= rates[i])
  {
    b := [];
    var index := 0;
    while index < 5
      invariant 0 <= index <= 5 && |b| == index
      invariant forall i :: 0 <= i < index ==> (b[i] <==> initial[FromIndex(i)] >= rates[i])
    {
      b := b + [initial[FromIndex(index)] >= rates[index]];
      index := index + 1;
    }
  }

  /** CloneDictionary: a new map with every key and value of the original. */
  method CloneDictionary(original: Amounts) returns (copy: Amounts)
    ensures copy == original
  {
    copy := map[];
    var keys := original.Keys;
    while keys != {}
      invariant keys <= original.Keys
      invariant copy.Keys == original.Keys - keys
      invariant forall k :: k in copy ==> copy[k] == original[k]
      decreases keys
    {
      if forall x :: x !in keys {
        assert false;
      }
      var k :| k in keys;
      copy := copy[k := original[k]];
      keys := keys - {k};
    }
  }
}
