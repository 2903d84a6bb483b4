/**
 * A player's resource ledger (Player/PlayerRessources.cs): how many cards of
 * each resource the player holds and the rate at which four of a kind can be
 * traded for one card of choice.
 */
module Ledger {
  import opened Resources
  import Shuffle

  /** The ledger has an entry for every tradeable resource and none for NONE. */
  predicate WellFormed(m: Amounts)
  {
    m.Keys == KindSet
  }

  /** The holdings Start sets up: zero of every tradeable resource. */
  const EmptyHoldings: Amounts := map[Wood := 0, Clay := 0, Wheat := 0, Sheep := 0, Ore := 0]

  /** The trade rate every resource starts with. */
  const BaseConversionRate: int := 4

  function Get(c: Amounts, r: Resource): int
  {
    if r in c then c[r] else 0
  }

  predicate NonNegative(m: Amounts)
  {
    forall r :: r in m ==> m[r] >= 0
  }

  /** The number of cards a player holds in all. */
  function Total(m: Amounts): int
  {
    CardCount(m, Kinds)
  }

  /** The holdings cover a cost: for every resource the cost lists, the player owns at least that many. */
  predicate Satisfied(m: Amounts, cost: Amounts)
    requires cost.Keys <= m.Keys
  {
    forall r :: r in cost ==> m[r] >= cost[r]
  }

  /** Every listed amount added to the holdings. */
  function AddedAll(m: Amounts, c: Amounts): (r: Amounts)
    ensures r.Keys == m.Keys
  {
    map k | k in m :: m[k] + Get(c, k)
  }

  /** Every listed amount taken from the holdings, clamped at zero. */
  function Charged(m: Amounts, c: Amounts): (r: Amounts)
    ensures r.Keys == m.Keys
  {
    map k | k in m :: if k in c then Max(m[k] - c[k], 0) else m[k]
  }

  /** Every listed non-negative amount written over the holdings; negative ones are ignored. */
  function Overwritten(m: Amounts, c: Amounts): (r: Amounts)
    ensures r.Keys == m.Keys
  {
    map k | k in m :: if k in c && c[k] >= 0 then c[k] else m[k]
  }

  /** Overwriting with one more entry of c: the entry's resource takes its value unless it is negative. */
  lemma OverwrittenStep(m0: Amounts, m: Amounts, c: Amounts, done: set<Resource>, r: Resource)
    requires done <= c.Keys && r in c && r !in done && r in m0
    requires m == Overwritten(m0, map k | k in done :: c[k])
    ensures (if c[r] >= 0 then m[r := c[r]] else m) == Overwritten(m0, map k | k in done + {r} :: c[k])
  {
  }

  function Max(a: int, b: int): int
  {
    if a >= b then a else b
  }

  /** Charging never leaves a listed resource negative and leaves unlisted ones alone. */
  lemma ChargedClamps(m: Amounts, c: Amounts)
    ensures forall k :: k in m && k in c ==> Charged(m, c)[k] >= 0 && Charged(m, c)[k] >= m[k] - c[k]
    ensures forall k :: k in m && k !in c ==> Charged(m, c)[k] == m[k]
    ensures NonNegative(m) ==> NonNegative(Charged(m, c))
  {
  }

  /** When the holdings cover the cost, charging takes exactly the cost. */
  lemma ChargedExactWhenSatisfied(m: Amounts, c: Amounts)
    requires c.Keys <= m.Keys && Satisfied(m, c)
    ensures forall k :: k in c ==> Charged(m, c)[k] == m[k] - c[k]
  {
  }

  /**
   * The resource a random discard takes a card of: walking the resources in
   * the given order, the first one the player holds a positive amount of;
   * NoResource when there is none.
   */
  function FirstPositive(m: Amounts, order: seq<Resource>): (r: Resource)
    requires forall i :: 0 <= i < |order| ==> order[i] in m && order[i] != NoResource
    ensures r != NoResource ==> r in order && m[r] > 0
    ensures r == NoResource ==> forall i :: 0 <= i < |order| ==> m[order[i]] <= 0
  {
    if order == [] then NoResource
    else if m[order[0]] > 0 then order[0]
    else FirstPositive(m, order[1..])
  }

  /** The holdings after taking one card of FirstPositive, or unchanged when there is nothing to take. */
  function DiscardFirstPositive(m: Amounts, order: seq<Resource>): (r: Amounts)
    requires forall i :: 0 <= i < |order| ==> order[i] in m && order[i] != NoResource
    ensures r.Keys == m.Keys
  {
    var k := FirstPositive(m, order);
    if k == NoResource then m else m[k := m[k] - 1]
  }

  /** A shuffled list of the five resources still names each of them, and nothing else. */
  lemma ShuffledKindsCover(offs: seq<nat>)
    requires Shuffle.ValidOffsets(offs, 5)
    ensures forall r :: r in KindSet <==> r in Shuffle.Shuffled(Kinds, offs)
  {
    var order := Shuffle.Shuffled(Kinds, offs);
    Shuffle.ShuffledPermutes(Kinds, offs);
    forall r
      ensures r in KindSet <==> r in order
    {
      assert r in Kinds <==> r in multiset(Kinds);
      assert r in order <==> r in multiset(order);
    }
  }

  /** The resources in the order a shuffle with draws offs leaves them. */
  function ShuffledKinds(offs: seq<nat>): (order: seq<Resource>)
    requires Shuffle.ValidOffsets(offs, 5)
    ensures |order| == 5
    ensures forall i :: 0 <= i < |order| ==> order[i] in KindSet
  {
    ShuffledKindsCover(offs);
    Shuffle.Shuffled(Kinds, offs)
  }

  /** The pile after one random discard per draw, in the order of the draws. */
  function DiscardMany(m: Amounts, draws: seq<seq<nat>>): (r: Amounts)
    requires WellFormed(m)
    requires ValidDraws(draws)
    ensures WellFormed(r)
  {
    if draws == [] then m
    else DiscardMany(DiscardFirstPositive(m, ShuffledKinds(draws[0])), draws[1..])
  }

  /** The number of random discards the bandit demands of a pile of n cards: n/2 rounded up. */
  function BanditDiscardCount(n: int): (k: int)
    ensures n >= 0 ==> k == (n + 1) / 2 && 2 * k >= n && 2 * k <= n + 1
  {
    if n % 2 == 1 then (n + 1) / 2 else n / 2
  }

  /** Each draw is a valid shuffle of the five resource keys. */
  predicate ValidDraws(draws: seq<seq<nat>>)
  {
    forall i :: 0 <= i < |draws| ==> Shuffle.ValidOffsets(draws[i], 5)
  }

  /**
   * The bandit's rule for one pile, with the ORE count standing in for the
   * total as the game computes it: nothing happens up to 7, above that half
   * the count rounded up is discarded at random, one draw per card.
   */
  function BanditDiscard(m: Amounts, draws: seq<seq<nat>>): (r: Amounts)
    requires WellFormed(m) && ValidDraws(draws) && |draws| >= BanditDiscardCount(m[Ore])
    ensures WellFormed(r)
  {
    if m[Ore] <= 7 then m else DiscardMany(m, draws[..BanditDiscardCount(m[Ore])])
  }

  /**
   * A pile whose ORE count is above 7 loses n/2 rounded up cards (or all it
   * has, if fewer), never goes negative, and a pile with at most 7 ORE keeps
   * every card.
   */
  lemma BanditDiscardEffect(m: Amounts, draws: seq<seq<nat>>)
    requires WellFormed(m) && NonNegative(m) && ValidDraws(draws) && |draws| >= BanditDiscardCount(m[Ore])
    ensures NonNegative(BanditDiscard(m, draws))
    ensures m[Ore] <= 7 ==> BanditDiscard(m, draws) == m
    ensures m[Ore] > 7 ==> Total(BanditDiscard(m, draws)) == Max(Total(m) - (m[Ore] + 1) / 2, 0)
  {
    if m[Ore] > 7 {
      DiscardManyTotal(m, draws[..BanditDiscardCount(m[Ore])]);
    }
  }

  /** The total of a well-formed ledger is the sum of its five entries. */
  lemma TotalIsSum(m: Amounts)
    requires WellFormed(m)
    ensures Total(m) == m[Wood] + m[Clay] + m[Wheat] + m[Sheep] + m[Ore]
  {
    assert CardCount(m, [Ore]) == m[Ore] + CardCount(m, []);
    assert CardCount(m, [Sheep, Ore]) == m[Sheep] + CardCount(m, [Ore]);
    assert CardCount(m, [Wheat, Sheep, Ore]) == m[Wheat] + CardCount(m, [Sheep, Ore]);
    assert CardCount(m, [Clay, Wheat, Sheep, Ore]) == m[Clay] + CardCount(m, [Wheat, Sheep, Ore]);
    assert CardCount(m, Kinds) == m[Wood] + CardCount(m, [Clay, Wheat, Sheep, Ore]);
  }

  /**
   * One random discard takes exactly one card of a resource the player holds
   * a positive amount of, whichever order the shuffle produced, and changes
   * nothing when the player holds no card.
   */
  lemma RandomDiscardEffect(m: Amounts, offs: seq<nat>)
    requires WellFormed(m) && Shuffle.ValidOffsets(offs, 5)
    ensures var k := FirstPositive(m, ShuffledKinds(offs));
      (k == NoResource <==> forall r :: r in m ==> m[r] <= 0) &&
      (k != NoResource ==> k in m && m[k] > 0)
  {
    var order := ShuffledKinds(offs);
    ShuffledKindsCover(offs);
    assert forall i :: 0 <= i < |order| ==> order[i] in KindSet;
    var k := FirstPositive(m, order);
    if k == NoResource {
      forall r | r in m
        ensures m[r] <= 0
      {
        assert r in KindSet;
        assert r in order;
        var i :| 0 <= i < |order| && order[i] == r;
      }
    } else {
      assert k in order;
      assert k in m && m[k] > 0;
    }
  }

  /** With no debts in the pile, every discard while cards remain removes exactly one card. */
  lemma {:induction false} DiscardManyTotal(m: Amounts, draws: seq<seq<nat>>)
    requires WellFormed(m) && NonNegative(m)
    requires ValidDraws(draws)
    ensures NonNegative(DiscardMany(m, draws))
    ensures Total(DiscardMany(m, draws)) == Max(Total(m) - |draws|, 0)
  {
    TotalIsSum(m);
    if draws != [] {
      ShuffledKindsCover(draws[0]);
      var order := ShuffledKinds(draws[0]);
      var m' := DiscardFirstPositive(m, order);
      RandomDiscardEffect(m, draws[0]);
      var k := FirstPositive(m, order);
      if k != NoResource {
        TotalIsSum(m');
        assert Total(m') == Total(m) - 1;
      } else {
        assert Total(m) == 0;
      }
      assert NonNegative(m');
      DiscardManyTotal(m', draws[1..]);
    }
  }

  /**
   * The resource component of a player. AmountPerRessourceType is amounts,
   * RessourceConversionRates is rates (indexed by Index(r)).
   */
  class PlayerResources {
    var amounts: Amounts
    var rates: seq<int>

    ghost predicate Valid()
      reads this
    {
      WellFormed(amounts) && |rates| == 5
    }

    /** Start: every tradeable resource gets count 0 and the base conversion rate; NONE gets neither. */
    constructor ()
      ensures Valid()
      ensures amounts == EmptyHoldings
      ensures rates == [BaseConversionRate, BaseConversionRate, BaseConversionRate, BaseConversionRate, BaseConversionRate]
    {
      var a: Amounts := map[];
      var rs := seq(5, _ => 0);
      var i := 0;
      while i < 6
        invariant 0 <= i <= 6 && |rs| == 5
        invariant a.Keys == set j | 0 <= j < i && j < 5 :: FromIndex(j)
        invariant forall r :: r in a ==> a[r] == 0
        invariant forall j :: 0 <= j < 5 ==> rs[j] == (if j < i then BaseConversionRate else 0)
      {
        var r := FromIndex(i);
        if r != NoResource {
          a := a[r := 0];
          rs := rs[i := BaseConversionRate];
        }
        i := i + 1;
      }
      assert a.Keys == KindSet by {
        assert FromIndex(0) == Wood && FromIndex(1) == Clay && FromIndex(2) == Wheat;
        assert FromIndex(3) == Sheep && FromIndex(4) == Ore;
      }
      amounts := a;
      rates := rs;
    }

    /** The as-written total: the loop assigns instead of adding, so the last resource visited (ORE) wins. */
    method TotalAsWritten() returns (amount: int)
      requires Valid()
      ensures amount == amounts[Ore]
    {
      amount := 0;
      var i := 0;
      while i < 6
        invariant 0 <= i <= 6
        invariant 0 < i <= 5 ==> amount == amounts[FromIndex(i - 1)]
        invariant i == 6 ==> amount == amounts[Ore]
      {
        var r := FromIndex(i);
        if r != NoResource {
          amount := amounts[r];
        }
        i := i + 1;
      }
    }

    /** True exactly when the player owns at least the listed amount of every resource the cost lists. */
    method IsSatisfied(cost: Amounts) returns (ok: bool)
      requires Valid() && cost.Keys <= KindSet
      ensures ok <==> Satisfied(amounts, cost)
    {
      var keys := cost.Keys;
      ghost var done: set<Resource> := {};
      while keys != {}
        invariant keys + done == cost.Keys && keys !! done
        invariant forall r :: r in done ==> amounts[r] >= cost[r]
        decreases keys
      {
        var r :| r in keys;
        if amounts[r] < cost[r] {
          return false;
        }
        keys := keys - {r};
        done := done + {r};
      }
      return true;
    }

    method AddResource(r: Resource, amountToAdd: int)
      requires Valid() && r != NoResource
      modifies this`amounts
      ensures Valid()
      ensures amounts == old(amounts)[r := old(amounts)[r] + amountToAdd]
    {
      amounts := amounts[r := amounts[r] + amountToAdd];
    }

    method AddResources(toAdd: Amounts)
      requires Valid() && toAdd.Keys <= KindSet
      modifies this`amounts
      ensures Valid()
      ensures amounts == AddedAll(old(amounts), toAdd)
    {
      var keys := toAdd.Keys;
      ghost var done: set<Resource> := {};
      while keys != {}
        invariant keys + done == toAdd.Keys && keys !! done
        invariant Valid()
        invariant amounts.Keys == old(amounts).Keys
        invariant forall k :: k in amounts ==> amounts[k] == old(amounts)[k] + (if k in done then toAdd[k] else 0)
        decreases keys
      {
        var r :| r in keys;
        AddResource(r, toAdd[r]);
        keys := keys - {r};
        done := done + {r};
      }
    }

    /** Takes the amount even when the player owns less; the game only logs that case, so the count can go negative. */
    method DiscardResource(r: Resource, amountToDiscard: int)
      requires Valid() && r != NoResource
      modifies this`amounts
      ensures Valid()
      ensures amounts == old(amounts)[r := old(amounts)[r] - amountToDiscard]
    {
      var currentAmount := amounts[r];
      amounts := amounts[r := currentAmount - amountToDiscard];
    }

    /** Pays a cost: every listed resource drops by the listed amount but not below zero. */
    method DiscardResources(toDiscard: Amounts)
      requires Valid() && toDiscard.Keys <= KindSet
      modifies this`amounts
      ensures Valid()
      ensures amounts == Charged(old(amounts), toDiscard)
    {
      var keys := toDiscard.Keys;
      ghost var done: set<Resource> := {};
      while keys != {}
        invariant keys + done == toDiscard.Keys && keys !! done
        invariant Valid()
        invariant amounts.Keys == old(amounts).Keys
        invariant forall k :: k in amounts ==> amounts[k] == (if k in done then Max(old(amounts)[k] - toDiscard[k], 0) else old(amounts)[k])
        decreases keys
      {
        var r :| r in keys;
        var currentAmount := amounts[r];
        amounts := amounts[r := Max(currentAmount - toDiscard[r], 0)];
        keys := keys - {r};
        done := done + {r};
      }
    }

    /**
     * Shuffles the resource keys with the draws offs and takes one card of the
     * first resource in that order the player holds a positive amount of.
     */
    method DiscardRandomResource(offs: seq<nat>)
      requires Valid() && Shuffle.ValidOffsets(offs, 5)
      modifies this`amounts
      ensures Valid()
      ensures amounts == DiscardFirstPositive(old(amounts), ShuffledKinds(offs))
    {
      var keys := new Resource[5](i requires 0 <= i < 5 => Kinds[i]);
      assert keys[..] == Kinds;
      Shuffle.ShuffleList(keys, offs);
      assert keys[..] == ShuffledKinds(offs);
      DiscardFirstHeld(keys);
    }

    /** The loop of DiscardRandomResource: one card of the first resource in keys' order with a positive count. */
    method DiscardFirstHeld(keys: array<Resource>)
      requires Valid() && keys.Length == 5 && forall i :: 0 <= i < 5 ==> keys[i] in KindSet
      modifies this`amounts
      ensures Valid()
      ensures amounts == DiscardFirstPositive(old(amounts), keys[..])
    {
      ghost var order := keys[..];
      var index := 0;
      while index < keys.Length
        invariant 0 <= index <= keys.Length && amounts == old(amounts)
        invariant FirstPositive(amounts, order) == FirstPositive(amounts, order[index..])
      {
        assert order[index..][0] == keys[index] && order[index..][1..] == order[index + 1..];
        if amounts[keys[index]] > 0 {
          DiscardResource(keys[index], 1);
          return;
        }
        index := index + 1;
      }
      assert order[index..] == [];
    }

    /** Negative amounts are refused (the game logs and changes nothing); otherwise the count becomes exactly the amount. */
    method SetResourceToAmount(r: Resource, amount: int)
      requires Valid() && r != NoResource
      modifies this`amounts
      ensures Valid()
      ensures amount < 0 ==> amounts == old(amounts)
      ensures amount >= 0 ==> amounts == old(amounts)[r := amount]
    {
      if amount < 0 {
        return;
      }
      amounts := amounts[r := amount];
    }

    method SetResourcesToAmount(amountPerResource: Amounts)
      requires Valid() && amountPerResource.Keys <= KindSet
      modifies this`amounts
      ensures Valid()
      ensures amounts == Overwritten(old(amounts), amountPerResource)
    {
      var keys := amountPerResource.Keys;
      ghost var done: set<Resource> := {};
      while keys != {}
        invariant keys + done == amountPerResource.Keys && keys !! done
        invariant Valid()
        invariant amounts == Overwritten(old(amounts), map k | k in done :: amountPerResource[k])
        decreases keys
      {
        if forall x :: x !in keys {
          assert false;
        }
        var r :| r in keys;
        OverwrittenStep(old(amounts), amounts, amountPerResource, done, r);
        SetResourceToAmount(r, amountPerResource[r]);
        keys := keys - {r};
        done := done + {r};
      }
      assert (map k | k in done :: amountPerResource[k]) == amountPerResource;
    }

    /**
     * The bandit's discard: with n the as-written total (the ORE count), a pile
     * of more than 7 loses n/2 rounded up cards, one random discard per draw.
     */
    method BanditPileDiscarding(draws: seq<seq<nat>>)
      requires Valid()
      requires ValidDraws(draws) && |draws| >= BanditDiscardCount(amounts[Ore])
      modifies this`amounts
      ensures Valid()
      ensures amounts == BanditDiscard(old(amounts), draws)
    {
      var resourceAmount := TotalAsWritten();
      if !(resourceAmount > 7) {
        return;
      }
      var amountToDiscard := if resourceAmount % 2 == 1 then (resourceAmount + 1) / 2 else resourceAmount / 2;
      var index := amountToDiscard;
      while index > 0
        invariant 0 <= index <= amountToDiscard && Valid()
        invariant amounts == DiscardMany(old(amounts), draws[..amountToDiscard - index])
      {
        DiscardRandomResource(draws[amountToDiscard - index]);
        DiscardManySnoc(old(amounts), draws[..amountToDiscard - index], draws[amountToDiscard - index]);
        assert draws[..amountToDiscard - index] + [draws[amountToDiscard - index]] == draws[..amountToDiscard - index + 1];
        index := index - 1;
      }
    }
  }

  /** One more discard at the end of the sequence of draws is one more random discard on the result. */
  lemma {:induction false} DiscardManySnoc(m: Amounts, draws: seq<seq<nat>>, d: seq<nat>)
    requires WellFormed(m)
    requires ValidDraws(draws)
    requires Shuffle.ValidOffsets(d, 5)
    ensures DiscardMany(m, draws + [d]) == DiscardFirstPositive(DiscardMany(m, draws), ShuffledKinds(d))
  {
    if draws != [] {
      assert (draws + [d])[1..] == draws[1..] + [d];
      DiscardManySnoc(DiscardFirstPositive(m, ShuffledKinds(draws[0])), draws[1..], d);
    }
  }

  /**
   * The bandit rule counts the ORE cards where the whole pile was meant: the
   * count never exceeds the true total, and equals it only when the player
   * holds nothing but ore.
   */
  lemma AsWrittenTotalUndercounts(m: Amounts)
    requires WellFormed(m) && NonNegative(m)
    ensures m[Ore] <= Total(m)
    ensures m[Ore] == Total(m) <==> m[Wood] == m[Clay] == m[Wheat] == m[Sheep] == 0
  {
    TotalIsSum(m);
  }

  /** Nine wood and no ore: a pile above seven that the bandit leaves alone. */
  lemma NineWoodEscapeBandit()
    ensures WellFormed(EmptyHoldings[Wood := 9])
    ensures Total(EmptyHoldings[Wood := 9]) == 9 && EmptyHoldings[Wood := 9][Ore] <= 7
  {
    TotalIsSum(EmptyHoldings[Wood := 9]);
  }

  /** A roster of ledgers, one per player ID, no two IDs sharing a ledger object. */
  predicate Injective(ls: map<int, PlayerResources>)
  {
    forall i, j :: i in ls && j in ls && i != j ==> ls[i] != ls[j]
  }

  ghost predicate LedgersValid(ls: map<int, PlayerResources>)
    reads ls.Values
  {
    Injective(ls) && forall i :: i in ls ==> ls[i].Valid()
  }

  /** Ledgers that no field of changed still hold what they held. */
  twostate lemma LedgersKept(ls: map<int, PlayerResources>)
    requires old(LedgersValid(ls)) && forall p :: p in ls ==> unchanged(ls[p])
    ensures LedgersValid(ls) && Holdings(ls) == old(Holdings(ls))
  {
    forall p | p in ls
      ensures ls[p].Valid() && ls[p].amounts == old(ls[p].amounts)
    {
      assert unchanged(ls[p]);
    }
    assert Holdings(ls) == old(Holdings(ls));
  }

  /** What every player holds. */
  ghost function Holdings(ls: map<int, PlayerResources>): (h: map<int, Amounts>)
    reads ls.Values
    ensures h.Keys == ls.Keys
    ensures LedgersValid(ls) ==> forall i :: i in h ==> WellFormed(h[i])
  {
    map i | i in ls :: ls[i].amounts
  }

  /** When every ledger but p's still holds what before records, the holdings differ from before in p's entry only. */
  lemma OnlyOneChanged(ls: map<int, PlayerResources>, before: map<int, Amounts>, p: int)
    requires before.Keys == ls.Keys && p in ls
    requires forall q :: q in ls && q != p ==> ls[q].amounts == before[q]
    ensures Holdings(ls) == before[p := ls[p].amounts]
  {
    var after := before[p := ls[p].amounts];
    assert Holdings(ls).Keys == after.Keys;
    assert forall q :: q in ls ==> Holdings(ls)[q] == after[q];
  }

  /** The draws every player with an ID from 1 below upto needs for the bandit's discard. */
  ghost predicate DrawsFor(h: map<int, Amounts>, draws: map<int, seq<seq<nat>>>, upto: int)
  {
    forall p :: 1 <= p < upto ==>
      p in h && WellFormed(h[p]) && p in draws && ValidDraws(draws[p]) && |draws[p]| >= BanditDiscardCount(h[p][Ore])
  }

  /** The holdings after the players with IDs from 1 below upto each did the bandit's discard with their own draws. */
  ghost function BanditRound(h: map<int, Amounts>, draws: map<int, seq<seq<nat>>>, upto: int): (r: map<int, Amounts>)
    requires DrawsFor(h, draws, upto)
    ensures r.Keys == h.Keys
    ensures forall p :: p in h && !(1 <= p < upto) ==> r[p] == h[p]
  {
    map p | p in h :: if 1 <= p < upto then BanditDiscard(h[p], draws[p]) else h[p]
  }

  /** Draws for the players below b are draws for the players below any a up to b. */
  lemma DrawsForBelow(h: map<int, Amounts>, draws: map<int, seq<seq<nat>>>, a: int, b: int)
    requires a <= b && DrawsFor(h, draws, b)
    ensures DrawsFor(h, draws, a)
  {
  }

  /** One more player's discard extends the round by that player. */
  lemma BanditRoundStep(h: map<int, Amounts>, draws: map<int, seq<seq<nat>>>, i: int)
    requires 1 <= i && DrawsFor(h, draws, i + 1) && DrawsFor(h, draws, i)
    ensures BanditRound(h, draws, i + 1) == BanditRound(h, draws, i)[i := BanditDiscard(h[i], draws[i])]
  {
    var next := BanditRound(h, draws, i)[i := BanditDiscard(h[i], draws[i])];
    forall p | p in h
      ensures BanditRound(h, draws, i + 1)[p] == next[p]
    {
      if p != i {
        assert 1 <= p < i + 1 <==> 1 <= p < i;
      }
    }
  }

  /** The holdings cur are those after the discards of the players with IDs from 1 below upto. */
  ghost predicate RoundSoFar(cur: map<int, Amounts>, h: map<int, Amounts>, draws: map<int, seq<seq<nat>>>, upto: int)
  {
    DrawsFor(h, draws, upto) && cur == BanditRound(h, draws, upto)
  }

  /**
   * ProcessDiceResult on a 7: the players with IDs 1 up to the number of
   * players each discard for the bandit, in ID order, with their own draws.
   */
  method BanditRoundAll(ledgers: map<int, PlayerResources>, draws: map<int, seq<seq<nat>>>)
    requires LedgersValid(ledgers) && DrawsFor(Holdings(ledgers), draws, |ledgers| + 1)
    modifies ledgers.Values
    ensures LedgersValid(ledgers)
    ensures Holdings(ledgers) == BanditRound(old(Holdings(ledgers)), draws, |ledgers| + 1)
  {
    ghost var h := Holdings(ledgers);
    DrawsForBelow(h, draws, 1, |ledgers| + 1);
    DiscardInTurn(ledgers, h, draws);
  }

  /** The loop of BanditRoundAll, from the first player to the last. */
  method DiscardInTurn(ledgers: map<int, PlayerResources>, ghost h: map<int, Amounts>, draws: map<int, seq<seq<nat>>>)
    requires h.Keys == ledgers.Keys && DrawsFor(h, draws, |ledgers| + 1)
    requires LedgersValid(ledgers) && RoundSoFar(Holdings(ledgers), h, draws, 1)
    modifies ledgers.Values
    ensures LedgersValid(ledgers) && RoundSoFar(Holdings(ledgers), h, draws, |ledgers| + 1)
  {
    var count := |ledgers|;
    var index := 1;
    assert forall j :: 1 <= j <= count ==> j in ledgers;
    while index <= count
      invariant 1 <= index <= count + 1
      invariant forall j :: 1 <= j <= count ==> j in ledgers
      invariant LedgersValid(ledgers) && RoundSoFar(Holdings(ledgers), h, draws, index)
    {
      assert ledgers[index] in ledgers.Values;
      DiscardForBandit(ledgers, h, draws, index, count);
      index := index + 1;
    }
  }

  /** One turn of the loop: player i discards for the bandit, everyone else keeps their cards. */
  method DiscardForBandit(ledgers: map<int, PlayerResources>, ghost h: map<int, Amounts>, draws: map<int, seq<seq<nat>>>, i: int, ghost count: int)
    requires 1 <= i <= count && h.Keys == ledgers.Keys && LedgersValid(ledgers) && DrawsFor(h, draws, count + 1)
    requires RoundSoFar(Holdings(ledgers), h, draws, i)
    modifies ledgers[i]
    ensures LedgersValid(ledgers) && RoundSoFar(Holdings(ledgers), h, draws, i + 1)
  {
    DrawsForBelow(h, draws, i + 1, count + 1);
    ghost var before := Holdings(ledgers);
    assert ledgers[i].amounts == h[i];
    ledgers[i].BanditPileDiscarding(draws[i]);
    OnlyOneChanged(ledgers, before, i);
    BanditRoundStep(h, draws, i);
  }
}
