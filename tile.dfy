/**
 * The state of one tile (Tile.cs): its type, dice number and resource, the
 * nodes that depend on it, the bandit and disaster flags, and how much each
 * player gets when it yields.
 *
 * A Tile object is a record here; the board keeps one per tile handle and
 * its methods replace the record of the tile they act on.
 */
module TileModel {
  import opened Resources
  import opened BoardLayout
  import opened Seqs
  import Ledger
  import Shuffle
  import opened Optional
  import NodeGrid

  /** A handle on a node (an intersection of tiles): its (row, column) name. */
  type NodeId = NodeGrid.NodeId

  /** A player, by the ID the player manager registers it under. */
  type PlayerId = int

  datatype Tile = Tile(
    kind: TileKind,
    number: int,
    resource: Resource,
    dependentNodes: seq<NodeId>,
    occupiedByBandits: bool,
    /** The keys of yieldAmountPerPlayer, in the order they were added. */
    yieldPlayers: seq<PlayerId>,
    yieldAmount: map<PlayerId, int>,
    prohibitedByDisaster: bool)

  /** SetRessourceType: the resource each tile type produces; the desert produces none. */
  function ResourceOf(k: TileKind): (r: Resource)
    ensures r == NoResource <==> k == Desert
  {
    match k
    case Forest => Wood
    case ClayPit => Clay
    case Farm => Wheat
    case Pasture => Sheep
    case Mountain => Ore
    case Desert => NoResource
  }

  /** The tile type that produces a given resource: the inverse of ResourceOf. */
  function KindYielding(r: Resource): (k: TileKind)
    requires r != NoResource
    ensures k != Desert && ResourceOf(k) == r
  {
    match r
    case Wood => Forest
    case Clay => ClayPit
    case Wheat => Farm
    case Sheep => Pasture
    case Ore => Mountain
  }

  /** Every tile type but the desert produces its own resource, so the mapping is one-to-one. */
  lemma ResourceOfInjective(k: TileKind, j: TileKind)
    requires ResourceOf(k) == ResourceOf(j)
    ensures k == j
  {
  }

  /** The bookkeeping a tile keeps consistent: its yield keys listed once each, its dependent nodes listed once each. */
  ghost predicate TileValid(t: Tile)
  {
    && Distinct(t.yieldPlayers)
    && (forall p :: p in t.yieldAmount <==> p in t.yieldPlayers)
    && Distinct(t.dependentNodes)
    && t.resource == ResourceOf(t.kind)
  }

  /** A tile as SpawnBoard leaves it: type and number set, the resource derived from the type, nothing else yet. */
  function SpawnedTile(kind: TileKind, number: int): (t: Tile)
    ensures TileValid(t)
    ensures t.kind == kind && t.number == number && t.resource == ResourceOf(kind)
    ensures t.yieldAmount == map[] && !t.occupiedByBandits && !t.prohibitedByDisaster
  {
    Tile(kind, number, ResourceOf(kind), [], false, [], map[], false)
  }

  /**
   * IncreaseYieldForPlayerID: the player's entry grows by the amount, or is
   * created with the amount; no other entry changes.
   */
  function WithYield(t: Tile, p: PlayerId, amount: int): (r: Tile)
    ensures r.yieldAmount.Keys == t.yieldAmount.Keys + {p}
    ensures r.yieldAmount[p] == (if p in t.yieldAmount then t.yieldAmount[p] else 0) + amount
    ensures forall q :: q in t.yieldAmount && q != p ==> r.yieldAmount[q] == t.yieldAmount[q]
    ensures r.(yieldAmount := t.yieldAmount, yieldPlayers := t.yieldPlayers) == t
    ensures TileValid(t) ==> TileValid(r)
  {
    if p !in t.yieldAmount then t.(yieldAmount := t.yieldAmount[p := amount], yieldPlayers := t.yieldPlayers + [p])
    else t.(yieldAmount := t.yieldAmount[p := t.yieldAmount[p] + amount])
  }

  /** AddDependentNode: the node is listed afterwards, and never twice. */
  function WithDependentNode(t: Tile, n: NodeId): (r: Tile)
    ensures n in r.dependentNodes
    ensures forall m :: m in r.dependentNodes <==> m in t.dependentNodes || m == n
    ensures r.(dependentNodes := t.dependentNodes) == t
    ensures TileValid(t) ==> TileValid(r)
  {
    t.(dependentNodes := AddIfAbsent(t.dependentNodes, n))
  }

  /** A tile yields nothing while a disaster prohibits it or the bandit sits on it. */
  predicate Blocked(t: Tile)
  {
    t.prohibitedByDisaster || t.occupiedByBandits
  }

  /** The cards a player gets from one yield of the tile. */
  function Share(t: Tile, p: PlayerId): (n: int)
    ensures Blocked(t) || t.resource == NoResource || p !in t.yieldAmount ==> n == 0
    ensures n != 0 ==> t.resource in KindSet
  {
    KindsAreAllButNone(t.resource);
    if Blocked(t) || t.resource == NoResource || p !in t.yieldAmount then 0 else t.yieldAmount[p]
  }

  /** One player's holdings after one yield of the tile. */
  function Gain(m: Amounts, t: Tile, p: PlayerId): (r: Amounts)
    requires Ledger.WellFormed(m)
    ensures Ledger.WellFormed(r)
  {
    var n := Share(t, p);
    if n == 0 then m else m[t.resource := m[t.resource] + n]
  }

  /**
   * YieldRessources on every player's holdings: each player with an entry
   * gets that entry of the tile's resource, unless the tile is blocked or
   * is the desert.
   */
  function Yielded(h: map<PlayerId, Amounts>, t: Tile): (r: map<PlayerId, Amounts>)
    requires forall p :: p in h ==> Ledger.WellFormed(h[p])
    ensures r.Keys == h.Keys
    ensures forall p :: p in r ==> Ledger.WellFormed(r[p])
  {
    map p | p in h :: Gain(h[p], t, p)
  }

  /**
   * One yield, player by player and resource by resource: the tile's
   * resource grows by the player's share, every other resource and every
   * player without an entry stays as it was.
   */
  lemma YieldedExactly(h: map<PlayerId, Amounts>, t: Tile)
    requires forall p :: p in h ==> Ledger.WellFormed(h[p])
    ensures forall p, r :: p in h && r in h[p] ==>
      Yielded(h, t)[p][r] == h[p][r] + (if r == t.resource then Share(t, p) else 0)
    ensures Blocked(t) || t.resource == NoResource ==> Yielded(h, t) == h
  {
    if Blocked(t) || t.resource == NoResource {
      assert forall p :: p in h ==> Share(t, p) == 0;
    }
  }

  /** The holdings after the listed tiles yield one after the other. */
  function YieldedAll(h: map<PlayerId, Amounts>, tiles: seq<Tile>, ids: seq<nat>): (r: map<PlayerId, Amounts>)
    requires forall p :: p in h ==> Ledger.WellFormed(h[p])
    requires forall i :: 0 <= i < |ids| ==> ids[i] < |tiles|
    ensures r.Keys == h.Keys
    ensures forall p :: p in r ==> Ledger.WellFormed(r[p])
  {
    if ids == [] then h else YieldedAll(Yielded(h, tiles[ids[0]]), tiles, ids[1..])
  }

  /** Yields with non-negative entries never take a card away and never make a count negative. */
  lemma {:induction false} YieldedAllGrows(h: map<PlayerId, Amounts>, tiles: seq<Tile>, ids: seq<nat>)
    requires forall p :: p in h ==> Ledger.WellFormed(h[p])
    requires forall i :: 0 <= i < |ids| ==> ids[i] < |tiles|
    requires forall i, p :: 0 <= i < |tiles| && p in tiles[i].yieldAmount ==> tiles[i].yieldAmount[p] >= 0
    ensures forall p, r :: p in h && r in h[p] ==> YieldedAll(h, tiles, ids)[p][r] >= h[p][r]
  {
    if ids != [] {
      var h' := Yielded(h, tiles[ids[0]]);
      YieldedExactly(h, tiles[ids[0]]);
      YieldedAllGrows(h', tiles, ids[1..]);
    }
  }

  /** When every listed tile is blocked, the yields change nothing. */
  lemma {:induction false} YieldedAllBlocked(h: map<PlayerId, Amounts>, tiles: seq<Tile>, ids: seq<nat>)
    requires forall p :: p in h ==> Ledger.WellFormed(h[p])
    requires forall i :: 0 <= i < |ids| ==> ids[i] < |tiles| && Blocked(tiles[ids[i]])
    ensures YieldedAll(h, tiles, ids) == h
  {
    if ids != [] {
      YieldedExactly(h, tiles[ids[0]]);
      YieldedAllBlocked(h, tiles, ids[1..]);
    }
  }

  /** The holdings after one more tile has yielded at the end of the list. */
  lemma {:induction false} YieldedAllSnoc(h: map<PlayerId, Amounts>, tiles: seq<Tile>, ids: seq<nat>, t: nat)
    requires forall p :: p in h ==> Ledger.WellFormed(h[p])
    requires forall i :: 0 <= i < |ids| ==> ids[i] < |tiles|
    requires t < |tiles|
    ensures YieldedAll(h, tiles, ids + [t]) == Yielded(YieldedAll(h, tiles, ids), tiles[t])
  {
    if ids != [] {
      assert (ids + [t])[1..] == ids[1..] + [t];
      YieldedAllSnoc(Yielded(h, tiles[ids[0]]), tiles, ids[1..], t);
    }
  }

  /**
   * PlaceBandit's choice of the player to rob: nobody when nobody has an
   * entry on the tile; the only player when there is one, even the one who
   * moved the bandit; otherwise the drawn player among the others.
   */
  function Victim(players: seq<PlayerId>, actor: PlayerId, pick: nat): (v: Option<PlayerId>)
    requires |players| >= 2 ==> pick < |RemoveFirst(players, actor)|
    ensures v.None? <==> players == []
    ensures v.Some? ==> v.value in players
    ensures |players| == 1 ==> v == Some(players[0])
    ensures |players| >= 2 && Distinct(players) ==> v.Some? && v.value != actor
  {
    if players == [] then None
    else if |players| == 1 then Some(players[0])
    else
      var others := RemoveFirst(players, actor);
      Some(others[pick])
  }

  /** With two players on the tile, a draw can pick either one of them when the robber is neither. */
  lemma VictimRangesOverOthers(a: PlayerId, b: PlayerId, actor: PlayerId)
    requires a != b && actor != a && actor != b
    ensures Victim([a, b], actor, 0) == Some(a) && Victim([a, b], actor, 1) == Some(b)
  {
    assert RemoveFirst([a, b], actor) == [a, b] by {
      assert RemoveFirst([b], actor) == [b];
    }
  }

  /** A lone player on the tile is robbed even when that player moved the bandit. */
  lemma LonePlayerRobsThemself(actor: PlayerId)
    ensures Victim([actor], actor, 0) == Some(actor)
  {
  }

  /** A blocked tile, or one on which nobody has an entry, yields nothing. */
  lemma YieldedNothing(h: map<PlayerId, Amounts>, t: Tile)
    requires forall p :: p in h ==> Ledger.WellFormed(h[p])
    requires Blocked(t) || (TileValid(t) && t.yieldPlayers == [])
    ensures Yielded(h, t) == h
  {
    assert forall p :: p in h ==> Share(t, p) == 0;
  }

  /** The holdings during YieldRessources' loop: the players in rest still hold what they held, the others have their yield. */
  predicate YieldedBut(cur: map<PlayerId, Amounts>, h: map<PlayerId, Amounts>, t: Tile, rest: set<PlayerId>)
  {
    && cur.Keys == h.Keys
    && rest <= h.Keys
    && (forall p :: p in h ==> Ledger.WellFormed(h[p]))
    && forall p :: p in cur ==> cur[p] == if p in rest then h[p] else Gain(h[p], t, p)
  }

  /** Yielding to one more player moves that player out of the rest. */
  lemma YieldedButStep(cur: map<PlayerId, Amounts>, h: map<PlayerId, Amounts>, t: Tile, rest: set<PlayerId>, p: PlayerId)
    requires YieldedBut(cur, h, t, rest) && p in rest
    ensures YieldedBut(cur[p := Gain(cur[p], t, p)], h, t, rest - {p})
  {
  }

  /** Once nobody is left, every player has their yield. */
  lemma YieldedButNone(cur: map<PlayerId, Amounts>, h: map<PlayerId, Amounts>, t: Tile)
    requires YieldedBut(cur, h, t, {})
    ensures cur == Yielded(h, t)
  {
  }

  /** YieldRessources on the record of the tile. */
  method YieldTile(tile: Tile, ledgers: map<PlayerId, Ledger.PlayerResources>)
    requires TileValid(tile) && Ledger.LedgersValid(ledgers)
    modifies ledgers.Values
    ensures Ledger.LedgersValid(ledgers)
    ensures Ledger.Holdings(ledgers) == Yielded(old(Ledger.Holdings(ledgers)), tile)
  {
    ghost var h := Ledger.Holdings(ledgers);
    if tile.prohibitedByDisaster || tile.occupiedByBandits || |tile.yieldPlayers| == 0 {
      YieldedNothing(h, tile);
      return;
    }
    var ids := ledgers.Keys;
    while ids != {}
      invariant Ledger.LedgersValid(ledgers) && YieldedBut(Ledger.Holdings(ledgers), h, tile, ids)
      decreases ids
    {
      var p := AnyOf(ids);
      YieldToNext(ledgers, tile, h, ids, p);
      ids := ids - {p};
    }
    YieldedButNone(Ledger.Holdings(ledgers), h, tile);
  }

  /** Some member of a non-empty set: the next entry a dictionary's enumeration hands out. */
  method AnyOf(s: set<PlayerId>) returns (p: PlayerId)
    requires s != {}
    ensures p in s
  {
    if forall x :: x !in s {
      assert false;
    }
    p :| p in s;
  }

  /** One turn of YieldRessources' loop over the players: p gets their yield and leaves the rest. */
  method YieldToNext(ledgers: map<PlayerId, Ledger.PlayerResources>, tile: Tile, ghost h: map<PlayerId, Amounts>, rest: set<PlayerId>, p: PlayerId)
    requires Ledger.LedgersValid(ledgers) && YieldedBut(Ledger.Holdings(ledgers), h, tile, rest) && p in rest
    modifies ledgers[p]
    ensures Ledger.LedgersValid(ledgers) && YieldedBut(Ledger.Holdings(ledgers), h, tile, rest - {p})
  {
    YieldedButStep(Ledger.Holdings(ledgers), h, tile, rest, p);
    YieldTo(ledgers, tile, p);
  }

  /** The body of YieldRessources' loop for one player: add the player's entry of the tile's resource, if any. */
  method YieldTo(ledgers: map<PlayerId, Ledger.PlayerResources>, tile: Tile, p: PlayerId)
    requires Ledger.LedgersValid(ledgers) && p in ledgers
    modifies ledgers[p]
    ensures Ledger.LedgersValid(ledgers)
    ensures Ledger.Holdings(ledgers) == old(Ledger.Holdings(ledgers))[p := Gain(old(ledgers[p].amounts), tile, p)]
  {
    ghost var before := Ledger.Holdings(ledgers);
    if p in tile.yieldAmount && !Blocked(tile) {
      if tile.resource != NoResource {
        ledgers[p].AddResource(tile.resource, tile.yieldAmount[p]);
      }
    }
    assert ledgers[p].amounts == Gain(before[p], tile, p);
    Ledger.OnlyOneChanged(ledgers, before, p);
  }

  /**
   * What everyone holds after a robbery: the victim, if there is one,
   * discards one card of the first resource they hold in the order the
   * draws offs shuffle the resources into; no one else loses anything.
   */
  function Robbed(h: map<PlayerId, Amounts>, v: Option<PlayerId>, offs: seq<nat>): (r: map<PlayerId, Amounts>)
    requires Shuffle.ValidOffsets(offs, 5)
    requires forall p :: p in h ==> Ledger.WellFormed(h[p])
    ensures r.Keys == h.Keys
    ensures forall p :: p in h && v != Some(p) ==> r[p] == h[p]
  {
    if v.Some? && v.value in h then
      var victim := v.value;
      var order := Ledger.ShuffledKinds(offs);
      assert Ledger.WellFormed(h[victim]);
      assert NoResource !in KindSet;
      h[victim := Ledger.DiscardFirstPositive(h[victim], order)]
    else h
  }

  /**
   * The robbery of PlaceBandit: the player Victim picks among those on the
   * tile discards one random card, and everyone else keeps theirs.
   */
  method RobVictim(players: seq<PlayerId>, actor: PlayerId, pick: nat, offs: seq<nat>, ledgers: map<PlayerId, Ledger.PlayerResources>)
    requires Ledger.LedgersValid(ledgers)
    requires forall p :: p in players ==> p in ledgers
    requires |players| >= 2 ==> pick < |RemoveFirst(players, actor)|
    requires Shuffle.ValidOffsets(offs, 5)
    modifies ledgers.Values
    ensures Ledger.LedgersValid(ledgers)
    ensures Ledger.Holdings(ledgers) == Robbed(old(Ledger.Holdings(ledgers)), Victim(players, actor, pick), offs)
  {
    if |players| > 0 {
      var victim;
      if |players| == 1 {
        victim := players[0];
      } else {
        var others := RemoveFirst(players, actor);
        victim := others[pick];
      }
      assert Victim(players, actor, pick) == Some(victim);
      DiscardFrom(ledgers, victim, offs);
    }
  }

  /** DiscardRandomRessource of player p: one random card of theirs is gone, everyone else keeps theirs. */
  method DiscardFrom(ledgers: map<PlayerId, Ledger.PlayerResources>, p: PlayerId, offs: seq<nat>)
    requires Ledger.LedgersValid(ledgers) && p in ledgers && Shuffle.ValidOffsets(offs, 5)
    modifies ledgers[p]
    ensures Ledger.LedgersValid(ledgers)
    ensures Ledger.Holdings(ledgers) == old(Ledger.Holdings(ledgers))[p := Ledger.DiscardFirstPositive(old(ledgers[p].amounts), Ledger.ShuffledKinds(offs))]
  {
    ghost var before := Ledger.Holdings(ledgers);
    ledgers[p].DiscardRandomResource(offs);
    Ledger.OnlyOneChanged(ledgers, before, p);
  }
}
