/**
 * The road network of Node.cs, NodeUtilities.cs and RoadProperties.cs:
 * nodes where villages and towns stand, named by their (row, column)
 * pair, and the roads between them, named by the order they were spawned
 * in. A Node or RoadProperties object of the game is a record here,
 * stored under its handle in the Graph; a method of that object is a
 * method of the Graph that replaces the record.
 */
module Network {
  import opened Seqs
  import opened NodeGrid
  import opened Resources
  import opened Optional
  import TileModel
  import Boards
  import BoardLayout
  import RoadAccess
  import Players
  import Ledger

  type RoadId = RoadAccess.RoadId
  type PlayerId = TileModel.PlayerId
  type TileId = BoardLayout.TileId

  /** A node: its flags, OwnerID, AffectedTiles, and the directNeighbours and accessibleRoads of its NodeUtilities. */
  datatype NodeRec = NodeRec(
    buildable: bool,
    hasBuilding: bool,
    upgradeable: bool,
    owner: PlayerId,
    affectedTiles: seq<TileId>,
    neighbours: seq<NodeId>,
    accessibleRoads: seq<RoadId>)

  /** A road: its EndNodes, OwnerID, IsBuildable, and AccessibleRoadsByEndNode. */
  datatype RoadRec = RoadRec(
    fst: NodeId,
    snd: NodeId,
    owner: PlayerId,
    buildable: bool,
    byEndNode: map<NodeId, seq<RoadId>>)

  /** A node as the scene holds it before Start: buildable, empty, owned by nobody (-1). */
  function FreshNode(affected: seq<TileId>, neighbours: seq<NodeId>): (n: NodeRec)
    ensures n.buildable && !n.hasBuilding && !n.upgradeable && n.owner == -1
    ensures n.affectedTiles == affected && n.neighbours == neighbours && n.accessibleRoads == []
  {
    NodeRec(true, false, false, -1, affected, neighbours, [])
  }

  /** A road as it is instantiated: buildable, owner 0 (an unset int), no end nodes recorded yet. */
  function Unplaced(fst: NodeId, snd: NodeId): (r: RoadRec)
    ensures r.buildable && r.owner == 0 && r.byEndNode == map[]
  {
    SetEndNodes(RoadRec(fst, fst, 0, true, map[]), fst, snd)
  }

  /** SetEndNodes: the end nodes become exactly the pair given, in that order; nothing else changes. */
  function SetEndNodes(r: RoadRec, fst: NodeId, snd: NodeId): (s: RoadRec)
    ensures s.fst == fst && s.snd == snd
    ensures s.(fst := r.fst, snd := r.snd) == r
  {
    r.(fst := fst, snd := snd)
  }

  /** The roads spawned along a list of (first, second) end-node pairs. */
  function UnplacedAlong(es: seq<(NodeId, NodeId)>): (rs: seq<RoadRec>)
    ensures |rs| == |es|
  {
    if es == [] then [] else UnplacedAlong(es[..|es| - 1]) + [Unplaced(es[|es| - 1].0, es[|es| - 1].1)]
  }

  /** The i-th spawned road joins the ends of the i-th edge, in that order. */
  lemma {:induction false} UnplacedAlongAt(es: seq<(NodeId, NodeId)>, i: nat)
    requires i < |es|
    ensures UnplacedAlong(es)[i] == Unplaced(es[i].0, es[i].1)
    decreases |es|
  {
    if i < |es| - 1 {
      UnplacedAlongAt(es[..|es| - 1], i);
    }
  }

  lemma {:induction false} UnplacedAlongAppend(a: seq<(NodeId, NodeId)>, b: seq<(NodeId, NodeId)>)
    ensures UnplacedAlong(a + b) == UnplacedAlong(a) + UnplacedAlong(b)
    decreases |b|
  {
    if b == [] {
      assert a + b == a;
    } else {
      assert (a + b)[..|a + b| - 1] == a + b[..|b| - 1];
      UnplacedAlongAppend(a, b[..|b| - 1]);
    }
  }

  lemma UnplacedAlongStep(start: seq<RoadRec>, es: seq<(NodeId, NodeId)>, i: nat)
    requires i < |es|
    ensures start + UnplacedAlong(es[..i]) + [Unplaced(es[i].0, es[i].1)] == start + UnplacedAlong(es[..i + 1])
  {
    assert es[..i + 1][..i] == es[..i];
  }

  /**
   * What the nodes and roads keep consistent: every node's neighbours are
   * what GetDirectNeighbours computes, every road joins two nodes and is
   * listed by both, a node lists only roads ending in it, and never twice.
   */
  ghost predicate NetworkValid(nodes: map<NodeId, NodeRec>, roads: seq<RoadRec>)
  {
    NeighboursListed(nodes) && RoadsListed(nodes, roads)
  }

  /** Every neighbour listed by a node is a node. */
  ghost predicate NeighboursIn(nodes: map<NodeId, NodeRec>)
  {
    forall p, q {:trigger q in nodes[p].neighbours} :: p in nodes && q in nodes[p].neighbours ==> q in nodes
  }

  /** The neighbours GetDirectNeighbours finds are nodes. */
  lemma ListedIn(nodes: map<NodeId, NodeRec>)
    requires NeighboursListed(nodes)
    ensures NeighboursIn(nodes)
  {
    forall p, q | p in nodes && q in nodes[p].neighbours
      ensures q in nodes
    {
      DirectNeighboursShape(nodes.Keys, p);
    }
  }

  /** Changing only flags and owners keeps what the class keeps. */
  lemma ValidKept(a: map<NodeId, NodeRec>, b: map<NodeId, NodeRec>, ra: seq<RoadRec>, rb: seq<RoadRec>)
    requires NeighboursIn(a) && RoadsListed(a, ra) && SameLinks(a, b) && SameEnds(ra, rb)
    ensures NeighboursIn(b) && RoadsListed(b, rb)
  {
    RoadsKept(a, b, ra, rb);
    forall p, q | p in b && q in b[p].neighbours
      ensures q in b
    {
      assert q in a[p].neighbours;
    }
  }

  /** Changing only road lists keeps every neighbour a node. */
  lemma InKeptBut(a: map<NodeId, NodeRec>, b: map<NodeId, NodeRec>)
    requires NeighboursIn(a) && SameLinksBut(a, b)
    ensures NeighboursIn(b)
  {
    forall p, q | p in b && q in b[p].neighbours
      ensures q in b
    {
      assert b[p].neighbours == b[p].(accessibleRoads := a[p].accessibleRoads).neighbours;
    }
  }

  /** Every node's neighbours are what GetDirectNeighbours computes from the names of all nodes. */
  ghost predicate NeighboursListed(nodes: map<NodeId, NodeRec>)
  {
    forall p {:trigger nodes[p].neighbours} :: p in nodes ==> nodes[p].neighbours == DirectNeighbours(nodes.Keys, p)
  }

  /** Every road joins two nodes and is listed by both; a node lists only roads ending in it, each once. */
  ghost predicate RoadsListed(nodes: map<NodeId, NodeRec>, roads: seq<RoadRec>)
  {
    && (forall p {:trigger nodes[p].accessibleRoads} :: p in nodes ==> Distinct(nodes[p].accessibleRoads))
    && (forall p, r {:trigger r in nodes[p].accessibleRoads} :: p in nodes && r in nodes[p].accessibleRoads ==> r < |roads| && (roads[r].fst == p || roads[r].snd == p))
    && (forall r :: 0 <= r < |roads| ==> roads[r].fst in nodes && roads[r].snd in nodes)
    && (forall r :: 0 <= r < |roads| ==> r in nodes[roads[r].fst].accessibleRoads && r in nodes[roads[r].snd].accessibleRoads)
  }

  /** Two node maps that differ at most in the flags and owners of their nodes. */
  predicate SameLinks(a: map<NodeId, NodeRec>, b: map<NodeId, NodeRec>)
  {
    && a.Keys == b.Keys
    && forall p :: p in a ==>
         a[p].neighbours == b[p].neighbours && a[p].accessibleRoads == b[p].accessibleRoads && a[p].affectedTiles == b[p].affectedTiles
  }

  /** Two road lists that differ at most in owners, flags and end-node maps. */
  predicate SameEnds(a: seq<RoadRec>, b: seq<RoadRec>)
  {
    |a| == |b| && forall r :: 0 <= r < |a| ==> a[r].fst == b[r].fst && a[r].snd == b[r].snd
  }

  /** Placing buildings and roads keeps the network consistent: only flags and owners change. */
  lemma LinksKept(a: map<NodeId, NodeRec>, b: map<NodeId, NodeRec>, ra: seq<RoadRec>, rb: seq<RoadRec>)
    requires NetworkValid(a, ra) && SameLinks(a, b) && SameEnds(ra, rb)
    ensures NetworkValid(b, rb)
  {
    NeighboursKept(a, b);
    RoadsKept(a, b, ra, rb);
  }

  lemma NeighboursKept(a: map<NodeId, NodeRec>, b: map<NodeId, NodeRec>)
    requires NeighboursListed(a) && SameLinks(a, b)
    ensures NeighboursListed(b)
  {
    forall p | p in b
      ensures b[p].neighbours == DirectNeighbours(b.Keys, p)
    {
      assert a[p].neighbours == DirectNeighbours(a.Keys, p);
    }
  }

  lemma RoadsKept(a: map<NodeId, NodeRec>, b: map<NodeId, NodeRec>, ra: seq<RoadRec>, rb: seq<RoadRec>)
    requires RoadsListed(a, ra) && SameLinks(a, b) && SameEnds(ra, rb)
    ensures RoadsListed(b, rb)
  {
    forall p, r | p in b && r in b[p].accessibleRoads
      ensures r < |rb| && (rb[r].fst == p || rb[r].snd == p)
    {
      assert r in a[p].accessibleRoads;
      assert ra[r].fst == rb[r].fst && ra[r].snd == rb[r].snd;
    }
    forall r | 0 <= r < |rb|
      ensures r in b[rb[r].fst].accessibleRoads && r in b[rb[r].snd].accessibleRoads
    {
      assert ra[r].fst == rb[r].fst && ra[r].snd == rb[r].snd;
    }
  }

  /**
   * The distance rule: a node with a building is not buildable, and its
   * neighbours are neither buildable nor built on.
   */
  ghost predicate Spaced(nodes: map<NodeId, NodeRec>)
  {
    && (forall p :: p in nodes && nodes[p].hasBuilding ==> !nodes[p].buildable)
    && (forall p, q :: p in nodes && q in nodes && nodes[p].hasBuilding && q in nodes[p].neighbours ==>
          !nodes[q].buildable && !nodes[q].hasBuilding)
  }

  /** The nodes listed become not buildable; nothing else changes. */
  function Fenced(nodes: map<NodeId, NodeRec>, qs: seq<NodeId>): (r: map<NodeId, NodeRec>)
    ensures r.Keys == nodes.Keys
    ensures forall q :: q in nodes && q in qs ==> r[q] == nodes[q].(buildable := false)
    ensures forall q :: q in nodes && q !in qs ==> r[q] == nodes[q]
  {
    map q | q in nodes :: if q in qs then nodes[q].(buildable := false) else nodes[q]
  }

  /**
   * The nodes after a village on p for player o: every neighbour is no
   * longer buildable, p is built on, upgradeable and owned by o.
   */
  function Settled(nodes: map<NodeId, NodeRec>, p: NodeId, o: PlayerId): (r: map<NodeId, NodeRec>)
    requires p in nodes
    ensures SameLinks(nodes, r)
    ensures r[p] == nodes[p].(buildable := false, upgradeable := true, hasBuilding := true, owner := o)
    ensures forall q :: q in nodes && q != p && q in nodes[p].neighbours ==> r[q] == nodes[q].(buildable := false)
    ensures forall q :: q in nodes && q != p && q !in nodes[p].neighbours ==> r[q] == nodes[q]
  {
    var f := Fenced(nodes, nodes[p].neighbours);
    f[p := f[p].(buildable := false, upgradeable := true, hasBuilding := true, owner := o)]
  }

  /**
   * The distance rule holds after every village: a buildable node has no
   * built neighbour (the lists are symmetric), so building on it puts no
   * two buildings next to each other and fences its neighbours.
   */
  lemma SettledSpaced(nodes: map<NodeId, NodeRec>, roads: seq<RoadRec>, p: NodeId, o: PlayerId)
    requires NetworkValid(nodes, roads) && Spaced(nodes) && p in nodes && nodes[p].buildable
    ensures Spaced(Settled(nodes, p, o))
  {
    var r := Settled(nodes, p, o);
    forall x | x in r && r[x].hasBuilding
      ensures !r[x].buildable
    {
    }
    forall x, q | x in r && q in r && r[x].hasBuilding && q in r[x].neighbours
      ensures !r[q].buildable && !r[q].hasBuilding
    {
      SettledSpacedAt(nodes, roads, p, o, x, q);
    }
  }

  lemma SettledSpacedAt(nodes: map<NodeId, NodeRec>, roads: seq<RoadRec>, p: NodeId, o: PlayerId, x: NodeId, q: NodeId)
    requires NetworkValid(nodes, roads) && Spaced(nodes) && p in nodes && nodes[p].buildable
    requires x in nodes && q in nodes && Settled(nodes, p, o)[x].hasBuilding && q in nodes[x].neighbours
    ensures !Settled(nodes, p, o)[q].buildable && !Settled(nodes, p, o)[q].hasBuilding
  {
    if x == p {
      DirectNeighboursShape(nodes.Keys, p);
      CandidatesOnOtherRows(p, q);
      NeighboursSymmetric(nodes.Keys, p, q);
    } else {
      assert nodes[x].hasBuilding;
      assert !nodes[q].buildable && !nodes[q].hasBuilding;
    }
  }

  /** A village's neighbours are never buildable afterwards, and neither is any node that lists it as a neighbour. */
  lemma VillageFencesNeighbours(nodes: map<NodeId, NodeRec>, roads: seq<RoadRec>, p: NodeId, o: PlayerId, q: NodeId)
    requires NetworkValid(nodes, roads) && p in nodes && q in nodes
    requires q in nodes[p].neighbours || p in nodes[q].neighbours
    ensures !Settled(nodes, p, o)[q].buildable
  {
    NeighboursSymmetric(nodes.Keys, p, q);
  }

  /** A road still buildable and not skipped (a handle past the spawned roads names no road). */
  predicate Opens(roads: seq<RoadRec>, r: RoadId, skip: set<RoadId>)
  {
    r < |roads| && r !in skip && roads[r].buildable
  }

  /** The roads of a list that are still buildable and not skipped, in list order: those a village or a road opens up. */
  function Open(roads: seq<RoadRec>, ids: seq<RoadId>, skip: set<RoadId>): (rs: seq<RoadId>)
    ensures forall r :: r in rs <==> r in ids && Opens(roads, r, skip)
  {
    if ids == [] then []
    else (if Opens(roads, ids[0], skip) then [ids[0]] else []) + Open(roads, ids[1..], skip)
  }

  /** Adding the same node to each tile of a list, one after the other (AddDependentNode per tile). */
  function Dependent(tiles: seq<TileModel.Tile>, ids: seq<TileId>, n: NodeId): (r: seq<TileModel.Tile>)
    requires Boards.Handles(ids, |tiles|)
    ensures |r| == |tiles|
    decreases |ids|
  {
    if ids == [] then tiles
    else Dependent(tiles[ids[0] := TileModel.WithDependentNode(tiles[ids[0]], n)], ids[1..], n)
  }

  /** Every listed tile depends on the node afterwards, unlisted tiles are untouched, and no other field of a tile changes. */
  lemma {:induction false} DependentEffect(tiles: seq<TileModel.Tile>, ids: seq<TileId>, n: NodeId)
    requires Boards.Handles(ids, |tiles|)
    ensures var r := Dependent(tiles, ids, n);
      forall i :: 0 <= i < |tiles| ==>
        && r[i].(dependentNodes := tiles[i].dependentNodes) == tiles[i]
        && (i in ids ==> forall m :: m in r[i].dependentNodes <==> m in tiles[i].dependentNodes || m == n)
        && (i !in ids ==> r[i] == tiles[i])
    decreases |ids|
  {
    if ids != [] {
      var t := tiles[ids[0] := TileModel.WithDependentNode(tiles[ids[0]], n)];
      DependentEffect(t, ids[1..], n);
      forall i | 0 <= i < |tiles| && i in ids && i !in ids[1..]
        ensures i == ids[0]
      {
      }
    }
  }

  /** Raising one player's yield by the same amount on each tile of a list (IncreaseYieldForPlayerID per tile). */
  function Raised(tiles: seq<TileModel.Tile>, ids: seq<TileId>, o: PlayerId, amount: int): (r: seq<TileModel.Tile>)
    requires Boards.Handles(ids, |tiles|)
    ensures |r| == |tiles|
    decreases |ids|
  {
    if ids == [] then tiles
    else Raised(tiles[ids[0] := TileModel.WithYield(tiles[ids[0]], o, amount)], ids[1..], o, amount)
  }

  lemma RaisedStep(tiles: seq<TileModel.Tile>, ids: seq<TileId>, i: nat, o: PlayerId, amount: int)
    requires i < |ids| && Boards.Handles(ids, |tiles|)
    ensures Boards.Handles(ids[i..], |tiles|) && Boards.Handles(ids[i + 1..], |tiles|)
    ensures Raised(tiles[ids[i] := TileModel.WithYield(tiles[ids[i]], o, amount)], ids[i + 1..], o, amount) == Raised(tiles, ids[i..], o, amount)
  {
    assert ids[i..][1..] == ids[i + 1..];
  }

  lemma DependentStep(tiles: seq<TileModel.Tile>, ids: seq<TileId>, i: nat, n: NodeId)
    requires i < |ids| && Boards.Handles(ids, |tiles|)
    ensures Boards.Handles(ids[i..], |tiles|) && Boards.Handles(ids[i + 1..], |tiles|)
    ensures Dependent(tiles[ids[i] := TileModel.WithDependentNode(tiles[ids[i]], n)], ids[i + 1..], n) == Dependent(tiles, ids[i..], n)
  {
    assert ids[i..][1..] == ids[i + 1..];
  }

  /** The player's yield share of a tile, 0 without an entry. */
  function ShareOf(t: TileModel.Tile, o: PlayerId): int
  {
    if o in t.yieldAmount then t.yieldAmount[o] else 0
  }

  /** The player's share of each tile rises by the amount once for every time the tile is listed. */
  lemma {:induction false} RaisedShare(tiles: seq<TileModel.Tile>, ids: seq<TileId>, o: PlayerId, amount: int)
    requires Boards.Handles(ids, |tiles|)
    ensures forall i :: 0 <= i < |tiles| ==>
      ShareOf(Raised(tiles, ids, o, amount)[i], o) == ShareOf(tiles[i], o) + amount * multiset(ids)[i]
    decreases |ids|
  {
    if ids != [] {
      var t := tiles[ids[0] := TileModel.WithYield(tiles[ids[0]], o, amount)];
      RaisedShare(t, ids[1..], o, amount);
      assert ids == [ids[0]] + ids[1..];
      forall i | 0 <= i < |tiles|
        ensures ShareOf(Raised(tiles, ids, o, amount)[i], o) == ShareOf(tiles[i], o) + amount * multiset(ids)[i]
      {
        RaisedShareStep(tiles, ids, o, amount, i);
      }
    }
  }

  lemma RaisedShareStep(tiles: seq<TileModel.Tile>, ids: seq<TileId>, o: PlayerId, amount: int, i: nat)
    requires Boards.Handles(ids, |tiles|) && ids != [] && i < |tiles|
    requires var t := tiles[ids[0] := TileModel.WithYield(tiles[ids[0]], o, amount)];
      ShareOf(Raised(t, ids[1..], o, amount)[i], o) == ShareOf(t[i], o) + amount * multiset(ids[1..])[i]
    ensures ShareOf(Raised(tiles, ids, o, amount)[i], o) == ShareOf(tiles[i], o) + amount * multiset(ids)[i]
  {
    var t := tiles[ids[0] := TileModel.WithYield(tiles[ids[0]], o, amount)];
    var k := if i == ids[0] then 1 else 0;
    assert ids == [ids[0]] + ids[1..];
    var m := multiset(ids[1..])[i];
    assert multiset(ids)[i] == m + k;
    assert ShareOf(t[i], o) == ShareOf(tiles[i], o) + amount * k;
    assert amount * (m + k) == amount * m + amount * k;
  }

  /**
   * A listed tile gets an entry for the player; no other player's entry
   * and no other field of a tile changes, and unlisted tiles are untouched.
   */
  lemma {:induction false} RaisedKeeps(tiles: seq<TileModel.Tile>, ids: seq<TileId>, o: PlayerId, amount: int)
    requires Boards.Handles(ids, |tiles|)
    ensures var r := Raised(tiles, ids, o, amount);
      forall i :: 0 <= i < |tiles| ==>
        && r[i].(yieldAmount := tiles[i].yieldAmount, yieldPlayers := tiles[i].yieldPlayers) == tiles[i]
        && r[i].yieldAmount.Keys == tiles[i].yieldAmount.Keys + (if i in ids then {o} else {})
        && (forall q :: q != o && q in tiles[i].yieldAmount ==> r[i].yieldAmount[q] == tiles[i].yieldAmount[q])
        && (i !in ids ==> r[i] == tiles[i])
    decreases |ids|
  {
    if ids != [] {
      var t := tiles[ids[0] := TileModel.WithYield(tiles[ids[0]], o, amount)];
      RaisedKeeps(t, ids[1..], o, amount);
      assert forall i :: i in ids <==> i == ids[0] || i in ids[1..];
    }
  }

  /** A village and then a town on the same node give its owner two more on each affected tile listed once. */
  lemma TownDoublesYield(tiles: seq<TileModel.Tile>, ids: seq<TileId>, o: PlayerId, i: TileId)
    requires Boards.Handles(ids, |tiles|) && i < |tiles| && i in ids && Distinct(ids)
    ensures ShareOf(Raised(Raised(tiles, ids, o, 1), ids, o, 1)[i], o) == ShareOf(tiles[i], o) + 2
  {
    RaisedShare(tiles, ids, o, 1);
    RaisedShare(Raised(tiles, ids, o, 1), ids, o, 1);
    DistinctOnce(ids, i);
  }

  lemma {:induction false} DistinctOnce<T>(s: seq<T>, x: T)
    requires Distinct(s) && x in s
    ensures multiset(s)[x] == 1
  {
    if s[0] == x {
      DistinctTail(s);
      assert s == [s[0]] + s[1..];
    } else {
      DistinctTail(s);
      DistinctOnce(s[1..], x);
      assert s == [s[0]] + s[1..];
    }
  }

  /** The end-node map without the node's entry. */
  function WithoutEndNode(m: map<NodeId, seq<RoadId>>, node: NodeId): (r: map<NodeId, seq<RoadId>>)
    ensures node !in r
    ensures forall k :: k != node ==> (k in r <==> k in m)
    ensures forall k :: k in r ==> r[k] == m[k]
  {
    m - {node}
  }

  /** The player's accessible nodes after a road: each end without a building joins, the first end first. */
  function Reached(accessible: seq<NodeId>, nodes: map<NodeId, NodeRec>, a: NodeId, b: NodeId): (r: seq<NodeId>)
    requires a in nodes && b in nodes
    ensures forall n :: n in r <==> n in accessible || (n == a && !nodes[a].hasBuilding) || (n == b && !nodes[b].hasBuilding)
    ensures Distinct(accessible) ==> Distinct(r)
  {
    var r1 := if nodes[a].hasBuilding then accessible else AddIfAbsent(accessible, a);
    if nodes[b].hasBuilding then r1 else AddIfAbsent(r1, b)
  }

  /** The slots after PlaceRoad's grants at both ends are those RoadPlacedAccess describes. */
  lemma GrantedAtEndsSlots(revoked: seq<Option<RoadAccess.Access>>, afterFst: seq<Option<RoadAccess.Access>>,
                           final: seq<Option<RoadAccess.Access>>, o: PlayerId,
                           nodes: map<NodeId, NodeRec>, roads: seq<RoadRec>, road: RoadId)
    requires RoadsListed(nodes, roads) && road < |roads| && 1 <= o <= |revoked|
    requires forall i :: 0 <= i < |revoked| ==> revoked[i].Some?
    requires var a := roads[road].fst;
      afterFst == if nodes[a].hasBuilding then revoked
                  else revoked[o - 1 := Some(RoadAccess.GrantedAll(revoked[o - 1].value, OpenAt(nodes, roads, a, road), a))]
    requires var a := roads[road].fst;
      var b := roads[road].snd;
      afterFst[o - 1].Some? &&
      final == if nodes[b].hasBuilding then afterFst
               else afterFst[o - 1 := Some(RoadAccess.GrantedAll(afterFst[o - 1].value, OpenAt(nodes, roads, b, road), a))]
    ensures final == revoked[o - 1 := Some(GrantedAtEnds(revoked[o - 1].value, nodes, roads, road))]
  {
  }

  /** Every player's map without the road. */
  function RevokedEverywhere(acc: seq<Option<RoadAccess.Access>>, road: RoadId): (r: seq<Option<RoadAccess.Access>>)
    requires forall i :: 0 <= i < |acc| ==> acc[i].Some?
    ensures |r| == |acc|
    ensures forall i :: 0 <= i < |acc| ==> r[i] == Some(RoadAccess.Revoked(acc[i].value, road))
  {
    seq(|acc|, i requires 0 <= i < |acc| => Some(RoadAccess.Revoked(acc[i].value, road)))
  }

  /** The roads a road's placement opens at one of its end nodes: those still buildable, apart from the road itself. */
  function OpenAt(nodes: map<NodeId, NodeRec>, roads: seq<RoadRec>, n: NodeId, road: RoadId): (rs: seq<RoadId>)
    requires RoadsListed(nodes, roads) && n in nodes
    ensures forall k :: k in rs ==> k != road && k < |roads| && roads[k].buildable
  {
    Open(roads, nodes[n].accessibleRoads, {road})
  }

  lemma ListedRoads(nodes: map<NodeId, NodeRec>, roads: seq<RoadRec>, n: NodeId)
    requires RoadsListed(nodes, roads) && n in nodes
    ensures OpenRoads(nodes, roads, n)
  {
    forall i | 0 <= i < |nodes[n].accessibleRoads|
      ensures nodes[n].accessibleRoads[i] < |roads|
    {
      assert nodes[n].accessibleRoads[i] in nodes[n].accessibleRoads;
    }
  }

  /**
   * The owner's map after PlaceRoad has granted the roads around both ends:
   * the roads still open at each end without a building are added,
   * through the FIRST end node in both cases.
   */
  function GrantedAtEnds(m: RoadAccess.Access, nodes: map<NodeId, NodeRec>, roads: seq<RoadRec>, road: RoadId): (r: RoadAccess.Access)
    requires RoadsListed(nodes, roads) && road < |roads|
    ensures forall k :: k in m ==> k in r
  {
    var a := roads[road].fst;
    var b := roads[road].snd;
    var m1 := if nodes[a].hasBuilding then m else RoadAccess.GrantedAll(m, OpenAt(nodes, roads, a, road), a);
    if nodes[b].hasBuilding then m1 else RoadAccess.GrantedAll(m1, OpenAt(nodes, roads, b, road), a)
  }

  /**
   * What granting at the ends does to the owner's map: keys are added but
   * never the road itself, and every node added to a list is the first end.
   */
  lemma GrantedAtEndsEffect(m: RoadAccess.Access, nodes: map<NodeId, NodeRec>, roads: seq<RoadRec>, road: RoadId)
    requires RoadsListed(nodes, roads) && road < |roads|
    ensures var r := GrantedAtEnds(m, nodes, roads, road);
      && (road in r ==> road in m)
      && (forall k :: k in m ==> k in r)
      && (forall k, n :: k in r && n in r[k] && !(k in m && n in m[k]) ==> n == roads[road].fst)
  {
    var a := roads[road].fst;
    var b := roads[road].snd;
    var m1 := if nodes[a].hasBuilding then m else RoadAccess.GrantedAll(m, OpenAt(nodes, roads, a, road), a);
    RoadAccess.GrantedAllEffect(m, OpenAt(nodes, roads, a, road), a);
    RoadAccess.GrantedAllEffect(m1, OpenAt(nodes, roads, b, road), a);
  }

  /** The road-access array after PlaceRoad of road by player o. */
  function RoadPlacedAccess(acc: seq<Option<RoadAccess.Access>>, o: PlayerId, nodes: map<NodeId, NodeRec>, roads: seq<RoadRec>, road: RoadId)
    : (r: seq<Option<RoadAccess.Access>>)
    requires forall i :: 0 <= i < |acc| ==> acc[i].Some?
    requires 1 <= o <= |acc| && RoadsListed(nodes, roads) && road < |roads|
    ensures |r| == |acc|
  {
    var rev := RevokedEverywhere(acc, road);
    rev[o - 1 := Some(GrantedAtEnds(rev[o - 1].value, nodes, roads, road))]
  }

  /**
   * Once placed, a road is offered to nobody: it leaves every player's
   * map and, being no longer buildable, is granted to nobody again.
   */
  lemma PlacedRoadOfferedToNobody(acc: seq<Option<RoadAccess.Access>>, o: PlayerId, nodes: map<NodeId, NodeRec>,
                                  roads: seq<RoadRec>, road: RoadId)
    requires forall i :: 0 <= i < |acc| ==> acc[i].Some?
    requires 1 <= o <= |acc| && RoadsListed(nodes, roads) && road < |roads|
    ensures var r := RoadPlacedAccess(acc, o, nodes, roads, road);
      forall i :: 0 <= i < |r| ==> r[i].Some? && road !in r[i].value
  {
    var rev := RevokedEverywhere(acc, road);
    GrantedAtEndsEffect(rev[o - 1].value, nodes, roads, road);
  }

  /** Players other than the builder only lose the placed road. */
  lemma OthersOnlyLoseRoad(acc: seq<Option<RoadAccess.Access>>, o: PlayerId, nodes: map<NodeId, NodeRec>,
                           roads: seq<RoadRec>, road: RoadId, i: nat)
    requires forall i :: 0 <= i < |acc| ==> acc[i].Some?
    requires 1 <= o <= |acc| && RoadsListed(nodes, roads) && road < |roads|
    requires i < |acc| && i != o - 1
    ensures RoadPlacedAccess(acc, o, nodes, roads, road)[i] == Some(RoadAccess.Revoked(acc[i].value, road))
  {
  }

  /**
   * As written, the roads around the second end are recorded as reached
   * through the first end: when the builder's map did not list the second
   * end for a road, it still does not afterwards.
   */
  lemma SecondEndNeverRecorded(m: RoadAccess.Access, nodes: map<NodeId, NodeRec>, roads: seq<RoadRec>, road: RoadId, k: RoadId)
    requires RoadsListed(nodes, roads) && road < |roads| && roads[road].fst != roads[road].snd
    requires k in m ==> roads[road].snd !in m[k]
    ensures k in GrantedAtEnds(m, nodes, roads, road) ==> roads[road].snd !in GrantedAtEnds(m, nodes, roads, road)[k]
  {
    GrantedAtEndsEffect(m, nodes, roads, road);
  }

  /** A town taken by a player without the cards costs nothing: the discard clamps every count at 0. */
  lemma TownForFree()
    ensures Ledger.Charged(Ledger.EmptyHoldings, CostOf(Town)) == Ledger.EmptyHoldings
    ensures !Ledger.Satisfied(Ledger.EmptyHoldings, CostOf(Town))
  {
    CostTables();
    assert Ledger.Charged(Ledger.EmptyHoldings, CostOf(Town))[Ore] == 0;
  }

  class Graph {
    /** Every Node of the scene, by its (row, column) name. */
    var nodes: map<NodeId, NodeRec>
    /** Every road spawned, by handle, in spawn order. */
    var roads: seq<RoadRec>

    /**
     * What every method keeps: neighbours are nodes, and roads are listed
     * by their ends. That the neighbour lists are those GetDirectNeighbours
     * computes (NeighboursListed) is set by the constructor and kept by
     * every method, which only ever changes flags, owners and road lists.
     */
    ghost predicate Valid()
      reads this
    {
      NeighboursIn(nodes) && RoadsListed(nodes, roads)
    }

    /**
     * The nodes of the scene, each with its AffectedTiles, after Start has
     * looked up their neighbours; no road is spawned yet.
     */
    constructor (affected: map<NodeId, seq<TileId>>)
      ensures Valid() && NeighboursListed(nodes) && roads == [] && nodes.Keys == affected.Keys
      ensures forall p :: p in nodes ==> nodes[p] == FreshNode(affected[p], DirectNeighbours(affected.Keys, p))
    {
      var initial := map p | p in affected :: FreshNode(affected[p], DirectNeighbours(affected.Keys, p));
      assert initial.Keys == affected.Keys;
      ListedIn(initial);
      nodes := initial;
      roads := [];
    }

    /** AddNodeToAffectedTiles (Start): each affected tile lists the node as dependent. */
    method AddNodeToAffectedTiles(p: NodeId, board: Boards.Board)
      requires p in nodes && board.Valid() && Boards.Handles(nodes[p].affectedTiles, |board.tiles|)
      modifies board`tiles
      ensures board.Valid()
      ensures board.tiles == Dependent(old(board.tiles), nodes[p].affectedTiles, p)
    {
      var ids := nodes[p].affectedTiles;
      var index := 0;
      while index < |ids|
        invariant 0 <= index <= |ids| && board.Valid() && |board.tiles| == |old(board.tiles)|
        invariant Dependent(board.tiles, ids[index..], p) == Dependent(old(board.tiles), ids, p)
      {
        DependentStep(board.tiles, ids, index, p);
        board.AddDependentNode(ids[index], p);
        index := index + 1;
      }
    }

    /** IncreaseYieldOfAffectedTiles: an amount of 0 or less changes nothing, any other raises the player's share of each affected tile. */
    method IncreaseYieldOfAffectedTiles(p: NodeId, amount: int, playerID: PlayerId, board: Boards.Board)
      requires p in nodes && board.Valid() && Boards.Handles(nodes[p].affectedTiles, |board.tiles|)
      modifies board`tiles
      ensures board.Valid()
      ensures board.tiles == if amount <= 0 then old(board.tiles) else Raised(old(board.tiles), nodes[p].affectedTiles, playerID, amount)
    {
      if amount <= 0 {
        return;
      }
      var ids := nodes[p].affectedTiles;
      var index := 0;
      while index < |ids|
        invariant 0 <= index <= |ids| && board.Valid() && |board.tiles| == |old(board.tiles)|
        invariant Raised(board.tiles, ids[index..], playerID, amount) == Raised(old(board.tiles), ids, playerID, amount)
      {
        RaisedStep(board.tiles, ids, index, playerID, amount);
        board.IncreaseYieldForPlayer(ids[index], amount, playerID);
        index := index + 1;
      }
    }

    /** AddAccessibleRoad: the road is listed by the node afterwards, and never twice. */
    method AddAccessibleRoad(p: NodeId, r: RoadId)
      requires p in nodes
      modifies this`nodes
      ensures nodes == old(nodes)[p := old(nodes[p]).(accessibleRoads := AddIfAbsent(old(nodes[p].accessibleRoads), r))]
    {
      if r !in nodes[p].accessibleRoads {
        nodes := nodes[p := nodes[p].(accessibleRoads := nodes[p].accessibleRoads + [r])];
      }
    }

    /** One turn of SpawnRoadsToNeighbours: a road from the neighbour to the node, listed by both. */
    method SpawnRoad(nb: NodeId, p: NodeId)
      requires RoadsListed(nodes, roads) && nb in nodes && p in nodes
      modifies this`nodes, this`roads
      ensures RoadsListed(nodes, roads) && SameLinksBut(old(nodes), nodes)
      ensures roads == old(roads) + [Unplaced(nb, p)]
    {
      LinkedSame(nodes, nb, p, |roads|);
      LinkedRoads(nodes, roads, nb, p);
      LinkRoad(nb, p);
    }

    /** SetEndNodes on the new road, then AddAccessibleRoad at both ends. */
    method LinkRoad(nb: NodeId, p: NodeId)
      requires nb in nodes && p in nodes
      modifies this`nodes, this`roads
      ensures nodes == Linked(old(nodes), nb, p, |old(roads)|)
      ensures roads == old(roads) + [Unplaced(nb, p)]
    {
      var r := |roads|;
      roads := roads + [Unplaced(nb, p)];
      AddAccessibleRoad(nb, r);
      AddAccessibleRoad(p, r);
    }

    /** The index-th road of a run of spawned roads, following those before it. */
    method SpawnNext(es: seq<(NodeId, NodeId)>, index: nat, ghost start: map<NodeId, NodeRec>, ghost before: seq<RoadRec>)
      requires RoadsListed(nodes, roads) && index < |es| && es[index].0 in nodes && es[index].1 in nodes
      requires SameLinksBut(start, nodes) && roads == before + UnplacedAlong(es[..index])
      modifies this`nodes, this`roads
      ensures RoadsListed(nodes, roads) && SameLinksBut(start, nodes) && roads == before + UnplacedAlong(es[..index + 1])
    {
      ghost var here := nodes;
      SpawnRoad(es[index].0, es[index].1);
      SameLinksButTrans(start, here, nodes);
      UnplacedAlongStep(before, es, index);
    }

    /**
     * SpawnRoadsToNeighbours: one new road per neighbour, in neighbour
     * order, each from the neighbour to this node and listed by both.
     */
    method SpawnRoadsToNeighbours(p: NodeId)
      requires RoadsListed(nodes, roads) && p in nodes && forall q :: q in nodes[p].neighbours ==> q in nodes
      modifies this`nodes, this`roads
      ensures RoadsListed(nodes, roads) && SameLinksBut(old(nodes), nodes)
      ensures roads == old(roads) + UnplacedAlong(RoadsTo(old(nodes[p].neighbours), p))
    {
      var nbs := nodes[p].neighbours;
      var es := RoadsTo(nbs, p);
      assert forall i :: 0 <= i < |es| ==> es[i].0 in nodes && es[i].1 == p;
      var index := 0;
      while index < |nbs|
        invariant 0 <= index <= |nbs| && RoadsListed(nodes, roads) && SameLinksBut(old(nodes), nodes)
        invariant roads == old(roads) + UnplacedAlong(es[..index])
      {
        SpawnNext(es, index, old(nodes), old(roads));
        index := index + 1;
      }
      assert es[..index] == es;
    }

    /** One turn of SpawnRoads: the index-th node spawns its roads when it lies on an even row. */
    method SpawnFrom(order: seq<NodeId>, index: nat, ghost start: map<NodeId, NodeRec>, ghost total: seq<RoadRec>)
      requires RoadsListed(nodes, roads) && SameLinksBut(start, nodes)
      requires index < |order| && order[index] in start
      requires start[order[index]].neighbours == DirectNeighbours(start.Keys, order[index])
      requires roads + UnplacedAlong(SpawnedEdges(start.Keys, order[index..])) == total
      modifies this`nodes, this`roads
      ensures RoadsListed(nodes, roads) && SameLinksBut(start, nodes)
      ensures roads + UnplacedAlong(SpawnedEdges(start.Keys, order[index + 1..])) == total
    {
      var p := order[index];
      ghost var rest := SpawnedEdges(start.Keys, order[index + 1..]);
      ghost var here := SpawnedEdgesHead(start.Keys, order, index);
      UnplacedAlongAppend(here, rest);
      if EvenRow(p) {
        ListedNeighbours(start, nodes, p);
        ghost var before := nodes;
        ghost var r0 := roads;
        SpawnRoadsToNeighbours(p);
        SameLinksButTrans(start, before, nodes);
        assert roads == r0 + UnplacedAlong(here);
        AppendAssoc(r0, UnplacedAlong(here), UnplacedAlong(rest));
      } else {
        assert here + rest == rest;
      }
    }

    /** SpawnRoads: walking the nodes in order, each on an even row spawns its roads. */
    method SpawnRoads(order: seq<NodeId>)
      requires Valid() && NeighboursListed(nodes) && forall i :: 0 <= i < |order| ==> order[i] in nodes
      modifies this`nodes, this`roads
      ensures Valid() && NeighboursListed(nodes) && SameLinksBut(old(nodes), nodes)
      ensures roads == old(roads) + UnplacedAlong(SpawnedEdges(nodes.Keys, order))
    {
      assert forall i :: 0 <= i < |order| ==> nodes[order[i]].neighbours == DirectNeighbours(nodes.Keys, order[i]);
      var index := 0;
      while index < |order|
        invariant 0 <= index <= |order| && RoadsListed(nodes, roads) && SameLinksBut(old(nodes), nodes)
        invariant roads + UnplacedAlong(SpawnedEdges(old(nodes).Keys, order[index..])) == old(roads) + UnplacedAlong(SpawnedEdges(old(nodes).Keys, order))
      {
        SpawnFrom(order, index, old(nodes), old(roads) + UnplacedAlong(SpawnedEdges(old(nodes).Keys, order)));
        index := index + 1;
      }
      NeighboursKeptBut(old(nodes), nodes);
      InKeptBut(old(nodes), nodes);
    }

    /**
     * PlaceVillage on node p by the current player o. Nothing happens on a
     * node that is not buildable, nor after the preparation round when o
     * lacks the village cost. Otherwise the neighbours are fenced and p
     * holds o's village, o lists the settlement and gains a point, every
     * road of p still buildable becomes accessible to o through p, o's
     * share of every affected tile rises by 1, and after the preparation
     * round the cost is discarded.
     */
    method PlaceVillage(p: NodeId, pm: Players.PlayerManager, player: Players.Player, rm: RoadAccess.RoadManager,
                        board: Boards.Board)
      requires Valid() && p in nodes
      requires pm.Valid() && player.id == pm.currentPlayerID && player.playerResources.Valid()
      requires board.Valid() && Boards.Handles(nodes[p].affectedTiles, |board.tiles|)
      requires pm.currentPlayerID <= |rm.accessible| && rm.accessible[pm.currentPlayerID - 1].Some?
      modifies this`nodes, player`settlements, pm`scores, pm`outcome, rm, board`tiles, player.playerResources`amounts
      ensures !VillageAllowed(old(nodes[p]), old(pm.preparationRoundFinished), old(player.playerResources.amounts)) ==>
        && nodes == old(nodes) && player.settlements == old(player.settlements)
        && pm.scores == old(pm.scores) && pm.outcome == old(pm.outcome) && rm.accessible == old(rm.accessible)
        && board.tiles == old(board.tiles) && player.playerResources.amounts == old(player.playerResources.amounts)
      ensures VillageAllowed(old(nodes[p]), old(pm.preparationRoundFinished), old(player.playerResources.amounts)) ==>
        var o := old(pm.currentPlayerID);
        && nodes == Settled(old(nodes), p, o)
        && player.settlements == AddIfAbsent(old(player.settlements), p)
        && (pm.scores, pm.outcome) == Players.ScoreUpdate(old(pm.scores), old(pm.outcome), o, 1, pm.pointsToWinGame)
        && rm.accessible == old(rm.accessible)[o - 1 := Some(RoadAccess.GrantedAll(old(rm.accessible)[o - 1].value,
                                                                                   Open(roads, old(nodes[p].accessibleRoads), {}), p))]
        && board.tiles == Raised(old(board.tiles), old(nodes[p].affectedTiles), o, 1)
        && player.playerResources.amounts == if pm.preparationRoundFinished then Ledger.Charged(old(player.playerResources.amounts), CostOf(Village)) else old(player.playerResources.amounts)
      ensures Valid() && board.Valid() && player.playerResources.Valid()
    {
      if !nodes[p].buildable {
        return;
      }
      if pm.preparationRoundFinished {
        var ok := player.playerResources.IsSatisfied(CostOf(Village));
        if !ok {
          return;
        }
      }
      ghost var before := nodes;
      ListedRoads(nodes, roads, p);
      BuildVillage(p, pm, player, rm, board);
      ValidKept(before, nodes, roads, roads);
    }

    /** PlaceVillage once its guards have passed. */
    method BuildVillage(p: NodeId, pm: Players.PlayerManager, player: Players.Player, rm: RoadAccess.RoadManager,
                        board: Boards.Board)
      requires OpenRoads(nodes, roads, p) && forall q :: q in nodes[p].neighbours ==> q in nodes
      requires 1 <= pm.currentPlayerID && player.id == pm.currentPlayerID && player.playerResources.Valid()
      requires board.Valid() && Boards.Handles(nodes[p].affectedTiles, |board.tiles|)
      requires pm.currentPlayerID <= |rm.accessible| && rm.accessible[pm.currentPlayerID - 1].Some?
      modifies this`nodes, player`settlements, pm`scores, pm`outcome, rm, board`tiles, player.playerResources`amounts
      ensures var o := old(pm.currentPlayerID);
        && nodes == Settled(old(nodes), p, o)
        && player.settlements == AddIfAbsent(old(player.settlements), p)
        && (pm.scores, pm.outcome) == Players.ScoreUpdate(old(pm.scores), old(pm.outcome), o, 1, pm.pointsToWinGame)
        && rm.accessible == old(rm.accessible)[o - 1 := Some(RoadAccess.GrantedAll(old(rm.accessible)[o - 1].value,
                                                                                   Open(roads, old(nodes[p].accessibleRoads), {}), p))]
        && board.tiles == Raised(old(board.tiles), old(nodes[p].affectedTiles), o, 1)
        && player.playerResources.amounts ==
             if pm.preparationRoundFinished then Ledger.Charged(old(player.playerResources.amounts), CostOf(Village))
             else old(player.playerResources.amounts)
      ensures board.Valid() && player.playerResources.Valid()
    {
      var o := pm.currentPlayerID;
      Develop(p, o, rm, board);
      Occupy(p, pm, player);
      if pm.preparationRoundFinished {
        player.playerResources.DiscardResources(CostOf(Village));
      }
    }

    /** What a new village at p opens up for player o: the roads around it and its share of the affected tiles. */
    method Develop(p: NodeId, o: PlayerId, rm: RoadAccess.RoadManager, board: Boards.Board)
      requires OpenRoads(nodes, roads, p)
      requires 1 <= o <= |rm.accessible| && rm.accessible[o - 1].Some?
      requires board.Valid() && Boards.Handles(nodes[p].affectedTiles, |board.tiles|)
      modifies rm, board`tiles
      ensures rm.accessible == old(rm.accessible)[o - 1 := Some(RoadAccess.GrantedAll(old(rm.accessible)[o - 1].value,
                                                                                     Open(roads, nodes[p].accessibleRoads, {}), p))]
      ensures board.tiles == Raised(old(board.tiles), nodes[p].affectedTiles, o, 1)
      ensures board.Valid()
    {
      GrantRoadsAround(p, p, {}, o, rm);
      IncreaseYieldOfAffectedTiles(p, 1, o, board);
    }

    /** The village itself: the node and its neighbours, the settlement list and the point. */
    method Occupy(p: NodeId, pm: Players.PlayerManager, player: Players.Player)
      requires p in nodes && forall q :: q in nodes[p].neighbours ==> q in nodes
      requires player.id == pm.currentPlayerID
      modifies this`nodes, player`settlements, pm`scores, pm`outcome
      ensures nodes == Settled(old(nodes), p, pm.currentPlayerID)
      ensures player.settlements == AddIfAbsent(old(player.settlements), p)
      ensures (pm.scores, pm.outcome) == Players.ScoreUpdate(old(pm.scores), old(pm.outcome), pm.currentPlayerID, 1, pm.pointsToWinGame)
    {
      Settle(p, pm.currentPlayerID);
      player.AddSettlement(p);
      player.AddPointsToPlayer(pm, 1);
    }

    /**
     * PlaceTown on node p by the current player o: only an upgradeable
     * node owned by o is upgraded. It stops being upgradeable, o's share of
     * every affected tile rises by 1 again, o gains a point, and the town
     * cost is discarded. The cost is never checked first: the discard
     * clamps each count at 0 (TownForFree).
     */
    method PlaceTown(p: NodeId, pm: Players.PlayerManager, player: Players.Player,
                     board: Boards.Board)
      requires Valid() && p in nodes
      requires pm.Valid() && player.id == pm.currentPlayerID && player.playerResources.Valid()
      requires board.Valid() && Boards.Handles(nodes[p].affectedTiles, |board.tiles|)
      modifies this`nodes, pm`scores, pm`outcome, board`tiles, player.playerResources`amounts
      ensures Valid() && board.Valid() && player.playerResources.Valid()
      ensures !TownAllowed(old(nodes[p]), old(pm.currentPlayerID)) ==>
        && nodes == old(nodes) && pm.scores == old(pm.scores) && pm.outcome == old(pm.outcome)
        && board.tiles == old(board.tiles) && player.playerResources.amounts == old(player.playerResources.amounts)
      ensures TownAllowed(old(nodes[p]), old(pm.currentPlayerID)) ==>
        var o := old(pm.currentPlayerID);
        && nodes == old(nodes)[p := old(nodes[p]).(upgradeable := false)]
        && (pm.scores, pm.outcome) == Players.ScoreUpdate(old(pm.scores), old(pm.outcome), o, 1, pm.pointsToWinGame)
        && board.tiles == Raised(old(board.tiles), old(nodes[p].affectedTiles), o, 1)
        && player.playerResources.amounts == Ledger.Charged(old(player.playerResources.amounts), CostOf(Town))
    {
      if !nodes[p].upgradeable {
        return;
      }
      var playerID := pm.currentPlayerID;
      if playerID != nodes[p].owner {
        return;
      }
      ghost var before := nodes;
      nodes := nodes[p := nodes[p].(upgradeable := false)];
      ValidKept(before, nodes, roads, roads);
      IncreaseYieldOfAffectedTiles(p, 1, playerID, board);
      player.AddPointsToPlayer(pm, 1);
      player.playerResources.DiscardResources(CostOf(Town));
    }

    /**
     * PlaceRoad of road r for player ownerID, the current player paying.
     * Nothing happens to a road already placed, nor after the preparation
     * round when the road cost is lacking. Otherwise the road is owned and
     * no longer buildable, it leaves every player's dictionary, each end
     * node without a building becomes accessible to the current player and
     * opens its buildable roads to ownerID, and after the preparation
     * round the cost is discarded.
     */
    method PlaceRoad(r: RoadId, ownerID: PlayerId, pm: Players.PlayerManager, player: Players.Player,
                     rm: RoadAccess.RoadManager)
      requires Valid() && r < |roads| && player.playerResources.Valid()
      requires pm.Valid() && player.id == pm.currentPlayerID
      requires rm.Ready() && 1 <= ownerID <= |rm.accessible|
      modifies this`roads, player`accessibleNodes, rm, player.playerResources`amounts
      ensures Valid() && player.playerResources.Valid() && rm.Ready()
      ensures !RoadAllowed(old(roads[r]), pm.preparationRoundFinished, old(player.playerResources.amounts)) ==>
        && roads == old(roads) && player.accessibleNodes == old(player.accessibleNodes)
        && rm.accessible == old(rm.accessible) && player.playerResources.amounts == old(player.playerResources.amounts)
      ensures RoadAllowed(old(roads[r]), pm.preparationRoundFinished, old(player.playerResources.amounts)) ==>
        && roads == old(roads)[r := old(roads[r]).(owner := ownerID, buildable := false)]
        && rm.accessible == RoadPlacedAccess(old(rm.accessible), ownerID, nodes, roads, r)
        && player.accessibleNodes == Reached(old(player.accessibleNodes), nodes, roads[r].fst, roads[r].snd)
        && player.playerResources.amounts == if pm.preparationRoundFinished then Ledger.Charged(old(player.playerResources.amounts), CostOf(Road)) else old(player.playerResources.amounts)
    {
      if !roads[r].buildable {
        return;
      }
      if pm.preparationRoundFinished {
        var ok := player.playerResources.IsSatisfied(CostOf(Road));
        if !ok {
          return;
        }
      }
      LayRoad(r, ownerID, player, rm);
      if pm.preparationRoundFinished {
        player.playerResources.DiscardResources(CostOf(Road));
      }
    }

    /** PlaceRoad once its guards have passed, up to the discard. */
    method LayRoad(r: RoadId, ownerID: PlayerId, player: Players.Player, rm: RoadAccess.RoadManager)
      requires Valid() && r < |roads|
      requires rm.Ready() && 1 <= ownerID <= |rm.accessible|
      modifies this`roads, player`accessibleNodes, rm
      ensures Valid() && rm.Ready()
      ensures roads == old(roads)[r := old(roads[r]).(owner := ownerID, buildable := false)]
      ensures rm.accessible == RoadPlacedAccess(old(rm.accessible), ownerID, nodes, roads, r)
      ensures player.accessibleNodes == Reached(old(player.accessibleNodes), nodes, roads[r].fst, roads[r].snd)
    {
      ghost var before := roads;
      roads := roads[r := roads[r].(owner := ownerID, buildable := false)];
      ValidKept(nodes, nodes, before, roads);
      var fstNode := roads[r].fst;
      var sndNode := roads[r].snd;
      rm.RemoveAccessibleRoadForPlayers(r);
      ghost var revoked := rm.accessible;
      assert revoked == RevokedEverywhere(old(rm.accessible), r);
      OpenEnd(fstNode, fstNode, r, ownerID, player, rm);
      ghost var afterFst := rm.accessible;
      OpenEnd(sndNode, fstNode, r, ownerID, player, rm);
      GrantedAtEndsSlots(revoked, afterFst, rm.accessible, ownerID, nodes, roads, r);
    }

    /**
     * One end n of the newly placed road r: unless n holds a building, n
     * becomes accessible to the current player and its buildable roads
     * other than r are granted to o, recorded as reached through via.
     */
    method OpenEnd(n: NodeId, via: NodeId, r: RoadId, o: PlayerId, player: Players.Player, rm: RoadAccess.RoadManager)
      requires Valid() && r < |roads| && n in nodes
      requires rm.Ready() && 1 <= o <= |rm.accessible|
      modifies player`accessibleNodes, rm
      ensures rm.Ready() && |rm.accessible| == |old(rm.accessible)|
      ensures player.accessibleNodes == if nodes[n].hasBuilding then old(player.accessibleNodes)
                                        else AddIfAbsent(old(player.accessibleNodes), n)
      ensures rm.accessible == if nodes[n].hasBuilding then old(rm.accessible)
        else old(rm.accessible)[o - 1 := Some(RoadAccess.GrantedAll(old(rm.accessible)[o - 1].value, OpenAt(nodes, roads, n, r), via))]
    {
      if !nodes[n].hasBuilding {
        player.AddAcessibleNode(n);
        ListedRoads(nodes, roads, n);
        GrantRoadsAround(n, via, {r}, o, rm);
      }
    }

    /**
     * PlaceBuildingOnEndNode: when the building on node belongs to another
     * player than the road's owner, the road forgets the roads it reached
     * through that node.
     */
    method PlaceBuildingOnEndNode(r: RoadId, playerID: PlayerId, node: NodeId)
      requires Valid() && r < |roads|
      modifies this`roads
      ensures Valid()
      ensures roads == if old(roads[r].owner) != playerID
                       then old(roads)[r := old(roads[r]).(byEndNode := WithoutEndNode(old(roads[r].byEndNode), node))]
                       else old(roads)
    {
      if roads[r].owner != playerID {
        ghost var before := roads;
        roads := roads[r := roads[r].(byEndNode := WithoutEndNode(roads[r].byEndNode, node))];
        ValidKept(nodes, nodes, before, roads);
      }
    }

    /** The node-side half of PlaceVillage: every neighbour stops being buildable, then the node takes the village. */
    method Settle(p: NodeId, o: PlayerId)
      requires p in nodes && forall q :: q in nodes[p].neighbours ==> q in nodes
      modifies this`nodes
      ensures nodes == Settled(old(nodes), p, o)
    {
      var nbs := nodes[p].neighbours;
      var index := 0;
      while index < |nbs|
        invariant 0 <= index <= |nbs| && nodes == Fenced(old(nodes), nbs[..index])
      {
        FencedStep(old(nodes), nbs, index);
        nodes := nodes[nbs[index] := nodes[nbs[index]].(buildable := false)];
        index := index + 1;
      }
      assert nbs[..index] == nbs;
      nodes := nodes[p := nodes[p].(buildable := false, upgradeable := true, hasBuilding := true, owner := o)];
    }

    /**
     * The loops of PlaceVillage and PlaceRoad over a node's accessibleRoads:
     * each road still buildable and not skipped is added to the player's
     * dictionary, reached through the node via.
     */
    method GrantRoadsAround(n: NodeId, via: NodeId, skip: set<RoadId>, o: PlayerId, rm: RoadAccess.RoadManager)
      requires OpenRoads(nodes, roads, n)
      requires 1 <= o <= |rm.accessible| && rm.accessible[o - 1].Some?
      modifies rm
      ensures rm.accessible == old(rm.accessible)[o - 1 := Some(RoadAccess.GrantedAll(old(rm.accessible)[o - 1].value, Open(roads, nodes[n].accessibleRoads, skip), via))]
    {
      var ids := nodes[n].accessibleRoads;
      ghost var target := RoadAccess.GrantedAll(old(rm.accessible)[o - 1].value, Open(roads, ids, skip), via);
      var index := 0;
      while index < |ids|
        invariant 0 <= index <= |ids| && |rm.accessible| == |old(rm.accessible)|
        invariant rm.accessible == old(rm.accessible)[o - 1 := rm.accessible[o - 1]]
        invariant rm.accessible[o - 1].Some? && RoadAccess.GrantedAll(rm.accessible[o - 1].value, Open(roads, ids[index..], skip), via) == target
      {
        GrantNext(ids, index, skip, via, o, rm);
        index := index + 1;
      }
      assert ids[index..] == [];
    }

    /** One turn of GrantRoadsAround: the index-th road is added when still buildable and not skipped. */
    method GrantNext(ids: seq<RoadId>, index: nat, skip: set<RoadId>, via: NodeId, o: PlayerId, rm: RoadAccess.RoadManager)
      requires index < |ids| && forall k :: 0 <= k < |ids| ==> ids[k] < |roads|
      requires 1 <= o <= |rm.accessible| && rm.accessible[o - 1].Some?
      modifies rm
      ensures |rm.accessible| == |old(rm.accessible)| && rm.accessible[o - 1].Some?
      ensures rm.accessible == old(rm.accessible)[o - 1 := rm.accessible[o - 1]]
      ensures RoadAccess.GrantedAll(rm.accessible[o - 1].value, Open(roads, ids[index + 1..], skip), via)
           == RoadAccess.GrantedAll(old(rm.accessible)[o - 1].value, Open(roads, ids[index..], skip), via)
    {
      var road := ids[index];
      OpenStep(rm.accessible[o - 1].value, roads, ids, index, skip, via);
      if road !in skip && roads[road].buildable {
        rm.AddAccessibleRoadForPlayer(o, road, via);
      }
    }
  }

  /** The guards of PlaceVillage: the node is buildable and, after the preparation round, the village is affordable. */
  predicate VillageAllowed(n: NodeRec, preparationRoundFinished: bool, amounts: Amounts)
  {
    n.buildable && (preparationRoundFinished ==> CostOf(Village).Keys <= amounts.Keys && Ledger.Satisfied(amounts, CostOf(Village)))
  }

  /** The guards of PlaceTown: the node is upgradeable and owned by the current player. */
  predicate TownAllowed(n: NodeRec, current: PlayerId)
  {
    n.upgradeable && n.owner == current
  }

  /** The guards of PlaceRoad: the road is buildable and, after the preparation round, affordable. */
  predicate RoadAllowed(road: RoadRec, preparationRoundFinished: bool, amounts: Amounts)
  {
    road.buildable && (preparationRoundFinished ==> CostOf(Road).Keys <= amounts.Keys && Ledger.Satisfied(amounts, CostOf(Road)))
  }

  /** Every road a node lists is a road. */
  predicate OpenRoads(nodes: map<NodeId, NodeRec>, roads: seq<RoadRec>, n: NodeId)
  {
    n in nodes && forall i :: 0 <= i < |nodes[n].accessibleRoads| ==> nodes[n].accessibleRoads[i] < |roads|
  }

  lemma FencedStep(nodes: map<NodeId, NodeRec>, qs: seq<NodeId>, i: nat)
    requires i < |qs| && qs[i] in nodes
    ensures var f := Fenced(nodes, qs[..i]);
      Fenced(nodes, qs[..i + 1]) == f[qs[i] := f[qs[i]].(buildable := false)]
  {
    var f := Fenced(nodes, qs[..i]);
    var g := Fenced(nodes, qs[..i + 1]);
    assert qs[..i + 1] == qs[..i] + [qs[i]];
    assert forall q :: q in nodes ==> g[q] == f[qs[i] := f[qs[i]].(buildable := false)][q];
  }

  lemma OpenStep(m: RoadAccess.Access, roads: seq<RoadRec>, ids: seq<RoadId>, i: nat, skip: set<RoadId>, via: NodeId)
    requires i < |ids|
    ensures var m' := if Opens(roads, ids[i], skip) then RoadAccess.Granted(m, ids[i], via) else m;
      RoadAccess.GrantedAll(m', Open(roads, ids[i + 1..], skip), via) == RoadAccess.GrantedAll(m, Open(roads, ids[i..], skip), via)
  {
    assert ids[i..][1..] == ids[i + 1..];
    var here := if Opens(roads, ids[i], skip) then [ids[i]] else [];
    var rest := Open(roads, ids[i + 1..], skip);
    assert Open(roads, ids[i..], skip) == here + rest;
    if here != [] {
      assert (here + rest)[1..] == rest;
    } else {
      assert here + rest == rest;
    }
  }

  /** The roads the index-th node of the walk spawns, ahead of those of the rest of the walk. */
  lemma SpawnedEdgesHead(names: set<NodeId>, order: seq<NodeId>, index: nat) returns (here: seq<(NodeId, NodeId)>)
    requires index < |order|
    ensures here == (if EvenRow(order[index]) then RoadsTo(DirectNeighbours(names, order[index]), order[index]) else [])
    ensures SpawnedEdges(names, order[index..]) == here + SpawnedEdges(names, order[index + 1..])
  {
    assert order[index..][1..] == order[index + 1..];
    here := if EvenRow(order[index]) then RoadsTo(DirectNeighbours(names, order[index]), order[index]) else [];
  }

  lemma AppendAssoc<T>(a: seq<T>, b: seq<T>, c: seq<T>)
    ensures a + b + c == a + (b + c)
  {
  }

  /** A node's neighbours are still those GetDirectNeighbours finds, all of them nodes, while only road lists change. */
  lemma ListedNeighbours(a: map<NodeId, NodeRec>, b: map<NodeId, NodeRec>, p: NodeId)
    requires SameLinksBut(a, b) && p in a && a[p].neighbours == DirectNeighbours(a.Keys, p)
    ensures b[p].neighbours == DirectNeighbours(a.Keys, p)
    ensures forall q :: q in b[p].neighbours ==> q in b
  {
    assert b[p].neighbours == b[p].(accessibleRoads := a[p].accessibleRoads).neighbours;
    DirectNeighboursShape(a.Keys, p);
  }

  /** The nodes after a new road r from a to b: both list it, once. */
  function Linked(nodes: map<NodeId, NodeRec>, a: NodeId, b: NodeId, r: RoadId): (n: map<NodeId, NodeRec>)
    requires a in nodes && b in nodes
    ensures n.Keys == nodes.Keys
    ensures r in n[a].accessibleRoads && r in n[b].accessibleRoads
    ensures forall q :: q in nodes && q != a && q != b ==> n[q] == nodes[q]
  {
    var n1 := nodes[a := nodes[a].(accessibleRoads := AddIfAbsent(nodes[a].accessibleRoads, r))];
    n1[b := n1[b].(accessibleRoads := AddIfAbsent(n1[b].accessibleRoads, r))]
  }

  /** A new road listed by both its end nodes keeps the network consistent. */
  lemma LinkedValid(nodes: map<NodeId, NodeRec>, roads: seq<RoadRec>, a: NodeId, b: NodeId)
    requires NetworkValid(nodes, roads) && a in nodes && b in nodes
    ensures SameLinksBut(nodes, Linked(nodes, a, b, |roads|))
    ensures NetworkValid(Linked(nodes, a, b, |roads|), roads + [Unplaced(a, b)])
  {
    LinkedSame(nodes, a, b, |roads|);
    NeighboursKeptBut(nodes, Linked(nodes, a, b, |roads|));
    LinkedRoads(nodes, roads, a, b);
  }

  lemma LinkedSame(nodes: map<NodeId, NodeRec>, a: NodeId, b: NodeId, r: RoadId)
    requires a in nodes && b in nodes
    ensures SameLinksBut(nodes, Linked(nodes, a, b, r))
  {
  }

  /** Each node's list after the new road: its old roads, and the new one at both ends. */
  lemma LinkedAt(nodes: map<NodeId, NodeRec>, roads: seq<RoadRec>, a: NodeId, b: NodeId, p: NodeId)
    requires RoadsListed(nodes, roads) && a in nodes && b in nodes && p in nodes
    ensures var n := Linked(nodes, a, b, |roads|);
      && n.Keys == nodes.Keys
      && n[p].(accessibleRoads := nodes[p].accessibleRoads) == nodes[p]
      && Distinct(n[p].accessibleRoads)
      && (forall r :: r in n[p].accessibleRoads <==> r in nodes[p].accessibleRoads || (r == |roads| && (p == a || p == b)))
  {
    assert Distinct(nodes[p].accessibleRoads);
  }

  lemma LinkedRoads(nodes: map<NodeId, NodeRec>, roads: seq<RoadRec>, a: NodeId, b: NodeId)
    requires RoadsListed(nodes, roads) && a in nodes && b in nodes
    ensures RoadsListed(Linked(nodes, a, b, |roads|), roads + [Unplaced(a, b)])
  {
    var n := Linked(nodes, a, b, |roads|);
    var rs := roads + [Unplaced(a, b)];
    LinkedAt(nodes, roads, a, b, a);
    LinkedAt(nodes, roads, a, b, b);
    forall p | p in n
      ensures Distinct(n[p].accessibleRoads)
    {
      LinkedAt(nodes, roads, a, b, p);
    }
    forall p, r | p in n && r in n[p].accessibleRoads
      ensures r < |rs| && (rs[r].fst == p || rs[r].snd == p)
    {
      LinkedAt(nodes, roads, a, b, p);
      if r != |roads| {
        assert r in nodes[p].accessibleRoads;
        assert rs[r] == roads[r];
      }
    }
    forall r | 0 <= r < |rs|
      ensures rs[r].fst in n && rs[r].snd in n
      ensures r in n[rs[r].fst].accessibleRoads && r in n[rs[r].snd].accessibleRoads
    {
      if r < |roads| {
        assert rs[r] == roads[r];
        LinkedAt(nodes, roads, a, b, roads[r].fst);
        LinkedAt(nodes, roads, a, b, roads[r].snd);
      }
    }
  }

  lemma NeighboursKeptBut(a: map<NodeId, NodeRec>, b: map<NodeId, NodeRec>)
    requires NeighboursListed(a) && SameLinksBut(a, b)
    ensures NeighboursListed(b)
  {
    forall p | p in b
      ensures b[p].neighbours == DirectNeighbours(b.Keys, p)
    {
      assert b[p].neighbours == b[p].(accessibleRoads := a[p].accessibleRoads).neighbours;
    }
  }

  lemma SameLinksButTrans(a: map<NodeId, NodeRec>, b: map<NodeId, NodeRec>, c: map<NodeId, NodeRec>)
    requires SameLinksBut(a, b) && SameLinksBut(b, c)
    ensures SameLinksBut(a, c)
  {
    forall p | p in a
      ensures c[p].(accessibleRoads := a[p].accessibleRoads) == a[p]
    {
      assert c[p].(accessibleRoads := b[p].accessibleRoads) == b[p];
    }
  }

  /** Two node maps that differ at most in the roads their nodes list. */
  predicate SameLinksBut(a: map<NodeId, NodeRec>, b: map<NodeId, NodeRec>)
  {
    a.Keys == b.Keys && forall p :: p in a ==> b[p].(accessibleRoads := a[p].accessibleRoads) == a[p]
  }
}
