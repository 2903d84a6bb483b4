/**
 * The node coordinate rules of NodeUtilities.cs. A node is named by its
 * (row, column) pair; the game parses that pair out of the name
 * "row_column", here it is the node's handle itself.
 *
 * Every node looks for three candidate neighbours, one row up or down; the
 * board spawns roads only from nodes on even rows (BoardManager.SpawnRoads),
 * which covers every edge exactly once because neighbours always lie on rows
 * of the other parity.
 */
module NodeGrid {
  import opened Seqs

  /** A node handle: its (row, column) name. */
  type NodeId = (int, int)

  predicate EvenRow(p: NodeId)
  {
    p.0 % 2 == 0
  }

  /** The three names GetDirectNeighbours looks for, in the order nb1, nb2, nb3. */
  function Candidates(p: NodeId): (cs: seq<NodeId>)
    ensures |cs| == 3
  {
    var r := p.0;
    var c := p.1;
    if r <= 5 then
      if EvenRow(p) then [(r - 1, c), (r + 1, c + 1), (r + 1, c)]
      else [(r - 1, c), (r - 1, c - 1), (r + 1, c)]
    else
      if EvenRow(p) then [(r - 1, c), (r + 1, c - 1), (r + 1, c)]
      else [(r - 1, c), (r - 1, c + 1), (r + 1, c)]
  }

  /**
   * The node straight above and the one straight below are always
   * candidates; the third leans right going down on even rows up to row 5,
   * left going up on odd rows up to row 5, left going down on even rows
   * beyond, and right going up on odd rows beyond.
   */
  lemma CandidateCells(p: NodeId)
    ensures (p.0 - 1, p.1) in Candidates(p) && (p.0 + 1, p.1) in Candidates(p)
    ensures p.0 <= 5 && EvenRow(p) ==> (p.0 + 1, p.1 + 1) in Candidates(p)
    ensures p.0 <= 5 && !EvenRow(p) ==> (p.0 - 1, p.1 - 1) in Candidates(p)
    ensures p.0 > 5 && EvenRow(p) ==> (p.0 + 1, p.1 - 1) in Candidates(p)
    ensures p.0 > 5 && !EvenRow(p) ==> (p.0 - 1, p.1 + 1) in Candidates(p)
  {
  }

  /** The cell when a node has that name, nothing otherwise. */
  function IfNode(names: set<NodeId>, q: NodeId): (r: seq<NodeId>)
    ensures |r| <= 1 && (q in names <==> r == [q]) && (q !in names <==> r == [])
  {
    if q in names then [q] else []
  }

  /** The names of a list that are the names of nodes, in list order: one IfNode per name. */
  function Present(names: set<NodeId>, cs: seq<NodeId>): (ns: seq<NodeId>)
    ensures |ns| <= |cs|
    ensures forall q :: q in ns <==> q in cs && q in names
    ensures Distinct(cs) ==> Distinct(ns)
  {
    if cs == [] then []
    else
      var rest := Present(names, cs[1..]);
      assert Distinct(cs) ==> Distinct(cs[1..]) && cs[0] !in cs[1..];
      IfNode(names, cs[0]) + rest
  }

  /** GetDirectNeighbours: the candidates that are the names of nodes, in candidate order. */
  function DirectNeighbours(names: set<NodeId>, p: NodeId): (ns: seq<NodeId>)
    ensures |ns| <= 3
    ensures forall q :: q in ns <==> q in names && q in Candidates(p)
  {
    Present(names, Candidates(p))
  }

  /** At most three neighbours, each an existing node among the candidates, none listed twice. */
  lemma DirectNeighboursShape(names: set<NodeId>, p: NodeId)
    ensures var ns := DirectNeighbours(names, p);
      && |ns| <= 3
      && (forall q :: q in ns <==> q in names && q in Candidates(p))
      && Distinct(ns)
  {
    assert Distinct(Candidates(p));
  }

  /** Every candidate lies one row up or down, on a row of the other parity. */
  lemma CandidatesOnOtherRows(p: NodeId, q: NodeId)
    requires q in Candidates(p)
    ensures q.0 == p.0 - 1 || q.0 == p.0 + 1
    ensures EvenRow(q) != EvenRow(p)
  {
  }

  /** The rules agree with each other: q is a candidate of p exactly when p is one of q. */
  lemma CandidatesSymmetric(p: NodeId, q: NodeId)
    ensures q in Candidates(p) <==> p in Candidates(q)
  {
    if q in Candidates(p) {
      CandidateBack(p, q);
    }
    if p in Candidates(q) {
      CandidateBack(q, p);
    }
  }

  lemma CandidateBack(p: NodeId, q: NodeId)
    requires q in Candidates(p)
    ensures p in Candidates(q)
  {
    var r := p.0;
    CandidatesOnOtherRows(p, q);
    if r <= 5 {
      if EvenRow(p) {
        assert q.0 == r - 1 || q.0 == r + 1;
        assert r + 1 <= 5 || q.0 == r - 1;
      } else if q.0 == r + 1 && r + 1 > 5 {
        assert EvenRow(q);
      }
    } else {
      if !EvenRow(p) && q.0 == r - 1 {
        assert r - 1 > 5;
      }
    }
  }

  /** Hence the neighbour lists agree between any two nodes. */
  lemma NeighboursSymmetric(names: set<NodeId>, p: NodeId, q: NodeId)
    requires p in names && q in names
    ensures q in DirectNeighbours(names, p) <==> p in DirectNeighbours(names, q)
  {
    DirectNeighboursShape(names, p);
    DirectNeighboursShape(names, q);
    CandidatesSymmetric(p, q);
  }

  /** The roads one node spawns: one from each neighbour to the node, in neighbour order. */
  function RoadsTo(nbs: seq<NodeId>, p: NodeId): (es: seq<(NodeId, NodeId)>)
    ensures |es| == |nbs| && forall i :: 0 <= i < |nbs| ==> es[i] == (nbs[i], p)
  {
    seq(|nbs|, i requires 0 <= i < |nbs| => (nbs[i], p))
  }

  /**
   * BoardManager.SpawnRoads: walking the nodes in order, each node on an
   * even row spawns a road to each of its neighbours.
   */
  function SpawnedEdges(names: set<NodeId>, ps: seq<NodeId>): (es: seq<(NodeId, NodeId)>)
    ensures forall e :: e in es ==> e.0 in names && e.1 in ps && EvenRow(e.1)
  {
    if ps == [] then []
    else (if EvenRow(ps[0]) then RoadsTo(DirectNeighbours(names, ps[0]), ps[0]) else []) + SpawnedEdges(names, ps[1..])
  }

  /**
   * Every spawned road joins two neighbouring nodes: its second end is a
   * walked node on an even row, its first end a neighbour of it, on an odd
   * row.
   */
  lemma {:induction false} SpawnedEdgesAdjacent(names: set<NodeId>, ps: seq<NodeId>, e: (NodeId, NodeId))
    requires e in SpawnedEdges(names, ps)
    ensures e.1 in ps && EvenRow(e.1) && !EvenRow(e.0)
    ensures e.0 in names && e.0 in DirectNeighbours(names, e.1)
  {
    if ps != [] {
      var here := if EvenRow(ps[0]) then RoadsTo(DirectNeighbours(names, ps[0]), ps[0]) else [];
      if e in here {
        DirectNeighboursShape(names, ps[0]);
        CandidatesOnOtherRows(ps[0], e.0);
      } else {
        assert e in SpawnedEdges(names, ps[1..]);
        SpawnedEdgesAdjacent(names, ps[1..], e);
      }
    }
  }

  /**
   * Every pair of neighbouring walked nodes is joined by a spawned road,
   * running from the one on the odd row to the one on the even row.
   */
  lemma {:induction false} SpawnedEdgesCover(names: set<NodeId>, ps: seq<NodeId>, p: NodeId, q: NodeId)
    requires p in ps && EvenRow(p) && q in DirectNeighbours(names, p)
    ensures (q, p) in SpawnedEdges(names, ps)
  {
    var here := if EvenRow(ps[0]) then RoadsTo(DirectNeighbours(names, ps[0]), ps[0]) else [];
    if ps[0] == p {
      var i :| 0 <= i < |DirectNeighbours(names, p)| && DirectNeighbours(names, p)[i] == q;
      assert here[i] == (q, p);
    } else {
      SpawnedEdgesCover(names, ps[1..], p, q);
    }
    assert SpawnedEdges(names, ps) == here + SpawnedEdges(names, ps[1..]);
  }

  /** Whichever of two neighbouring nodes is on the even row, the pair is spawned once, from that node. */
  lemma EveryEdgeSpawned(names: set<NodeId>, ps: seq<NodeId>, p: NodeId, q: NodeId)
    requires names == set x | x in ps
    requires p in names && q in DirectNeighbours(names, p)
    ensures EvenRow(p) ==> (q, p) in SpawnedEdges(names, ps) && (p, q) !in SpawnedEdges(names, ps)
    ensures !EvenRow(p) ==> (p, q) in SpawnedEdges(names, ps) && (q, p) !in SpawnedEdges(names, ps)
  {
    DirectNeighboursShape(names, p);
    CandidatesOnOtherRows(p, q);
    if EvenRow(p) {
      SpawnedEdgesCover(names, ps, p, q);
      if (p, q) in SpawnedEdges(names, ps) {
        SpawnedEdgesAdjacent(names, ps, (p, q));
      }
    } else {
      NeighboursSymmetric(names, p, q);
      SpawnedEdgesCover(names, ps, q, p);
      if (q, p) in SpawnedEdges(names, ps) {
        SpawnedEdgesAdjacent(names, ps, (q, p));
      }
    }
  }

  /** The roads of one node are all different. */
  lemma RoadsToDistinct(names: set<NodeId>, p: NodeId)
    ensures Distinct(RoadsTo(DirectNeighbours(names, p), p))
  {
    DirectNeighboursShape(names, p);
  }

  /** When no node is walked twice, no road is spawned twice: roads of different nodes end in different nodes. */
  lemma {:induction false} SpawnedEdgesDistinct(names: set<NodeId>, ps: seq<NodeId>)
    requires Distinct(ps)
    ensures Distinct(SpawnedEdges(names, ps))
  {
    if ps != [] {
      var here := if EvenRow(ps[0]) then RoadsTo(DirectNeighbours(names, ps[0]), ps[0]) else [];
      var rest := SpawnedEdges(names, ps[1..]);
      DistinctTail(ps);
      SpawnedEdgesDistinct(names, ps[1..]);
      RoadsToDistinct(names, ps[0]);
      forall x | x in rest
        ensures x.1 in ps[1..]
      {
        SpawnedEdgesAdjacent(names, ps[1..], x);
      }
      ConcatDistinct(here, rest);
    }
  }
}
