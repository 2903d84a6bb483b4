/**
 * RoadManager.cs: for every player, the roads that player may build next,
 * each with the nodes through which the player reaches it. The game keeps
 * one dictionary per player in an array indexed by player ID - 1; an entry
 * that InitialiseRoadDictionary never filled stays null (None here).
 */
module RoadAccess {
  import opened Optional
  import opened Seqs
  import NodeGrid
  import TileModel

  type NodeId = NodeGrid.NodeId
  type PlayerId = TileModel.PlayerId

  /** A handle on a road. */
  type RoadId = nat

  /** One player's dictionary: each accessible road, with the nodes it is reached through. */
  type Access = map<RoadId, seq<NodeId>>

  /** What the add and remove operations keep: every node list is non-empty and lists no node twice. */
  predicate WellKept(m: Access)
  {
    forall r :: r in m ==> m[r] != [] && Distinct(m[r])
  }

  /**
   * AddAccessibleRoadForPlayer on one dictionary: the road becomes a key,
   * the node joins its list unless it is already there.
   */
  function Granted(m: Access, road: RoadId, node: NodeId): (r: Access)
    ensures road in r && node in r[road]
    ensures forall k :: k in r <==> k in m || k == road
    ensures forall k :: k in m && k != road ==> r[k] == m[k]
    ensures forall n :: n in r[road] <==> n == node || (road in m && n in m[road])
    ensures road in m ==> |r[road]| <= |m[road]| + 1
    ensures WellKept(m) ==> WellKept(r)
  {
    if road !in m then m[road := [node]]
    else if node !in m[road] then m[road := m[road] + [node]]
    else m
  }

  /** Adding the same pair twice is adding it once. */
  lemma GrantedIdempotent(m: Access, road: RoadId, node: NodeId)
    ensures Granted(Granted(m, road, node), road, node) == Granted(m, road, node)
  {
  }

  /** The first overload of RemoveAccessibleRoadForPlayers on one dictionary: the road is no key any more. */
  function Revoked(m: Access, road: RoadId): (r: Access)
    ensures road !in r
    ensures forall k :: k != road ==> (k in r <==> k in m)
    ensures forall k :: k in r ==> r[k] == m[k]
    ensures WellKept(m) ==> WellKept(r)
  {
    m - {road}
  }

  /**
   * The second overload on one dictionary: the node leaves the road's
   * list, and the road stops being a key once its list is empty.
   */
  function Detached(m: Access, road: RoadId, node: NodeId): (r: Access)
    ensures forall k :: k != road ==> (k in r <==> k in m)
    ensures forall k :: k in r && k != road ==> r[k] == m[k]
    ensures road in r ==> road in m && r[road] == RemoveFirst(m[road], node) && r[road] != []
    ensures road in m && road !in r ==> RemoveFirst(m[road], node) == []
    ensures WellKept(m) ==> WellKept(r) && (road in r ==> node !in r[road])
    ensures WellKept(m) && road in m ==> (road !in r <==> m[road] == [node])
  {
    if road !in m then m
    else
      var l := RemoveFirst(m[road], node);
      if |l| == 0 then m - {road} else m[road := l]
  }

  /** Removing through a node undoes adding the road through that node, when the road was not accessible before. */
  lemma DetachedUndoesGranted(m: Access, road: RoadId, node: NodeId)
    requires road !in m
    ensures Detached(Granted(m, road, node), road, node) == m
  {
  }

  /** Each road of the list, one after the other, added through the same node. */
  function GrantedAll(m: Access, roads: seq<RoadId>, node: NodeId): (r: Access)
    ensures forall k :: k in m ==> k in r
    ensures forall k :: k in roads ==> k in r
    decreases |roads|
  {
    if roads == [] then m
    else GrantedAll(Granted(m, roads[0], node), roads[1..], node)
  }

  /**
   * After adding a list of roads through a node, the keys are the old
   * keys and the listed roads; each listed road is reached through the
   * node; roads not listed keep their lists; every list only gains that
   * node.
   */
  lemma {:induction false} GrantedAllEffect(m: Access, roads: seq<RoadId>, node: NodeId)
    ensures var r := GrantedAll(m, roads, node);
      && (forall k :: k in r <==> k in m || k in roads)
      && (forall k :: k in roads ==> node in r[k])
      && (forall k :: k in m && k !in roads ==> r[k] == m[k])
      && (forall k, n :: k in r && n in r[k] ==> n == node || (k in m && n in m[k]))
      && (WellKept(m) ==> WellKept(r))
    decreases |roads|
  {
    if roads != [] {
      GrantedAllEffect(Granted(m, roads[0], node), roads[1..], node);
      var r := GrantedAll(m, roads, node);
      forall k | k in roads
        ensures node in r[k]
      {
        if k != roads[0] {
          assert k in roads[1..];
        }
      }
    }
  }

  /** InitialiseRoadDictionary's loop from a given array: each ID fills its slot until an ID below 1 aborts. */
  function Filled(arr: seq<Option<Access>>, ids: seq<int>): (r: seq<Option<Access>>)
    requires forall i :: 0 <= i < |ids| ==> ids[i] <= |arr|
    ensures |r| == |arr|
    decreases |ids|
  {
    if ids == [] || ids[0] - 1 < 0 then arr
    else Filled(arr[ids[0] - 1 := Some(map[])], ids[1..])
  }

  /** The number of leading IDs of at least 1: the IDs processed before an abort. */
  function ValidPrefix(ids: seq<int>): (k: nat)
    ensures k <= |ids|
    ensures forall i :: 0 <= i < k ==> ids[i] >= 1
    ensures k < |ids| ==> ids[k] < 1
  {
    if ids == [] || ids[0] < 1 then 0 else 1 + ValidPrefix(ids[1..])
  }

  /** The array InitialiseRoadDictionary builds: one slot per ID, all null to begin with. */
  function Initialised(ids: seq<int>): (r: seq<Option<Access>>)
    requires forall i :: 0 <= i < |ids| ==> ids[i] <= |ids|
    ensures |r| == |ids|
  {
    Filled(seq(|ids|, _ => None), ids)
  }

  lemma {:induction false} FilledEntry(arr: seq<Option<Access>>, ids: seq<int>, j: nat)
    requires forall i :: 0 <= i < |ids| ==> ids[i] <= |arr|
    requires j < |arr|
    ensures Filled(arr, ids)[j] ==
      if exists i :: 0 <= i < ValidPrefix(ids) && ids[i] == j + 1 then Some(map[]) else arr[j]
    decreases |ids|
  {
    if ids != [] && ids[0] >= 1 {
      var arr' := arr[ids[0] - 1 := Some(map[])];
      FilledEntry(arr', ids[1..], j);
      var rest := ids[1..];
      if exists i :: 0 <= i < ValidPrefix(ids) && ids[i] == j + 1 {
        var i :| 0 <= i < ValidPrefix(ids) && ids[i] == j + 1;
        if i > 0 {
          assert rest[i - 1] == j + 1;
        }
      } else {
        forall i | 0 <= i < ValidPrefix(rest)
          ensures rest[i] != j + 1
        {
          assert rest[i] == ids[i + 1];
        }
      }
    }
  }

  /**
   * Slot j holds an empty dictionary exactly when j + 1 is among the IDs
   * read before the first ID below 1; every other slot stays null.
   */
  lemma InitialisedEntries(ids: seq<int>, j: nat)
    requires forall i :: 0 <= i < |ids| ==> ids[i] <= |ids|
    requires j < |ids|
    ensures Initialised(ids)[j] == Some(map[]) <==> exists i :: 0 <= i < ValidPrefix(ids) && ids[i] == j + 1
    ensures Initialised(ids)[j] != Some(map[]) ==> Initialised(ids)[j] == None
  {
    FilledEntry(seq(|ids|, _ => None), ids, j);
  }

  /** When no ID is below 1, the slot of every ID holds an empty dictionary. */
  lemma InitialisedPlayers(ids: seq<int>)
    requires forall i :: 0 <= i < |ids| ==> 1 <= ids[i] <= |ids|
    ensures forall i :: 0 <= i < |ids| ==> Initialised(ids)[ids[i] - 1] == Some(map[])
  {
    assert ValidPrefix(ids) == |ids|;
    forall i | 0 <= i < |ids|
      ensures Initialised(ids)[ids[i] - 1] == Some(map[])
    {
      InitialisedEntries(ids, ids[i] - 1);
    }
  }

  class RoadManager {
    /** AccessableRoadsForPlayerID: slot playerID - 1 is that player's dictionary, None while null. */
    var accessible: seq<Option<Access>>

    /** Every slot holds a dictionary. */
    ghost predicate Ready()
      reads this
    {
      forall i :: 0 <= i < |accessible| ==> accessible[i].Some?
    }

    /** Before InitialiseRoadDictionary there is no dictionary. */
    constructor ()
      ensures accessible == []
    {
      accessible := [];
    }

    /**
     * InitialiseRoadDictionary: a fresh array with one null slot per ID;
     * each ID in turn gets an empty dictionary at slot ID - 1, and an ID
     * below 1 aborts the loop, leaving later slots null. An ID above the
     * number of IDs would index past the array, so callers never pass one.
     */
    method InitialiseRoadDictionary(ids: seq<int>)
      requires forall i :: 0 <= i < |ids| ==> ids[i] <= |ids|
      modifies this
      ensures accessible == Initialised(ids)
    {
      accessible := seq(|ids|, _ => None);
      var index := 0;
      while index < |ids|
        invariant 0 <= index <= |ids| && |accessible| == |ids|
        invariant Filled(accessible, ids[index..]) == Initialised(ids)
      {
        var currentPlayerID := ids[index] - 1;
        if currentPlayerID < 0 {
          return;
        }
        assert ids[index..][1..] == ids[index + 1..];
        accessible := accessible[currentPlayerID := Some(map[])];
        index := index + 1;
      }
    }

    /** AddAccessibleRoadForPlayer: the player's dictionary gains the road through the node. */
    method AddAccessibleRoadForPlayer(playerID: PlayerId, road: RoadId, node: NodeId)
      requires 1 <= playerID <= |accessible| && accessible[playerID - 1].Some?
      modifies this
      ensures accessible == old(accessible)[playerID - 1 := Some(Granted(old(accessible)[playerID - 1].value, road, node))]
    {
      var dict := accessible[playerID - 1].value;
      if road !in dict {
        dict := dict[road := [node]];
      } else if node !in dict[road] {
        dict := dict[road := dict[road] + [node]];
      }
      accessible := accessible[playerID - 1 := Some(dict)];
    }

    /** RemoveAccessibleRoadForPlayers(road): no player's dictionary has the road afterwards. */
    method RemoveAccessibleRoadForPlayers(road: RoadId)
      requires Ready()
      modifies this
      ensures Ready() && |accessible| == |old(accessible)|
      ensures forall i :: 0 <= i < |accessible| ==> accessible[i] == Some(Revoked(old(accessible)[i].value, road))
    {
      var index := 0;
      while index < |accessible|
        invariant 0 <= index <= |accessible| == |old(accessible)|
        invariant Ready()
        invariant forall i :: 0 <= i < index ==> accessible[i] == Some(Revoked(old(accessible)[i].value, road))
        invariant forall i :: index <= i < |accessible| ==> accessible[i] == old(accessible)[i]
      {
        var currentPlayerDict := accessible[index].value;
        if road in currentPlayerDict {
          currentPlayerDict := currentPlayerDict - {road};
        }
        assert currentPlayerDict == Revoked(old(accessible)[index].value, road);
        accessible := accessible[index := Some(currentPlayerDict)];
        index := index + 1;
      }
    }

    /** RemoveAccessibleRoadForPlayers(road, node): every player stops reaching the road through the node. */
    method RemoveAccessibleRoadThroughNode(road: RoadId, node: NodeId)
      requires Ready()
      modifies this
      ensures Ready() && |accessible| == |old(accessible)|
      ensures forall i :: 0 <= i < |accessible| ==> accessible[i] == Some(Detached(old(accessible)[i].value, road, node))
    {
      var index := 0;
      while index < |accessible|
        invariant 0 <= index <= |accessible| == |old(accessible)|
        invariant Ready()
        invariant forall i :: 0 <= i < index ==> accessible[i] == Some(Detached(old(accessible)[i].value, road, node))
        invariant forall i :: index <= i < |accessible| ==> accessible[i] == old(accessible)[i]
      {
        var currentPlayerDict := accessible[index].value;
        if road in currentPlayerDict {
          currentPlayerDict := currentPlayerDict[road := RemoveFirst(currentPlayerDict[road], node)];
          if |currentPlayerDict[road]| == 0 {
            currentPlayerDict := currentPlayerDict - {road};
          }
        }
        assert currentPlayerDict == Detached(old(accessible)[index].value, road, node);
        accessible := accessible[index := Some(currentPlayerDict)];
        index := index + 1;
      }
    }
  }
}
