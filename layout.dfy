/**
 * The static side of Control/BoardManager.cs: the tile types, the shuffled
 * (type, number) list the board is dealt from, the tile-position grid and its
 * neighbour lookups, and the tile walks of the tornado and the tsunami.
 *
 * The 7 x 7 tilePositions array becomes a map from padded (row, column)
 * cells to tile handles; a cell without a tile is a cell the map lacks.
 */
module BoardLayout {
  import Shuffle
  import opened Optional

  /** The tile types, in the order of the game's enumeration (FOREST = 0 ... DESERT = 5). */
  datatype TileKind = Forest | Pasture | Farm | ClayPit | Mountain | Desert

  function KindIndex(k: TileKind): (i: nat)
    ensures i <= 5 && (i == 5 <==> k == Desert)
  {
    match k
    case Forest => 0
    case Pasture => 1
    case Farm => 2
    case ClayPit => 3
    case Mountain => 4
    case Desert => 5
  }

  /** One entry of the dealt list: the Vector2 (type, number) of one tile. */
  datatype Deal = Deal(kind: TileKind, number: int)

  /** The types before shuffling: four forests, pastures and farms, three clay pits and mountains. */
  const InitialKinds: seq<TileKind> :=
    [Forest, Forest, Forest, Forest, Pasture, Pasture, Pasture, Pasture,
     Farm, Farm, Farm, Farm, ClayPit, ClayPit, ClayPit, Mountain, Mountain, Mountain]

  /** The dice numbers before shuffling: 2 and 12 once, 3 to 11 except 7 twice. */
  const InitialNumbers: seq<int> := [2, 3, 3, 4, 4, 5, 5, 6, 6, 8, 8, 9, 9, 10, 10, 11, 11, 12]

  /**
   * The dealt list for the given draws: both lists shuffled, then the pair at
   * the drawn desert index moved to the end and replaced by (DESERT, 0).
   */
  function DealtFrom(kinds: seq<TileKind>, numbers: seq<int>, kindOffs: seq<nat>, numberOffs: seq<nat>, desert: nat): (r: seq<Deal>)
    requires |kinds| == |numbers| && desert < |kinds|
    requires Shuffle.ValidOffsets(kindOffs, |kinds|) && Shuffle.ValidOffsets(numberOffs, |numbers|)
    ensures |r| == |kinds| + 1
  {
    var ks := Shuffle.Shuffled(kinds, kindOffs);
    var ns := Shuffle.Shuffled(numbers, numberOffs);
    var ks' := ks[desert := Desert] + [ks[desert]];
    var ns' := ns[desert := 0] + [ns[desert]];
    seq(|ks'|, i requires 0 <= i < |ks'| => Deal(ks'[i], ns'[i]))
  }

  function Dealt(kindOffs: seq<nat>, numberOffs: seq<nat>, desert: nat): (r: seq<Deal>)
    requires Shuffle.ValidOffsets(kindOffs, 18) && Shuffle.ValidOffsets(numberOffs, 18) && desert < 18
    ensures |r| == 19
  {
    DealtFrom(InitialKinds, InitialNumbers, kindOffs, numberOffs, desert)
  }

  function KindsOf(ds: seq<Deal>): (r: seq<TileKind>)
    ensures |r| == |ds| && forall i :: 0 <= i < |ds| ==> r[i] == ds[i].kind
  {
    seq(|ds|, i requires 0 <= i < |ds| => ds[i].kind)
  }

  function NumbersOf(ds: seq<Deal>): (r: seq<int>)
    ensures |r| == |ds| && forall i :: 0 <= i < |ds| ==> r[i] == ds[i].number
  {
    seq(|ds|, i requires 0 <= i < |ds| => ds[i].number)
  }

  /** Replacing one element by x and appending the old one adds exactly x to the multiset. */
  lemma DisplaceIntoEnd<T>(s: seq<T>, i: nat, x: T)
    requires i < |s|
    ensures multiset(s[i := x] + [s[i]]) == multiset(s) + multiset{x}
  {
    calc {
      multiset(s[i := x] + [s[i]]);
      multiset(s[i := x]) + multiset{s[i]};
      multiset(s) - multiset{s[i]} + multiset{x} + multiset{s[i]};
      multiset(s) + multiset{x};
    }
  }

  lemma {:induction false} DealtFromKinds(kinds: seq<TileKind>, numbers: seq<int>, kindOffs: seq<nat>, numberOffs: seq<nat>, desert: nat)
    requires |kinds| == |numbers| && desert < |kinds| && Desert !in kinds
    requires Shuffle.ValidOffsets(kindOffs, |kinds|) && Shuffle.ValidOffsets(numberOffs, |numbers|)
    ensures var d := DealtFrom(kinds, numbers, kindOffs, numberOffs, desert);
      && multiset(KindsOf(d)) == multiset(kinds) + multiset{Desert}
      && d[desert].kind == Desert
      && (forall i :: 0 <= i < |d| && i != desert ==> d[i].kind != Desert)
  {
    var d := DealtFrom(kinds, numbers, kindOffs, numberOffs, desert);
    var ks := Shuffle.Shuffled(kinds, kindOffs);
    Shuffle.ShuffledPermutes(kinds, kindOffs);
    assert KindsOf(d) == ks[desert := Desert] + [ks[desert]];
    DisplaceIntoEnd(ks, desert, Desert);
    forall i | 0 <= i < |ks|
      ensures ks[i] != Desert
    {
      assert ks[i] in multiset(kinds);
    }
  }

  lemma {:induction false} DealtFromNumbers(kinds: seq<TileKind>, numbers: seq<int>, kindOffs: seq<nat>, numberOffs: seq<nat>, desert: nat)
    requires |kinds| == |numbers| && desert < |kinds| && 0 !in numbers
    requires Shuffle.ValidOffsets(kindOffs, |kinds|) && Shuffle.ValidOffsets(numberOffs, |numbers|)
    ensures var d := DealtFrom(kinds, numbers, kindOffs, numberOffs, desert);
      && multiset(NumbersOf(d)) == multiset(numbers) + multiset{0}
      && d[desert].number == 0
      && (forall i :: 0 <= i < |d| && i != desert ==> d[i].number != 0 && d[i].number in numbers)
  {
    var d := DealtFrom(kinds, numbers, kindOffs, numberOffs, desert);
    var ns := Shuffle.Shuffled(numbers, numberOffs);
    Shuffle.ShuffledPermutes(numbers, numberOffs);
    assert NumbersOf(d) == ns[desert := 0] + [ns[desert]];
    DisplaceIntoEnd(ns, desert, 0);
    forall i | 0 <= i < |ns|
      ensures ns[i] != 0 && ns[i] in numbers
    {
      assert ns[i] in multiset(numbers);
    }
  }

  lemma InitialListsLackDesertZeroAndSeven()
    ensures Desert !in InitialKinds
    ensures 0 !in InitialNumbers && 7 !in InitialNumbers
  {
  }

  /**
   * Whatever the draws, the 19 dealt tiles are four forests, pastures and
   * farms, three clay pits and mountains and one desert, which sits at the
   * drawn index and carries the number 0; the other numbers are exactly the
   * eighteen initial numbers, so no tile carries a 7.
   */
  lemma DealtContents(kindOffs: seq<nat>, numberOffs: seq<nat>, desert: nat)
    requires Shuffle.ValidOffsets(kindOffs, 18) && Shuffle.ValidOffsets(numberOffs, 18) && desert < 18
    ensures var d := Dealt(kindOffs, numberOffs, desert);
      && multiset(KindsOf(d)) == multiset(InitialKinds) + multiset{Desert}
      && multiset(NumbersOf(d)) == multiset(InitialNumbers) + multiset{0}
      && d[desert] == Deal(Desert, 0)
      && (forall i :: 0 <= i < 19 && i != desert ==> d[i].kind != Desert && d[i].number != 0)
      && (forall i :: 0 <= i < 19 ==> d[i].number != 7)
  {
    InitialListsLackDesertZeroAndSeven();
    DealtFromKinds(InitialKinds, InitialNumbers, kindOffs, numberOffs, desert);
    DealtFromNumbers(InitialKinds, InitialNumbers, kindOffs, numberOffs, desert);
  }

  /**
   * GenerateShuffledList: shuffle the types and the numbers in place, move the
   * pair at the drawn desert index to the end and put (DESERT, 0) in its place.
   */
  method GenerateShuffledList(kindOffs: seq<nat>, numberOffs: seq<nat>, desert: nat) returns (lst: seq<Deal>)
    requires Shuffle.ValidOffsets(kindOffs, 18) && Shuffle.ValidOffsets(numberOffs, 18) && desert < 18
    ensures lst == Dealt(kindOffs, numberOffs, desert)
  {
    lst := ShuffleAndPlaceDesert(InitialKinds, InitialNumbers, kindOffs, numberOffs, desert);
  }

  /** The body of GenerateShuffledList once the two lists are initialised. */
  method ShuffleAndPlaceDesert(kinds: seq<TileKind>, numbers: seq<int>, kindOffs: seq<nat>, numberOffs: seq<nat>, desert: nat)
    returns (lst: seq<Deal>)
    requires |kinds| == |numbers| && desert < |kinds|
    requires Shuffle.ValidOffsets(kindOffs, |kinds|) && Shuffle.ValidOffsets(numberOffs, |numbers|)
    ensures lst == DealtFrom(kinds, numbers, kindOffs, numberOffs, desert)
  {
    var types := new TileKind[|kinds|](i requires 0 <= i < |kinds| => kinds[i]);
    var nums := new int[|numbers|](i requires 0 <= i < |numbers| => numbers[i]);
    assert types[..] == kinds;
    assert nums[..] == numbers;
    Shuffle.ShuffleList(types, kindOffs);
    Shuffle.ShuffleList(nums, numberOffs);
    var tmpNumber := nums[desert];
    var tmpType := types[desert];
    nums[desert] := 0;
    types[desert] := Desert;
    var ts := types[..] + [tmpType];
    var ns := nums[..] + [tmpNumber];
    ghost var ks := Shuffle.Shuffled(kinds, kindOffs);
    ghost var ns0 := Shuffle.Shuffled(numbers, numberOffs);
    assert ts == ks[desert := Desert] + [ks[desert]];
    assert ns == ns0[desert := 0] + [ns0[desert]];
    lst := Pair(ts, ns);
  }

  /** The final loop of GenerateShuffledList: zip the types and the numbers into (type, number) pairs. */
  method Pair(ts: seq<TileKind>, ns: seq<int>) returns (lst: seq<Deal>)
    requires |ts| == |ns|
    ensures |lst| == |ts| && forall j :: 0 <= j < |ts| ==> lst[j] == Deal(ts[j], ns[j])
  {
    lst := [];
    var i := 0;
    while i < |ts|
      invariant 0 <= i <= |ts|
      invariant |lst| == i && forall j :: 0 <= j < i ==> lst[j] == Deal(ts[j], ns[j])
    {
      lst := lst + [Deal(ts[i], ns[i])];
      i := i + 1;
    }
  }

  /** A handle on a tile: its index in allTiles. */
  type TileId = nat

  /** A (row, column) cell of tilePositions, already shifted by +1 as the game indexes it. */
  type Cell = (int, int)

  /** tilePositions: the tile spawned on each occupied cell. */
  type Grid = map<Cell, TileId>

  /** The cells a spawn point can occupy once shifted: rows and columns 1..5 of the 7 x 7 array. */
  predicate Inside(c: Cell)
  {
    1 <= c.0 <= 5 && 1 <= c.1 <= 5
  }

  predicate GridInside(g: Grid)
  {
    forall c :: c in g ==> Inside(c)
  }

  /** The null check before each Add: the cell when a tile sits on it, nothing otherwise. */
  function Present(g: Grid, c: Cell): (r: seq<Cell>)
    ensures |r| <= 1 && (r == [c] <==> c in g) && (r == [] <==> c !in g)
  {
    if c in g then [c] else []
  }

  /** A read of tilePositions: the tile on the cell, or null. */
  function Lookup(g: Grid, c: Cell): (r: Option<TileId>)
    ensures r.Some? <==> c in g
    ensures r.Some? ==> r.value == g[c]
  {
    if c in g then Some(g[c]) else None
  }

  function Tiles(g: Grid, cs: seq<Cell>): (r: seq<Option<TileId>>)
    ensures |r| == |cs| && forall i :: 0 <= i < |cs| ==> r[i] == Lookup(g, cs[i])
  {
    seq(|cs|, i requires 0 <= i < |cs| => Lookup(g, cs[i]))
  }

  /** GetUpperAppendentTiles: the tiles on the next row up (row + 1) that touch the cell. */
  function UpperAppendent(g: Grid, x: int, y: int): (cs: seq<Cell>)
    ensures |cs| <= 2 && forall c :: c in cs ==> c in g && c.0 == x + 1
  {
    var offset := if x == 2 then -1 else 1;
    Present(g, (x + 1, y)) + Present(g, (x + 1, y + offset))
  }

  /** GetLowerAppendentTiles: the tiles on the row below (row - 1) that touch the cell. */
  function LowerAppendent(g: Grid, x: int, y: int): (cs: seq<Cell>)
    ensures |cs| <= 2 && forall c :: c in cs ==> c in g && c.0 == x - 1
  {
    var offset := if x == 3 then 1 else -1;
    Present(g, (x - 1, y)) + Present(g, (x - 1, y + offset))
  }

  /** GetLeftAppendentTiles: the left neighbour and, depending on the row, the tiles touching the cell from the left on the rows around it. */
  function LeftAppendent(g: Grid, x: int, y: int): (cs: seq<Cell>)
    ensures |cs| <= 3 && forall c :: c in cs ==> c in g && x - 1 <= c.0 <= x + 1
  {
    Present(g, (x, y - 1)) +
    (if x == 1 then Present(g, (x + 1, y))
     else if x == 2 then Present(g, (x + 1, y - 1)) + Present(g, (x - 1, y - 1))
     else if x == 3 then Present(g, (x + 1, y)) + Present(g, (x - 1, y))
     else if x == 4 then Present(g, (x + 1, y)) + Present(g, (x - 1, y - 1))
     else if x == 5 then Present(g, (x - 1, y - 1))
     else [])
  }

  /** GetRightAppendentTiles: the right neighbour and, depending on the row, the tiles touching the cell from the right on the rows around it. */
  function RightAppendent(g: Grid, x: int, y: int): (cs: seq<Cell>)
    ensures |cs| <= 3 && forall c :: c in cs ==> c in g && x - 1 <= c.0 <= x + 1
  {
    Present(g, (x, y + 1)) +
    (if x == 1 then Present(g, (x + 1, y + 1))
     else if x == 2 then Present(g, (x + 1, y)) + Present(g, (x - 1, y))
     else if x == 3 then Present(g, (x + 1, y + 1)) + Present(g, (x - 1, y + 1))
     else if x == 4 then Present(g, (x + 1, y + 1)) + Present(g, (x - 1, y))
     else if x == 5 then Present(g, (x - 1, y))
     else [])
  }

  /**
   * The two row lookups are each other's inverse: a tile is an upper
   * neighbour of a cell exactly when that cell is a lower neighbour of it.
   */
  lemma UpperLowerInverse(g: Grid, a: Cell, b: Cell)
    requires a in g && b in g && Inside(a) && Inside(b)
    ensures b in UpperAppendent(g, a.0, a.1) <==> a in LowerAppendent(g, b.0, b.1)
  {
    UpperMembers(g, a.0, a.1, b);
    LowerMembers(g, b.0, b.1, a);
  }

  /** The upper lookup lists exactly the occupied cells of its two checked cells. */
  lemma UpperMembers(g: Grid, x: int, y: int, c: Cell)
    ensures c in UpperAppendent(g, x, y) <==> c in g && c.0 == x + 1 && (c.1 == y || c.1 == y + (if x == 2 then -1 else 1))
  {
  }

  /** The lower lookup lists exactly the occupied cells of its two checked cells. */
  lemma LowerMembers(g: Grid, x: int, y: int, c: Cell)
    ensures c in LowerAppendent(g, x, y) <==> c in g && c.0 == x - 1 && (c.1 == y || c.1 == y + (if x == 3 then 1 else -1))
  {
  }

  /** The same holds of the sideways lookups: b is a right neighbour of a exactly when a is a left neighbour of b. */
  lemma LeftRightInverse(g: Grid, a: Cell, b: Cell)
    requires a in g && b in g && Inside(a) && Inside(b)
    ensures b in RightAppendent(g, a.0, a.1) <==> a in LeftAppendent(g, b.0, b.1)
  {
    RightAppendentCells(g, a.0, a.1);
    LeftAppendentCells(g, b.0, b.1);
    SidewaysCellsInverse(a, b);
  }

  /** The cells GetRightAppendentTiles checks, tile or not. */
  function RightCells(x: int, y: int): (r: set<Cell>)
    ensures (x, y + 1) in r
    ensures forall c :: c in r ==> x - 1 <= c.0 <= x + 1 && y <= c.1 <= y + 1
  {
    {(x, y + 1)} +
    (if x == 1 then {(x + 1, y + 1)}
     else if x == 2 then {(x + 1, y), (x - 1, y)}
     else if x == 3 then {(x + 1, y + 1), (x - 1, y + 1)}
     else if x == 4 then {(x + 1, y + 1), (x - 1, y)}
     else if x == 5 then {(x - 1, y)}
     else {})
  }

  /** The cells GetLeftAppendentTiles checks, tile or not. */
  function LeftCells(x: int, y: int): (r: set<Cell>)
    ensures (x, y - 1) in r
    ensures forall c :: c in r ==> x - 1 <= c.0 <= x + 1 && y - 1 <= c.1 <= y
  {
    {(x, y - 1)} +
    (if x == 1 then {(x + 1, y)}
     else if x == 2 then {(x + 1, y - 1), (x - 1, y - 1)}
     else if x == 3 then {(x + 1, y), (x - 1, y)}
     else if x == 4 then {(x + 1, y), (x - 1, y - 1)}
     else if x == 5 then {(x - 1, y - 1)}
     else {})
  }

  lemma RightAppendentCells(g: Grid, x: int, y: int)
    ensures forall c :: c in RightAppendent(g, x, y) <==> c in g && c in RightCells(x, y)
  {
  }

  lemma LeftAppendentCells(g: Grid, x: int, y: int)
    ensures forall c :: c in LeftAppendent(g, x, y) <==> c in g && c in LeftCells(x, y)
  {
  }

  lemma SidewaysCellsInverse(a: Cell, b: Cell)
    requires Inside(a) && Inside(b)
    ensures b in RightCells(a.0, a.1) <==> a in LeftCells(b.0, b.1)
  {
    if b in RightCells(a.0, a.1) {
      RightThenLeft(a, b);
    }
    if a in LeftCells(b.0, b.1) {
      LeftThenRight(a, b);
    }
  }

  lemma RightThenLeft(a: Cell, b: Cell)
    requires Inside(a) && Inside(b) && b in RightCells(a.0, a.1)
    ensures a in LeftCells(b.0, b.1)
  {
    if a.0 == 1 {
    } else if a.0 == 2 {
    } else if a.0 == 3 {
    } else if a.0 == 4 {
    } else {
    }
  }

  lemma LeftThenRight(a: Cell, b: Cell)
    requires Inside(a) && Inside(b) && a in LeftCells(b.0, b.1)
    ensures b in RightCells(a.0, a.1)
  {
    if b.0 == 1 {
    } else if b.0 == 2 {
    } else if b.0 == 3 {
    } else if b.0 == 4 {
    } else {
    }
  }

  /** The lower-row cell GetSurroudingTiles checks for a tile before its last Add. */
  function CheckedCell(x: int, y: int): (c: Cell)
    ensures c.0 == x - 1 && (c.1 == y + 1 || c.1 == y - 1)
  {
    (x - 1, y + (if x == 3 then 1 else -1))
  }

  /** The cell whose entry the last Add reads: the mirror image of the checked one. */
  function AddedCell(x: int, y: int): (c: Cell)
    ensures c.0 == x - 1 && c.1 - y == y - CheckedCell(x, y).1 && c != CheckedCell(x, y)
  {
    (x - 1, y - (if x == 3 then 1 else -1))
  }

  /**
   * GetSurroudingTiles as written: the same-row, upper and first lower
   * neighbours that exist, then, when CheckedCell holds a tile, whatever
   * AddedCell holds, which may be null.
   */
  function Surrounding(g: Grid, x: int, y: int): (slots: seq<Option<TileId>>)
    ensures |slots| <= 6
    ensures forall i :: 0 <= i < |slots| - 1 ==> slots[i].Some?
  {
    var offset := if x == 2 then -1 else 1;
    var found := PresentAll(g, [(x, y + 1), (x, y - 1), (x + 1, y), (x - 1, y), (x + 1, y + offset)]);
    Tiles(g, found) + (if CheckedCell(x, y) in g then [Lookup(g, AddedCell(x, y))] else [])
  }

  /** The cells of the list that hold a tile, in list order. */
  function PresentAll(g: Grid, cs: seq<Cell>): (r: seq<Cell>)
    ensures |r| <= |cs| && forall c :: c in r ==> c in g
  {
    if cs == [] then [] else Present(g, cs[0]) + PresentAll(g, cs[1..])
  }

  /**
   * At most six entries: the neighbours that exist, each a tile, then the
   * entry read from AddedCell exactly when CheckedCell holds a tile.
   */
  lemma SurroundingShape(g: Grid, x: int, y: int)
    ensures var slots := Surrounding(g, x, y);
      && |slots| <= 6
      && (CheckedCell(x, y) in g ==> |slots| >= 1 && slots[|slots| - 1] == Lookup(g, AddedCell(x, y)))
      && forall i :: 0 <= i < |slots| - (if CheckedCell(x, y) in g then 1 else 0) ==> slots[i].Some?
  {
  }

  /** The surrounding lists only tiles of the grid: when every tile in it is below k, so is every listed one. */
  lemma SurroundingBelow(g: Grid, x: int, y: int, k: nat)
    requires forall c :: c in g ==> g[c] < k
    ensures forall i :: 0 <= i < |Surrounding(g, x, y)| && Surrounding(g, x, y)[i].Some? ==> Surrounding(g, x, y)[i].value < k
  {
  }

  lemma PresentAllAbsent(g: Grid, cs: seq<Cell>)
    requires forall i :: 0 <= i < |cs| ==> cs[i] !in g
    ensures PresentAll(g, cs) == []
  {
    if cs != [] {
      PresentAllAbsent(g, cs[1..]);
    }
  }

  /**
   * The check and the add use different cells: when the checked lower-row
   * cell holds a tile but its mirror image is empty, a null joins the list.
   */
  lemma SurroundingAddsNull()
    ensures var g: Grid := map[(1, 1) := 0];
      None in Surrounding(g, 2, 2)
  {
    var g: Grid := map[(1, 1) := 0];
    assert CheckedCell(2, 2) == (1, 1) && AddedCell(2, 2) == (1, 3);
    PresentAllAbsent(g, [(2, 3), (2, 1), (3, 2), (1, 2), (3, 1)]);
    assert Surrounding(g, 2, 2) == [None];
  }

  /** The four tornado start cells: north, south, west and east. */
  const StartPoints: seq<Cell> := [(5, 4), (1, 3), (3, 1), (3, 5)]

  /** Enough draws for any walk: the largest rank of a start point. */
  const TornadoDraws: nat := 17

  /** The start cell of the tornado from side dir: inside the board, and no walk from it takes more than TornadoDraws steps. */
  function Start(dir: nat): (c: Cell)
    requires dir < 4
    ensures Inside(c) && Rank(dir, c) <= TornadoDraws
  {
    StartPoints[dir]
  }

  /** The lookup a tornado from each start walks with: north goes down the rows, south up, west rightwards, east leftwards. */
  function Next(g: Grid, dir: nat, c: Cell): (cs: seq<Cell>)
    requires dir < 4
    ensures |cs| <= 3 && forall d :: d in cs ==> d in g
  {
    if dir == 0 then LowerAppendent(g, c.0, c.1)
    else if dir == 1 then UpperAppendent(g, c.0, c.1)
    else if dir == 2 then RightAppendent(g, c.0, c.1)
    else LeftAppendent(g, c.0, c.1)
  }

  /** A measure every tornado step lowers. */
  function Rank(dir: nat, c: Cell): (r: nat)
    requires dir < 4 && Inside(c)
    ensures r >= 1
  {
    if dir == 0 then c.0
    else if dir == 1 then 6 - c.0
    else if dir == 2 then 3 * (6 - c.1) + (if c.0 == 5 then 2 else if c.0 == 2 || c.0 == 4 then 1 else 0)
    else 3 * c.1 + (if c.0 == 3 then 2 else if c.0 == 1 || c.0 == 4 then 1 else 0)
  }

  /**
   * Every step of a tornado walk lowers the rank: a north walk always moves
   * to row x - 1 and a south walk to row x + 1, and the sideways walks move
   * one column on within at most two steps. So every walk ends.
   */
  lemma NextDescends(g: Grid, dir: nat, c: Cell)
    requires GridInside(g) && dir < 4 && Inside(c)
    ensures forall d :: d in Next(g, dir, c) ==> Inside(d) && Rank(dir, d) < Rank(dir, c)
    ensures dir == 0 ==> forall d :: d in Next(g, dir, c) ==> d.0 == c.0 - 1
    ensures dir == 1 ==> forall d :: d in Next(g, dir, c) ==> d.0 == c.0 + 1
  {
    if dir == 2 {
      RightDescends(g, c);
    } else if dir == 3 {
      LeftDescends(g, c);
    }
  }

  lemma RightDescends(g: Grid, c: Cell)
    requires GridInside(g) && Inside(c)
    ensures forall d :: d in RightAppendent(g, c.0, c.1) ==> Inside(d) && Rank(2, d) < Rank(2, c)
  {
    RightAppendentCells(g, c.0, c.1);
    forall d | d in RightAppendent(g, c.0, c.1)
      ensures Inside(d) && Rank(2, d) < Rank(2, c)
    {
      RightCellDescends(c, d);
    }
  }

  lemma RightCellDescends(c: Cell, d: Cell)
    requires Inside(c) && Inside(d) && d in RightCells(c.0, c.1)
    ensures Rank(2, d) < Rank(2, c)
  {
    if c.0 == 1 {
    } else if c.0 == 2 {
    } else if c.0 == 3 {
    } else if c.0 == 4 {
    } else {
    }
  }

  lemma LeftDescends(g: Grid, c: Cell)
    requires GridInside(g) && Inside(c)
    ensures forall d :: d in LeftAppendent(g, c.0, c.1) ==> Inside(d) && Rank(3, d) < Rank(3, c)
  {
    LeftAppendentCells(g, c.0, c.1);
    forall d | d in LeftAppendent(g, c.0, c.1)
      ensures Inside(d) && Rank(3, d) < Rank(3, c)
    {
      LeftCellDescends(c, d);
    }
  }

  lemma LeftCellDescends(c: Cell, d: Cell)
    requires Inside(c) && Inside(d) && d in LeftCells(c.0, c.1)
    ensures Rank(3, d) < Rank(3, c)
  {
    if c.0 == 1 {
    } else if c.0 == 2 {
    } else if c.0 == 3 {
    } else if c.0 == 4 {
    } else {
    }
  }
}
