/**
 * The board manager (Control/BoardManager.cs): it spawns the tiles from the
 * shuffled list, indexes them by dice number and by type, keeps the padded
 * position grid, the bandit tile, the ring of tiles around the desert and
 * the coast, lets tiles yield, and computes the tiles a tornado or a
 * tsunami hits.
 *
 * Tiles are handles into `tiles`; a method of a Tile object in the game is
 * a method here that replaces the record under its handle.
 */
module Boards {
  import opened Resources
  import opened BoardLayout
  import opened TileModel
  import opened Optional
  import opened Seqs
  import Shuffle
  import Ledger

  /** The twelve coast cells of tilesOnCoast, in the padded coordinates. */
  const CoastCells: seq<Cell> := [(1, 2), (1, 3), (1, 4), (2, 2), (2, 5), (3, 1), (3, 5), (4, 2), (4, 5), (5, 3), (5, 4), (5, 5)]

  predicate Handles(ids: seq<TileId>, n: nat)
  {
    forall i :: 0 <= i < |ids| ==> ids[i] < n
  }

  predicate SomeHandles(ids: seq<Option<TileId>>, n: nat)
  {
    forall i :: 0 <= i < |ids| && ids[i].Some? ==> ids[i].value < n
  }

  /** Every handle from 0 to n - 1, in spawn order. */
  function SpawnOrder(n: nat): (ids: seq<TileId>)
    ensures |ids| == n && forall i :: 0 <= i < n ==> ids[i] == i
  {
    seq(n, i => i)
  }

  /** Handles listed in the order the tiles were spawned, each once. */
  predicate Ascending(ids: seq<TileId>)
  {
    forall i, j :: 0 <= i < j < |ids| ==> ids[i] < ids[j]
  }

  /** No tile listed twice; empty slots (null in the game) may repeat. */
  predicate DistinctTiles(s: seq<Option<TileId>>)
  {
    forall i, j :: 0 <= i < j < |s| && s[i].Some? ==> s[i] != s[j]
  }

  /**
   * tilePositions once the first k tiles are placed: tile i sits in the
   * cell of spawn point i, a later tile overwriting an earlier one in the
   * same cell.
   */
  function GridOf(cells: seq<Cell>, k: nat): (g: Grid)
    requires k <= |cells|
    ensures forall c :: c in g ==> g[c] < k && cells[g[c]] == c
  {
    if k == 0 then map[] else GridOf(cells, k - 1)[cells[k - 1] := k - 1]
  }

  /** The tile records SpawnBoard creates, one per entry of the list. */
  function SpawnedTiles(lst: seq<Deal>): (ts: seq<Tile>)
    ensures |ts| == |lst| && forall i :: 0 <= i < |lst| ==> ts[i] == SpawnedTile(lst[i].kind, lst[i].number)
    ensures forall i :: 0 <= i < |ts| ==> TileValid(ts[i])
  {
    seq(|lst|, i requires 0 <= i < |lst| => SpawnedTile(lst[i].kind, lst[i].number))
  }

  /**
   * tilesForDiceResult once the first k tiles are spawned: the tile is
   * appended to the list of its number, which is created when missing.
   */
  function DiceLists(lst: seq<Deal>, k: nat): (m: map<int, seq<TileId>>)
    requires k <= |lst|
    ensures k > 0 ==> lst[k - 1].number in m
  {
    if k == 0 then map[]
    else
      var m := DiceLists(lst, k - 1);
      var n := lst[k - 1].number;
      m[n := (if n in m then m[n] else []) + [k - 1]]
  }

  /**
   * The dice lists hold a list per number that occurs, and each list holds
   * exactly the tiles of that number, in spawn order.
   */
  lemma DiceListsExact(lst: seq<Deal>, k: nat)
    requires k <= |lst|
    ensures forall n :: n in DiceLists(lst, k) ==>
      DiceLists(lst, k)[n] != [] && Ascending(DiceLists(lst, k)[n]) && Handles(DiceLists(lst, k)[n], k)
    ensures forall i :: 0 <= i < k ==> lst[i].number in DiceLists(lst, k)
    ensures forall n, i :: n in DiceLists(lst, k) && 0 <= i < k ==> (i in DiceLists(lst, k)[n] <==> lst[i].number == n)
  {
    DiceListsShape(lst, k);
    DiceListsCover(lst, k);
    DiceListsMembers(lst, k);
  }

  /** Every dice list is non-empty, ascending and names spawned tiles. */
  lemma {:induction false} DiceListsShape(lst: seq<Deal>, k: nat)
    requires k <= |lst|
    ensures forall n :: n in DiceLists(lst, k) ==>
      DiceLists(lst, k)[n] != [] && Ascending(DiceLists(lst, k)[n]) && Handles(DiceLists(lst, k)[n], k)
  {
    if k > 0 {
      DiceListsShape(lst, k - 1);
      var prev := DiceLists(lst, k - 1);
      var num := lst[k - 1].number;
      var before := if num in prev then prev[num] else [];
      assert DiceLists(lst, k) == prev[num := before + [k - 1]];
      AscendingSnoc(before, k - 1);
    }
  }

  /** Every spawned tile's number has a list. */
  lemma {:induction false} DiceListsCover(lst: seq<Deal>, k: nat)
    requires k <= |lst|
    ensures forall i :: 0 <= i < k ==> lst[i].number in DiceLists(lst, k)
  {
    if k > 0 {
      DiceListsCover(lst, k - 1);
    }
  }

  /** A tile is in the list of a number exactly when it carries that number. */
  lemma {:induction false} DiceListsMembers(lst: seq<Deal>, k: nat)
    requires k <= |lst|
    ensures forall n, i :: n in DiceLists(lst, k) && 0 <= i < k ==> (i in DiceLists(lst, k)[n] <==> lst[i].number == n)
  {
    if k > 0 {
      DiceListsMembers(lst, k - 1);
      DiceListsShape(lst, k - 1);
      DiceListsCover(lst, k - 1);
      var prev := DiceLists(lst, k - 1);
      var num := lst[k - 1].number;
      var before := if num in prev then prev[num] else [];
      var m := DiceLists(lst, k);
      assert m == prev[num := before + [k - 1]];
      forall n, i | n in m && 0 <= i < k
        ensures i in m[n] <==> lst[i].number == n
      {
        if n == num {
          assert i in m[n] <==> i in before || i == k - 1;
        } else {
          assert n in prev && m[n] == prev[n];
        }
      }
    }
  }

  /** Appending a handle above every listed one keeps a list ascending and within bounds. */
  lemma AscendingSnoc(ids: seq<TileId>, t: TileId)
    requires Ascending(ids) && Handles(ids, t)
    ensures Ascending(ids + [t]) && Handles(ids + [t], t + 1)
  {
  }

  /**
   * tilesByRessourceType once the first k tiles are spawned: the tile is
   * appended to the list of its type; the desert goes in no list.
   */
  function KindLists(lst: seq<Deal>, k: nat): (r: seq<seq<TileId>>)
    requires k <= |lst|
    ensures |r| == 5
    ensures k > 0 && lst[k - 1].kind != Desert ==> |r[KindIndex(lst[k - 1].kind)]| > 0
  {
    if k == 0 then [[], [], [], [], []]
    else
      var r := KindLists(lst, k - 1);
      var d := lst[k - 1];
      if d.kind == Desert then r else r[KindIndex(d.kind) := r[KindIndex(d.kind)] + [k - 1]]
  }

  /** List j holds exactly the tiles of the type with index j, in spawn order. */
  lemma {:induction false} KindListsExact(lst: seq<Deal>, k: nat)
    requires k <= |lst|
    ensures forall j :: 0 <= j < 5 ==> Ascending(KindLists(lst, k)[j]) && Handles(KindLists(lst, k)[j], k)
    ensures forall j, i :: 0 <= j < 5 && 0 <= i < k ==> (i in KindLists(lst, k)[j] <==> KindIndex(lst[i].kind) == j)
  {
    var r := KindLists(lst, k);
    if k == 0 {
      assert forall j :: 0 <= j < 5 ==> r[j] == [];
    } else {
      KindListsExact(lst, k - 1);
      var r0 := KindLists(lst, k - 1);
      var d := lst[k - 1];
      forall j | 0 <= j < 5
        ensures Ascending(r[j]) && Handles(r[j], k)
        ensures forall i :: 0 <= i < k ==> (i in r[j] <==> KindIndex(lst[i].kind) == j)
      {
        assert Ascending(r0[j]) && Handles(r0[j], k - 1);
        if d.kind != Desert && KindIndex(d.kind) == j {
          assert r[j] == r0[j] + [k - 1];
        } else {
          assert r[j] == r0[j];
        }
        forall i | 0 <= i < k
          ensures i in r[j] <==> KindIndex(lst[i].kind) == j
        {
          if i < k - 1 {
            assert i in r0[j] <==> KindIndex(lst[i].kind) == j;
          } else {
            assert k - 1 !in r0[j];
          }
        }
      }
    }
  }

  /** The bandit tile once the first k tiles are spawned: the last desert so far, if any. */
  function LastDesert(lst: seq<Deal>, k: nat): (b: Option<TileId>)
    requires k <= |lst|
    ensures b.Some? ==> b.value < k
  {
    if k == 0 then None
    else if lst[k - 1].kind == Desert then Some(k - 1)
    else LastDesert(lst, k - 1)
  }

  /** The bandit starts on a desert, the last one in the list, and on no tile when there is no desert. */
  lemma {:induction false} LastDesertIsLast(lst: seq<Deal>, k: nat)
    requires k <= |lst|
    ensures var b := LastDesert(lst, k);
      && (b.None? <==> forall i :: 0 <= i < k ==> lst[i].kind != Desert)
      && (b.Some? ==> lst[b.value].kind == Desert && forall i :: b.value < i < k ==> lst[i].kind != Desert)
  {
    if k > 0 {
      LastDesertIsLast(lst, k - 1);
    }
  }

  /**
   * tilesAppendentToDesert once the first k tiles are spawned: the
   * surrounding of the last desert so far, read from the grid as it stood
   * when the desert was placed.
   */
  function DesertRing(lst: seq<Deal>, cells: seq<Cell>, k: nat): (ring: seq<Option<TileId>>)
    requires k <= |lst| <= |cells|
    ensures LastDesert(lst, k).None? ==> ring == []
    ensures LastDesert(lst, k).Some? ==>
      forall i :: 0 <= i < |ring| && ring[i].Some? ==> ring[i].value <= LastDesert(lst, k).value
  {
    match LastDesert(lst, k)
    case None => []
    case Some(d) =>
      var g := GridOf(cells, d + 1);
      SurroundingBelow(g, cells[d].0, cells[d].1, d + 1);
      Surrounding(g, cells[d].0, cells[d].1)
  }

  /** A tile stands in one cell of a spawned grid, so different cells hold different tiles. */
  lemma GridOfInjective(cells: seq<Cell>, k: nat, c: Cell, d: Cell)
    requires k <= |cells| && c in GridOf(cells, k) && d in GridOf(cells, k)
    requires GridOf(cells, k)[c] == GridOf(cells, k)[d]
    ensures c == d
  {
  }

  /** The coast of a spawned board lists every tile at most once. */
  lemma {:induction false} SpawnedCoastDistinct(cells: seq<Cell>, k: nat)
    requires k <= |cells|
    ensures DistinctTiles(Tiles(GridOf(cells, k), CoastCells))
  {
    var g := GridOf(cells, k);
    var s := Tiles(g, CoastCells);
    forall i, j | 0 <= i < j < |s| && s[i].Some?
      ensures s[i] != s[j]
    {
      assert CoastCells[i] != CoastCells[j];
    }
  }

  /** A list without repeated tiles holds each tile at most once, counted as a multiset. */
  lemma {:induction false} DistinctTilesCount(s: seq<Option<TileId>>, v: Option<TileId>)
    requires DistinctTiles(s) && v.Some?
    ensures multiset(s)[v] <= 1
  {
    if s != [] {
      var rest := s[1..];
      assert s == [s[0]] + rest;
      assert DistinctTiles(rest) by {
        forall i, j | 0 <= i < j < |rest| && rest[i].Some?
          ensures rest[i] != rest[j]
        {
          assert rest[i] == s[i + 1] && rest[j] == s[j + 1];
        }
      }
      DistinctTilesCount(rest, v);
      if s[0] == v {
        assert v !in rest by {
          forall j | 0 <= j < |rest|
            ensures rest[j] != v
          {
            assert rest[j] == s[j + 1];
          }
        }
        assert multiset(rest)[v] == 0;
      }
    }
  }

  /** Conversely, a list that holds each tile at most once lists no tile twice. */
  lemma CountDistinctTiles(s: seq<Option<TileId>>)
    requires forall v: Option<TileId> :: v.Some? ==> multiset(s)[v] <= 1
    ensures DistinctTiles(s)
  {
    forall i, j | 0 <= i < j < |s| && s[i].Some?
      ensures s[i] != s[j]
    {
      if s[i] == s[j] {
        RepeatCounted(s, i, j);
      }
    }
  }

  lemma RepeatCounted<T>(s: seq<T>, i: nat, j: nat)
    requires i < j < |s| && s[i] == s[j]
    ensures multiset(s)[s[i]] >= 2
  {
    assert s == s[..j] + [s[j]] + s[j + 1..];
    assert s[i] in s[..j];
  }

  /** Any shuffled part of a list without repeated tiles has none either. */
  lemma ShuffledPartDistinct(s: seq<Option<TileId>>, offs: seq<nat>, k: nat)
    requires Shuffle.ValidOffsets(offs, |s|) && k <= |s| && DistinctTiles(s)
    ensures multiset(Shuffle.Shuffled(s, offs)[k..]) <= multiset(s)
    ensures DistinctTiles(Shuffle.Shuffled(s, offs)[k..])
  {
    var sh := Shuffle.Shuffled(s, offs);
    Shuffle.ShuffledPermutes(s, offs);
    assert sh == sh[..k] + sh[k..];
    assert multiset(sh[k..]) <= multiset(s);
    forall v: Option<TileId> | v.Some?
      ensures multiset(sh[k..])[v] <= 1
    {
      DistinctTilesCount(s, v);
    }
    CountDistinctTiles(sh[k..]);
  }

  /**
   * One round of the tornado's random draws: roll is Random.Range(0f, 1f) in
   * hundredths, and index the draw of Random.Range(0, n), reduced modulo n.
   */
  datatype Draw = Draw(roll: nat, index: nat)

  /** Random.Range(0, n): the drawn index reduced to one of the n offered cells. */
  function DrawIndex(d: Draw, n: nat): (i: nat)
    requires n > 0
    ensures i < n
  {
    d.index % n
  }

  /**
   * The stop rule: once five steps are taken (minimumAmount is down to 0),
   * where fewer than three cells are offered, the walk stops when the roll
   * is at most (3 - offered) * 0.33.
   */
  predicate Stops(draws: seq<Draw>, k: nat, offered: nat)
    requires k < |draws|
  {
    k >= 5 && offered < 3 && draws[k].roll <= (3 - offered) * 33
  }

  /**
   * The cells GetTilesAffectedByTornado walks to after cell c, reached at
   * step k: it stops when the lookup offers nothing, and after five steps
   * it may stop, by the roll of draws[k], wherever fewer than three cells are
   * offered; otherwise it goes on to the drawn one of the offered cells.
   */
  function Walk(g: Grid, dir: nat, draws: seq<Draw>, c: Cell, k: nat): (cs: seq<Cell>)
    requires GridInside(g) && dir < 4 && Inside(c) && k + Rank(dir, c) <= |draws|
    ensures forall i :: 0 <= i < |cs| ==> cs[i] in g && Inside(cs[i])
    decreases Rank(dir, c)
  {
    var nx := Next(g, dir, c);
    if |nx| == 0 || Stops(draws, k, |nx|) then []
    else
      NextDescends(g, dir, c);
      var d := nx[DrawIndex(draws[k], |nx|)];
      [d] + Walk(g, dir, draws, d, k + 1)
  }

  /** One step of the walk from c: the first cell is offered from c, and the rest is the walk from there. */
  lemma WalkUnfold(g: Grid, dir: nat, draws: seq<Draw>, c: Cell, k: nat)
    requires GridInside(g) && dir < 4 && Inside(c) && k + Rank(dir, c) <= |draws|
    requires Walk(g, dir, draws, c, k) != []
    ensures var w := Walk(g, dir, draws, c, k);
      && w[0] in Next(g, dir, c) && Inside(w[0]) && Rank(dir, w[0]) < Rank(dir, c)
      && w[1..] == Walk(g, dir, draws, w[0], k + 1)
  {
    NextDescends(g, dir, c);
  }

  /** A chain from c: every cell is among those the lookup offers from the cell before it. */
  ghost predicate Chain(g: Grid, dir: nat, c: Cell, w: seq<Cell>)
    requires dir < 4
    decreases |w|
  {
    w == [] || (w[0] in Next(g, dir, c) && Chain(g, dir, w[0], w[1..]))
  }

  /** The walk from c is a chain from c. */
  lemma {:induction false} WalkIsChain(g: Grid, dir: nat, draws: seq<Draw>, c: Cell, k: nat)
    requires GridInside(g) && dir < 4 && Inside(c) && k + Rank(dir, c) <= |draws|
    ensures Chain(g, dir, c, Walk(g, dir, draws, c, k))
    decreases |Walk(g, dir, draws, c, k)|, 1
  {
    var w := Walk(g, dir, draws, c, k);
    if w != [] {
      WalkUnfold(g, dir, draws, c, k);
      WalkIsChainStep(g, dir, draws, c, k, w);
    }
  }

  lemma {:induction false} WalkIsChainStep(g: Grid, dir: nat, draws: seq<Draw>, c: Cell, k: nat, w: seq<Cell>)
    requires GridInside(g) && dir < 4 && Inside(c) && k + Rank(dir, c) <= |draws|
    requires w == Walk(g, dir, draws, c, k) && w != []
    requires w[0] in Next(g, dir, c) && Inside(w[0]) && Rank(dir, w[0]) < Rank(dir, c) && w[1..] == Walk(g, dir, draws, w[0], k + 1)
    ensures Chain(g, dir, c, w)
    decreases |w|, 0
  {
    WalkIsChain(g, dir, draws, w[0], k + 1);
  }

  /** Every cell of a chain from c lies inside the board and has a lower rank than c. */
  lemma {:induction false} ChainBelow(g: Grid, dir: nat, c: Cell, w: seq<Cell>)
    requires GridInside(g) && dir < 4 && Inside(c) && Chain(g, dir, c, w)
    ensures forall j :: 0 <= j < |w| ==> Inside(w[j]) && Rank(dir, w[j]) < Rank(dir, c)
    decreases |w|
  {
    if w != [] {
      NextDescends(g, dir, c);
      ChainBelow(g, dir, w[0], w[1..]);
      forall j | 1 <= j < |w|
        ensures Inside(w[j]) && Rank(dir, w[j]) < Rank(dir, c)
      {
        assert w[j] == w[1..][j - 1];
      }
    }
  }

  /** Every step of a chain lowers the direction's rank, so a chain never comes back to a cell. */
  lemma {:induction false} ChainDescends(g: Grid, dir: nat, c: Cell, w: seq<Cell>)
    requires GridInside(g) && dir < 4 && Inside(c) && Chain(g, dir, c, w)
    ensures forall j :: 0 <= j < |w| ==> Inside(w[j])
    ensures forall i, j :: 0 <= i < j < |w| ==> Rank(dir, w[j]) < Rank(dir, w[i])
    decreases |w|
  {
    ChainBelow(g, dir, c, w);
    if w != [] {
      NextDescends(g, dir, c);
      var rest := w[1..];
      ChainDescends(g, dir, w[0], rest);
      ChainBelow(g, dir, w[0], rest);
      forall i, j | 0 <= i < j < |w|
        ensures Rank(dir, w[j]) < Rank(dir, w[i])
      {
        assert w[j] == rest[j - 1];
        if i > 0 {
          assert w[i] == rest[i - 1];
        }
      }
    }
  }

  /** A north chain goes down one row per step and a south chain up one row. */
  lemma {:induction false} ChainRows(g: Grid, dir: nat, c: Cell, w: seq<Cell>)
    requires GridInside(g) && dir < 2 && Inside(c) && Chain(g, dir, c, w)
    ensures forall j :: 0 <= j < |w| ==> w[j].0 == if dir == 0 then c.0 - 1 - j else c.0 + 1 + j
    decreases |w|
  {
    if w != [] {
      NextDescends(g, dir, c);
      ChainRows(g, dir, w[0], w[1..]);
      forall j | 1 <= j < |w|
        ensures w[j].0 == if dir == 0 then c.0 - 1 - j else c.0 + 1 + j
      {
        assert w[j] == w[1..][j - 1];
      }
    }
  }

  /** A chain, taken with the cell it starts from, repeats no cell. */
  lemma ChainVisitsOnce(g: Grid, dir: nat, c: Cell, rest: seq<Cell>)
    requires GridInside(g) && dir < 4 && Inside(c) && Chain(g, dir, c, rest)
    ensures forall i, j :: 0 <= i < j < |[c] + rest| ==> ([c] + rest)[i] != ([c] + rest)[j]
  {
    ChainDescends(g, dir, c, rest);
    ChainBelow(g, dir, c, rest);
    var w := [c] + rest;
    forall i, j | 0 <= i < j < |w|
      ensures w[i] != w[j]
    {
      assert w[j] == rest[j - 1];
      if i > 0 {
        assert w[i] == rest[i - 1];
      }
    }
  }

  /** The tornado hits no cell twice. */
  lemma WalkVisitsOnce(g: Grid, dir: nat, draws: seq<Draw>)
    requires GridInside(g) && dir < 4 && |draws| >= TornadoDraws
    ensures var w := [Start(dir)] + Walk(g, dir, draws, Start(dir), 0);
      forall i, j :: 0 <= i < j < |w| ==> w[i] != w[j]
  {
    WalkIsChain(g, dir, draws, Start(dir), 0);
    ChainVisitsOnce(g, dir, Start(dir), Walk(g, dir, draws, Start(dir), 0));
  }

  /** A walk from the north or the south crosses one row per step, so the tornado hits at most five tiles. */
  lemma WalkAcrossRows(g: Grid, dir: nat, draws: seq<Draw>)
    requires GridInside(g) && dir < 2 && |draws| >= TornadoDraws
    ensures |Walk(g, dir, draws, Start(dir), 0)| <= 4
  {
    var w := Walk(g, dir, draws, Start(dir), 0);
    WalkIsChain(g, dir, draws, Start(dir), 0);
    ChainRows(g, dir, Start(dir), w);
    if w != [] {
      assert Inside(w[|w| - 1]);
    }
  }

  /** The last cell of a walk from c. */
  function LastOf(c: Cell, w: seq<Cell>): Cell
  {
    if w == [] then c else w[|w| - 1]
  }

  /**
   * minimumAmount: before its fifth step the walk stops only where the
   * lookup offers nothing.
   */
  lemma {:induction false} WalkAtLeastFive(g: Grid, dir: nat, draws: seq<Draw>, c: Cell, k: nat)
    requires GridInside(g) && dir < 4 && Inside(c) && k + Rank(dir, c) <= |draws|
    ensures k + |Walk(g, dir, draws, c, k)| < 5 ==> Next(g, dir, LastOf(c, Walk(g, dir, draws, c, k))) == []
    decreases |Walk(g, dir, draws, c, k)|, 1
  {
    var w := Walk(g, dir, draws, c, k);
    if w == [] {
      WalkEnds(g, dir, draws, c, k);
    } else {
      WalkUnfold(g, dir, draws, c, k);
      WalkAtLeastFiveStep(g, dir, draws, c, k, w);
    }
  }

  lemma {:induction false} WalkAtLeastFiveStep(g: Grid, dir: nat, draws: seq<Draw>, c: Cell, k: nat, w: seq<Cell>)
    requires GridInside(g) && dir < 4 && Inside(c) && k + Rank(dir, c) <= |draws|
    requires w != [] && Inside(w[0]) && Rank(dir, w[0]) < Rank(dir, c)
    requires w[1..] == Walk(g, dir, draws, w[0], k + 1)
    ensures k + |w| < 5 ==> Next(g, dir, LastOf(c, w)) == []
    decreases |w|, 0
  {
    WalkAtLeastFive(g, dir, draws, w[0], k + 1);
    LastOfTail(c, w);
  }

  lemma LastOfTail(c: Cell, w: seq<Cell>)
    requires w != []
    ensures LastOf(c, w) == LastOf(w[0], w[1..])
  {
  }

  /** Where nothing is offered or the draw stops it after five steps, the walk from c ends at once. */
  lemma WalkStops(g: Grid, dir: nat, draws: seq<Draw>, c: Cell, k: nat)
    requires GridInside(g) && dir < 4 && Inside(c) && k + Rank(dir, c) <= |draws|
    requires Next(g, dir, c) == [] || Stops(draws, k, |Next(g, dir, c)|)
    ensures Walk(g, dir, draws, c, k) == []
  {
  }

  /** Otherwise it goes on to the drawn cell. */
  lemma WalkGoesOn(g: Grid, dir: nat, draws: seq<Draw>, c: Cell, k: nat)
    requires GridInside(g) && dir < 4 && Inside(c) && k + Rank(dir, c) <= |draws|
    requires Next(g, dir, c) != [] && !Stops(draws, k, |Next(g, dir, c)|)
    ensures var nx := Next(g, dir, c);
      var d := nx[DrawIndex(draws[k], |nx|)];
      && d in g && Inside(d) && Rank(dir, d) < Rank(dir, c)
      && Walk(g, dir, draws, c, k) == [d] + Walk(g, dir, draws, d, k + 1)
  {
    NextDescends(g, dir, c);
  }

  /** Where the walk from c ends at once, the lookup offers nothing, or the draw stopped it after five steps. */
  lemma WalkEnds(g: Grid, dir: nat, draws: seq<Draw>, c: Cell, k: nat)
    requires GridInside(g) && dir < 4 && Inside(c) && k + Rank(dir, c) <= |draws|
    requires Walk(g, dir, draws, c, k) == []
    ensures Next(g, dir, c) == [] || Stops(draws, k, |Next(g, dir, c)|)
  {
  }


  lemma SpawnedTilesStep(lst: seq<Deal>, k: nat)
    requires 0 < k <= |lst|
    ensures SpawnedTiles(lst[..k]) == SpawnedTiles(lst[..k - 1]) + [SpawnedTile(lst[k - 1].kind, lst[k - 1].number)]
  {
  }

  /** The dice and type indexes point at tiles of that number and of that type. */
  ghost predicate IndexesValid(tiles: seq<Tile>, dice: map<int, seq<TileId>>, kinds: seq<seq<TileId>>)
  {
    && |kinds| == 5
    && (forall n, j :: n in dice && 0 <= j < |dice[n]| ==> dice[n][j] < |tiles| && tiles[dice[n][j]].number == n)
    && (forall k, j :: 0 <= k < 5 && 0 <= j < |kinds[k]| ==> kinds[k][j] < |tiles| && KindIndex(tiles[kinds[k][j]].kind) == k)
  }

  /** Replacing a tile's record by one of the same number and type keeps the indexes right. */
  lemma IndexesKept(tiles: seq<Tile>, dice: map<int, seq<TileId>>, kinds: seq<seq<TileId>>, t: TileId, r: Tile)
    requires IndexesValid(tiles, dice, kinds) && t < |tiles|
    requires r.number == tiles[t].number && r.kind == tiles[t].kind
    ensures IndexesValid(tiles[t := r], dice, kinds)
  {
  }

  lemma SpawnedIndexesValid(lst: seq<Deal>)
    ensures IndexesValid(SpawnedTiles(lst), DiceLists(lst, |lst|), KindLists(lst, |lst|))
  {
    SpawnedDiceValid(lst);
    SpawnedKindsValid(lst);
  }

  lemma SpawnedDiceValid(lst: seq<Deal>)
    ensures var ts := SpawnedTiles(lst); var m := DiceLists(lst, |lst|);
      forall n, j :: n in m && 0 <= j < |m[n]| ==> m[n][j] < |ts| && ts[m[n][j]].number == n
  {
    var ts := SpawnedTiles(lst);
    var m := DiceLists(lst, |lst|);
    DiceListsExact(lst, |lst|);
    forall n, j | n in m && 0 <= j < |m[n]|
      ensures m[n][j] < |ts| && ts[m[n][j]].number == n
    {
      var i := m[n][j];
      assert Handles(m[n], |lst|);
      assert i in m[n];
      assert lst[i].number == n;
    }
  }

  lemma SpawnedKindsValid(lst: seq<Deal>)
    ensures var ts := SpawnedTiles(lst); var r := KindLists(lst, |lst|);
      forall k, j :: 0 <= k < 5 && 0 <= j < |r[k]| ==> r[k][j] < |ts| && KindIndex(ts[r[k][j]].kind) == k
  {
    var ts := SpawnedTiles(lst);
    var r := KindLists(lst, |lst|);
    KindListsExact(lst, |lst|);
    forall k, j | 0 <= k < 5 && 0 <= j < |r[k]|
      ensures r[k][j] < |ts| && KindIndex(ts[r[k][j]].kind) == k
    {
      var i := r[k][j];
      assert Handles(r[k], |lst|);
      assert i in r[k];
      assert KindIndex(lst[i].kind) == k;
    }
  }

  /**
   * What the board keeps consistent: every tile record is consistent, the
   * indexes point at tiles of the right number and type, the grid holds
   * board cells only, and every handle names a spawned tile.
   */
  ghost predicate BoardValid(tiles: seq<Tile>, dice: map<int, seq<TileId>>, kinds: seq<seq<TileId>>, grid: Grid,
                             bandit: Option<TileId>, ring: seq<Option<TileId>>, coast: seq<Option<TileId>>)
  {
    && (forall i :: 0 <= i < |tiles| ==> TileValid(tiles[i]))
    && IndexesValid(tiles, dice, kinds)
    && GridInside(grid)
    && (forall c :: c in grid ==> grid[c] < |tiles|)
    && (bandit.Some? ==> bandit.value < |tiles|)
    && SomeHandles(ring, |tiles|)
    && SomeHandles(coast, |tiles|)
  }

  /** A spawn leaves a consistent board. */
  lemma SpawnedBoardValid(lst: seq<Deal>, cells: seq<Cell>)
    requires |cells| >= |lst|
    requires forall i :: 0 <= i < |cells| ==> Inside(cells[i])
    ensures var g := GridOf(cells, |lst|);
      BoardValid(SpawnedTiles(lst), DiceLists(lst, |lst|), KindLists(lst, |lst|), g,
                 LastDesert(lst, |lst|), DesertRing(lst, cells, |lst|), Tiles(g, CoastCells))
  {
    SpawnedIndexesValid(lst);
    SpawnedGridInside(cells, |lst|);
    SpawnedRingHandles(lst, cells);
    SpawnedCoastHandles(cells, |lst|);
  }

  /** The grid of a spawn holds board cells only. */
  lemma SpawnedGridInside(cells: seq<Cell>, k: nat)
    requires k <= |cells| && forall i :: 0 <= i < |cells| ==> Inside(cells[i])
    ensures GridInside(GridOf(cells, k))
  {
    var g := GridOf(cells, k);
    forall c | c in g
      ensures Inside(c)
    {
      assert cells[g[c]] == c;
    }
  }

  /** The ring around the desert names spawned tiles only. */
  lemma SpawnedRingHandles(lst: seq<Deal>, cells: seq<Cell>)
    requires |lst| <= |cells|
    ensures SomeHandles(DesertRing(lst, cells, |lst|), |lst|)
  {
    var ring := DesertRing(lst, cells, |lst|);
    if LastDesert(lst, |lst|).Some? {
      assert forall i :: 0 <= i < |ring| && ring[i].Some? ==> ring[i].value <= LastDesert(lst, |lst|).value;
    }
  }

  /** The coast of a spawn names spawned tiles only. */
  lemma SpawnedCoastHandles(cells: seq<Cell>, k: nat)
    requires k <= |cells|
    ensures SomeHandles(Tiles(GridOf(cells, k), CoastCells), k)
  {
    var g := GridOf(cells, k);
    var coast := Tiles(g, CoastCells);
    forall i | 0 <= i < |coast| && coast[i].Some?
      ensures coast[i].value < k
    {
      assert coast[i] == Lookup(g, CoastCells[i]);
    }
  }

  /**
   * GetSurroudingTiles of the desert, called while the grid holds the first
   * k + 1 tiles, the desert last.
   */
  method GetSurroundingTiles(lst: seq<Deal>, cells: seq<Cell>, k: nat, g: Grid) returns (slots: seq<Option<TileId>>)
    requires k < |lst| <= |cells| && lst[k].kind == Desert && g == GridOf(cells, k + 1)
    ensures slots == DesertRing(lst, cells, k + 1)
  {
    slots := Surrounding(g, cells[k].0, cells[k].1);
  }

  /**
   * The loop of SpawnBoard: tile after tile it is listed under its number
   * and its type, placed in the grid, and, when it is the desert, made the
   * bandit tile with its surrounding read from the grid as it stands.
   */
  method SpawnTiles(lst: seq<Deal>, cells: seq<Cell>)
    returns (ts: seq<Tile>, dice: map<int, seq<TileId>>, kinds: seq<seq<TileId>>, g: Grid,
             bandit: Option<TileId>, ring: seq<Option<TileId>>)
    requires |cells| >= |lst|
    ensures ts == SpawnedTiles(lst)
    ensures dice == DiceLists(lst, |lst|)
    ensures kinds == KindLists(lst, |lst|)
    ensures g == GridOf(cells, |lst|)
    ensures bandit == LastDesert(lst, |lst|)
    ensures ring == DesertRing(lst, cells, |lst|)
  {
    ts, dice, kinds, g, bandit, ring := [], map[], [[], [], [], [], []], map[], None, [];
    var tileCounter := 0;
    while tileCounter < |lst|
      invariant 0 <= tileCounter <= |lst|
      invariant ts == SpawnedTiles(lst[..tileCounter])
      invariant dice == DiceLists(lst, tileCounter)
      invariant kinds == KindLists(lst, tileCounter)
      invariant g == GridOf(cells, tileCounter)
      invariant bandit == LastDesert(lst, tileCounter)
      invariant ring == DesertRing(lst, cells, tileCounter)
    {
      ts, dice, kinds, g, bandit, ring := SpawnOne(lst, cells, tileCounter, ts, dice, kinds, g, bandit, ring);
      tileCounter := tileCounter + 1;
    }
    assert lst[..|lst|] == lst;
  }

  /** One turn of the SpawnBoard loop: tile k joins the indexes, the grid and, as the desert, the bandit and ring. */
  method SpawnOne(lst: seq<Deal>, cells: seq<Cell>, k: nat, ts: seq<Tile>, dice: map<int, seq<TileId>>,
                  kinds: seq<seq<TileId>>, g: Grid, bandit: Option<TileId>, ring: seq<Option<TileId>>)
    returns (ts': seq<Tile>, dice': map<int, seq<TileId>>, kinds': seq<seq<TileId>>, g': Grid,
             bandit': Option<TileId>, ring': seq<Option<TileId>>)
    requires k < |lst| <= |cells|
    requires ts == SpawnedTiles(lst[..k]) && dice == DiceLists(lst, k) && kinds == KindLists(lst, k)
    requires g == GridOf(cells, k) && bandit == LastDesert(lst, k) && ring == DesertRing(lst, cells, k)
    ensures ts' == SpawnedTiles(lst[..k + 1]) && dice' == DiceLists(lst, k + 1) && kinds' == KindLists(lst, k + 1)
    ensures g' == GridOf(cells, k + 1) && bandit' == LastDesert(lst, k + 1) && ring' == DesertRing(lst, cells, k + 1)
  {
    var d := lst[k];
    var tileNumber := d.number;
    var listForNumber := if tileNumber in dice then dice[tileNumber] else [];
    dice' := dice[tileNumber := listForNumber + [k]];
    g' := g[cells[k] := k];
    ts' := ts + [SpawnedTile(d.kind, d.number)];
    SpawnedTilesStep(lst, k + 1);
    kinds', bandit', ring' := kinds, bandit, ring;
    if d.kind == Desert {
      bandit' := Some(k);
      ring' := GetSurroundingTiles(lst, cells, k, g');
    } else {
      var j := KindIndex(d.kind);
      kinds' := kinds[j := kinds[j] + [k]];
    }
  }

  /**
   * The state of GetTilesAffectedByTornado after k steps: it stands on cur,
   * the cells walked so far and the walk still ahead make up the whole walk
   * from the start point, and affected holds the start tile and the tiles
   * walked over.
   */
  ghost predicate TornadoSoFar(grid: Grid, dir: nat, draws: seq<Draw>, cur: Cell, k: nat, walked: seq<Cell>, affected: seq<Option<TileId>>)
    requires GridInside(grid) && dir < 4 && |draws| >= TornadoDraws
  {
    && Inside(cur) && k + Rank(dir, cur) <= |draws|
    && walked + Walk(grid, dir, draws, cur, k) == Walk(grid, dir, draws, Start(dir), 0)
    && affected == [Lookup(grid, Start(dir))] + Tiles(grid, walked)
  }

  /** Taking the drawn step keeps the state in line with the walk. */
  lemma TornadoStep(grid: Grid, dir: nat, draws: seq<Draw>, cur: Cell, k: nat, walked: seq<Cell>, affected: seq<Option<TileId>>, d: Cell)
    requires GridInside(grid) && dir < 4 && |draws| >= TornadoDraws
    requires TornadoSoFar(grid, dir, draws, cur, k, walked, affected)
    requires Next(grid, dir, cur) != [] && !Stops(draws, k, |Next(grid, dir, cur)|)
    requires d == Next(grid, dir, cur)[DrawIndex(draws[k], |Next(grid, dir, cur)|)]
    ensures d in grid && Rank(dir, d) < Rank(dir, cur)
    ensures TornadoSoFar(grid, dir, draws, d, k + 1, walked + [d], affected + [Some(grid[d])])
  {
    WalkGoesOn(grid, dir, draws, cur, k);
    var rest := Walk(grid, dir, draws, d, k + 1);
    assert Walk(grid, dir, draws, cur, k) == [d] + rest;
    WalkedOn(grid, walked, d, rest);
    assert (walked + [d]) + rest == Walk(grid, dir, draws, Start(dir), 0);
    assert affected + [Some(grid[d])] == [Lookup(grid, Start(dir))] + Tiles(grid, walked + [d]);
  }

  /** Where the walk ends, the state holds the whole walk. */
  lemma TornadoDone(grid: Grid, dir: nat, draws: seq<Draw>, cur: Cell, k: nat, walked: seq<Cell>, affected: seq<Option<TileId>>)
    requires GridInside(grid) && dir < 4 && |draws| >= TornadoDraws
    requires TornadoSoFar(grid, dir, draws, cur, k, walked, affected)
    requires Next(grid, dir, cur) == [] || Stops(draws, k, |Next(grid, dir, cur)|)
    ensures affected == [Lookup(grid, Start(dir))] + Tiles(grid, Walk(grid, dir, draws, Start(dir), 0))
  {
    WalkStops(grid, dir, draws, cur, k);
    assert walked + [] == walked;
  }

  /** GetTilesAffectedByTornado on the position grid. */
  method TornadoOn(grid: Grid, dir: nat, draws: seq<Draw>) returns (affected: seq<Option<TileId>>)
    requires GridInside(grid) && dir < 4 && |draws| >= TornadoDraws
    ensures affected == [Lookup(grid, Start(dir))] + Tiles(grid, Walk(grid, dir, draws, Start(dir), 0))
  {
    var cur := Start(dir);
    var tmp := Next(grid, dir, cur);
    affected := [Lookup(grid, cur)];
    ghost var walked: seq<Cell> := [];
    var minimumAmount := 5;
    var k := 0;
    while |tmp| > 0
      invariant minimumAmount == 5 - k && tmp == Next(grid, dir, cur)
      invariant TornadoSoFar(grid, dir, draws, cur, k, walked, affected)
      decreases Rank(dir, cur)
    {
      if |tmp| < 3 && minimumAmount <= 0 {
        if draws[k].roll <= (3 - |tmp|) * 33 {
          TornadoDone(grid, dir, draws, cur, k, walked, affected);
          return;
        }
      }
      minimumAmount := minimumAmount - 1;
      var i := DrawIndex(draws[k], |tmp|);
      var nxt := tmp[i];
      TornadoStep(grid, dir, draws, cur, k, walked, affected, nxt);
      affected := affected + [Some(grid[nxt])];
      walked := walked + [nxt];
      cur := nxt;
      tmp := Next(grid, dir, cur);
      k := k + 1;
    }
    TornadoDone(grid, dir, draws, cur, k, walked, affected);
  }

  /** Moving one cell from the walk still ahead to the walk behind. */
  lemma WalkedOn(grid: Grid, walked: seq<Cell>, d: Cell, rest: seq<Cell>)
    requires d in grid
    ensures walked + ([d] + rest) == (walked + [d]) + rest
    ensures Tiles(grid, walked + [d]) == Tiles(grid, walked) + [Some(grid[d])]
  {
  }

  /** The loop of YieldTiles: the tiles ids names yield one after the other, each by YieldResources. */
  method YieldInTurn(ts: seq<Tile>, ids: seq<TileId>, ledgers: map<PlayerId, Ledger.PlayerResources>)
    requires (forall i :: 0 <= i < |ts| ==> TileValid(ts[i])) && Handles(ids, |ts|) && Ledger.LedgersValid(ledgers)
    modifies ledgers.Values
    ensures Ledger.LedgersValid(ledgers)
    ensures Ledger.Holdings(ledgers) == YieldedAll(old(Ledger.Holdings(ledgers)), ts, ids)
  {
    ghost var h := Ledger.Holdings(ledgers);
    var tileIndex := 0;
    while tileIndex < |ids|
      invariant 0 <= tileIndex <= |ids|
      invariant Ledger.LedgersValid(ledgers)
      invariant Ledger.Holdings(ledgers) == YieldedAll(h, ts, ids[..tileIndex])
    {
      YieldedAllSnoc(h, ts, ids[..tileIndex], ids[tileIndex]);
      assert ids[..tileIndex + 1] == ids[..tileIndex] + [ids[tileIndex]];
      YieldTile(ts[ids[tileIndex]], ledgers);
      tileIndex := tileIndex + 1;
    }
    assert ids[..|ids|] == ids;
  }

  class Board {
    /** allTiles: the record of every spawned tile, by handle. */
    var tiles: seq<Tile>
    /** tilesForDiceResult: the tiles that yield on each dice number. */
    var tilesForDiceResult: map<int, seq<TileId>>
    /** tilesByRessourceType, indexed by KindIndex; the desert has no list. */
    var tilesByKind: seq<seq<TileId>>
    /** tilePositions, one cell of padding around the board. */
    var grid: Grid
    /** _currentBanditTile. */
    var banditTile: Option<TileId>
    /** tilesAppendentToDesert. */
    var desertRing: seq<Option<TileId>>
    /** tilesOnCoast. */
    var coast: seq<Option<TileId>>

    ghost predicate Valid()
      reads this
    {
      BoardValid(tiles, tilesForDiceResult, tilesByKind, grid, banditTile, desertRing, coast)
    }

    /** The board before SpawnBoard: no tiles, empty indexes. */
    predicate Empty()
      reads this
    {
      && tiles == []
      && tilesForDiceResult == map[]
      && tilesByKind == [[], [], [], [], []]
      && grid == map[]
      && banditTile == None
      && desertRing == []
    }

    constructor ()
      ensures Valid() && Empty() && coast == []
    {
      tiles := [];
      tilesForDiceResult := map[];
      tilesByKind := [[], [], [], [], []];
      grid := map[];
      banditTile := None;
      desertRing := [];
      coast := [];
    }

    /**
     * SpawnBoard: tile i of the list takes spawn point i. Every tile is in
     * the dice list of its number and, unless it is the desert, in the list
     * of its type; the desert becomes the bandit tile and its ring is read
     * from the grid as far as it is filled at that moment; the coast is
     * read from the full grid.
     */
    method SpawnBoard(lst: seq<Deal>, cells: seq<Cell>)
      requires Empty()
      requires |cells| >= |lst|
      requires forall i :: 0 <= i < |cells| ==> Inside(cells[i])
      modifies this
      ensures Valid()
      ensures tiles == SpawnedTiles(lst)
      ensures tilesForDiceResult == DiceLists(lst, |lst|)
      ensures tilesByKind == KindLists(lst, |lst|)
      ensures grid == GridOf(cells, |lst|)
      ensures banditTile == LastDesert(lst, |lst|)
      ensures desertRing == DesertRing(lst, cells, |lst|)
      ensures coast == Tiles(grid, CoastCells)
    {
      var ts, dice, kinds, g, bandit, ring := SpawnTiles(lst, cells);
      tiles, tilesForDiceResult, tilesByKind, grid, banditTile, desertRing := ts, dice, kinds, g, bandit, ring;
      coast := Tiles(grid, CoastCells);
      SpawnedBoardValid(lst, cells);
    }

    /** IncreaseYieldForPlayerID on tile t. */
    method IncreaseYieldForPlayer(t: TileId, amount: int, p: PlayerId)
      requires Valid() && t < |tiles|
      modifies this`tiles
      ensures Valid()
      ensures tiles == old(tiles)[t := WithYield(old(tiles[t]), p, amount)]
    {
      tiles := tiles[t := WithYield(tiles[t], p, amount)];
    }

    /** AddDependentNode on tile t. */
    method AddDependentNode(t: TileId, n: NodeId)
      requires Valid() && t < |tiles|
      modifies this`tiles
      ensures Valid()
      ensures tiles == old(tiles)[t := WithDependentNode(old(tiles[t]), n)]
    {
      tiles := tiles[t := WithDependentNode(tiles[t], n)];
    }

    /** IsYieldingProhibitedByDisaster on tile t. */
    method SetProhibitedByDisaster(t: TileId, prohibited: bool)
      requires Valid() && t < |tiles|
      modifies this`tiles
      ensures Valid()
      ensures tiles == old(tiles)[t := old(tiles[t]).(prohibitedByDisaster := prohibited)]
    {
      tiles := tiles[t := tiles[t].(prohibitedByDisaster := prohibited)];
    }

    /** RemoveBandit on tile t. */
    method RemoveBandit(t: TileId)
      requires Valid() && t < |tiles|
      modifies this`tiles
      ensures Valid()
      ensures tiles == old(tiles)[t := old(tiles[t]).(occupiedByBandits := false)]
    {
      tiles := tiles[t := tiles[t].(occupiedByBandits := false)];
    }

    method SetBanditTile(t: TileId)
      requires Valid() && t < |tiles|
      modifies this`banditTile
      ensures Valid() && banditTile == Some(t)
    {
      banditTile := Some(t);
    }

    /** GetTilesByType: the tiles of a producing type; the desert has no list to index. */
    method GetTilesByType(k: TileKind) returns (ids: seq<TileId>)
      requires Valid() && k != Desert
      ensures ids == tilesByKind[KindIndex(k)]
      ensures Handles(ids, |tiles|)
      ensures forall i :: i in ids ==> tiles[i].kind == k
    {
      ids := tilesByKind[KindIndex(k)];
      forall i | i in ids
        ensures tiles[i].kind == k
      {
        var j :| 0 <= j < |ids| && ids[j] == i;
        assert KindIndex(tiles[i].kind) == KindIndex(k);
      }
    }

    /** GetTilesAroundDesert: a copy of the ring. */
    method GetTilesAroundDesert() returns (ring: seq<Option<TileId>>)
      requires Valid()
      ensures ring == desertRing && SomeHandles(ring, |tiles|)
    {
      ring := desertRing;
    }

    /**
     * YieldRessources of tile t: every registered player gets the tile's
     * resource as often as their entry says, unless a disaster or the
     * bandit blocks the tile.
     */
    method YieldResources(t: TileId, ledgers: map<PlayerId, Ledger.PlayerResources>)
      requires Valid() && t < |tiles| && Ledger.LedgersValid(ledgers)
      modifies ledgers.Values
      ensures Ledger.LedgersValid(ledgers)
      ensures Ledger.Holdings(ledgers) == Yielded(old(Ledger.Holdings(ledgers)), tiles[t])
    {
      YieldTile(tiles[t], ledgers);
    }

    /** ProcessDiceResult for a number other than 7: the tiles of that number yield one after the other. */
    method YieldTiles(ids: seq<TileId>, ledgers: map<PlayerId, Ledger.PlayerResources>)
      requires Valid() && Handles(ids, |tiles|) && Ledger.LedgersValid(ledgers)
      modifies ledgers.Values
      ensures Ledger.LedgersValid(ledgers)
      ensures Ledger.Holdings(ledgers) == YieldedAll(old(Ledger.Holdings(ledgers)), tiles, ids)
    {
      YieldInTurn(tiles, ids, ledgers);
    }

    /** YieldAllTiles: at the end of the preparation round every tile yields once, in spawn order. */
    method YieldAllTiles(ledgers: map<PlayerId, Ledger.PlayerResources>)
      requires Valid() && Ledger.LedgersValid(ledgers)
      modifies ledgers.Values
      ensures Ledger.LedgersValid(ledgers)
      ensures Ledger.Holdings(ledgers) == YieldedAll(old(Ledger.Holdings(ledgers)), tiles, SpawnOrder(|tiles|))
    {
      YieldTiles(SpawnOrder(|tiles|), ledgers);
    }

    /**
     * ProcessDiceResult. On a 7 the players with IDs 1 up to the number of
     * players discard for the bandit, each with their own draws; on any
     * other number the tiles of that number yield, and a number no tile
     * carries changes nothing. ledgers maps each player ID 1..count of
     * PlayerManager.PlayerFromID to that player's PlayerRessources, the
     * components the loop at BoardManager.cs:232-233 reaches.
     */
    method ProcessDiceResult(diceResult: int, ledgers: map<PlayerId, Ledger.PlayerResources>, draws: map<PlayerId, seq<seq<nat>>>)
      requires Valid() && Ledger.LedgersValid(ledgers)
      requires diceResult == 7 ==> Ledger.DrawsFor(Ledger.Holdings(ledgers), draws, |ledgers| + 1)
      modifies ledgers.Values
      ensures Ledger.LedgersValid(ledgers)
      ensures diceResult == 7 ==> Ledger.Holdings(ledgers) == Ledger.BanditRound(old(Ledger.Holdings(ledgers)), draws, |ledgers| + 1)
      ensures diceResult != 7 && diceResult !in tilesForDiceResult ==> Ledger.Holdings(ledgers) == old(Ledger.Holdings(ledgers))
      ensures diceResult != 7 && diceResult in tilesForDiceResult ==>
        Ledger.Holdings(ledgers) == YieldedAll(old(Ledger.Holdings(ledgers)), tiles, tilesForDiceResult[diceResult])
    {
      if diceResult == 7 {
        Ledger.BanditRoundAll(ledgers, draws);
        return;
      }
      if diceResult !in tilesForDiceResult {
        return;
      }
      YieldTiles(tilesForDiceResult[diceResult], ledgers);
    }

    /**
     * PlaceBandit on tile t by player actor: the bandit leaves its tile and
     * sits on t, and the player Victim picks discards one random card.
     */
    method PlaceBandit(t: TileId, actor: PlayerId, pick: nat, offs: seq<nat>, ledgers: map<PlayerId, Ledger.PlayerResources>)
      requires Valid() && t < |tiles| && banditTile.Some?
      requires Ledger.LedgersValid(ledgers)
      requires forall p :: p in tiles[t].yieldPlayers ==> p in ledgers
      requires |tiles[t].yieldPlayers| >= 2 ==> pick < |RemoveFirst(tiles[t].yieldPlayers, actor)|
      requires Shuffle.ValidOffsets(offs, 5)
      modifies this`tiles, this`banditTile, ledgers.Values
      ensures Valid() && banditTile == Some(t)
      ensures
        var b := old(banditTile.value);
        var cleared := old(tiles)[b := old(tiles[b]).(occupiedByBandits := false)];
        tiles == cleared[t := cleared[t].(occupiedByBandits := true)]
      ensures Ledger.LedgersValid(ledgers)
      ensures Ledger.Holdings(ledgers) == Robbed(old(Ledger.Holdings(ledgers)), Victim(old(tiles[t].yieldPlayers), actor, pick), offs)
    {
      var players := tiles[t].yieldPlayers;
      MoveBandit(t);
      ghost var moved := tiles;
      Ledger.LedgersKept(ledgers);
      RobVictim(players, actor, pick, offs, ledgers);
      assert tiles == moved && banditTile == Some(t);
    }

    /** The board side of PlaceBandit: the bandit leaves its tile and sits on t. */
    method MoveBandit(t: TileId)
      requires Valid() && t < |tiles| && banditTile.Some?
      modifies this`tiles, this`banditTile
      ensures Valid() && banditTile == Some(t)
      ensures
        var b := old(banditTile.value);
        var cleared := old(tiles)[b := old(tiles[b]).(occupiedByBandits := false)];
        tiles == cleared[t := cleared[t].(occupiedByBandits := true)]
    {
      RemoveBandit(banditTile.value);
      SetBanditTile(t);
      IndexesKept(tiles, tilesForDiceResult, tilesByKind, t, tiles[t].(occupiedByBandits := true));
      tiles := tiles[t := tiles[t].(occupiedByBandits := true)];
    }

    /**
     * GetTilesAffectedByTornado from the start point dir. The walk goes on
     * while the lookup offers a cell; once five steps are taken and fewer
     * than three cells are offered, the roll of draws[k] may end it. The first
     * entry is whatever lies at the start cell.
     */
    method TornadoTiles(dir: nat, draws: seq<Draw>) returns (affected: seq<Option<TileId>>)
      requires Valid() && dir < 4 && |draws| >= TornadoDraws
      ensures affected == [Lookup(grid, Start(dir))] + Tiles(grid, Walk(grid, dir, draws, Start(dir), 0))
    {
      affected := TornadoOn(grid, dir, draws);
    }

    /**
     * GetTilesAffectedByTsunami: the coast is shuffled and all but the
     * last amt entries are dropped.
     */
    method TsunamiTiles(offs: seq<nat>, amt: nat) returns (affected: seq<Option<TileId>>)
      requires Shuffle.ValidOffsets(offs, |coast|) && |coast| / 2 <= amt < |coast|
      ensures affected == Shuffle.Shuffled(coast, offs)[|coast| - amt..]
      ensures |affected| == amt
    {
      var a := new Option<TileId>[|coast|](i requires 0 <= i < |coast| reads this => coast[i]);
      assert a[..] == coast;
      Shuffle.ShuffleList(a, offs);
      affected := a[|coast| - amt..];
    }
  }
}
