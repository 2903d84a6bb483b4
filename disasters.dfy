/**
 * The disaster scheduler (Control/DisasterManager.cs). After every main
 * round turn it ticks once: an active disaster counts its turns down and,
 * once they run out, lifts its effect and draws a gap of 4 to 7 turns; a
 * dormant scheduler counts the gap down and, when it reaches 0, draws a
 * disaster by its weight (never the one before it), looks up the tiles it
 * hits and prohibits them from yielding.
 *
 * Weights are in hundredths and every random draw is an oracle in the
 * TickDraws record. The tile lists are lists of tile handles, where a slot
 * may be empty (a null entry in the game).
 */
module Disasters {
  import opened Optional
  import opened BoardLayout
  import opened TileModel
  import opened Boards
  import Shuffle
  import Randomness
  import Players

  /** A disaster of the table: its ID, how many turns it lasts, the immunity flag and its weight in hundredths. */
  datatype Disaster = Disaster(id: nat, duration: int, grantsImmunity: bool, weight: nat)

  /**
   * The disasters array: Wolfsrudel, Borkenkaefer, Schimmelpilz,
   * Vulkanausbruch, Grubenunglueck, Sandsturm, Tornado, Tsunami. Sandsturm's
   * weight is written 01f, that is 1.0, and is kept so.
   */
  const Table: seq<Disaster> := [
    Disaster(0, 3, false, 16),
    Disaster(1, 3, false, 16),
    Disaster(2, 3, false, 16),
    Disaster(3, 4, true, 12),
    Disaster(4, 4, true, 12),
    Disaster(5, 5, true, 100),
    Disaster(6, 6, true, 9),
    Disaster(7, 6, true, 9)
  ]

  /** overallDisasterProbability, in hundredths. */
  const OverallDisasterProbability: int := 100
  const LowerBoundTurnsBetweenDisasters: int := 4
  const UpperBoundTurnsBetweenDisasters: int := 8
  const InitialTurnsUntilNextDisaster: int := 4

  /** Every entry's ID is its place in the table. */
  lemma TableIds(i: nat)
    requires i < |Table|
    ensures Table[i].id == i && Table[i].duration >= 3 && Table[i].weight >= 9
  {
  }

  /** The weights of the first k disasters added up. */
  function PrefixWeight(k: nat): (w: nat)
    requires k <= |Table|
    ensures k > 0 ==> w >= PrefixWeight(k - 1) + 9
  {
    if k == 0 then 0 else PrefixWeight(k - 1) + Table[k - 1].weight
  }

  /** The prefix weight through disaster j. */
  function Cum(j: nat): (w: nat)
    requires j < |Table|
    ensures w >= Table[j].weight && w > PrefixWeight(j)
  {
    PrefixWeight(j + 1)
  }

  /**
   * GetRandomDisaster's search from index k on: the first index whose
   * prefix weight reaches r, the last index when none does.
   */
  function Pick(r: int, k: nat): (i: nat)
    requires k < |Table|
    ensures k <= i < |Table|
    ensures i == |Table| - 1 || Cum(i) >= r
    ensures forall j :: k <= j < i ==> Cum(j) < r
    decreases |Table| - k
  {
    if Cum(k) >= r then k
    else if k == |Table| - 1 then k
    else Pick(r, k + 1)
  }

  /** The search stops at i when i is the last index or the first whose prefix weight reaches r. */
  lemma PickIs(r: int, i: nat)
    requires i < |Table| && (i == |Table| - 1 || Cum(i) >= r)
    requires forall j :: 0 <= j < i ==> Cum(j) < r
    ensures Pick(r, 0) == i
  {
  }

  /** The disaster drawn for the roll r (in hundredths). */
  function PickDisaster(r: int): (i: nat)
    ensures i < |Table|
  {
    Pick(r, 0)
  }

  /**
   * As written, the prefix weight is 172 hundredths at Sandsturm, so every
   * roll from 0 to 100 stops there at the latest.
   */
  lemma NeverPastSandstorm(r: int)
    requires 0 <= r <= 100
    ensures PickDisaster(r) <= 5
  {
    assert PrefixWeight(6) == 172;
  }

  /** Hence the disasters that can be drawn are exactly Wolfsrudel to Sandsturm: Tornado and Tsunami never come. */
  lemma ReachableDisasters(i: nat)
    requires i < |Table|
    ensures (exists r :: 0 <= r <= 100 && PickDisaster(r) == i) <==> i <= 5
  {
    if i <= 5 {
      var r := PrefixWeight(i) + 1;
      assert PrefixWeight(5) == 72;
      PrefixBelow(i, 5);
      PrefixBelow(i, i);
      assert PickDisaster(r) == i by {
        var p := PickDisaster(r);
        if p < i {
          PrefixBelow(p + 1, i);
        }
        if p > i {
          PrefixBelow(i + 1, p);
        }
      }
    } else {
      forall r | 0 <= r <= 100
        ensures PickDisaster(r) != i
      {
        NeverPastSandstorm(r);
      }
    }
  }

  /** Prefix weights grow with the prefix. */
  lemma {:induction false} PrefixBelow(j: nat, k: nat)
    requires j <= k <= |Table|
    ensures PrefixWeight(j) <= PrefixWeight(k)
    decreases k - j
  {
    if j < k {
      PrefixBelow(j, k - 1);
    }
  }

  /** The disasters the successive calls of GetRandomDisaster draw from the rolls. */
  function Picks(rolls: seq<nat>): (ps: seq<nat>)
    ensures |ps| == |rolls| && forall k :: 0 <= k < |rolls| ==> ps[k] == PickDisaster(Randomness.Unit(rolls[k]))
  {
    seq(|rolls|, k requires 0 <= k < |rolls| => PickDisaster(Randomness.Unit(rolls[k])))
  }

  /** There is a first draw, and when there was a previous disaster some draw differs from it, so the redraw loop ends. */
  predicate Redrawable(previous: Option<nat>, picks: seq<nat>)
  {
    && |picks| >= 1
    && (previous.Some? ==> exists k :: 0 <= k < |picks| && picks[k] != previous.value)
  }

  /** The first draw from k on that differs from prev. */
  function FirstDifferent(prev: nat, picks: seq<nat>, k: nat): (i: nat)
    requires k < |picks| && exists j :: k <= j < |picks| && picks[j] != prev
    ensures k <= i < |picks| && picks[i] != prev
    ensures forall j :: k <= j < i ==> picks[j] == prev
    decreases |picks| - k
  {
    if picks[k] != prev then k
    else FirstDifferent(prev, picks, k + 1)
  }

  /**
   * The disaster InitialiseDisaster settles on: with no previous disaster
   * the first draw; otherwise the first draw that differs from the
   * previous one.
   */
  function NextDisaster(previous: Option<nat>, picks: seq<nat>): (id: nat)
    requires Redrawable(previous, picks)
    ensures previous.None? ==> id == picks[0]
    ensures previous.Some? ==> id != previous.value
    ensures previous.Some? ==> exists k :: 0 <= k < |picks| && id == picks[k] && (forall j :: 0 <= j < k ==> picks[j] == previous.value)
  {
    if previous.None? then picks[0]
    else picks[FirstDifferent(previous.value, picks, 0)]
  }

  /** GetRandomTurnsBetweenDisasters: Random.Range(4, 8). */
  function Gap(u: nat): (g: int)
    ensures LowerBoundTurnsBetweenDisasters <= g < UpperBoundTurnsBetweenDisasters
  {
    LowerBoundTurnsBetweenDisasters + u % (UpperBoundTurnsBetweenDisasters - LowerBoundTurnsBetweenDisasters)
  }

  /** Every gap from 4 to 7 is drawn by some u. */
  lemma GapCovers(g: int)
    requires 4 <= g < 8
    ensures Gap((g - 4) as nat) == g
  {
  }

  /** No slot of the list is empty. */
  predicate NoNull(s: seq<Option<TileId>>)
  {
    forall i :: 0 <= i < |s| ==> s[i].Some?
  }

  /** The index of the first empty slot, the length when there is none. */
  function FirstNull(s: seq<Option<TileId>>): (i: nat)
    ensures i <= |s| && (i < |s| ==> s[i].None?)
    ensures forall j :: 0 <= j < i ==> s[j].Some?
  {
    if s == [] then 0
    else if s[0].None? then 0
    else 1 + FirstNull(s[1..])
  }

  /** The slots before the first empty one: as far as a walk over the list gets before a null reference stops it. */
  function UpToNull(s: seq<Option<TileId>>): (r: seq<Option<TileId>>)
    ensures NoNull(r) && r <= s
    ensures NoNull(s) <==> r == s
  {
    s[..FirstNull(s)]
  }

  /** A walk that meets its first empty slot at index i has got exactly as far as UpToNull. */
  lemma UpToNullAt(s: seq<Option<TileId>>, i: nat)
    requires i < |s| && s[i].None? && NoNull(s[..i])
    ensures UpToNull(s) == s[..i]
  {
    forall j | 0 <= j < i
      ensures s[j].Some?
    {
      assert s[..i][j] == s[j];
    }
  }

  /** The tiles with the prohibited flag set to v on every tile the list names. */
  function Marked(tiles: seq<Tile>, aff: seq<Option<TileId>>, v: bool): (r: seq<Tile>)
    requires SomeHandles(aff, |tiles|)
    ensures |r| == |tiles|
  {
    if aff == [] then tiles
    else
      var t := Marked(tiles, aff[..|aff| - 1], v);
      var last := aff[|aff| - 1];
      if last.None? then t else t[last.value := t[last.value].(prohibitedByDisaster := v)]
  }

  /** Exactly the tiles the list names have their flag set to v; nothing else about any tile changes. */
  lemma {:induction false} MarkedEffect(tiles: seq<Tile>, aff: seq<Option<TileId>>, v: bool)
    requires SomeHandles(aff, |tiles|)
    ensures var r := Marked(tiles, aff, v);
      forall i :: 0 <= i < |tiles| ==> r[i] == if Some(i) in aff then tiles[i].(prohibitedByDisaster := v) else tiles[i]
  {
    if aff != [] {
      var init := aff[..|aff| - 1];
      MarkedEffect(tiles, init, v);
      forall i | 0 <= i < |tiles|
        ensures Some(i) in aff <==> Some(i) in init || aff[|aff| - 1] == Some(i)
      {
        assert aff == init + [aff[|aff| - 1]];
      }
    }
  }

  /** Marking a prefix and then one more slot marks the longer prefix. */
  lemma MarkedStep(tiles: seq<Tile>, aff: seq<Option<TileId>>, k: nat, v: bool)
    requires SomeHandles(aff, |tiles|) && k < |aff| && aff[k].Some?
    ensures var t := Marked(tiles, aff[..k], v);
      Marked(tiles, aff[..k + 1], v) == t[aff[k].value := t[aff[k].value].(prohibitedByDisaster := v)]
  {
    assert aff[..k + 1][..k] == aff[..k];
  }

  /** The random draws of one tick. */
  datatype TickDraws = TickDraws(
    /** the gap to the next disaster */
    gap: nat,
    /** InitialiseDisaster's Random.Range(0f, 1f) */
    occurs: nat,
    /** the draws of GetRandomDisaster, as many as the redraw loop needs */
    rolls: seq<nat>,
    /** the tornado's start point */
    tornadoStart: nat,
    tornadoDraws: seq<Draw>,
    /** the tsunami's shuffle and its amount */
    tsunamiOffs: seq<nat>,
    tsunamiAmount: nat)

  /** GetTilesAffectedByTornado for the drawn start point. */
  function TornadoPath(grid: Grid, d: TickDraws): (aff: seq<Option<TileId>>)
    requires GridInside(grid) && |d.tornadoDraws| >= TornadoDraws
    ensures |aff| >= 1
  {
    var dir := Randomness.RangeInt(0, 4, d.tornadoStart);
    [Lookup(grid, Start(dir))] + Tiles(grid, Walk(grid, dir, d.tornadoDraws, Start(dir), 0))
  }

  /** The amount of coast tiles the tsunami hits: Random.Range(half the coast, the whole coast). */
  function TsunamiAmount(n: nat, u: nat): (amt: nat)
    requires n >= 1
    ensures n / 2 <= amt < n
  {
    Randomness.RangeInt(n / 2, n, u)
  }

  /** GetTilesAffectedByTsunami: the last amt entries of the shuffled coast. */
  function TsunamiHit(coast: seq<Option<TileId>>, d: TickDraws): (aff: seq<Option<TileId>>)
    requires |coast| >= 1 && Shuffle.ValidOffsets(d.tsunamiOffs, |coast|)
    ensures |aff| == TsunamiAmount(|coast|, d.tsunamiAmount)
  {
    Shuffle.Shuffled(coast, d.tsunamiOffs)[|coast| - TsunamiAmount(|coast|, d.tsunamiAmount)..]
  }

  /** A list of tiles of one type, as slots: none is empty. */
  function AsSlots(ids: seq<TileId>): (s: seq<Option<TileId>>)
    ensures |s| == |ids| && forall i :: 0 <= i < |ids| ==> s[i] == Some(ids[i])
  {
    seq(|ids|, i requires 0 <= i < |ids| => Some(ids[i]))
  }

  /** What the board needs for every disaster's lookup. */
  predicate BoardFits(kinds: seq<seq<TileId>>, grid: Grid, coast: seq<Option<TileId>>, d: TickDraws)
  {
    && |kinds| == 5 && GridInside(grid) && |coast| >= 1
    && |d.tornadoDraws| >= TornadoDraws && Shuffle.ValidOffsets(d.tsunamiOffs, |coast|)
  }

  /**
   * ApplyCurrentDisasterEffects' switch, disaster by disaster: pasture,
   * forest, farm, mountain and clay pit tiles, the ring around the desert,
   * the tornado's path and the tsunami's share of the coast.
   */
  function Candidates(kinds: seq<seq<TileId>>, ring: seq<Option<TileId>>, grid: Grid, coast: seq<Option<TileId>>, d: TickDraws): (lists: seq<seq<Option<TileId>>>)
    requires BoardFits(kinds, grid, coast, d)
    ensures |lists| == |Table|
    ensures lists[0] == AsSlots(kinds[KindIndex(Pasture)]) && lists[1] == AsSlots(kinds[KindIndex(Forest)])
    ensures lists[2] == AsSlots(kinds[KindIndex(Farm)]) && lists[3] == AsSlots(kinds[KindIndex(Mountain)])
    ensures lists[4] == AsSlots(kinds[KindIndex(ClayPit)]) && lists[5] == ring
    ensures lists[6] == TornadoPath(grid, d) && lists[7] == TsunamiHit(coast, d)
  {
    [AsSlots(kinds[KindIndex(Pasture)]), AsSlots(kinds[KindIndex(Forest)]), AsSlots(kinds[KindIndex(Farm)]),
     AsSlots(kinds[KindIndex(Mountain)]), AsSlots(kinds[KindIndex(ClayPit)]), ring,
     TornadoPath(grid, d), TsunamiHit(coast, d)]
  }

  /** A shuffled list names the same tiles. */
  lemma ShuffledHandles(coast: seq<Option<TileId>>, offs: seq<nat>, n: nat)
    requires SomeHandles(coast, n) && Shuffle.ValidOffsets(offs, |coast|)
    ensures SomeHandles(Shuffle.Shuffled(coast, offs), n)
  {
    var sh := Shuffle.Shuffled(coast, offs);
    Shuffle.ShuffledPermutes(coast, offs);
    forall i | 0 <= i < |sh| && sh[i].Some?
      ensures sh[i].value < n
    {
      assert sh[i] in multiset(coast);
    }
  }

  /** Slots made from a list of spawned tiles name spawned tiles. */
  lemma AsSlotsHandles(ids: seq<TileId>, n: nat)
    requires Handles(ids, n)
    ensures SomeHandles(AsSlots(ids), n)
  {
  }

  /** Every tile the tornado hits is a tile of the grid. */
  lemma TornadoPathHandles(grid: Grid, d: TickDraws, n: nat)
    requires GridInside(grid) && |d.tornadoDraws| >= TornadoDraws
    requires forall c :: c in grid ==> grid[c] < n
    ensures SomeHandles(TornadoPath(grid, d), n)
  {
  }

  /** When the board's lists name spawned tiles only, so does every disaster's list. */
  lemma CandidatesHandles(kinds: seq<seq<TileId>>, ring: seq<Option<TileId>>, grid: Grid, coast: seq<Option<TileId>>, d: TickDraws, n: nat)
    requires BoardFits(kinds, grid, coast, d)
    requires (forall k :: 0 <= k < |kinds| ==> Handles(kinds[k], n)) && SomeHandles(ring, n) && SomeHandles(coast, n)
    requires forall c :: c in grid ==> grid[c] < n
    ensures ListsFit(Candidates(kinds, ring, grid, coast, d), n)
  {
    var lists := Candidates(kinds, ring, grid, coast, d);
    ShuffledHandles(coast, d.tsunamiOffs, n);
    forall k | 0 <= k < 5
      ensures SomeHandles(AsSlots(kinds[k]), n)
    {
      AsSlotsHandles(kinds[k], n);
    }
    TornadoPathHandles(grid, d, n);
    assert SomeHandles(lists[7], n);
  }

  /** On a consistent board every disaster's list names spawned tiles only. */
  lemma BoardCandidatesFit(b: Board, d: TickDraws)
    requires b.Valid() && BoardFits(b.tilesByKind, b.grid, b.coast, d)
    ensures ListsFit(Candidates(b.tilesByKind, b.desertRing, b.grid, b.coast, d), |b.tiles|)
  {
    forall k | 0 <= k < |b.tilesByKind|
      ensures Handles(b.tilesByKind[k], |b.tiles|)
    {
    }
    CandidatesHandles(b.tilesByKind, b.desertRing, b.grid, b.coast, d, |b.tiles|);
  }

  /** The scheduler's fields: turnsUntilNextDisaster, currentDisaster (by index), currentDisasterTurnsLeft, disasterIsActive, currentAffectedTiles. */
  datatype Schedule = Schedule(turnsUntilNext: int, current: Option<nat>, turnsLeft: int, active: bool, affected: seq<Option<TileId>>)

  const InitialSchedule: Schedule := Schedule(InitialTurnsUntilNextDisaster, None, 0, false, [])

  /** What the scheduler keeps: its list names spawned tiles, and an active disaster's list has no empty slot. */
  predicate ScheduleValid(s: Schedule, n: nat)
  {
    SomeHandles(s.affected, n) && (s.active ==> NoNull(s.affected))
  }

  /** One list per disaster, each naming spawned tiles only. */
  predicate ListsFit(lists: seq<seq<Option<TileId>>>, n: nat)
  {
    |lists| == |Table| && forall i :: 0 <= i < |lists| ==> SomeHandles(lists[i], n)
  }

  /** What one tick needs: the eight lists name spawned tiles and the redraw loop will end. */
  predicate TickReady(s: Schedule, n: nat, lists: seq<seq<Option<TileId>>>, d: TickDraws)
  {
    ScheduleValid(s, n) && ListsFit(lists, n) && Redrawable(s.current, Picks(d.rolls))
  }

  /**
   * ApplyCurrentDisasterEffects and ProhibitTilesFromYielding: an ID with
   * no list reschedules; otherwise the list becomes the affected tiles and
   * its tiles are prohibited one by one. An empty slot stops the rollout:
   * the tiles before it stay prohibited, and the disaster is never set
   * active.
   */
  function Apply(s: Schedule, tiles: seq<Tile>, lists: seq<seq<Option<TileId>>>, d: TickDraws): (r: (Schedule, seq<Tile>))
    requires s.current.Some? && !s.active && ScheduleValid(s, |tiles|) && ListsFit(lists, |tiles|)
    ensures |r.1| == |tiles| && ScheduleValid(r.0, |tiles|)
  {
    var id := s.current.value;
    if id >= |lists| then (s.(turnsUntilNext := Gap(d.gap)), tiles)
    else
      var aff := lists[id];
      var t := Marked(tiles, UpToNull(aff), true);
      if NoNull(aff) then (s.(affected := aff, turnsLeft := Table[id].duration, active := true), t)
      else (s.(affected := aff), t)
  }

  /**
   * InitialiseDisaster after its occurrence roll rand: above the overall
   * probability it waits for another gap; otherwise the next disaster is
   * drawn and applied.
   */
  function Occur(rand: int, s: Schedule, tiles: seq<Tile>, lists: seq<seq<Option<TileId>>>, d: TickDraws): (r: (Schedule, seq<Tile>))
    requires !s.active && TickReady(s, |tiles|, lists, d)
    ensures |r.1| == |tiles| && ScheduleValid(r.0, |tiles|)
  {
    if rand > OverallDisasterProbability then (s.(turnsUntilNext := Gap(d.gap)), tiles)
    else
      var id := NextDisaster(s.current, Picks(d.rolls));
      Apply(s.(current := Some(id)), tiles, lists, d)
  }

  /** InitialiseDisaster: the occurrence roll, then the next disaster, then its effects. */
  function Initialise(s: Schedule, tiles: seq<Tile>, lists: seq<seq<Option<TileId>>>, d: TickDraws): (r: (Schedule, seq<Tile>))
    requires !s.active && TickReady(s, |tiles|, lists, d)
    ensures |r.1| == |tiles| && ScheduleValid(r.0, |tiles|)
  {
    Occur(Randomness.Unit(d.occurs), s, tiles, lists, d)
  }

  /** With the overall probability at 1, every roll is within it: a disaster occurs every time the countdown runs out. */
  lemma AlwaysOccurs(s: Schedule, tiles: seq<Tile>, lists: seq<seq<Option<TileId>>>, d: TickDraws)
    requires !s.active && TickReady(s, |tiles|, lists, d)
    ensures var id := NextDisaster(s.current, Picks(d.rolls));
      Initialise(s, tiles, lists, d) == Apply(s.(current := Some(id)), tiles, lists, d)
  {
  }

  /** ProcessGameTurn: one tick of the scheduler, with the board's tiles. */
  function Tick(s: Schedule, tiles: seq<Tile>, lists: seq<seq<Option<TileId>>>, d: TickDraws): (r: (Schedule, seq<Tile>))
    requires TickReady(s, |tiles|, lists, d)
    ensures |r.1| == |tiles| && ScheduleValid(r.0, |tiles|)
  {
    if s.active then TickActive(s, tiles, d) else TickDormant(s, tiles, lists, d)
  }

  /** The tick of an active disaster: one turn less, and past the last one it ends and the next gap is drawn. */
  function TickActive(s: Schedule, tiles: seq<Tile>, d: TickDraws): (r: (Schedule, seq<Tile>))
    requires s.active && ScheduleValid(s, |tiles|)
    ensures |r.1| == |tiles| && ScheduleValid(r.0, |tiles|)
  {
    var left := s.turnsLeft - 1;
    if left < 0 then (s.(turnsLeft := left, active := false, turnsUntilNext := Gap(d.gap)), Marked(tiles, s.affected, false))
    else (s.(turnsLeft := left), tiles)
  }

  /** The tick of a dormant scheduler: the countdown goes on, and where it reaches 0 InitialiseDisaster runs. */
  function TickDormant(s: Schedule, tiles: seq<Tile>, lists: seq<seq<Option<TileId>>>, d: TickDraws): (r: (Schedule, seq<Tile>))
    requires !s.active && TickReady(s, |tiles|, lists, d)
    ensures |r.1| == |tiles| && ScheduleValid(r.0, |tiles|)
  {
    var until := s.turnsUntilNext - 1;
    if until == 0 then Initialise(s.(turnsUntilNext := until), tiles, lists, d)
    else (s.(turnsUntilNext := until), tiles)
  }

  /** An active disaster with turns left counts one down and changes no tile. */
  lemma ActiveTick(s: Schedule, tiles: seq<Tile>, lists: seq<seq<Option<TileId>>>, d: TickDraws)
    requires TickReady(s, |tiles|, lists, d) && s.active && s.turnsLeft >= 1
    ensures Tick(s, tiles, lists, d) == (s.(turnsLeft := s.turnsLeft - 1), tiles)
  {
  }

  /**
   * When its turns run out, the disaster ends: every affected tile may
   * yield again, no other tile changes, and the next one is 4 to 7 turns
   * away.
   */
  lemma DisasterEnds(s: Schedule, tiles: seq<Tile>, lists: seq<seq<Option<TileId>>>, d: TickDraws)
    requires TickReady(s, |tiles|, lists, d) && s.active && s.turnsLeft <= 0
    ensures var (s', t') := Tick(s, tiles, lists, d);
      && !s'.active && 4 <= s'.turnsUntilNext < 8 && s'.affected == s.affected && s'.current == s.current
      && forall i :: 0 <= i < |tiles| ==> t'[i] == if Some(i) in s.affected then tiles[i].(prohibitedByDisaster := false) else tiles[i]
  {
    MarkedEffect(tiles, s.affected, false);
  }

  /** A dormant scheduler whose countdown is not at 1 only counts down. */
  lemma DormantTick(s: Schedule, tiles: seq<Tile>, lists: seq<seq<Option<TileId>>>, d: TickDraws)
    requires TickReady(s, |tiles|, lists, d) && !s.active && s.turnsUntilNext != 1
    ensures Tick(s, tiles, lists, d) == (s.(turnsUntilNext := s.turnsUntilNext - 1), tiles)
  {
  }

  /** A dormant scheduler starts a disaster only on the tick where its countdown goes from 1 to 0. */
  lemma StartsOnlyAtZero(s: Schedule, tiles: seq<Tile>, lists: seq<seq<Option<TileId>>>, d: TickDraws)
    requires TickReady(s, |tiles|, lists, d) && !s.active && Tick(s, tiles, lists, d).0.active
    ensures s.turnsUntilNext == 1
  {
  }

  /**
   * When the countdown goes from 1 to 0 and the drawn disaster's list has
   * no empty slot, that disaster starts: it differs from the previous one,
   * its tiles are prohibited, no other tile changes, and it lasts its
   * duration.
   */
  lemma DisasterStarts(s: Schedule, tiles: seq<Tile>, lists: seq<seq<Option<TileId>>>, d: TickDraws)
    requires TickReady(s, |tiles|, lists, d) && !s.active && s.turnsUntilNext == 1
    requires NoNull(lists[NextDisaster(s.current, Picks(d.rolls))])
    ensures var id := NextDisaster(s.current, Picks(d.rolls));
      var (s', t') := Tick(s, tiles, lists, d);
      && s'.active && s'.current == Some(id) && s'.affected == lists[id] && s'.turnsLeft == Table[id].duration
      && (s.current.Some? ==> id != s.current.value)
      && forall i :: 0 <= i < |tiles| ==> t'[i] == if Some(i) in lists[id] then tiles[i].(prohibitedByDisaster := true) else tiles[i]
  {
    var id := NextDisaster(s.current, Picks(d.rolls));
    assert Randomness.Unit(d.occurs) <= OverallDisasterProbability;
    MarkedEffect(tiles, lists[id], true);
  }

  /** A schedule that will come round to a disaster: one is active, or the countdown is still above 0. */
  predicate Scheduled(s: Schedule)
  {
    s.active || s.turnsUntilNext >= 1
  }

  /** The game starts scheduled, 4 turns before the first disaster. */
  lemma InitiallyScheduled()
    ensures Scheduled(InitialSchedule) && ScheduleValid(InitialSchedule, 0)
  {
  }

  /**
   * Starting from 4 and drawing gaps of 4 to 7, the countdown never skips 0:
   * a tick keeps the schedule, unless the drawn disaster's list has an
   * empty slot.
   */
  lemma TickKeepsScheduled(s: Schedule, tiles: seq<Tile>, lists: seq<seq<Option<TileId>>>, d: TickDraws)
    requires TickReady(s, |tiles|, lists, d) && Scheduled(s)
    requires !s.active && s.turnsUntilNext == 1 ==> NoNull(lists[NextDisaster(s.current, Picks(d.rolls))])
    ensures Scheduled(Tick(s, tiles, lists, d).0)
  {
    if !s.active && s.turnsUntilNext == 1 {
      assert Randomness.Unit(d.occurs) <= OverallDisasterProbability;
    }
  }

  /**
   * An empty slot in the drawn list stalls the scheduler: the disaster is
   * not activated and the countdown is left at 0.
   */
  lemma NullStalls(s: Schedule, tiles: seq<Tile>, lists: seq<seq<Option<TileId>>>, d: TickDraws)
    requires TickReady(s, |tiles|, lists, d) && !s.active && s.turnsUntilNext == 1
    requires !NoNull(lists[NextDisaster(s.current, Picks(d.rolls))])
    ensures var s' := Tick(s, tiles, lists, d).0;
      !s'.active && s'.turnsUntilNext == 0
  {
    assert Randomness.Unit(d.occurs) <= OverallDisasterProbability;
  }

  /** A stalled scheduler stays stalled: the countdown is below 1 and only goes further down, so no disaster ever starts again. */
  lemma StalledStaysStalled(s: Schedule, tiles: seq<Tile>, lists: seq<seq<Option<TileId>>>, d: TickDraws)
    requires TickReady(s, |tiles|, lists, d) && !s.active && s.turnsUntilNext <= 0
    ensures var (s', t') := Tick(s, tiles, lists, d);
      !s'.active && s'.turnsUntilNext == s.turnsUntilNext - 1 && t' == tiles
  {
  }

  class DisasterManager {
    var turnsUntilNextDisaster: int
    /** currentDisaster, by its index in the table. */
    var currentDisaster: Option<nat>
    var currentDisasterTurnsLeft: int
    var disasterIsActive: bool
    var currentAffectedTiles: seq<Option<TileId>>

    function State(): Schedule
      reads this
    {
      Schedule(turnsUntilNextDisaster, currentDisaster, currentDisasterTurnsLeft, disasterIsActive, currentAffectedTiles)
    }

    ghost predicate Valid(board: Board)
      reads this, board`tiles
    {
      ScheduleValid(State(), |board.tiles|)
    }

    constructor ()
      ensures State() == InitialSchedule
    {
      turnsUntilNextDisaster := InitialTurnsUntilNextDisaster;
      currentDisaster := None;
      currentDisasterTurnsLeft := 0;
      disasterIsActive := false;
      currentAffectedTiles := [];
    }

    /** The eight candidate lists as the board holds them now. */
    ghost function CandidatesOn(board: Board, d: TickDraws): (lists: seq<seq<Option<TileId>>>)
      requires BoardFits(board.tilesByKind, board.grid, board.coast, d)
      reads board
      ensures lists == Candidates(board.tilesByKind, board.desertRing, board.grid, board.coast, d)
      ensures board.Valid() ==> ListsFit(lists, |board.tiles|)
    {
      if board.Valid() then
        BoardCandidatesFit(board, d);
        Candidates(board.tilesByKind, board.desertRing, board.grid, board.coast, d)
      else
        Candidates(board.tilesByKind, board.desertRing, board.grid, board.coast, d)
    }

    /**
     * ProcessGameTurn: one tick, after which PlayerManager is told that the
     * disaster step is done.
     */
    method ProcessGameTurn(board: Board, d: TickDraws, pm: Players.PlayerManager)
      requires board.Valid() && Valid(board)
      requires BoardFits(board.tilesByKind, board.grid, board.coast, d) && Redrawable(currentDisaster, Picks(d.rolls))
      modifies this, board`tiles, pm`disasterIsProcessed
      ensures board.Valid() && Valid(board) && pm.disasterIsProcessed && |board.tiles| == |old(board.tiles)|
      ensures (State(), board.tiles) == Tick(old(State()), old(board.tiles), CandidatesOn(board, d), d)
    {
      if disasterIsActive {
        CountDownActive(board, d);
      } else {
        CountDownIdle(board, d);
      }
      pm.SetDisasterIsProcessed(true);
    }

    /** The active branch of ProcessGameTurn: one turn less, and when none is left the disaster ends. */
    method CountDownActive(board: Board, d: TickDraws)
      requires board.Valid() && Valid(board) && disasterIsActive
      modifies this, board`tiles
      ensures board.Valid() && Valid(board) && |board.tiles| == |old(board.tiles)|
      ensures (State(), board.tiles) == TickActive(old(State()), old(board.tiles), d)
    {
      currentDisasterTurnsLeft := currentDisasterTurnsLeft - 1;
      if currentDisasterTurnsLeft < 0 {
        RemoveCurrentDisasterEffects(board);
        turnsUntilNextDisaster := Gap(d.gap);
      }
    }

    /** The idle branch of ProcessGameTurn: the countdown goes on, and at 0 a disaster may start. */
    method CountDownIdle(board: Board, d: TickDraws)
      requires board.Valid() && Valid(board) && !disasterIsActive
      requires BoardFits(board.tilesByKind, board.grid, board.coast, d) && Redrawable(currentDisaster, Picks(d.rolls))
      modifies this, board`tiles
      ensures board.Valid() && Valid(board) && |board.tiles| == |old(board.tiles)|
      ensures (State(), board.tiles) == TickDormant(old(State()), old(board.tiles), CandidatesOn(board, d), d)
    {
      turnsUntilNextDisaster := turnsUntilNextDisaster - 1;
      if turnsUntilNextDisaster == 0 {
        InitialiseDisaster(board, d);
      }
    }

    /** InitialiseDisaster: the occurrence roll, the draw (redrawn while it repeats the previous one) and the effects. */
    method InitialiseDisaster(board: Board, d: TickDraws)
      requires board.Valid() && Valid(board) && !disasterIsActive
      requires BoardFits(board.tilesByKind, board.grid, board.coast, d)
      requires TickReady(State(), |board.tiles|, CandidatesOn(board, d), d)
      modifies this, board`tiles
      ensures board.Valid() && Valid(board)
      ensures (State(), board.tiles) == Initialise(old(State()), old(board.tiles), CandidatesOn(board, d), d)
    {
      var rand := Randomness.Unit(d.occurs);
      InitialiseAfterRoll(rand, board, d);
    }

    /** InitialiseDisaster once the occurrence roll rand is drawn. */
    method InitialiseAfterRoll(rand: int, board: Board, d: TickDraws)
      requires board.Valid() && Valid(board) && !disasterIsActive
      requires BoardFits(board.tilesByKind, board.grid, board.coast, d)
      requires TickReady(State(), |board.tiles|, CandidatesOn(board, d), d)
      modifies this, board`tiles
      ensures board.Valid() && Valid(board)
      ensures (State(), board.tiles) == Occur(rand, old(State()), old(board.tiles), CandidatesOn(board, d), d)
    {
      if rand > OverallDisasterProbability {
        turnsUntilNextDisaster := Gap(d.gap);
        return;
      }
      if currentDisaster.None? {
        var id := GetRandomDisaster(d.rolls[0]);
        currentDisaster := Some(id);
      } else {
        var id := NextDifferent(currentDisaster.value, d.rolls);
        assert id == NextDisaster(Some(old(currentDisaster).value), Picks(d.rolls));
        currentDisaster := Some(id);
      }
      ApplyCurrentDisasterEffects(board, d);
    }

    /** The redraw loop: draw until the disaster differs from previousDisaster. */
    method NextDifferent(previousDisaster: nat, rolls: seq<nat>) returns (id: nat)
      requires Redrawable(Some(previousDisaster), Picks(rolls))
      ensures id == NextDisaster(Some(previousDisaster), Picks(rolls))
    {
      ghost var picks := Picks(rolls);
      ghost var w := FirstDifferent(previousDisaster, picks, 0);
      id := previousDisaster;
      var k := 0;
      while id == previousDisaster
        invariant 0 <= k <= w + 1
        invariant k > 0 ==> id == picks[k - 1]
        invariant id == previousDisaster ==> k <= w
        invariant id != previousDisaster ==> k == w + 1
        decreases w + 1 - k
      {
        id := GetRandomDisaster(rolls[k]);
        k := k + 1;
      }
    }

    /** GetRandomDisaster: the roll Random.Range(0f, 1f), then the search. */
    method GetRandomDisaster(u: nat) returns (index: nat)
      ensures index == PickDisaster(Randomness.Unit(u))
    {
      var rand := Randomness.Unit(u);
      index := PickByWeight(rand);
    }

    /** GetRandomDisaster's loop: add up the weights until they reach the roll rand, falling back to the last disaster. */
    method PickByWeight(rand: int) returns (index: nat)
      ensures index == PickDisaster(rand)
    {
      var addedProbability := 0;
      var i := 0;
      while i < |Table|
        invariant 0 <= i <= |Table|
        invariant addedProbability == PrefixWeight(i)
        invariant forall j :: 0 <= j < i ==> Cum(j) < rand
      {
        addedProbability := addedProbability + Table[i].weight;
        if addedProbability >= rand {
          PickIs(rand, i);
          return i;
        }
        i := i + 1;
      }
      PickIs(rand, |Table| - 1);
      return |Table| - 1;
    }

    /** ApplyCurrentDisasterEffects: the current disaster's tiles, then the rollout. */
    method ApplyCurrentDisasterEffects(board: Board, d: TickDraws)
      requires board.Valid() && Valid(board) && currentDisaster.Some? && !disasterIsActive
      requires BoardFits(board.tilesByKind, board.grid, board.coast, d)
      requires ListsFit(CandidatesOn(board, d), |board.tiles|)
      modifies this, board`tiles
      ensures board.Valid() && Valid(board)
      ensures (State(), board.tiles) == Apply(old(State()), old(board.tiles), CandidatesOn(board, d), d)
    {
      var affected := AffectedTiles(board, d, currentDisaster.value);
      if affected.None? {
        turnsUntilNextDisaster := Gap(d.gap);
        return;
      }
      currentAffectedTiles := affected.value;
      ProhibitTilesFromYielding(board);
    }

    /** ApplyCurrentDisasterEffects' switch: the tiles disaster id hits, none for an ID with no entry. */
    method AffectedTiles(board: Board, d: TickDraws, id: nat) returns (affected: Option<seq<Option<TileId>>>)
      requires board.Valid() && BoardFits(board.tilesByKind, board.grid, board.coast, d)
      ensures id < |Table| ==> affected == Some(CandidatesOn(board, d)[id])
      ensures id >= |Table| ==> affected == None
    {
      if id < 5 {
        var k := [Pasture, Forest, Farm, Mountain, ClayPit][id];
        var ids := board.GetTilesByType(k);
        affected := Some(AsSlots(ids));
      } else if id == 5 {
        var ring := board.GetTilesAroundDesert();
        affected := Some(ring);
      } else if id == 6 {
        var path := TornadoOnBoard(board, d);
        affected := Some(path);
      } else if id == 7 {
        var hit := TsunamiOnBoard(board, d);
        affected := Some(hit);
      } else {
        affected := None;
      }
    }

    /** The tornado case: GetTilesAffectedByTornado from the drawn start point. */
    method TornadoOnBoard(board: Board, d: TickDraws) returns (path: seq<Option<TileId>>)
      requires board.Valid() && GridInside(board.grid) && |d.tornadoDraws| >= TornadoDraws
      ensures path == TornadoPath(board.grid, d)
    {
      var dir := Randomness.RangeInt(0, 4, d.tornadoStart);
      path := board.TornadoTiles(dir, d.tornadoDraws);
    }

    /** The tsunami case: GetTilesAffectedByTsunami with the drawn amount. */
    method TsunamiOnBoard(board: Board, d: TickDraws) returns (hit: seq<Option<TileId>>)
      requires |board.coast| >= 1 && Shuffle.ValidOffsets(d.tsunamiOffs, |board.coast|)
      ensures hit == TsunamiHit(board.coast, d)
    {
      var amt := TsunamiAmount(|board.coast|, d.tsunamiAmount);
      hit := board.TsunamiTiles(d.tsunamiOffs, amt);
    }

    /**
     * ProhibitTilesFromYielding, its steps run one after the other: each
     * affected tile in turn is prohibited, then the disaster is set active
     * for its duration. An empty slot throws and ends the rollout there.
     */
    method ProhibitTilesFromYielding(board: Board)
      requires board.Valid() && currentDisaster.Some? && currentDisaster.value < |Table|
      requires SomeHandles(currentAffectedTiles, |board.tiles|)
      modifies this`currentDisasterTurnsLeft, this`disasterIsActive, board`tiles
      ensures board.Valid()
      ensures board.tiles == Marked(old(board.tiles), UpToNull(currentAffectedTiles), true)
      ensures NoNull(currentAffectedTiles) ==> currentDisasterTurnsLeft == Table[currentDisaster.value].duration && disasterIsActive
      ensures !NoNull(currentAffectedTiles) ==> currentDisasterTurnsLeft == old(currentDisasterTurnsLeft) && disasterIsActive == old(disasterIsActive)
    {
      var index := 0;
      while index < |currentAffectedTiles|
        invariant 0 <= index <= |currentAffectedTiles|
        invariant board.Valid() && |board.tiles| == |old(board.tiles)|
        invariant NoNull(currentAffectedTiles[..index])
        invariant board.tiles == Marked(old(board.tiles), currentAffectedTiles[..index], true)
        invariant currentDisasterTurnsLeft == old(currentDisasterTurnsLeft) && disasterIsActive == old(disasterIsActive)
      {
        var t := currentAffectedTiles[index];
        if t.None? {
          UpToNullAt(currentAffectedTiles, index);
          return;
        }
        MarkedStep(old(board.tiles), currentAffectedTiles, index, true);
        board.SetProhibitedByDisaster(t.value, true);
        index := index + 1;
      }
      assert currentAffectedTiles[..index] == currentAffectedTiles;
      currentDisasterTurnsLeft := Table[currentDisaster.value].duration;
      disasterIsActive := true;
    }

    /** RemoveCurrentDisasterEffects: every affected tile may yield again, and the disaster is over. */
    method RemoveCurrentDisasterEffects(board: Board)
      requires board.Valid() && SomeHandles(currentAffectedTiles, |board.tiles|) && NoNull(currentAffectedTiles)
      modifies this`disasterIsActive, board`tiles
      ensures board.Valid() && !disasterIsActive
      ensures board.tiles == Marked(old(board.tiles), currentAffectedTiles, false)
    {
      var index := 0;
      while index < |currentAffectedTiles|
        invariant 0 <= index <= |currentAffectedTiles|
        invariant board.Valid() && |board.tiles| == |old(board.tiles)|
        invariant board.tiles == Marked(old(board.tiles), currentAffectedTiles[..index], false)
      {
        MarkedStep(old(board.tiles), currentAffectedTiles, index, false);
        board.SetProhibitedByDisaster(currentAffectedTiles[index].value, false);
        index := index + 1;
      }
      assert currentAffectedTiles[..index] == currentAffectedTiles;
      disasterIsActive := false;
    }
  }
}
