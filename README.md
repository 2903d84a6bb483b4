# Catassance game-state model

A Dafny model of the rules engine of Catassance, a Unity game in the style of
Settlers of Catan. The model covers the engine that sits beneath the
presentation. It covers these parts, and proves the properties the game
relies on:

- **Resource ledger.** Each player's resource pile and conversion rates, the
  build-cost tables, and the bandit discard on a roll of 7.
- **Tiles.** Each tile's yield per player, and the bandit and disaster flags.
- **Board.**
  - The shuffled deal of 19 (type, number) pairs.
  - The tiles indexed by dice number and by type.
  - The neighbour lookups of the position grid.
  - The tornado walk and the tsunami hit.
- **Node network.** The node coordinate rules that give every node its
  neighbours, the spawning of roads between neighbours, and the placement of
  villages, towns and roads with the distance rule.
- **Road access.** Each player's dictionary of the roads they may build next.
- **Turn order.** The preparation round as a snake (1 up to N, then N back
  down to 1), the main round, and the scores with the winning threshold.
- **Disaster scheduler.** Its countdowns, the weighted draw, and the tiles
  each disaster prohibits from yielding.
- **Trading panel.** The state machine of the 4:1 trading panel.
- **Development cards.** The deck and the card catalogue lookup.

Modelling conventions:

- **Game objects as handles.** Tiles, nodes, roads and players become
  integer handles. The "row_column" node names become (row, column) pairs.
- **Classes and records.** A manager whose fields change in place is a
  `class`: PlayerManager, Player, PlayerResources, RoadManager,
  DisasterManager, TradingManager, DevelopmentCardsManager, BoardManager and
  the node graph. Its methods are proved against specification functions.
  Tile, Node and RoadProperties objects are records, kept under their handles
  by the board and by the graph.
- **Randomness as oracles.** Every random choice is a parameter: the
  shuffle's partner offsets, the dice value, the random victim or resource,
  the disaster rolls, and the tornado's rolls. Each property is
  proved for every choice.
- **Floats in hundredths.** Float probabilities are integers in hundredths.
- **Coroutines.** Their steps run one after the other.

Modules, one per file:

| module | file | models |
|---|---|---|
| `Seqs` | seqs.dfy | duplicate-free lists and the list edits the game uses |
| `Optional` | option.dfy | references that may be null |
| `Resources` | resources.dfy | RessourcesManager.cs |
| `Randomness` | random.dfy | the two random draws |
| `Shuffle` | shuffle.dfy | ListUtilities.cs |
| `Ledger` | ledger.dfy | PlayerRessources.cs and the bandit round of ProcessDiceResult |
| `BoardLayout` | layout.dfy | the deal, the position grid and its lookups in BoardManager.cs |
| `TileModel` | tile.dfy | Tile.cs |
| `Boards` | board.dfy | the state of BoardManager.cs |
| `DevelopmentCards` | devcards.dfy | DevelopmentCardsManager.cs |
| `Trading` | trading.dfy | TradingManager.cs |
| `NodeGrid` | neighbours.dfy | the coordinate rules of NodeUtilities.cs |
| `RoadAccess` | roadmanager.dfy | RoadManager.cs |
| `Players` | players.dfy | Player.cs and PlayerManager.cs |
| `Network` | network.dfy | Node.cs, RoadProperties.cs, the graph part of NodeUtilities.cs, BoardManager.SpawnRoads |
| `Disasters` | disasters.dfy | DisasterManager.cs |
| `Turns` | turns.dfy | PlayerManager.PlayerHasFinished, PlayerFinished and ProcessDisaster |

## Model

| member | source | states |
|---|---|---|
| Seqs.AddIfAbsent | Assets/Scripts/Player/Player.cs:44-47 | x is listed afterwards, nothing else is added, a list already holding x is unchanged, and no duplicate is introduced |
| Seqs.RemoveFirst | Assets/Scripts/Tile.cs:107 | one element fewer exactly when x was present; every other element stays and no element appears; a duplicate-free list loses x entirely |
| Resources.Index | Assets/Scripts/Control/RessourcesManager.cs:7-14 | the enumeration values 0..5, with 5 exactly for NONE |
| Resources.FromIndex | Assets/Scripts/Control/RessourcesManager.cs:7-14 | the inverse of the enumeration value |
| Resources.KindsAreAllButNone | Assets/Scripts/Control/RessourcesManager.cs:7-14 | the tradeable resources are exactly the enumeration without NONE |
| Resources.CostOf | Assets/Scripts/Control/RessourcesManager.cs:23-45 | every cost lists only tradeable resources, each with a positive amount |
| Resources.CostTables | Assets/Scripts/Control/RessourcesManager.cs:16-45 | road 1 clay 1 wood (2 cards), village 1 each of clay, wood, wheat, sheep (4), town 2 wheat 3 ore (5), development card 1 each of wheat, sheep, ore (3) |
| Randomness.RangeInt | Assets/Scripts/Control/DevelopmentCardsManager.cs:62 | the integer draw lies in [lo, hi) |
| Randomness.RangeIntCovers | Assets/Scripts/Control/DevelopmentCardsManager.cs:62 | every value of [lo, hi) is drawn by some random source |
| Randomness.Unit | Assets/Scripts/Control/DisasterManager.cs:107 | the float draw in [0, 1], in hundredths, lies in 0..100 with both ends included |
| Shuffle.SwapPermutes | Assets/Scripts/Utilities/ListUtilities.cs:19-21 | one exchange keeps the multiset of elements |
| Shuffle.ShuffleFromPermutes | Assets/Scripts/Utilities/ListUtilities.cs:14-22 | the remaining steps of the shuffle keep the multiset of elements |
| Shuffle.ShuffledPermutes | Assets/Scripts/Utilities/ListUtilities.cs:8-25 | a shuffled list is a permutation of the original |
| Shuffle.Swap | Assets/Scripts/Utilities/ListUtilities.cs:19-21 | positions i and j trade their elements and every other position keeps its own |
| Shuffle.ShuffleFrom | Assets/Scripts/Utilities/ListUtilities.cs:14-22 | the swaps from step i on keep the length of the list |
| Shuffle.Shuffled | Assets/Scripts/Utilities/ListUtilities.cs:8-25 | the whole shuffle keeps the length of the list |
| Shuffle.ShortListUnchanged | Assets/Scripts/Utilities/ListUtilities.cs:13-22 | a list of at most one element is returned as it was |
| Shuffle.IdentityDrawsValid | Assets/Scripts/Utilities/ListUtilities.cs:18 | the draws that swap every position with itself are admissible draws |
| Shuffle.ShuffleList | Assets/Scripts/Utilities/ListUtilities.cs:8-25 | the in-place loop leaves the array equal to Shuffled of its old contents, hence a permutation of them |
| Ledger.ChargedClamps | Assets/Scripts/Player/PlayerRessources.cs:103-116 | paying leaves each listed resource at max(old - cost, 0), never negative, and unlisted resources alone |
| Ledger.Charged | Assets/Scripts/Player/PlayerRessources.cs:103-116 | paying a cost keeps the set of resources the ledger lists |
| Ledger.AddedAll | Assets/Scripts/Player/PlayerRessources.cs:75-79 | adding a list of amounts keeps the set of resources the ledger lists |
| Ledger.Overwritten | Assets/Scripts/Player/PlayerRessources.cs:149-153 | overwriting from a list keeps the set of resources the ledger lists |
| Ledger.ChargedExactWhenSatisfied | Assets/Scripts/Player/PlayerRessources.cs:103-116 | when the holdings cover the cost, paying takes exactly the cost |
| Ledger.FirstPositive | Assets/Scripts/Player/PlayerRessources.cs:126-134 | the resource chosen is held in a positive amount, and NoResource only when none in the order is |
| Ledger.DiscardFirstPositive | Assets/Scripts/Player/PlayerRessources.cs:122-135 | the random discard keeps the set of resources the ledger lists |
| Ledger.ShuffledKindsCover | Assets/Scripts/Player/PlayerRessources.cs:123-124 | the shuffled key list names exactly the five tradeable resources |
| Ledger.ShuffledKinds | Assets/Scripts/Player/PlayerRessources.cs:123-124 | five keys, each a tradeable resource |
| Ledger.DiscardMany | Assets/Scripts/Player/PlayerRessources.cs:163-165 | repeated random discards keep a ledger with exactly the five tradeable keys |
| Ledger.BanditDiscardCount | Assets/Scripts/Player/PlayerRessources.cs:161 | the odd/even branches compute n/2 rounded up: 2k lies between n and n + 1 |
| Ledger.BanditDiscard | Assets/Scripts/Player/PlayerRessources.cs:156-166 | the bandit's rule keeps a ledger with exactly the five tradeable keys |
| Ledger.BanditDiscardEffect | Assets/Scripts/Player/PlayerRessources.cs:156-166 | nothing happens with at most 7 counted (ore) cards; above that the pile loses (ore + 1) / 2 cards or all it has, never going negative |
| Ledger.TotalIsSum | Assets/Scripts/Player/PlayerRessources.cs:20 | the true total of a ledger is the sum of its five entries |
| Ledger.RandomDiscardEffect | Assets/Scripts/Player/PlayerRessources.cs:122-135 | whatever the shuffle, the discard picks a resource the player holds positively, and picks none exactly when no resource is held positively |
| Ledger.DiscardManyTotal | Assets/Scripts/Player/PlayerRessources.cs:163-165 | k random discards on a non-negative pile remove min(k, total) cards and never make a count negative |
| Ledger.PlayerResources.constructor | Assets/Scripts/Player/PlayerRessources.cs:22-40 | every tradeable resource starts at 0 with conversion rate 4, and NONE has no entry |
| Ledger.PlayerResources.TotalAsWritten | Assets/Scripts/Player/PlayerRessources.cs:42-54 | the loop assigns instead of adding, so the result is the ORE count (the last resource visited) |
| Ledger.PlayerResources.IsSatisfied | Assets/Scripts/Player/PlayerRessources.cs:56-66 | true exactly when every listed resource is held in at least the listed amount |
| Ledger.PlayerResources.AddResource | Assets/Scripts/Player/PlayerRessources.cs:68-72 | the one resource grows by the amount and nothing else changes |
| Ledger.PlayerResources.AddResources | Assets/Scripts/Player/PlayerRessources.cs:75-79 | every listed amount is added to its resource |
| Ledger.PlayerResources.DiscardResource | Assets/Scripts/Player/PlayerRessources.cs:82-96 | the amount is taken even when more than held (the count can go negative) |
| Ledger.PlayerResources.DiscardResources | Assets/Scripts/Player/PlayerRessources.cs:98-118 | every listed resource drops by its amount but not below zero (Charged) |
| Ledger.PlayerResources.DiscardRandomResource | Assets/Scripts/Player/PlayerRessources.cs:122-135 | one card of the first positively held resource in the shuffled key order is taken, or nothing |
| Ledger.PlayerResources.DiscardFirstHeld | Assets/Scripts/Player/PlayerRessources.cs:126-134 | walking a key order, the first kind held at all loses one card and every other kind keeps its count (DiscardFirstPositive); nothing changes when no kind is held |
| Ledger.PlayerResources.SetResourceToAmount | Assets/Scripts/Player/PlayerRessources.cs:137-146 | a negative amount is refused; otherwise the count becomes exactly the amount |
| Ledger.PlayerResources.SetResourcesToAmount | Assets/Scripts/Player/PlayerRessources.cs:149-153 | every non-negative listed amount overwrites its count, negative ones are skipped |
| Ledger.PlayerResources.BanditPileDiscarding | Assets/Scripts/Player/PlayerRessources.cs:156-166 | the pile after the bandit is BanditDiscard of the old pile with the given draws |
| Ledger.DiscardManySnoc | Assets/Scripts/Player/PlayerRessources.cs:163-165 | one more iteration of the discard loop is one more random discard on the result |
| Ledger.AsWrittenTotalUndercounts | Assets/Scripts/Player/PlayerRessources.cs:42-54 | the as-written total never exceeds the true total and equals it exactly when only ore is held |
| Ledger.NineWoodEscapeBandit | Assets/Scripts/Player/PlayerRessources.cs:156-159 | a pile of nine wood and no ore (true total 9 > 7) is left alone by the bandit |
| Ledger.OnlyOneChanged | Assets/Scripts/Control/BoardManager.cs:232-234 | when only player p's ledger changes, the holdings differ from before in p's entry only |
| Ledger.BanditRound | Assets/Scripts/Control/BoardManager.cs:231-234 | the players outside 1..upto-1 keep their holdings |
| Ledger.BanditRoundStep | Assets/Scripts/Control/BoardManager.cs:232-234 | each iteration extends the round by player i's bandit discard |
| Ledger.BanditRoundAll | Assets/Scripts/Control/BoardManager.cs:230-234 | on a 7 the holdings become those of the players 1..count each doing the bandit's discard in ID order |
| Ledger.DiscardInTurn | Assets/Scripts/Control/BoardManager.cs:232-234 | the loop ends with every player's discard done |
| Ledger.DiscardForBandit | Assets/Scripts/Control/BoardManager.cs:233 | player i's discard extends the round by one player |
| BoardLayout.KindIndex | Assets/Scripts/Control/BoardManager.cs:13-20 | the tile-type enumeration values 0..5, with 5 exactly for DESERT |
| BoardLayout.DealtFrom | Assets/Scripts/Control/BoardManager.cs:77-120 | the dealt list has one entry more than the shuffled lists |
| BoardLayout.Dealt | Assets/Scripts/Control/BoardManager.cs:77-120 | nineteen tiles are dealt |
| BoardLayout.DisplaceIntoEnd | Assets/Scripts/Control/BoardManager.cs:105-111 | moving the replaced pair to the end keeps every old element and adds exactly the new one |
| BoardLayout.DealtFromKinds | Assets/Scripts/Control/BoardManager.cs:89-111 | the dealt types are the shuffled types plus one desert, which sits exactly at the drawn index |
| BoardLayout.DealtFromNumbers | Assets/Scripts/Control/BoardManager.cs:97-111 | the dealt numbers are the shuffled numbers plus one 0, which sits exactly at the drawn index; every other number is an initial one |
| BoardLayout.InitialListsLackDesertZeroAndSeven | Assets/Scripts/Control/BoardManager.cs:82-83 | the initial lists hold no desert, no 0 and no 7 |
| BoardLayout.DealtContents | Assets/Scripts/Control/BoardManager.cs:73-120 | whatever the draws: four forests, pastures and farms, three clay pits and mountains, one desert at the drawn index carrying 0; the other numbers are the eighteen initial ones, so no tile carries 7 |
| BoardLayout.GenerateShuffledList | Assets/Scripts/Control/BoardManager.cs:77-120 | the list built in place equals Dealt of the draws |
| BoardLayout.ShuffleAndPlaceDesert | Assets/Scripts/Control/BoardManager.cs:89-118 | the two in-place shuffles and the desert placement produce DealtFrom of the draws |
| BoardLayout.Pair | Assets/Scripts/Control/BoardManager.cs:114-118 | the (type, number) pairs zip the two lists position by position |
| BoardLayout.Present | Assets/Scripts/Control/BoardManager.cs:271-273 | the null check keeps the cell exactly when a tile sits on it |
| BoardLayout.Lookup | Assets/Scripts/Control/BoardManager.cs:51 | a read of tilePositions yields the tile on the cell, or null exactly when the cell is empty |
| BoardLayout.Tiles | Assets/Scripts/Control/BoardManager.cs:300-332 | the tiles read from the listed cells, position by position |
| BoardLayout.UpperAppendent | Assets/Scripts/Control/BoardManager.cs:300-315 | at most two tiles, all on the row above |
| BoardLayout.LowerAppendent | Assets/Scripts/Control/BoardManager.cs:317-332 | at most two tiles, all on the row below |
| BoardLayout.LeftAppendent | Assets/Scripts/Control/BoardManager.cs:334-381 | at most three tiles, on the rows around the cell |
| BoardLayout.LeftCells | Assets/Scripts/Control/BoardManager.cs:334-381 | the left lookup checks the cell to the left and otherwise only cells on the rows around it, in the same or the previous column |
| BoardLayout.RightAppendent | Assets/Scripts/Control/BoardManager.cs:383-429 | at most three tiles, on the rows around the cell |
| BoardLayout.RightCells | Assets/Scripts/Control/BoardManager.cs:383-429 | the right lookup checks the cell to the right and otherwise only cells on the rows around it, in the same or the next column |
| BoardLayout.UpperLowerInverse | Assets/Scripts/Control/BoardManager.cs:300-332 | b is an upper neighbour of a exactly when a is a lower neighbour of b |
| BoardLayout.LeftRightInverse | Assets/Scripts/Control/BoardManager.cs:334-429 | b is a right neighbour of a exactly when a is a left neighbour of b |
| BoardLayout.RightAppendentCells | Assets/Scripts/Control/BoardManager.cs:383-429 | the right lookup lists exactly the occupied cells among those it checks |
| BoardLayout.LeftAppendentCells | Assets/Scripts/Control/BoardManager.cs:334-381 | the left lookup lists exactly the occupied cells among those it checks |
| BoardLayout.SidewaysCellsInverse | Assets/Scripts/Control/BoardManager.cs:334-429 | the cells checked to the right of a include b exactly when those checked to the left of b include a |
| BoardLayout.PresentAll | Assets/Scripts/Control/BoardManager.cs:268-285 | only occupied cells are listed, never more than were checked |
| BoardLayout.SurroundingShape | Assets/Scripts/Control/BoardManager.cs:268-298 | at most six entries: existing neighbours, then the entry read from the mirrored cell exactly when the checked cell holds a tile |
| BoardLayout.Surrounding | Assets/Scripts/Control/BoardManager.cs:268-298 | at most six entries, and every entry but the last is a tile |
| BoardLayout.CheckedCell | Assets/Scripts/Control/BoardManager.cs:292-293 | the cell checked before the last Add lies on the row below, one column to either side |
| BoardLayout.AddedCell | Assets/Scripts/Control/BoardManager.cs:294 | the cell the last Add reads lies on the row below, mirrored across the column from the checked cell, and so differs from it |
| BoardLayout.SurroundingBelow | Assets/Scripts/Control/BoardManager.cs:268-298 | every tile listed is a tile of the grid |
| BoardLayout.PresentAllAbsent | Assets/Scripts/Control/BoardManager.cs:268-285 | no entry is listed when none of the checked cells holds a tile |
| BoardLayout.SurroundingAddsNull | Assets/Scripts/Control/BoardManager.cs:292-295 | the check reads one cell and the add another, so a null can join the list (for cell (2, 2) with only (1, 1) occupied) |
| BoardLayout.Start | Assets/Scripts/Control/BoardManager.cs:449-457 | each of the four start cells lies on the board |
| BoardLayout.Next | Assets/Scripts/Control/BoardManager.cs:467-575 | each direction's lookup yields at most three tiles of the grid |
| BoardLayout.Rank | Assets/Scripts/Control/BoardManager.cs:467-575 | every cell on the board has a positive rank in each direction |
| BoardLayout.NextDescends | Assets/Scripts/Control/BoardManager.cs:467-575 | every tornado step lowers the rank, so every walk ends; the north walk moves one row down and the south walk one row up |
| BoardLayout.RightDescends | Assets/Scripts/Control/BoardManager.cs:522-548 | every right neighbour lies on the board at a lower westward rank |
| BoardLayout.RightCellDescends | Assets/Scripts/Control/BoardManager.cs:383-429 | every cell checked to the right lowers the westward rank |
| BoardLayout.LeftDescends | Assets/Scripts/Control/BoardManager.cs:549-575 | every left neighbour lies on the board at a lower eastward rank |
| BoardLayout.LeftCellDescends | Assets/Scripts/Control/BoardManager.cs:334-381 | every cell checked to the left lowers the eastward rank |
| TileModel.ResourceOf | Assets/Scripts/Tile.cs:54-75 | the resource is NONE exactly for the desert |
| TileModel.KindYielding | Assets/Scripts/Tile.cs:54-75 | every tradeable resource is produced by a non-desert type, which ResourceOf maps back to it |
| TileModel.ResourceOfInjective | Assets/Scripts/Tile.cs:54-75 | no two tile types produce the same resource |
| TileModel.SpawnedTile | Assets/Scripts/Tile.cs:124-127 | a freshly set-up tile has its type, number and derived resource, no yield entries, no bandit and no disaster, and is well-formed |
| TileModel.WithYield | Assets/Scripts/Tile.cs:129-139 | the player's entry is created with the amount or grows by it; every other entry and field stays |
| TileModel.WithDependentNode | Assets/Scripts/Tile.cs:164-167 | the node is listed afterwards, nothing else is added, and no node is listed twice |
| TileModel.Share | Assets/Scripts/Tile.cs:141-162 | a blocked tile, the desert, or a player without an entry gives nothing; any card given is of a tradeable resource |
| TileModel.Gain | Assets/Scripts/Tile.cs:156-160 | one player's yield keeps a well-formed ledger |
| TileModel.Yielded | Assets/Scripts/Tile.cs:141-162 | the yield keeps the set of players and their well-formed ledgers |
| TileModel.YieldedExactly | Assets/Scripts/Tile.cs:141-162 | each player's tile resource grows by their entry, all else stays; a blocked tile or the desert changes nothing |
| TileModel.YieldedAll | Assets/Scripts/Tile.cs:141-162 | successive yields keep the players and their well-formed ledgers |
| TileModel.YieldedAllGrows | Assets/Scripts/Tile.cs:141-162 | with non-negative entries, yields never take a card away |
| TileModel.YieldedAllBlocked | Assets/Scripts/Tile.cs:143-144 | when every listed tile is blocked, yields change nothing |
| TileModel.YieldedAllSnoc | Assets/Scripts/Tile.cs:141-162 | yielding one more tile at the end of the list is one more Yielded on the result |
| TileModel.Victim | Assets/Scripts/Tile.cs:99-111 | nobody exactly when nobody has an entry; the only player when there is one; otherwise one of the others than the actor |
| TileModel.VictimRangesOverOthers | Assets/Scripts/Tile.cs:105-110 | with two players on the tile and the actor neither, each one can be drawn |
| TileModel.LonePlayerRobsThemself | Assets/Scripts/Tile.cs:103-104 | a lone player on the tile is robbed even when that player placed the bandit |
| TileModel.YieldedNothing | Assets/Scripts/Tile.cs:141-153 | a blocked tile, or one without entries, yields nothing |
| TileModel.YieldedButStep | Assets/Scripts/Tile.cs:156-161 | yielding to one more player moves that player out of the rest |
| TileModel.YieldedButNone | Assets/Scripts/Tile.cs:156-161 | once every player is visited, the holdings are Yielded |
| TileModel.YieldTile | Assets/Scripts/Tile.cs:141-162 | the holdings after YieldRessources are Yielded of the old holdings |
| TileModel.AnyOf | Assets/Scripts/Tile.cs:156 | the dictionary's enumeration hands out a member of the set |
| TileModel.YieldToNext | Assets/Scripts/Tile.cs:156-161 | one turn of the loop keeps the loop invariant with one player fewer left |
| TileModel.YieldTo | Assets/Scripts/Tile.cs:157-160 | only player p's ledger changes, by their entry of the tile's resource |
| TileModel.Robbed | Assets/Scripts/Tile.cs:99-111 | every player but the victim keeps their holdings |
| TileModel.RobVictim | Assets/Scripts/Tile.cs:99-111 | the holdings after the robbery are Robbed with the victim Victim picks |
| TileModel.DiscardFrom | Assets/Scripts/Tile.cs:104 | player p loses one random card, everyone else keeps theirs |
| Boards.SpawnOrder | Assets/Scripts/Control/BoardManager.cs:253-257 | the handles 0..n-1 in spawn order |
| Boards.GridOf | Assets/Scripts/Control/BoardManager.cs:176-183 | every occupied cell holds an already spawned tile whose spawn point is that cell |
| Boards.SpawnedTiles | Assets/Scripts/Control/BoardManager.cs:162-196 | one well-formed record per entry of the list, with the entry's type and number |
| Boards.DiceLists | Assets/Scripts/Control/BoardManager.cs:171-174 | the number of the latest spawned tile has a list |
| Boards.DiceListsExact | Assets/Scripts/Control/BoardManager.cs:171-174 | a list exists exactly for each number that occurs, and holds exactly the tiles of that number, in spawn order |
| Boards.DiceListsShape | Assets/Scripts/Control/BoardManager.cs:171-174 | every dice list is non-empty, strictly ascending (spawn order) and names spawned tiles only |
| Boards.DiceListsCover | Assets/Scripts/Control/BoardManager.cs:171-174 | the number of every spawned tile has a dice list |
| Boards.DiceListsMembers | Assets/Scripts/Control/BoardManager.cs:171-174 | a tile is in the list of a number exactly when it carries that number |
| Boards.KindLists | Assets/Scripts/Control/BoardManager.cs:188-194 | five lists; a non-desert tile's type list is not empty |
| Boards.KindListsExact | Assets/Scripts/Control/BoardManager.cs:188-194 | list j holds exactly the tiles whose type has index j, in spawn order; the desert is in none |
| Boards.LastDesert | Assets/Scripts/Control/BoardManager.cs:188-190 | the bandit tile is a spawned tile |
| Boards.LastDesertIsLast | Assets/Scripts/Control/BoardManager.cs:188-190 | the bandit starts on the last desert of the list, and on no tile when there is none |
| Boards.DesertRing | Assets/Scripts/Control/BoardManager.cs:188-191 | the ring is empty without a desert and otherwise lists only tiles spawned up to the desert |
| Boards.GridOfInjective | Assets/Scripts/Control/BoardManager.cs:176-183 | different cells of the spawned grid hold different tiles |
| Boards.SpawnedCoastDistinct | Assets/Scripts/Control/BoardManager.cs:198-212 | the coast lists every tile at most once |
| Boards.DistinctTilesCount | Assets/Scripts/Control/BoardManager.cs:583-599 | a list without repeated tiles holds each tile at most once, counted as a multiset |
| Boards.CountDistinctTiles | Assets/Scripts/Control/BoardManager.cs:583-599 | a list holding each tile at most once has no repeated tile |
| Boards.ShuffledPartDistinct | Assets/Scripts/Control/BoardManager.cs:585-594 | any part of the shuffled coast is drawn from the coast and repeats no tile |
| Boards.DrawIndex | Assets/Scripts/Control/BoardManager.cs:485 | the drawn neighbour index is one of the offered ones |
| Boards.Walk | Assets/Scripts/Control/BoardManager.cs:467-575 | every cell walked to holds a tile and lies on the board |
| Boards.WalkUnfold | Assets/Scripts/Control/BoardManager.cs:474-492 | the first step goes to the drawn offered cell, and the rest is the walk from there |
| Boards.WalkIsChain | Assets/Scripts/Control/BoardManager.cs:474-492 | the walk is a chain: each cell is offered by the lookup from the cell before it |
| Boards.WalkIsChainStep | Assets/Scripts/Control/BoardManager.cs:474-492 | a walk whose first cell is offered and whose rest is a walk is a chain |
| Boards.ChainBelow | Assets/Scripts/Control/BoardManager.cs:467-575 | every cell of a chain lies on the board below the rank of its origin |
| Boards.ChainDescends | Assets/Scripts/Control/BoardManager.cs:467-575 | the rank strictly falls along a chain |
| Boards.ChainRows | Assets/Scripts/Control/BoardManager.cs:467-521 | a north chain goes down one row per step and a south chain up one row |
| Boards.WalkVisitsOnce | Assets/Scripts/Control/BoardManager.cs:448-581 | the tornado hits no cell twice |
| Boards.ChainVisitsOnce | Assets/Scripts/Control/BoardManager.cs:448-581 | a chain of tornado steps from a cell inside the grid never comes back to a cell it has left |
| Boards.WalkAcrossRows | Assets/Scripts/Control/BoardManager.cs:467-521 | a tornado from the north or the south takes at most four steps after its start tile |
| Boards.WalkAtLeastFive | Assets/Scripts/Control/BoardManager.cs:465-483 | before its fifth step the walk stops only where the lookup offers nothing |
| Boards.WalkAtLeastFiveStep | Assets/Scripts/Control/BoardManager.cs:465-483 | the minimum-steps rule carries over one step of the walk |
| Boards.WalkStops | Assets/Scripts/Control/BoardManager.cs:474-481 | where nothing is offered, or the roll stops it after five steps, the walk ends at once |
| Boards.WalkGoesOn | Assets/Scripts/Control/BoardManager.cs:474-491 | otherwise it goes on to the drawn offered cell |
| Boards.WalkEnds | Assets/Scripts/Control/BoardManager.cs:474-481 | a walk that ends at once had nothing offered or was stopped by the roll |
| Boards.SpawnedTilesStep | Assets/Scripts/Control/BoardManager.cs:162-196 | spawning one more tile appends its record |
| Boards.IndexesKept | Assets/Scripts/Control/BoardManager.cs:129-139 | replacing a tile's record by one of the same number and type keeps the dice and type indexes right |
| Boards.SpawnedIndexesValid | Assets/Scripts/Control/BoardManager.cs:162-196 | after SpawnBoard the indexes point at tiles of that number and that type |
| Boards.SpawnedDiceValid | Assets/Scripts/Control/BoardManager.cs:171-174 | every dice list entry is a tile carrying that number |
| Boards.SpawnedKindsValid | Assets/Scripts/Control/BoardManager.cs:188-194 | every type list entry is a tile of that type |
| Boards.SpawnedBoardValid | Assets/Scripts/Control/BoardManager.cs:135-213 | a spawn from board cells leaves a consistent board |
| Boards.GetSurroundingTiles | Assets/Scripts/Control/BoardManager.cs:191 | the desert's ring read from the grid at the moment it is placed |
| Boards.SpawnTiles | Assets/Scripts/Control/BoardManager.cs:162-196 | the loop builds exactly the records, dice lists, type lists, grid, bandit tile and ring of the list |
| Boards.TornadoStep | Assets/Scripts/Control/BoardManager.cs:483-491 | taking the drawn step keeps the tornado state in line with the walk |
| Boards.TornadoDone | Assets/Scripts/Control/BoardManager.cs:474-481 | where the walk ends, the affected list holds the start tile and the whole walk |
| Boards.TornadoOn | Assets/Scripts/Control/BoardManager.cs:448-581 | the affected list is the start tile followed by the tiles of Walk |
| Boards.WalkedOn | Assets/Scripts/Control/BoardManager.cs:487 | moving one cell from the walk ahead to the walk behind |
| Boards.Board.constructor | Assets/Scripts/Control/BoardManager.cs:34-51 | an empty board: no tiles, empty indexes |
| Boards.Board.SpawnBoard | Assets/Scripts/Control/BoardManager.cs:135-213 | tiles, dice lists, type lists, grid, bandit tile, desert ring and coast are exactly those of the dealt list and spawn points |
| Boards.Board.IncreaseYieldForPlayer | Assets/Scripts/Tile.cs:129-139 | only tile t's record changes, by WithYield |
| Boards.Board.AddDependentNode | Assets/Scripts/Tile.cs:164-167 | only tile t's record changes, by WithDependentNode |
| Boards.Board.SetProhibitedByDisaster | Assets/Scripts/Tile.cs:173-180 | only tile t's disaster flag changes |
| Boards.Board.RemoveBandit | Assets/Scripts/Tile.cs:118-121 | only tile t's bandit flag is cleared |
| Boards.Board.SetBanditTile | Assets/Scripts/Control/BoardManager.cs:433-436 | the bandit tile becomes t |
| Boards.Board.GetTilesByType | Assets/Scripts/Control/BoardManager.cs:438-440 | the tiles of a producing type, all of that type |
| Boards.Board.GetTilesAroundDesert | Assets/Scripts/Control/BoardManager.cs:442-446 | a copy of the desert's ring, listing only spawned tiles |
| Boards.Board.YieldResources | Assets/Scripts/Tile.cs:141-162 | the holdings after tile t yields are Yielded |
| Boards.Board.YieldTiles | Assets/Scripts/Control/BoardManager.cs:240-249 | the listed tiles yield one after the other (YieldedAll) |
| Boards.YieldInTurn | Assets/Scripts/Control/BoardManager.cs:247-249 | the tiles named by the list yield in list order: the holdings become YieldedAll of the old holdings, and every ledger stays well-formed |
| Boards.Board.YieldAllTiles | Assets/Scripts/Control/BoardManager.cs:253-257 | every tile yields once, in spawn order |
| Boards.Board.ProcessDiceResult | Assets/Scripts/Control/BoardManager.cs:230-250 | on 7 every player in ID order does the bandit's discard; a number without tiles changes nothing; otherwise the tiles of that number yield |
| Boards.Board.PlaceBandit | Assets/Scripts/Tile.cs:92-116 | the bandit flag moves from the old bandit tile to t, t becomes the bandit tile, and the holdings are Robbed with the victim Victim picks |
| Boards.Board.MoveBandit | Assets/Scripts/Tile.cs:93-96 | the old bandit tile is cleared, t is flagged and becomes the bandit tile |
| Boards.Board.TornadoTiles | Assets/Scripts/Control/BoardManager.cs:448-581 | the affected list is the start tile followed by the tiles of Walk |
| Boards.Board.TsunamiTiles | Assets/Scripts/Control/BoardManager.cs:583-599 | the last amt entries of the shuffled coast, amt of them |
| DevelopmentCards.Copies | Assets/Scripts/Control/DevelopmentCardsManager.cs:25-34 | n cards, every one of the given type |
| DevelopmentCards.CopiesCount | Assets/Scripts/Control/DevelopmentCardsManager.cs:25-34 | n copies hold that type n times and nothing else |
| DevelopmentCards.InitialDeckContents | Assets/Scripts/Control/DevelopmentCardsManager.cs:25-34 | 26 cards: 12 knights, 2 roads, 2 development, 2 monopoly, 8 points, no NONE |
| DevelopmentCards.FetchAccounts | Assets/Scripts/Control/DevelopmentCardsManager.cs:52-71 | NONE from an empty deck, which stays empty; otherwise a card of the deck; a deck of two or more loses exactly that card; a deck of one keeps it |
| DevelopmentCards.FetchedCard | Assets/Scripts/Control/DevelopmentCardsManager.cs:52-71 | a card of the deck, or NONE from an empty deck |
| DevelopmentCards.AfterFetch | Assets/Scripts/Control/DevelopmentCardsManager.cs:52-71 | a deck of two or more cards loses exactly the drawn card, one copy of it |
| DevelopmentCards.DeckNeverEmpties | Assets/Scripts/Control/DevelopmentCardsManager.cs:59-60 | since the last card is never removed, a non-empty deck stays non-empty over any run of fetches |
| DevelopmentCards.FullDeckNeverEmpties | Assets/Scripts/Control/DevelopmentCardsManager.cs:49-71 | the shuffled deck still holds a card after any run of fetches |
| DevelopmentCards.DetailsAt | Assets/Scripts/Control/DevelopmentCardsManager.cs:103-109 | an index in range reads its own entry; one outside 0..Count reads entry 5; the read throws (None) exactly at index == Count or when entry 5 is missing |
| DevelopmentCards.GuardAdmitsCount | Assets/Scripts/Control/DevelopmentCardsManager.cs:104 | the guard lets index == Count through, and that read throws |
| DevelopmentCards.DevelopmentCardsManager.constructor | Assets/Scripts/Control/DevelopmentCardsManager.cs:37-50 | the catalogue is kept and the deck is the shuffled initial deck, the same multiset of cards |
| DevelopmentCards.DevelopmentCardsManager.FetchDevelopmentCard | Assets/Scripts/Control/DevelopmentCardsManager.cs:52-71 | the card and the new deck are FetchedCard and AfterFetch; a non-empty deck stays non-empty |
| Players.PrepStep | Assets/Scripts/Control/PlayerManager.cs:155-179 | the preparation step: round over at player 1 going back, turn round at the last player going forward, otherwise the next player in the current direction |
| Players.SeatAfter | Assets/Scripts/Control/PlayerManager.cs:155-179 | after k < n finishes player k + 1 is on going forward; for n <= k < 2n player 2n - k going back; after 2n the round is over with player 1 on |
| Players.PrepOrder | Assets/Scripts/Control/PlayerManager.cs:155-179 | 2n turns, the k-th by the player SeatAfter names |
| Players.PrepOrderMirrored | Assets/Scripts/Control/PlayerManager.cs:155-179 | every player places twice, at mirrored positions k and 2n - 1 - k |
| Players.FourPlayerSnake | Assets/Scripts/Control/PlayerManager.cs:155-179 | with four players the order is 1, 2, 3, 4, 4, 3, 2, 1 |
| Players.NextPlayer | Assets/Scripts/Control/PlayerManager.cs:197-205 | the next ID is id mod n + 1, within 1..n |
| Players.PlayerAfter | Assets/Scripts/Control/PlayerManager.cs:197-205 | any number of turns starting from a valid ID stays within 1..n |
| Players.PlayerAfterUp | Assets/Scripts/Control/PlayerManager.cs:197-205 | without wrapping, k turns move k IDs up |
| Players.PlayerAfterAdd | Assets/Scripts/Control/PlayerManager.cs:197-205 | a + b turns are a turns followed by b turns |
| Players.EveryPlayerComes | Assets/Scripts/Control/PlayerManager.cs:197-205 | from any player, every player is on within n turns |
| Players.RoundReturns | Assets/Scripts/Control/PlayerManager.cs:197-205 | after n turns the same player is on again |
| Players.ZeroScores | Assets/Scripts/Control/PlayerManager.cs:90-102 | players 1..n, each on a score of 0 |
| Players.Declared | Assets/Scripts/Control/PlayerManager.cs:141-148 | every player is declared, the winner alone as winner |
| Players.ScoreUpdate | Assets/Scripts/Control/PlayerManager.cs:132-149 | an unknown player changes nothing; otherwise the score moves by the delta, and reaching the winning score declares that player the winner and every other player a loser |
| Players.AddThenSubtract | Assets/Scripts/Player/Player.cs:167-173 | adding and then subtracting the same points restores score and outcome when nobody reached the winning score |
| Players.DiceValues | Assets/Scripts/Player/Player.cs:157 | a throw shows exactly the values 2..11, never 12 |
| Players.PlayerManager.constructor | Assets/Scripts/Control/PlayerManager.cs:57-102 | player 1 is on, going forward, preparing; every score is 0 and the winning score is 8 |
| Players.PlayerManager.UpdatePlayerScore | Assets/Scripts/Control/PlayerManager.cs:132-149 | scores and outcome become ScoreUpdate of the old ones |
| Players.PlayerManager.FinishPreparationTurn | Assets/Scripts/Control/PlayerManager.cs:155-178 | the seat moves by PrepStep |
| Players.PlayerManager.ActivateNextPlayer | Assets/Scripts/Control/PlayerManager.cs:197-205 | the ID becomes NextPlayer of the old one |
| Players.PlayerManager.SetDisasterIsProcessed | Assets/Scripts/Control/PlayerManager.cs:264-266 | the flag is set to the argument |
| Players.Player.constructor | Assets/Scripts/Player/Player.cs:15-24 | the player is bound to its own ledger component, as Awake binds it, and starts with the given ID (set by SetProperties) and no accessible nodes or settlements |
| Players.Player.AddAcessibleNode | Assets/Scripts/Player/Player.cs:44-48 | the node list becomes AddIfAbsent of the old one |
| Players.Player.AddSettlement | Assets/Scripts/Player/Player.cs:146-152 | a settlement already listed is refused; otherwise it is appended |
| Players.Player.AddPointsToPlayer | Assets/Scripts/Player/Player.cs:167-169 | the score moves by +points through UpdatePlayerScore |
| Players.Player.SubtractPointsFromPlayer | Assets/Scripts/Player/Player.cs:171-173 | the score moves by -points through UpdatePlayerScore |
| Players.Player.CastDice | Assets/Scripts/Player/Player.cs:154-165 | the throw is Random.Range(2, 12), in 2..11; finishing is allowed exactly when it is not 7; the holdings change as ProcessDiceResult says |
| Turns.PlayerHasFinished | Assets/Scripts/Control/PlayerManager.cs:153-183 | preparation: the seat moves by PrepStep, and when the round ends every tile yields once; main round: exactly one disaster tick, then the next player; the preparation flag never goes back |
| Turns.MainRound | Assets/Scripts/Control/PlayerManager.cs:180-182 | one disaster tick, the next player, no ledger changes |
| Turns.FinishPreparation | Assets/Scripts/Control/PlayerManager.cs:155-178 | the seat moves by PrepStep; when the round ends every tile yields once in spawn order |
| Turns.PlayerFinished | Assets/Scripts/Control/PlayerManager.cs:207-262 | the same preparation branch; in the main round no tick, the processed flag stays cleared and the next player is on |
| Turns.ProcessDisaster | Assets/Scripts/Control/PlayerManager.cs:185-195 | the flag is cleared, one tick of the scheduler runs (which sets it), then the next player is activated |
| RoadAccess.Granted | Assets/Scripts/Control/RoadManager.cs:48-60 | the road becomes a key and the node is in its list; other keys keep their lists; the list gains at most the node; well-kept dictionaries stay well kept (no duplicate node) |
| RoadAccess.GrantedIdempotent | Assets/Scripts/Control/RoadManager.cs:54-58 | adding the same road-node pair twice is adding it once |
| RoadAccess.Revoked | Assets/Scripts/Control/RoadManager.cs:68-70 | the road is no key any more and every other key keeps its list |
| RoadAccess.Detached | Assets/Scripts/Control/RoadManager.cs:80-84 | the node leaves the road's list, and the road stops being a key exactly when its list becomes empty; other keys are untouched |
| RoadAccess.DetachedUndoesGranted | Assets/Scripts/Control/RoadManager.cs:48-86 | removing through a node undoes adding the road through that node when the road was not accessible before |
| RoadAccess.GrantedAllEffect | Assets/Scripts/Control/RoadManager.cs:48-60 | after adding a list of roads through a node the keys are the old keys and the listed roads, each listed road is reached through the node, and every list only gains that node |
| RoadAccess.GrantedAll | Assets/Scripts/Control/RoadManager.cs:48-60 | adding a list of roads through a node keeps every old key and gains every listed road as a key |
| RoadAccess.Filled | Assets/Scripts/Control/RoadManager.cs:36-45 | the loop keeps the array length |
| RoadAccess.ValidPrefix | Assets/Scripts/Control/RoadManager.cs:36-42 | the IDs processed before the abort are exactly the leading IDs of at least 1 |
| RoadAccess.Initialised | Assets/Scripts/Control/RoadManager.cs:31-46 | one slot per ID |
| RoadAccess.FilledEntry | Assets/Scripts/Control/RoadManager.cs:36-45 | a slot is filled exactly when its ID is read before the abort |
| RoadAccess.InitialisedEntries | Assets/Scripts/Control/RoadManager.cs:31-46 | slot j holds an empty dictionary exactly when j + 1 is among the IDs read before the first ID below 1; every other slot stays null |
| RoadAccess.InitialisedPlayers | Assets/Scripts/Control/RoadManager.cs:31-46 | with all IDs at least 1, every ID's slot holds an empty dictionary |
| RoadAccess.RoadManager.constructor | Assets/Scripts/Control/RoadManager.cs:26-29 | no dictionary before initialisation |
| RoadAccess.RoadManager.InitialiseRoadDictionary | Assets/Scripts/Control/RoadManager.cs:31-46 | the array becomes Initialised of the IDs |
| RoadAccess.RoadManager.AddAccessibleRoadForPlayer | Assets/Scripts/Control/RoadManager.cs:48-60 | only the player's slot changes, by Granted |
| RoadAccess.RoadManager.RemoveAccessibleRoadForPlayers | Assets/Scripts/Control/RoadManager.cs:63-72 | every slot becomes Revoked of its old dictionary |
| RoadAccess.RoadManager.RemoveAccessibleRoadThroughNode | Assets/Scripts/Control/RoadManager.cs:75-86 | every slot becomes Detached of its old dictionary |
| Trading.Opened | Assets/Scripts/Control/TradingManager.cs:92-111 | both copies start as the holdings, no side chosen, accept off, the remembered resources kept |
| Trading.DiscardClick | Assets/Scripts/Control/TradingManager.cs:122-169 | a discard click keeps the initial copy and the rates, and the panel well formed |
| Trading.ReceiveClick | Assets/Scripts/Control/TradingManager.cs:196-230 | a receive click keeps the initial copy and the rates, and the panel well formed |
| Trading.OpenedPending | Assets/Scripts/Control/TradingManager.cs:92-111 | a freshly opened panel's current copy equals its initial copy with no choice recorded |
| Trading.DiscardClickPending | Assets/Scripts/Control/TradingManager.cs:122-169 | a discard click made while no resource to give is chosen, or one that takes back the receive choice, keeps current = initial − rate of the given + 1 of the received, the two differing, accept on iff both chosen; the one other discard click the buttons offer breaks it (SecondDiscardForgetsFirst) |
| Trading.SecondDiscardForgetsFirst | Assets/Scripts/Control/TradingManager.cs:122-169 | a second discard click on r after r's receive choice was taken back (button r is still on, :227 and :127-143) makes r the resource to give, leaves the first resource's rate off its count and breaks the account |
| Trading.GiveThenReceive | Assets/Scripts/Control/TradingManager.cs:122-230 | giving d and then receiving r marks both and moves d by −rate and r by +1 |
| Trading.UndoThenGive | Assets/Scripts/Control/TradingManager.cs:122-169 | two discard clicks on the received r take the receive choice back and then choose r to give; d's count is untouched and d is no longer recorded |
| Trading.ReceiveForgotten | Assets/Scripts/Control/TradingManager.cs:196-230 | receiving d after that makes the trade ready, giving r and receiving d |
| Trading.RedoneClicksCount | Assets/Scripts/Control/TradingManager.cs:122-230 | the five clicks give r and receive d in a ready trade while d's count is down by its rate minus one and r's by its rate |
| Trading.RedoneDiscardLosesCards | Assets/Scripts/Control/TradingManager.cs:122-230 | on 4 wood and 4 clay at rate 4 those clicks leave a ready trade outside the account that writes back 1 wood and 0 clay |
| Trading.UndoReceivePending | Assets/Scripts/Control/TradingManager.cs:127-144 | taking back the receive choice removes exactly the card it added |
| Trading.ChooseDiscardPending | Assets/Scripts/Control/TradingManager.cs:148-168 | choosing the resource to give charges exactly its conversion rate |
| Trading.ReceiveClickPending | Assets/Scripts/Control/TradingManager.cs:196-230 | any receive click the buttons offer keeps the same account |
| Trading.DiscardThenUndo | Assets/Scripts/Control/TradingManager.cs:199-213 | discard then receive on the same resource restores the current amounts and clears the choice |
| Trading.ReceiveThenUndo | Assets/Scripts/Control/TradingManager.cs:127-144 | receive then discard on the same resource restores the current amounts and clears the choice |
| Trading.TradeEffect | Assets/Scripts/Control/TradingManager.cs:171-190 | a completed trade from a panel whose clicks kept the account takes the rate off the given resource, adds one of the received one, and leaves every other count; the one click sequence that leaves the account costs more (RedoneDiscardLosesCards) |
| Trading.SetTo | Assets/Scripts/Control/TradingManager.cs:183-186 | a non-negative amount becomes the resource's count, a negative one changes nothing, and every other resource keeps its count |
| Trading.Traded | Assets/Scripts/Control/TradingManager.cs:183-186 | writing back the trade changes no resource other than the two chosen ones |
| Trading.TradingManager.constructor | Assets/Scripts/Control/TradingManager.cs:92-101 | nothing chosen and accept off before the first opening |
| Trading.TradingManager.InitialisePanel | Assets/Scripts/Control/TradingManager.cs:92-111 | the panel becomes Opened on the ledger's holdings and rates; discard button i is on iff the holding covers its rate |
| Trading.TradingManager.UIButtonDiscardRessourceClicked | Assets/Scripts/Control/TradingManager.cs:122-169 | the panel moves as DiscardClick |
| Trading.TradingManager.TakeBackReceive | Assets/Scripts/Control/TradingManager.cs:127-144 | the undo branch moves the panel as DiscardClick |
| Trading.TradingManager.ChooseDiscard | Assets/Scripts/Control/TradingManager.cs:152-168 | the choosing branch moves the panel as DiscardClick |
| Trading.TradingManager.UIButtonReceiveRessourceClicked | Assets/Scripts/Control/TradingManager.cs:196-230 | the panel moves as ReceiveClick |
| Trading.TradingManager.TakeBackDiscard | Assets/Scripts/Control/TradingManager.cs:199-213 | the undo branch moves the panel as ReceiveClick |
| Trading.TradingManager.ChooseReceive | Assets/Scripts/Control/TradingManager.cs:215-229 | the choosing branch moves the panel as ReceiveClick |
| Trading.TradingManager.UIButtonPerformTradeClicked | Assets/Scripts/Control/TradingManager.cs:171-190 | unless both sides are chosen and the received resource is real nothing changes; else the ledger becomes Traded and the panel reopens on it |
| Trading.DiscardButtonsFor | Assets/Scripts/Control/TradingManager.cs:251-255 | button i is on iff the initial amount covers rate i |
| Trading.CloneDictionary | Assets/Scripts/Control/TradingManager.cs:114-120 | the copy equals the original |
| Disasters.TableIds | Assets/Scripts/Control/DisasterManager.cs:24-33 | each disaster's ID is its place in the table, durations at least 3, weights at least 0.09 |
| Disasters.PrefixWeight | Assets/Scripts/Control/DisasterManager.cs:230-233 | each added weight raises the running probability by at least 0.09 |
| Disasters.Pick | Assets/Scripts/Control/DisasterManager.cs:228-242 | the first index whose running probability reaches the roll, else the last index |
| Disasters.Cum | Assets/Scripts/Control/DisasterManager.cs:228-242 | the running probability through a disaster covers its own weight and exceeds the running probability before it |
| Disasters.PickIs | Assets/Scripts/Control/DisasterManager.cs:232-241 | the search stops exactly at the first index reaching the roll, or at the last |
| Disasters.PickDisaster | Assets/Scripts/Control/DisasterManager.cs:228-242 | the drawn disaster is an entry of the table |
| Disasters.NeverPastSandstorm | Assets/Scripts/Control/DisasterManager.cs:30 | with Sandsturm weighted 1.0, every roll in [0, 1] stops at Sandsturm or before |
| Disasters.ReachableDisasters | Assets/Scripts/Control/DisasterManager.cs:24-33 | a disaster can be drawn iff it is Wolfsrudel to Sandsturm: Tornado and Tsunami never are |
| Disasters.PrefixBelow | Assets/Scripts/Control/DisasterManager.cs:230-233 | running probabilities never decrease |
| Disasters.Picks | Assets/Scripts/Control/DisasterManager.cs:122-124 | the k-th draw is the weighted pick of the k-th roll |
| Disasters.FirstDifferent | Assets/Scripts/Control/DisasterManager.cs:121-124 | the first draw from k on that differs from the previous disaster, all draws before it repeat it |
| Disasters.NextDisaster | Assets/Scripts/Control/DisasterManager.cs:117-125 | with no previous disaster the first draw; else the first draw that differs from the previous one |
| Disasters.Gap | Assets/Scripts/Control/DisasterManager.cs:220-222 | the gap between disasters is 4 to 7 turns |
| Disasters.GapCovers | Assets/Scripts/Control/DisasterManager.cs:220-222 | every gap from 4 to 7 can be drawn |
| Disasters.FirstNull | Assets/Scripts/Control/DisasterManager.cs:192-196 | the index of the first empty slot, every slot before it filled |
| Disasters.UpToNull | Assets/Scripts/Control/DisasterManager.cs:192-196 | the filled prefix of the list; the whole list iff it has no empty slot |
| Disasters.UpToNullAt | Assets/Scripts/Control/DisasterManager.cs:192-196 | a walk stopping at an empty slot has covered exactly UpToNull |
| Disasters.Marked | Assets/Scripts/Control/DisasterManager.cs:192-208 | marking keeps the number of tiles |
| Disasters.MarkedEffect | Assets/Scripts/Control/DisasterManager.cs:192-208 | exactly the listed tiles get the prohibited flag v, every other tile is unchanged |
| Disasters.MarkedStep | Assets/Scripts/Control/DisasterManager.cs:193-194 | marking one more slot extends the marked prefix by that tile |
| Disasters.TornadoPath | Assets/Scripts/Control/BoardManager.cs:448-581 | the tornado's list starts with its start tile |
| Disasters.TsunamiAmount | Assets/Scripts/Control/BoardManager.cs:583-599 | the tsunami hits from half the coast up to one less than the whole coast |
| Disasters.TsunamiHit | Assets/Scripts/Control/BoardManager.cs:583-599 | the tsunami's list has exactly the drawn amount of coast slots |
| Disasters.AsSlots | Assets/Scripts/Control/BoardManager.cs:438-440 | a typed tile list as filled slots, in order |
| Disasters.Candidates | Assets/Scripts/Control/DisasterManager.cs:143-174 | disaster 0-4 hit pasture, forest, farm, mountain and clay pit tiles, 5 the desert ring, 6 the tornado path, 7 the tsunami's coast share |
| Disasters.ShuffledHandles | Assets/Scripts/Control/BoardManager.cs:583-599 | shuffling the coast names only spawned tiles |
| Disasters.CandidatesHandles | Assets/Scripts/Control/DisasterManager.cs:143-174 | every candidate list names spawned tiles only |
| Disasters.BoardCandidatesFit | Assets/Scripts/Control/DisasterManager.cs:143-174 | on a consistent board every candidate list names spawned tiles only |
| Disasters.Apply | Assets/Scripts/Control/DisasterManager.cs:130-201 | applying keeps the tile count and the scheduler's invariant |
| Disasters.Occur | Assets/Scripts/Control/DisasterManager.cs:106-128 | a roll above the overall probability reschedules; the result keeps the invariant |
| Disasters.Initialise | Assets/Scripts/Control/DisasterManager.cs:106-128 | initialising keeps the tile count and the scheduler's invariant |
| Disasters.AlwaysOccurs | Assets/Scripts/Control/DisasterManager.cs:51 | with the overall probability at 1 a disaster is applied whenever the countdown runs out |
| Disasters.Tick | Assets/Scripts/Control/DisasterManager.cs:86-103 | a tick keeps the tile count and the scheduler's invariant |
| Disasters.TickActive | Assets/Scripts/Control/DisasterManager.cs:88-93 | counting down an active disaster keeps the tile count and the scheduler invariant, also when the disaster ends and its marks are removed |
| Disasters.TickDormant | Assets/Scripts/Control/DisasterManager.cs:94-100 | counting down the pause keeps the tile count and the scheduler invariant, also when a new disaster starts |
| Disasters.ActiveTick | Assets/Scripts/Control/DisasterManager.cs:88-93 | an active disaster with turns left counts down and changes no tile |
| Disasters.DisasterEnds | Assets/Scripts/Control/DisasterManager.cs:88-93 | when its turns run out exactly the affected tiles may yield again and the next disaster is 4 to 7 turns away |
| Disasters.DormantTick | Assets/Scripts/Control/DisasterManager.cs:94-99 | a dormant scheduler whose countdown is not at 1 only counts down |
| Disasters.StartsOnlyAtZero | Assets/Scripts/Control/DisasterManager.cs:94-99 | a disaster starts only when the countdown goes from 1 to 0 |
| Disasters.DisasterStarts | Assets/Scripts/Control/DisasterManager.cs:94-201 | at 0 the drawn disaster differs from the previous, exactly its tiles are prohibited and it lasts its duration |
| Disasters.InitiallyScheduled | Assets/Scripts/Control/DisasterManager.cs:56-63 | the game starts 4 turns before the first disaster |
| Disasters.TickKeepsScheduled | Assets/Scripts/Control/DisasterManager.cs:86-103 | a tick keeps a disaster active or the countdown above 0, unless the drawn list has an empty slot |
| Disasters.NullStalls | Assets/Scripts/Control/DisasterManager.cs:192-200 | an empty slot in the drawn list leaves the disaster inactive with the countdown at 0 |
| Disasters.StalledStaysStalled | Assets/Scripts/Control/DisasterManager.cs:94-99 | a stalled countdown only goes further down and no disaster starts again |
| Disasters.DisasterManager.constructor | Assets/Scripts/Control/DisasterManager.cs:56-63 | the fields start at the initial schedule |
| Disasters.DisasterManager.CandidatesOn | Assets/Scripts/Control/DisasterManager.cs:143-174 | the candidate lists of the board as it is, spawned tiles only |
| Disasters.DisasterManager.ProcessGameTurn | Assets/Scripts/Control/DisasterManager.cs:86-103 | the scheduler and the tiles move as Tick, and the disaster step is marked processed |
| Disasters.DisasterManager.CountDownActive | Assets/Scripts/Control/DisasterManager.cs:88-93 | the scheduler and the tiles move as TickActive, and the board and the manager stay valid |
| Disasters.DisasterManager.CountDownIdle | Assets/Scripts/Control/DisasterManager.cs:94-100 | the scheduler and the tiles move as TickDormant over the candidates of the current board, and the board and the manager stay valid |
| Disasters.DisasterManager.InitialiseDisaster | Assets/Scripts/Control/DisasterManager.cs:106-128 | the scheduler and the tiles move as Initialise |
| Disasters.DisasterManager.InitialiseAfterRoll | Assets/Scripts/Control/DisasterManager.cs:111-127 | the scheduler and the tiles move as Occur |
| Disasters.DisasterManager.NextDifferent | Assets/Scripts/Control/DisasterManager.cs:121-124 | the redraw loop ends on NextDisaster |
| Disasters.DisasterManager.GetRandomDisaster | Assets/Scripts/Control/DisasterManager.cs:228-242 | the result is the weighted pick of the roll |
| Disasters.DisasterManager.PickByWeight | Assets/Scripts/Control/DisasterManager.cs:230-241 | the loop returns PickDisaster of the roll |
| Disasters.DisasterManager.ApplyCurrentDisasterEffects | Assets/Scripts/Control/DisasterManager.cs:130-190 | the scheduler and the tiles move as Apply |
| Disasters.DisasterManager.AffectedTiles | Assets/Scripts/Control/DisasterManager.cs:143-179 | a listed ID gets its candidate list, any other ID none |
| Disasters.DisasterManager.TornadoOnBoard | Assets/Scripts/Control/BoardManager.cs:448-581 | the list is TornadoPath |
| Disasters.DisasterManager.TsunamiOnBoard | Assets/Scripts/Control/BoardManager.cs:583-599 | the list is TsunamiHit |
| Disasters.DisasterManager.ProhibitTilesFromYielding | Assets/Scripts/Control/DisasterManager.cs:192-201 | the tiles up to the first empty slot are prohibited; the disaster becomes active for its duration only if there is none |
| Disasters.DisasterManager.RemoveCurrentDisasterEffects | Assets/Scripts/Control/DisasterManager.cs:203-211 | every affected tile may yield again and the disaster is inactive |
| NodeGrid.Candidates | Assets/Scripts/NodeUtilities.cs:52-78 | every node looks for exactly three names |
| NodeGrid.CandidateCells | Assets/Scripts/NodeUtilities.cs:58-78 | straight up and straight down are always candidates; the third leans by row parity and by which side of row 5 the node lies |
| NodeGrid.IfNode | Assets/Scripts/NodeUtilities.cs:99-104 | a candidate is kept iff a node has that name |
| NodeGrid.Present | Assets/Scripts/NodeUtilities.cs:85-106 | the kept names are exactly the candidates that are node names, in order, no more of them, without duplicates when the candidates have none |
| NodeGrid.DirectNeighboursShape | Assets/Scripts/NodeUtilities.cs:46-107 | at most three neighbours, exactly the existing candidates, none listed twice |
| NodeGrid.DirectNeighbours | Assets/Scripts/NodeUtilities.cs:46-107 | at most three neighbours, and a node is one exactly when it exists and is a computed candidate |
| NodeGrid.CandidatesOnOtherRows | Assets/Scripts/NodeUtilities.cs:58-78 | every candidate lies one row up or down, on a row of the other parity |
| NodeGrid.CandidatesSymmetric | Assets/Scripts/NodeUtilities.cs:58-78 | q is a candidate of p iff p is a candidate of q |
| NodeGrid.CandidateBack | Assets/Scripts/NodeUtilities.cs:58-78 | a candidate of p has p among its own candidates |
| NodeGrid.NeighboursSymmetric | Assets/Scripts/NodeUtilities.cs:46-107 | two nodes are each other's neighbours or neither is |
| NodeGrid.RoadsTo | Assets/Scripts/NodeUtilities.cs:118-136 | one road per neighbour, from the neighbour to the node, in neighbour order |
| NodeGrid.SpawnedEdgesAdjacent | Assets/Scripts/Control/BoardManager.cs:122-132 | every spawned road joins a walked even-row node to a neighbour of it on an odd row |
| NodeGrid.SpawnedEdgesCover | Assets/Scripts/Control/BoardManager.cs:122-132 | every neighbour of a walked even-row node is joined to it by a spawned road |
| NodeGrid.SpawnedEdges | Assets/Scripts/Control/BoardManager.cs:122-132 | every spawned road starts at an existing node and ends at a walked node on an even row |
| NodeGrid.EveryEdgeSpawned | Assets/Scripts/Control/BoardManager.cs:122-132 | every pair of neighbouring nodes gets a road in exactly one direction, from the odd-row end to the even-row end |
| NodeGrid.RoadsToDistinct | Assets/Scripts/NodeUtilities.cs:118-136 | one node's roads are all different |
| NodeGrid.SpawnedEdgesDistinct | Assets/Scripts/Control/BoardManager.cs:122-132 | when no node is walked twice, no road is spawned twice |
| Network.FreshNode | Assets/Scripts/Node.cs:7-24 | a node starts buildable, empty, not upgradeable, owned by -1, with no roads |
| Network.Unplaced | Assets/Scripts/RoadProperties.cs:6-14 | a spawned road is buildable, owner unset, with no end-node entries |
| Network.SetEndNodes | Assets/Scripts/RoadProperties.cs:140-143 | the end nodes become exactly the given pair and nothing else changes |
| Network.UnplacedAlong | Assets/Scripts/NodeUtilities.cs:118-136 | one road per end-node pair |
| Network.UnplacedAlongAt | Assets/Scripts/NodeUtilities.cs:118-136 | the i-th spawned road joins the i-th pair, in that order |
| Network.UnplacedAlongAppend | Assets/Scripts/Control/BoardManager.cs:122-132 | spawning two runs of roads one after the other spawns their concatenation |
| Network.ListedIn | Assets/Scripts/NodeUtilities.cs:46-107 | every neighbour a node finds is a node |
| Network.ValidKept | Assets/Scripts/Node.cs:80-179 | changing only flags and owners keeps every neighbour a node and every road listed by its ends |
| Network.LinksKept | Assets/Scripts/RoadProperties.cs:60-156 | placing buildings and roads keeps the whole network consistent |
| Network.NeighboursKept | Assets/Scripts/NodeUtilities.cs:46-107 | the neighbour lists stay those GetDirectNeighbours computes while only flags change |
| Network.RoadsKept | Assets/Scripts/NodeUtilities.cs:138-141 | every road stays listed by both its ends, each node's list without duplicates |
| Network.Fenced | Assets/Scripts/Node.cs:97-103 | exactly the listed nodes stop being buildable, nothing else changes |
| Network.Settled | Assets/Scripts/Node.cs:94-113 | the node holds the player's upgradeable village; its neighbours, and only they, stop being buildable; no links change |
| Network.SettledSpaced | Assets/Scripts/Node.cs:80-113 | building a village on a buildable node keeps the distance rule: no two buildings are neighbours |
| Network.SettledSpacedAt | Assets/Scripts/Node.cs:97-113 | after a village, no neighbour of a built node is buildable or built on |
| Network.VillageFencesNeighbours | Assets/Scripts/Node.cs:97-103 | a village makes every node next to it unbuildable, whichever side lists the other |
| Network.Open | Assets/Scripts/Node.cs:124-131 | exactly the listed roads still buildable and not skipped |
| Network.Dependent | Assets/Scripts/Node.cs:63-67 | adding the node to the affected tiles keeps the number of tiles |
| Network.DependentEffect | Assets/Scripts/Node.cs:63-67 | every affected tile lists the node as dependent, other tiles and fields unchanged |
| Network.Raised | Assets/Scripts/Node.cs:69-78 | raising the yield keeps the number of tiles |
| Network.RaisedStep | Assets/Scripts/Node.cs:75-77 | raising one tile and then the rest raises the whole list |
| Network.DependentStep | Assets/Scripts/Node.cs:64-66 | one tile and then the rest gives the whole list |
| Network.RaisedShare | Assets/Scripts/Node.cs:69-78 | each tile's share rises by the amount once per listing |
| Network.RaisedShareStep | Assets/Scripts/Node.cs:75-77 | one listing adds the amount once |
| Network.RaisedKeeps | Assets/Scripts/Node.cs:69-78 | listed tiles gain an entry for the player, other players' entries and all other fields stay |
| Network.TownDoublesYield | Assets/Scripts/Node.cs:134-172 | a village and then a town give the owner two more on every affected tile |
| Network.WithoutEndNode | Assets/Scripts/RoadProperties.cs:146-156 | the map loses exactly the node's entry |
| Network.Reached | Assets/Scripts/RoadProperties.cs:99-117 | the player's accessible nodes gain exactly the road's ends without a building, without duplicates |
| Network.GrantedAtEndsSlots | Assets/Scripts/RoadProperties.cs:93-127 | the slots after revoking and granting at both ends are RoadPlacedAccess |
| Network.RevokedEverywhere | Assets/Scripts/RoadProperties.cs:93 | every player's dictionary loses the road |
| Network.OpenAt | Assets/Scripts/RoadProperties.cs:105-106 | the roads opened at an end are buildable roads other than the placed one |
| Network.ListedRoads | Assets/Scripts/NodeUtilities.cs:138-141 | a node lists only spawned roads |
| Network.GrantedAtEndsEffect | Assets/Scripts/RoadProperties.cs:99-127 | granting at both ends adds keys, never the road itself, and every node added is the first end |
| Network.GrantedAtEnds | Assets/Scripts/RoadProperties.cs:99-127 | granting at the ends keeps every road the owner could already reach |
| Network.RoadPlacedAccess | Assets/Scripts/RoadProperties.cs:93-127 | the road-access array keeps its length |
| Network.PlacedRoadOfferedToNobody | Assets/Scripts/RoadProperties.cs:93-127 | after placement no player's dictionary holds the road |
| Network.OthersOnlyLoseRoad | Assets/Scripts/RoadProperties.cs:93 | every other player only loses the placed road |
| Network.SecondEndNeverRecorded | Assets/Scripts/RoadProperties.cs:122 | roads opened at the second end are recorded through the first end, so the second end is never recorded |
| Network.TownForFree | Assets/Scripts/Node.cs:145-179 | a town by a player with no cards costs nothing: the discard clamps at 0 |
| Network.FencedStep | Assets/Scripts/Node.cs:99-103 | fencing one more neighbour extends the fenced prefix |
| Network.OpenStep | Assets/Scripts/Node.cs:124-131 | granting one road and then the rest grants the whole list |
| Network.SpawnedEdgesHead | Assets/Scripts/Control/BoardManager.cs:122-132 | the walk's roads are those of its first node followed by the rest |
| Network.ListedNeighbours | Assets/Scripts/NodeUtilities.cs:43 | the neighbour lists do not change while roads are spawned |
| Network.LinkedValid | Assets/Scripts/NodeUtilities.cs:118-141 | a new road listed by both ends keeps the network consistent |
| Network.Linked | Assets/Scripts/NodeUtilities.cs:127-141 | both ends list the new road, no node is added, and every other node is unchanged |
| Network.LinkedSame | Assets/Scripts/NodeUtilities.cs:138-141 | linking a road changes only road lists |
| Network.LinkedAt | Assets/Scripts/NodeUtilities.cs:138-141 | each node lists its old roads and, at both ends, the new one, once |
| Network.LinkedRoads | Assets/Scripts/NodeUtilities.cs:118-141 | every road, the new one included, is listed by both ends |
| Network.NeighboursKeptBut | Assets/Scripts/NodeUtilities.cs:43 | the neighbour lists stay GetDirectNeighbours while road lists change |
| Network.SameLinksButTrans | Assets/Scripts/NodeUtilities.cs:118-141 | changing only road lists twice changes only road lists |
| Network.InKeptBut | Assets/Scripts/NodeUtilities.cs:118-141 | neighbours stay nodes while road lists change |
| Network.Graph.constructor | Assets/Scripts/NodeUtilities.cs:34-44 | every node is fresh, with the neighbours GetDirectNeighbours finds, and there is no road |
| Network.Graph.AddNodeToAffectedTiles | Assets/Scripts/Node.cs:63-67 | the tiles become Dependent on the node |
| Network.Graph.IncreaseYieldOfAffectedTiles | Assets/Scripts/Node.cs:69-78 | an amount of 0 or less changes nothing, otherwise the tiles become Raised |
| Network.Graph.AddAccessibleRoad | Assets/Scripts/NodeUtilities.cs:138-141 | the node lists the road afterwards, never twice |
| Network.Graph.SpawnRoad | Assets/Scripts/NodeUtilities.cs:122-135 | one new road from the neighbour to the node, listed by both |
| Network.Graph.LinkRoad | Assets/Scripts/NodeUtilities.cs:127-134 | the road is appended and both ends list it |
| Network.Graph.SpawnNext | Assets/Scripts/NodeUtilities.cs:122-135 | the roads so far extend by the next pair's road |
| Network.Graph.SpawnRoadsToNeighbours | Assets/Scripts/NodeUtilities.cs:118-136 | one road per neighbour, in order, each from the neighbour to the node |
| Network.Graph.SpawnFrom | Assets/Scripts/Control/BoardManager.cs:126-131 | the node spawns its roads only on an even row |
| Network.Graph.SpawnRoads | Assets/Scripts/Control/BoardManager.cs:122-132 | the roads are exactly SpawnedEdges of the walk, neighbour lists unchanged |
| Network.Graph.PlaceVillage | Assets/Scripts/Node.cs:80-143 | for the current player and their own ledger: unless the node is buildable and, after preparation, the village affordable, nothing changes; otherwise Settled, settlement and point added, the node's buildable roads granted, yield raised, cost discarded after preparation |
| Network.Graph.BuildVillage | Assets/Scripts/Node.cs:94-142 | the effects of PlaceVillage once the guards have passed, charged to the current player's own ledger |
| Network.Graph.Occupy | Assets/Scripts/Node.cs:94-119 | the nodes become Settled, the player lists the settlement and scores a point |
| Network.Graph.PlaceTown | Assets/Scripts/Node.cs:145-179 | for the current player and their own ledger: unless the node is upgradeable and the current player's, nothing changes; otherwise it stops being upgradeable, yield raised, a point scored, the town cost charged |
| Network.Graph.PlaceRoad | Assets/Scripts/RoadProperties.cs:60-138 | for the current player and their own ledger: unless the road is buildable and, after preparation, affordable, nothing changes; otherwise owned and unbuildable, RoadPlacedAccess, Reached, cost charged after preparation |
| Network.Graph.LayRoad | Assets/Scripts/RoadProperties.cs:74-127 | the road is owned and unbuildable, the access array is RoadPlacedAccess and the player's nodes Reached |
| Network.Graph.OpenEnd | Assets/Scripts/RoadProperties.cs:99-126 | an end without a building joins the player's nodes and grants its open roads through the given node |
| Network.Graph.PlaceBuildingOnEndNode | Assets/Scripts/RoadProperties.cs:146-156 | a building by another player than the road's owner removes that node's entry; otherwise nothing changes |
| Network.Graph.Settle | Assets/Scripts/Node.cs:97-113 | the nodes become Settled |
| Network.Graph.GrantRoadsAround | Assets/Scripts/Node.cs:124-131 | the player's dictionary gains exactly the node's open roads, through the given node |
| Network.Graph.GrantNext | Assets/Scripts/Node.cs:125-130 | granting one more road keeps the remaining grant equal |

## Behaviour kept as written

The source has several slips. The model keeps each one, because the rest of
the game depends on the code as it stands. A lemma states each consequence:

- **The resource total is the ORE count.** GetTotalAmountOfRessources
  assigns each count instead of adding it up (Assets/Scripts/Player/PlayerRessources.cs:50).
  The bandit rule therefore counts only ORE.
  - `Ledger.AsWrittenTotalUndercounts` shows this count is at most the true
    total, and equal to it only when the player holds nothing but ore.
  - `Ledger.NineWoodEscapeBandit` gives a pile of nine cards that the bandit
    leaves alone.
  - `Ledger.BanditDiscardEffect` states the discard on the ORE count.
- **Sandsturm is weighted 1.0.** Its weight is written `01f`
  (Assets/Scripts/Control/DisasterManager.cs:30). By `Disasters.ReachableDisasters`,
  only Wolfsrudel to Sandsturm can ever be drawn, so Tornado and Tsunami never
  come.
- **The last development card is never removed.**
  - `DevelopmentCards.FetchAccounts` shows the last card is handed out
    without being removed.
  - `DevelopmentCards.DeckNeverEmpties` shows a deck holding a card never
    runs empty.
- **The second end of a road is recorded through the first.** PlaceRoad
  records the roads around its second end node as reached through the
  first (Assets/Scripts/RoadProperties.cs:122). See
  `Network.SecondEndNeverRecorded`.
- **The surrounding-tile lookup checks one cell and adds another**
  (Assets/Scripts/Control/BoardManager.cs:293-294). `BoardLayout.SurroundingAddsNull`
  gives a grid where a null joins the list.
- **The dice never show 12.** `Random.Range(2, 12)` excludes its upper
  bound (Assets/Scripts/Player/Player.cs:157). `Players.DiceValues` shows the
  throws are exactly 2 to 11.
- **GetDevCardDetails lets index == Count through its guard**
  (Assets/Scripts/Control/DevelopmentCardsManager.cs:105). `DevelopmentCards.GuardAdmitsCount`
  shows the read then fails.
- **PlaceTown does not check the town cost itself.** It discards the cost
  clamped at zero (Assets/Scripts/Node.cs:145-179). Its only caller,
  Settlement.Update (Assets/Scripts/Settlement.cs:26-30), is gated by the
  settlement's upgradeability flag (Assets/Scripts/Settlement.cs:48). That flag
  is set from the town cost (Assets/Scripts/Player/Player.cs:131) after each
  change to the ledger, but only while its owner is the current player
  (Assets/Scripts/Player/Player.cs:119). A robbery or a bandit discard during
  another player's turn therefore leaves the flag stale, and a stale flag lets
  PlaceTown run. `Network.TownForFree` shows that the player then gets the
  town without the cards. The gate itself is not part of this model.
- **A trade can take two rates for one card.** A receive click on r turns
  discard button r on (Assets/Scripts/Control/TradingManager.cs:227). Taking
  that choice back with a discard click on r (TradingManager.cs:127-143)
  does not turn it off again. A second click on it chooses r to give while
  the rate already taken off the first resource stays off.
  - `Trading.SecondDiscardForgetsFirst` shows the panel then no longer
    accounts for the first resource.
  - `Trading.RedoneDiscardLosesCards` gives the clicks that turn 4 wood and
    4 clay into 1 wood and 0 clay.
  - `Trading.DiscardClickPending` and `Trading.TradeEffect` hold for every
    other sequence of clicks.

The deck holds 8 POINTS cards (Assets/Scripts/Control/DevelopmentCardsManager.cs:25-34);
see `DevelopmentCards.InitialDeckContents`.

## Left out

- Rendering, visibility, colliders, colours, `Instantiate`/`Destroy`, hover and click handlers, the UI and camera scripts, and the trading panel's text and button colours: none of them changes game state.
- The trading panel's receive-button flags, and the discard-button flags after a click: only the flags InitialisePanel sets are modelled (`Trading.DiscardButtonsFor`).
- Awake/Start singleton wiring, scene lookups (`GameObject.Find`), and the menu board: start-up plumbing.
- `WaitForSeconds` in ProhibitTilesFromYielding and the wait loop of ProcessDisaster: coroutines are modelled as their steps run one after the other.
- `UnityEngine.Random` and `System.Random`: every draw is an oracle parameter, so each contract holds for every outcome.
- Float arithmetic: disaster weights and the random rolls are whole hundredths, so the tornado's stop test `roll <= (3-n)*0.33f` becomes `roll <= (3-n)*33`; rounding of single-precision floats is not modelled.
- JSON parsing of the development-card catalogue: the catalogue is a constructor parameter of `DevelopmentCards.DevelopmentCardsManager`.
- Parsing of "row_column" node names: a node's handle is its (row, column) pair.
- Object identity and aliasing of Tile, Node and RoadProperties objects: they are records kept by handle in the board and in the graph, so two references to one object cannot be told apart from two objects.
- `AccessibleRoadsByEndNode` is never filled anywhere in the source, and `PlaceBuildingOnEndNode` is never called. `Network.Graph.PlaceBuildingOnEndNode` models the removal on its own.
- Network.Graph.PlaceRoad: requires every RoadManager slot to hold a dictionary (`Ready`). The game fills all slots at start-up, and a null slot would throw.
- RoadAccess.RoadManager.AddAccessibleRoadForPlayer: requires the player's slot to hold a dictionary, for the same reason as PlaceRoad.
- RoadAccess.RoadManager.RemoveAccessibleRoadForPlayers: requires every slot to hold a dictionary (`Ready`), for the same reason as PlaceRoad.
- RoadAccess.RoadManager.RemoveAccessibleRoadThroughNode: requires every slot to hold a dictionary (`Ready`), for the same reason as PlaceRoad.
- Trading.DiscardClickPending: the interactable flags of the panel's buttons after each click are not modelled. The lemma names the discard clicks it covers instead of deriving the clicks on offer from the flags. SecondDiscardForgetsFirst covers the one discard click left over.
- Trading.TradeEffect: holds only for panels that kept the account, for the same reason as DiscardClickPending. The trade reachable outside it is RedoneDiscardLosesCards.
- RoadAccess.RoadManager.InitialiseRoadDictionary: requires every ID to be at most the number of IDs. A larger ID would index past the array and throw, and the players are numbered 1 to N.
- Disasters.DisasterManager.ProcessGameTurn: requires the roll oracle to contain a draw that differs from the previous disaster (`Redrawable`). Otherwise the redraw loop of InitialiseDisaster would never end.
- Network.Open: treats a road handle past the spawned roads as closed. Such a handle cannot occur, because every node lists only spawned roads (`Network.ListedRoads`).
- Ledger.PlayerResources.AddResource: requires a tradeable kind; NONE has no entry in the ledger's dictionary, so the source would throw KeyNotFoundException.
- Ledger.PlayerResources.DiscardResource: requires a tradeable kind; NONE has no entry in the ledger's dictionary, so the source would throw KeyNotFoundException.
- Boards.Board.SpawnBoard: requires at least as many spawn points as dealt tiles, each on the board. The source only logs a length mismatch and then throws when it indexes a missing spawn point or a cell outside the position array.
- Boards.Board.GetTilesByType: requires a producing type; DESERT would index past the 5-slot array and throw.
- Boards.Board.PlaceBandit: requires a bandit tile to be recorded; the source dereferences the old bandit tile and would throw on null; a spawned layout with a desert always records one.
- Boards.Board.MoveBandit: requires a bandit tile to be recorded, for the same reason as PlaceBandit.
- The upgradeability flag of Settlement and its refresh in Player.ShowBuildableStructuresIfRessourcesSatisfied: a display gate outside the modelled operations; PlaceTown is modelled as callable whenever its own guards pass.
- Trading.TradingManager.InitialisePanel and Trading.TradingManager.UIButtonPerformTradeClicked: the model takes one ledger for both reads of the source, the current player's PlayerRessources when the panel opens (Assets/Scripts/Control/TradingManager.cs:96-98) and the component found from the panel when the trade is written back (Assets/Scripts/Control/TradingManager.cs:180); it assumes they are the same component.
- Debug log messages: only the state changes on the paths they mark are modelled.
