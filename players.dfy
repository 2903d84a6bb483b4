/**
 * The players (Player.cs) and the turn order and scores kept by
 * PlayerManager.cs. Players have IDs 1 to N; the manager's dictionaries
 * keyed by Player objects are keyed by those IDs here.
 *
 * The preparation round runs the players in a snake, 1 up to N and then N
 * back down to 1; after it, turns go round from 1 to N and back to 1.
 */
module Players {
  import opened Seqs
  import NodeGrid
  import TileModel
  import Boards
  import Ledger
  import Randomness

  type PlayerId = TileModel.PlayerId
  type NodeId = NodeGrid.NodeId

  /** pointsToWinGame as the scene sets it. */
  const PointsToWinGame: int := 8

  /** Where the preparation round stands: whose turn it is, whether the order runs backwards, whether the round is over. */
  datatype Seat = Seat(current: PlayerId, reverse: bool, finished: bool)

  /** The start of the game: player 1, going forwards, preparing. */
  const FirstSeat: Seat := Seat(1, false, false)

  /**
   * PlayerHasFinished during the preparation round, with n players. Player 1
   * finishing while the order runs backwards ends the round (player 1 then
   * opens the main round); the last player finishing while going forwards
   * turns the order round and plays again; otherwise the next player in
   * the current direction is on.
   */
  function PrepStep(s: Seat, n: int): (r: Seat)
  {
    if s.reverse && s.current == 1 then s.(finished := true)
    else if s.current == n && !s.reverse then s.(reverse := true)
    else if s.reverse then s.(current := s.current - 1)
    else s.(current := s.current + 1)
  }

  /**
   * The seat after k players have finished their preparation turn: players
   * 1 to n go forwards, then n down to 1 backwards, and after 2n turns the
   * round is over with player 1 on.
   */
  function {:induction false} SeatAfter(n: int, k: nat): (s: Seat)
    requires n >= 1 && k <= 2 * n
    ensures k < n ==> s == Seat(k + 1, false, false)
    ensures n <= k < 2 * n ==> s == Seat(2 * n - k, true, false)
    ensures k == 2 * n ==> s == Seat(1, true, true)
  {
    if k == 0 then FirstSeat else PrepStep(SeatAfter(n, k - 1), n)
  }

  /** The players in the order they take their preparation turns. */
  function PrepOrder(n: int): (order: seq<PlayerId>)
    requires n >= 1
    ensures |order| == 2 * n
    ensures forall k :: 0 <= k < 2 * n ==> order[k] == SeatAfter(n, k).current
  {
    seq(2 * n, k requires 0 <= k < 2 * n => SeatAfter(n, k).current)
  }

  /** Every player places twice: once on the way up and once on the way down, in mirrored positions. */
  lemma PrepOrderMirrored(n: int, k: nat)
    requires n >= 1 && k < n
    ensures PrepOrder(n)[k] == k + 1 && PrepOrder(n)[2 * n - 1 - k] == k + 1
  {
  }

  /** With the four players of the game the order is 1, 2, 3, 4, 4, 3, 2, 1. */
  lemma FourPlayerSnake()
    ensures PrepOrder(4) == [1, 2, 3, 4, 4, 3, 2, 1]
  {
    var order := PrepOrder(4);
    assert order[0] == 1 && order[1] == 2 && order[2] == 3 && order[3] == 4;
    assert order[4] == 4 && order[5] == 3 && order[6] == 2 && order[7] == 1;
  }

  /** ActivateNextPlayer with n players: the next ID, with n + 1 wrapping round to 1. */
  function NextPlayer(id: PlayerId, n: int): (r: PlayerId)
    ensures 1 <= id <= n ==> 1 <= r <= n && r == id % n + 1
  {
    if id + 1 == n + 1 then 1 else id + 1
  }

  /** The player on after k turns of the main round, starting from id. */
  function PlayerAfter(id: PlayerId, n: int, k: nat): (r: PlayerId)
    ensures 1 <= id <= n ==> 1 <= r <= n
  {
    if k == 0 then id else NextPlayer(PlayerAfter(id, n, k - 1), n)
  }

  /** Going up without passing the last player, each turn moves to the next ID. */
  lemma {:induction false} PlayerAfterUp(id: PlayerId, n: int, k: nat)
    requires 1 <= id && id + k <= n
    ensures PlayerAfter(id, n, k) == id + k
  {
    if k > 0 {
      PlayerAfterUp(id, n, k - 1);
    }
  }

  lemma {:induction false} PlayerAfterAdd(id: PlayerId, n: int, a: nat, b: nat)
    ensures PlayerAfter(id, n, a + b) == PlayerAfter(PlayerAfter(id, n, a), n, b)
  {
    if b > 0 {
      PlayerAfterAdd(id, n, a, b - 1);
    }
  }

  /** From player id, player q is on within n turns. */
  lemma {:induction false} EveryPlayerComes(id: PlayerId, n: int, q: PlayerId)
    requires 1 <= id <= n && 1 <= q <= n
    ensures q >= id ==> PlayerAfter(id, n, q - id) == q
    ensures q < id ==> PlayerAfter(id, n, n - id + q) == q
  {
    if q >= id {
      PlayerAfterUp(id, n, q - id);
    } else {
      PlayerAfterWraps(id, n, q);
    }
  }

  /** Going past the last player: up to n, back to 1, then up to q. */
  lemma {:induction false} PlayerAfterWraps(id: PlayerId, n: int, q: PlayerId)
    requires 1 <= q < id <= n
    ensures PlayerAfter(id, n, n - id + q) == q
  {
    PlayerAfterUp(id, n, n - id);
    PlayerAfterAdd(id, n, n - id, 1);
    PlayerAfterAdd(id, n, n - id + 1, q - 1);
    PlayerAfterUp(1, n, q - 1);
  }

  /** After n turns of the main round the same player is on again. */
  lemma {:induction false} RoundReturns(id: PlayerId, n: int)
    requires 1 <= id <= n
    ensures PlayerAfter(id, n, n) == id
  {
    PlayerAfterUp(id, n, n - id);
    PlayerAfterAdd(id, n, n - id, 1);
    PlayerAfterAdd(id, n, n - id + 1, id - 1);
    PlayerAfterUp(1, n, id - 1);
  }

  /** Every player 1 to n on a fresh score of 0. */
  function ZeroScores(n: int): (m: map<PlayerId, int>)
    ensures forall p :: p in m <==> 1 <= p <= n
    ensures forall p :: p in m ==> m[p] == 0
  {
    if n < 1 then map[] else ZeroScores(n - 1)[n := 0]
  }

  /** DeclareAsWinner for p and DeclareAsLoser for every other player. */
  function Declared(players: set<PlayerId>, p: PlayerId): (m: map<PlayerId, bool>)
    ensures forall q :: q in m <==> q in players
    ensures forall q :: q in m ==> (m[q] <==> q == p)
  {
    map q | q in players :: q == p
  }

  /**
   * UpdatePlayerScore: an unknown player changes nothing; otherwise that
   * player's score moves by delta, and once it reaches win the player is
   * declared the winner and every other player a loser.
   */
  function ScoreUpdate(scores: map<PlayerId, int>, outcome: map<PlayerId, bool>, p: PlayerId, delta: int, win: int)
    : (r: (map<PlayerId, int>, map<PlayerId, bool>))
    ensures p !in scores ==> r == (scores, outcome)
    ensures p in scores ==> r.0 == scores[p := scores[p] + delta]
    ensures p in scores && scores[p] + delta < win ==> r.1 == outcome
    ensures p in scores && scores[p] + delta >= win ==>
      && (forall q :: q in r.1 <==> q in outcome || q in scores)
      && r.1[p]
      && (forall q :: q in scores && q != p ==> !r.1[q])
      && (forall q :: q in outcome && q !in scores ==> r.1[q] == outcome[q])
  {
    if p !in scores then (scores, outcome)
    else
      var s := scores[p := scores[p] + delta];
      if s[p] >= win then (s, outcome + Declared(scores.Keys, p))
      else (s, outcome)
  }

  /** Adding points and taking the same points away restores the score, as long as nobody won in between. */
  lemma AddThenSubtract(scores: map<PlayerId, int>, outcome: map<PlayerId, bool>, p: PlayerId, points: int, win: int)
    requires p in scores && scores[p] < win && scores[p] + points < win
    ensures var (s, o) := ScoreUpdate(scores, outcome, p, points, win);
      ScoreUpdate(s, o, p, -1 * points, win) == (scores, outcome)
  {
    var (s, o) := ScoreUpdate(scores, outcome, p, points, win);
    assert s[p := s[p] + -1 * points] == scores;
  }

  /** The values a throw of CastDice can show: Random.Range(2, 12) gives 2 up to 11, never 12. */
  lemma DiceValues(v: int)
    ensures (exists u: nat :: Randomness.RangeInt(2, 12, u) == v) <==> 2 <= v <= 11
  {
    if 2 <= v <= 11 {
      Randomness.RangeIntCovers(2, 12, v);
    }
  }

  class PlayerManager {
    /** CurrentPlayerID. */
    var currentPlayerID: PlayerId
    /** PlayerFromID.Count: the players are 1 to count. */
    var count: int
    /** PlayerScores. */
    var scores: map<PlayerId, int>
    /** The last DeclareAsWinner (true) or DeclareAsLoser (false) of each player. */
    var outcome: map<PlayerId, bool>
    var preparationRoundFinished: bool
    var reverseSettingPlayers: bool
    var disasterIsProcessed: bool
    const pointsToWinGame: int

    ghost predicate Valid()
      reads this`count, this`currentPlayerID, this`scores
    {
      && count >= 1
      && 1 <= currentPlayerID <= count
      && (forall p :: p in scores <==> 1 <= p <= count)
    }

    /** The preparation state as a seat. */
    function CurrentSeat(): Seat
      reads this
    {
      Seat(currentPlayerID, reverseSettingPlayers, preparationRoundFinished)
    }

    /** Start and InstantiateMockUpPlayers for players 1 to n: player 1 is on and every score is 0. */
    constructor (n: int)
      requires n >= 1
      ensures Valid() && CurrentSeat() == FirstSeat && count == n
      ensures scores == ZeroScores(n) && outcome == map[]
      ensures pointsToWinGame == PointsToWinGame && !disasterIsProcessed
    {
      currentPlayerID := 1;
      count := n;
      scores := ZeroScores(n);
      outcome := map[];
      preparationRoundFinished := false;
      reverseSettingPlayers := false;
      disasterIsProcessed := false;
      pointsToWinGame := PointsToWinGame;
    }

    method UpdatePlayerScore(p: PlayerId, delta: int)
      modifies this`scores, this`outcome
      ensures (scores, outcome) == ScoreUpdate(old(scores), old(outcome), p, delta, pointsToWinGame)
    {
      if p !in scores {
        return;
      }
      scores := scores[p := scores[p] + delta];
      assert scores.Keys == old(scores).Keys;
      if scores[p] >= pointsToWinGame {
        outcome := outcome + Declared(scores.Keys, p);
      }
    }

    /**
     * The preparation branch of PlayerHasFinished, apart from what happens
     * when the round ends (every tile yields), which the caller does.
     */
    method FinishPreparationTurn()
      requires Valid() && !preparationRoundFinished
      modifies this`currentPlayerID, this`reverseSettingPlayers, this`preparationRoundFinished
      ensures Valid() && CurrentSeat() == PrepStep(old(CurrentSeat()), count)
    {
      if reverseSettingPlayers && currentPlayerID == 1 {
        preparationRoundFinished := true;
        return;
      }
      if currentPlayerID == count && !reverseSettingPlayers {
        reverseSettingPlayers := true;
        return;
      }
      currentPlayerID := if reverseSettingPlayers then currentPlayerID - 1 else currentPlayerID + 1;
    }

    method ActivateNextPlayer()
      requires Valid()
      modifies this`currentPlayerID
      ensures Valid() && currentPlayerID == NextPlayer(old(currentPlayerID), count)
    {
      currentPlayerID := currentPlayerID + 1;
      if currentPlayerID == count + 1 {
        currentPlayerID := 1;
      }
    }

    method SetDisasterIsProcessed(isDisasterProcessed: bool)
      modifies this`disasterIsProcessed
      ensures disasterIsProcessed == isDisasterProcessed
    {
      disasterIsProcessed := isDisasterProcessed;
    }
  }

  class Player {
    const id: PlayerId
    /** PlayerRessources: the ledger component of the same game object, fixed at start-up. */
    const playerResources: Ledger.PlayerResources
    /** AccessibleNodes. */
    var accessibleNodes: seq<NodeId>
    /** AccessibleSettlements, each settlement named by the node it stands on. */
    var settlements: seq<NodeId>

    constructor (id: PlayerId, playerResources: Ledger.PlayerResources)
      ensures this.id == id && this.playerResources == playerResources
      ensures accessibleNodes == [] && settlements == []
    {
      this.id := id;
      this.playerResources := playerResources;
      accessibleNodes := [];
      settlements := [];
    }

    /** AddAcessibleNode: the node is listed afterwards, and never twice. */
    method AddAcessibleNode(node: NodeId)
      modifies this`accessibleNodes
      ensures accessibleNodes == AddIfAbsent(old(accessibleNodes), node)
    {
      if node !in accessibleNodes {
        accessibleNodes := accessibleNodes + [node];
      }
    }

    /** AddSettlement: a settlement already listed is refused. */
    method AddSettlement(settlement: NodeId)
      modifies this`settlements
      ensures settlements == AddIfAbsent(old(settlements), settlement)
    {
      if settlement in settlements {
        return;
      }
      settlements := settlements + [settlement];
    }

    method AddPointsToPlayer(pm: PlayerManager, points: int)
      modifies pm`scores, pm`outcome
      ensures (pm.scores, pm.outcome) == ScoreUpdate(old(pm.scores), old(pm.outcome), id, points, pm.pointsToWinGame)
    {
      pm.UpdatePlayerScore(id, points);
    }

    method SubtractPointsFromPlayer(pm: PlayerManager, points: int)
      modifies pm`scores, pm`outcome
      ensures (pm.scores, pm.outcome) == ScoreUpdate(old(pm.scores), old(pm.outcome), id, -1 * points, pm.pointsToWinGame)
    {
      pm.UpdatePlayerScore(id, -1 * points);
    }

    /**
     * CastDice with random source u: the throw is Random.Range(2, 12), the
     * board processes it, and the turn may be finished unless a 7 was
     * thrown. draws are the bandit's random draws for a 7. ledgers stands
     * for PlayerManager.PlayerFromID with each player replaced by their own
     * playerResources: keys 1..count, the entry for ID i being player i's
     * ledger. Those are the ledgers BoardManager.ProcessDiceResult walks.
     */
    method CastDice(u: nat, board: Boards.Board, ledgers: map<PlayerId, Ledger.PlayerResources>, draws: map<PlayerId, seq<seq<nat>>>)
      returns (diceResult: int, finishAllowed: bool)
      requires board.Valid() && Ledger.LedgersValid(ledgers)
      requires Randomness.RangeInt(2, 12, u) == 7 ==> Ledger.DrawsFor(Ledger.Holdings(ledgers), draws, |ledgers| + 1)
      modifies ledgers.Values
      ensures diceResult == Randomness.RangeInt(2, 12, u) && 2 <= diceResult <= 11
      ensures finishAllowed <==> diceResult != 7
      ensures Ledger.LedgersValid(ledgers)
      ensures diceResult == 7 ==> Ledger.Holdings(ledgers) == Ledger.BanditRound(old(Ledger.Holdings(ledgers)), draws, |ledgers| + 1)
      ensures diceResult != 7 && diceResult !in board.tilesForDiceResult ==> Ledger.Holdings(ledgers) == old(Ledger.Holdings(ledgers))
      ensures diceResult != 7 && diceResult in board.tilesForDiceResult ==>
        Ledger.Holdings(ledgers) == TileModel.YieldedAll(old(Ledger.Holdings(ledgers)), board.tiles, board.tilesForDiceResult[diceResult])
    {
      diceResult := Randomness.RangeInt(2, 12, u);
      board.ProcessDiceResult(diceResult, ledgers, draws);
      finishAllowed := diceResult != 7;
    }
  }
}
