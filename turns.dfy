/**
 * PlayerManager.PlayerHasFinished and ProcessDisaster (Control/PlayerManager.cs):
 * what happens when the player on turn ends it. In the preparation round
 * the seat moves along the snake order, and when the round ends every tile
 * yields once; in the main round the disaster scheduler ticks once and
 * then the next player is activated.
 */
module Turns {
  import opened Players
  import opened Boards
  import opened TileModel
  import Disasters
  import Ledger

  /**
   * PlayerHasFinished. The wait of ProcessDisaster for the processed flag
   * is not a loop here: the tick sets the flag before it returns, so the
   * next player is activated right after it.
   */
  method PlayerHasFinished(pm: PlayerManager, dm: Disasters.DisasterManager, board: Board,
                           ledgers: map<PlayerId, Ledger.PlayerResources>, d: Disasters.TickDraws)
    requires pm.Valid() && board.Valid() && dm.Valid(board) && Ledger.LedgersValid(ledgers)
    requires pm.preparationRoundFinished ==>
      Disasters.BoardFits(board.tilesByKind, board.grid, board.coast, d)
      && Disasters.Redrawable(dm.currentDisaster, Disasters.Picks(d.rolls))
    modifies pm`currentPlayerID, pm`reverseSettingPlayers, pm`preparationRoundFinished, pm`disasterIsProcessed
    modifies dm, board`tiles, ledgers.Values
    ensures pm.Valid() && board.Valid() && dm.Valid(board) && Ledger.LedgersValid(ledgers)
    ensures old(pm.preparationRoundFinished) ==> pm.preparationRoundFinished
    ensures !old(pm.preparationRoundFinished) ==>
      && pm.CurrentSeat() == PrepStep(old(pm.CurrentSeat()), pm.count)
      && board.tiles == old(board.tiles) && dm.State() == old(dm.State())
      && Ledger.Holdings(ledgers) == (if pm.preparationRoundFinished
                                      then YieldedAll(old(Ledger.Holdings(ledgers)), board.tiles, SpawnOrder(|board.tiles|))
                                      else old(Ledger.Holdings(ledgers)))
    ensures old(pm.preparationRoundFinished) ==>
      && pm.disasterIsProcessed
      && pm.currentPlayerID == NextPlayer(old(pm.currentPlayerID), pm.count)
      && (dm.State(), board.tiles) == Disasters.Tick(old(dm.State()), old(board.tiles), old(dm.CandidatesOn(board, d)), d)
      && Ledger.Holdings(ledgers) == old(Ledger.Holdings(ledgers))
  {
    ghost var before := (dm.State(), board.tiles);
    if !pm.preparationRoundFinished {
      FinishPreparation(pm, board, ledgers);
      assert (dm.State(), board.tiles) == before;
      return;
    }
    MainRound(pm, dm, board, ledgers, d);
  }

  /** The main round branch: ProcessDisaster, which leaves every ledger as it was. */
  method MainRound(pm: PlayerManager, dm: Disasters.DisasterManager, board: Board,
                   ledgers: map<PlayerId, Ledger.PlayerResources>, d: Disasters.TickDraws)
    requires pm.Valid() && board.Valid() && dm.Valid(board) && Ledger.LedgersValid(ledgers)
    requires Disasters.BoardFits(board.tilesByKind, board.grid, board.coast, d)
    requires Disasters.Redrawable(dm.currentDisaster, Disasters.Picks(d.rolls))
    modifies pm`currentPlayerID, pm`disasterIsProcessed, dm, board`tiles
    ensures pm.Valid() && board.Valid() && dm.Valid(board) && Ledger.LedgersValid(ledgers)
    ensures pm.disasterIsProcessed
    ensures pm.currentPlayerID == NextPlayer(old(pm.currentPlayerID), pm.count)
    ensures (dm.State(), board.tiles) == Disasters.Tick(old(dm.State()), old(board.tiles), old(dm.CandidatesOn(board, d)), d)
    ensures Ledger.Holdings(ledgers) == old(Ledger.Holdings(ledgers))
  {
    ProcessDisaster(pm, dm, board, d);
    Ledger.LedgersKept(ledgers);
  }

  /** The preparation branch: the seat moves on, and when the round ends every tile yields once, in spawn order. */
  method FinishPreparation(pm: PlayerManager, board: Board, ledgers: map<PlayerId, Ledger.PlayerResources>)
    requires pm.Valid() && !pm.preparationRoundFinished && board.Valid() && Ledger.LedgersValid(ledgers)
    modifies pm`currentPlayerID, pm`reverseSettingPlayers, pm`preparationRoundFinished, ledgers.Values
    ensures pm.Valid() && Ledger.LedgersValid(ledgers)
    ensures pm.CurrentSeat() == PrepStep(old(pm.CurrentSeat()), pm.count)
    ensures Ledger.Holdings(ledgers) == (if pm.preparationRoundFinished
                                         then YieldedAll(old(Ledger.Holdings(ledgers)), board.tiles, SpawnOrder(|board.tiles|))
                                         else old(Ledger.Holdings(ledgers)))
  {
    pm.FinishPreparationTurn();
    Ledger.LedgersKept(ledgers);
    if pm.preparationRoundFinished {
      board.YieldAllTiles(ledgers);
    }
  }

  /**
   * PlayerFinished, the earlier variant of PlayerHasFinished: the same
   * preparation branch, but in the main round the disaster tick is switched
   * off, so the processed flag is cleared and stays cleared, and the next
   * player is activated at once.
   */
  method PlayerFinished(pm: PlayerManager, board: Board, ledgers: map<PlayerId, Ledger.PlayerResources>)
    requires pm.Valid() && board.Valid() && Ledger.LedgersValid(ledgers)
    modifies pm`currentPlayerID, pm`reverseSettingPlayers, pm`preparationRoundFinished, pm`disasterIsProcessed, ledgers.Values
    ensures pm.Valid() && Ledger.LedgersValid(ledgers)
    ensures old(pm.preparationRoundFinished) ==> pm.preparationRoundFinished
    ensures !old(pm.preparationRoundFinished) ==>
      && pm.CurrentSeat() == PrepStep(old(pm.CurrentSeat()), pm.count)
      && Ledger.Holdings(ledgers) == (if pm.preparationRoundFinished
                                      then YieldedAll(old(Ledger.Holdings(ledgers)), board.tiles, SpawnOrder(|board.tiles|))
                                      else old(Ledger.Holdings(ledgers)))
    ensures old(pm.preparationRoundFinished) ==>
      && !pm.disasterIsProcessed
      && pm.currentPlayerID == NextPlayer(old(pm.currentPlayerID), pm.count)
      && Ledger.Holdings(ledgers) == old(Ledger.Holdings(ledgers))
  {
    if !pm.preparationRoundFinished {
      FinishPreparation(pm, board, ledgers);
      return;
    }
    pm.SetDisasterIsProcessed(false);
    pm.ActivateNextPlayer();
  }

  /** ProcessDisaster: clear the processed flag, tick the scheduler, then activate the next player. */
  method ProcessDisaster(pm: PlayerManager, dm: Disasters.DisasterManager, board: Board, d: Disasters.TickDraws)
    requires pm.Valid() && board.Valid() && dm.Valid(board)
    requires Disasters.BoardFits(board.tilesByKind, board.grid, board.coast, d)
    requires Disasters.Redrawable(dm.currentDisaster, Disasters.Picks(d.rolls))
    modifies pm`currentPlayerID, pm`disasterIsProcessed, dm, board`tiles
    ensures pm.Valid() && board.Valid() && dm.Valid(board) && |board.tiles| == |old(board.tiles)|
    ensures pm.disasterIsProcessed
    ensures pm.currentPlayerID == NextPlayer(old(pm.currentPlayerID), pm.count)
    ensures (dm.State(), board.tiles) == Disasters.Tick(old(dm.State()), old(board.tiles), old(dm.CandidatesOn(board, d)), d)
  {
    ghost var lists := dm.CandidatesOn(board, d);
    pm.SetDisasterIsProcessed(false);
    assert dm.CandidatesOn(board, d) == lists && dm.State() == old(dm.State()) && board.tiles == old(board.tiles);
    dm.ProcessGameTurn(board, d, pm);
    ghost var after := (dm.State(), board.tiles);
    pm.ActivateNextPlayer();
    assert (dm.State(), board.tiles) == after;
  }
}
