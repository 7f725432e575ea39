/**
 The game record of the Battleship API and the two request handlers that
 change it: `make_move` and `cancel_game`.

 The board rules of GameLogic are not part of this model. Their verdicts
 enter as a `Logic` value: whether the mover is the player on turn, which
 shot was fired and what it hit, and the two ships-remaining counters as
 GameLogic leaves them. Timestamps are integer microseconds.
 */
module Games {
  import opened Wrappers

  /** A registered user: `key` stands for its datastore key. */
  datatype User = User(key: nat, name: string)

  /** A player slot of a game; `None` is the computer opponent. */
  type Player = Option<User>

  /** The name shown for a player slot. */
  function NameOf(p: Player): string {
    match p
    case Some(u) => u.name
    case None => "Computer"
  }

  /** Position `i` holds the first user called `name`. */
  predicate IsFirstNamed(users: seq<User>, i: int, name: string) {
    0 <= i < |users| && users[i].name == name && forall j :: 0 <= j < i ==> users[j].name != name
  }

  /**
   The query `User.name == name` followed by `get()`: the first user, in
   query order, with that name, or `None` when there is none.
   */
  function FindUser(users: seq<User>, name: string): (r: Option<User>)
    ensures r.None? <==> forall u :: u in users ==> u.name != name
    ensures r.Some? ==> exists i :: IsFirstNamed(users, i, name) && users[i] == r.value
  {
    if users == [] then None
    else if users[0].name == name then Some(users[0])
    else
      var r := FindUser(users[1..], name);
      assert forall u :: u in users ==> u == users[0] || u in users[1..];
      if r.Some? then
        var i :| IsFirstNamed(users[1..], i, name) && users[1..][i] == r.value;
        assert users[i + 1] == r.value;
        assert forall j :: 1 <= j < i + 1 ==> users[j] == users[1..][j - 1];
        assert IsFirstNamed(users, i + 1, name);
        r
      else
        r
  }

  /** One entry of a game's history. */
  datatype HistoryEntry = HistoryEntry(player: string, move: string, isShipDestroyed: bool)

  /** The shot as GameLogic.make_move reports it. */
  datatype Shot = Shot(move: string, isShipHit: bool, shipBeingHit: string, isShipDestroyed: bool)

  /**
   What GameLogic decides for one move request: its turn check, the shot,
   and the two counters after set_new_ships_remaining. `isCorrectPlayer`
   means the verdict of is_correct_player is not the literal `False`: the
   code refuses a move only on `is False`, so a falsy `None` lets it through.
   */
  datatype Logic = Logic(
    isCorrectPlayer: bool,
    shot: Shot,
    player1ShipsRemaining: int,
    player2ShipsRemaining: int)

  /** A snapshot of a game record, as the datastore stores and returns it. */
  datatype GameState = GameState(
    player1: Player,
    player2: Player,
    currentPlayer: Player,
    gameOver: bool,
    cancelled: bool,
    winner: Player,
    player1ShipsRemaining: int,
    player2ShipsRemaining: int,
    history: seq<HistoryEntry>,
    lastMove: int)

  /** A game that is neither over nor cancelled. */
  predicate IsActive(g: GameState) {
    !g.gameOver && !g.cancelled
  }

  /** The answer sent back: a game-over form or a game-move form, with its message. */
  datatype Reply =
    | GameOverForm(message: string)
    | GameMoveForm(message: string, isPlayer1Move: bool)

  /** The task queued to remind the next player to move. */
  datatype Notification = Notification(playerToMove: string)

  datatype MoveResult = MoveResult(game: GameState, reply: Reply, notification: Option<Notification>)

  datatype CancelResult = CancelResult(game: GameState, reply: Reply)

  const HIT_PREFIX := " has hit the "
  const SUNK_SUFFIX := " and sunk it"

  /** The part of the outcome message that names what the shot hit. */
  function Target(opponent: string, shot: Shot): string {
    if shot.isShipHit then shot.shipBeingHit + " of " + opponent else "nothing"
  }

  /**
   The outcome message of an accepted move: the mover's name and
   " has hit the ", then the target, then " and sunk it" when the shot
   destroyed a ship.
   */
  function HitMessage(mover: string, opponent: string, shot: Shot): (m: string)
    ensures var head := mover + HIT_PREFIX; var target := Target(opponent, shot);
      && |m| == |head| + |target| + (if shot.isShipDestroyed then |SUNK_SUFFIX| else 0)
      && m[..|head|] == head
      && m[|head|..|head| + |target|] == target
      && m[|head| + |target|..] == (if shot.isShipDestroyed then SUNK_SUFFIX else "")
  {
    var msg := mover + HIT_PREFIX + Target(opponent, shot);
    if shot.isShipDestroyed then msg + SUNK_SUFFIX else msg
  }

  /** The player who moves, and the one who moves next. */
  function Mover(g: GameState, isPlayer1Move: bool): Player {
    if isPlayer1Move then g.player1 else g.player2
  }

  function Opponent(g: GameState, isPlayer1Move: bool): Player {
    if isPlayer1Move then g.player2 else g.player1
  }

  /** The move passes the three checks: not over, not cancelled, the mover's turn. */
  predicate Accepts(g: GameState, logic: Logic) {
    IsActive(g) && logic.isCorrectPlayer
  }

  /** A game ends once either fleet is exhausted. */
  predicate FleetExhausted(player1ShipsRemaining: int, player2ShipsRemaining: int) {
    player1ShipsRemaining < 1 || player2ShipsRemaining < 1
  }

  /** `end_game`: the record is over and remembers its winner. */
  function GameEnded(g: GameState, winner: Player): (r: GameState)
    ensures r.gameOver && r.winner == winner
    ensures r.(gameOver := g.gameOver, winner := g.winner) == g
  {
    g.(gameOver := true, winner := winner)
  }

  /**
   `make_move` on a snapshot: what the record becomes, the reply, and the
   reminder that is queued.
   */
  function Move(g: GameState, isPlayer1Move: bool, logic: Logic, now: int): (r: MoveResult)
    // Refusals, checked in the order over, cancelled, turn; the record is untouched.
    ensures g.gameOver ==> r == MoveResult(g, GameOverForm("Game already over!"), None)
    ensures !g.gameOver && g.cancelled ==>
      r == MoveResult(g, GameOverForm("Game already cancelled!"), None)
    ensures IsActive(g) && !logic.isCorrectPlayer ==>
      r == MoveResult(g, GameMoveForm("It is not your turn!", isPlayer1Move), None)
    // An accepted move appends exactly one entry and stamps the time.
    ensures Accepts(g, logic) ==>
      && r.game.history == g.history + [HistoryEntry(NameOf(Mover(g, isPlayer1Move)), logic.shot.move, logic.shot.isShipDestroyed)]
      && r.game.lastMove == now
      && r.game.player1ShipsRemaining == logic.player1ShipsRemaining
      && r.game.player2ShipsRemaining == logic.player2ShipsRemaining
      && r.game.player1 == g.player1 && r.game.player2 == g.player2
      && !r.game.cancelled
      && (r.game.gameOver <==> FleetExhausted(logic.player1ShipsRemaining, logic.player2ShipsRemaining))
    // The game ends: player2 wins whenever player1's fleet is exhausted.
    ensures Accepts(g, logic) && FleetExhausted(logic.player1ShipsRemaining, logic.player2ShipsRemaining) ==>
      && r.game.winner == (if logic.player1ShipsRemaining < 1 then g.player2 else g.player1)
      && r.game.currentPlayer == g.currentPlayer
      && r.reply == GameOverForm("Game over! " + NameOf(r.game.winner) + " wins!")
      && r.notification == None
    // The game goes on: the turn passes, and only a human opponent is reminded.
    ensures Accepts(g, logic) && !FleetExhausted(logic.player1ShipsRemaining, logic.player2ShipsRemaining) ==>
      var next := Opponent(g, isPlayer1Move);
      && r.game.currentPlayer == next
      && r.game.winner == g.winner
      && (r.notification.Some? <==> next.Some?)
      && (r.notification.Some? ==> r.notification.value.playerToMove == NameOf(next))
      && r.reply == GameMoveForm(
           HitMessage(NameOf(Mover(g, isPlayer1Move)), NameOf(next), logic.shot) + "! " + NameOf(next) + "'s turn",
           isPlayer1Move)
  {
    if g.gameOver then MoveResult(g, GameOverForm("Game already over!"), None)
    else if g.cancelled then MoveResult(g, GameOverForm("Game already cancelled!"), None)
    else if !logic.isCorrectPlayer then
      MoveResult(g, GameMoveForm("It is not your turn!", isPlayer1Move), None)
    else
      var moverName := NameOf(Mover(g, isPlayer1Move));
      var next := Opponent(g, isPlayer1Move);
      var nextName := NameOf(next);
      var msg := HitMessage(moverName, nextName, logic.shot);
      var moved := g.(
        player1ShipsRemaining := logic.player1ShipsRemaining,
        player2ShipsRemaining := logic.player2ShipsRemaining,
        history := g.history + [HistoryEntry(moverName, logic.shot.move, logic.shot.isShipDestroyed)],
        lastMove := now);
      if FleetExhausted(moved.player1ShipsRemaining, moved.player2ShipsRemaining) then
        var winner := if moved.player1ShipsRemaining < 1 then g.player2 else g.player1;
        MoveResult(GameEnded(moved, winner), GameOverForm("Game over! " + NameOf(winner) + " wins!"), None)
      else
        MoveResult(
          moved.(currentPlayer := next),
          GameMoveForm(msg + "! " + nextName + "'s turn", isPlayer1Move),
          if next.Some? then Some(Notification(nextName)) else None)
  }

  /** `cancel_game` on a snapshot. */
  function CancelGame(g: GameState): (r: CancelResult)
    ensures g.gameOver ==> r == CancelResult(g, GameOverForm("Game already over!"))
    ensures !g.gameOver && g.cancelled ==> r == CancelResult(g, GameOverForm("Game already cancelled!"))
    ensures IsActive(g) ==>
      && r.game.cancelled
      && r.game.(cancelled := false) == g
      && r.reply == GameOverForm("Game Cancelled!")
  {
    if g.gameOver then CancelResult(g, GameOverForm("Game already over!"))
    else if g.cancelled then CancelResult(g, GameOverForm("Game already cancelled!"))
    else CancelResult(g.(cancelled := true), GameOverForm("Game Cancelled!"))
  }

  /** A request against one game. */
  datatype Request =
    | MoveRequest(isPlayer1Move: bool, logic: Logic, now: int)
    | CancelRequest

  function Apply(g: GameState, req: Request): GameState {
    match req
    case MoveRequest(isPlayer1Move, logic, now) => Move(g, isPlayer1Move, logic, now).game
    case CancelRequest => CancelGame(g).game
  }

  /** The record after serving `reqs` in order. */
  function Run(g: GameState, reqs: seq<Request>): GameState
    decreases |reqs|
  {
    if reqs == [] then g else Run(Apply(g, reqs[0]), reqs[1..])
  }

  /** Over and cancelled are terminal: no request changes such a record. */
  lemma {:induction false} FinishedGameIsFrozen(g: GameState, reqs: seq<Request>)
    requires !IsActive(g)
    ensures Run(g, reqs) == g
    decreases |reqs|
  {
    if reqs != [] {
      assert Apply(g, reqs[0]) == g;
      FinishedGameIsFrozen(g, reqs[1..]);
    }
  }

  /** History is append-only, and grows by at most one entry per request. */
  lemma {:induction false} HistoryIsAppendOnly(g: GameState, reqs: seq<Request>)
    ensures var h := Run(g, reqs).history;
      |g.history| <= |h| <= |g.history| + |reqs| && h[..|g.history|] == g.history
    decreases |reqs|
  {
    if reqs != [] {
      var g' := Apply(g, reqs[0]);
      assert |g.history| <= |g'.history| <= |g.history| + 1 && g'.history[..|g.history|] == g.history;
      HistoryIsAppendOnly(g', reqs[1..]);
      var h := Run(g, reqs).history;
      assert h[..|g'.history|] == g'.history;
      assert h[..|g.history|] == g'.history[..|g.history|];
    }
  }

  /** A record is never both over and cancelled. */
  lemma {:induction false} NeverOverAndCancelled(g: GameState, reqs: seq<Request>)
    requires !(g.gameOver && g.cancelled)
    ensures var r := Run(g, reqs); !(r.gameOver && r.cancelled)
    decreases |reqs|
  {
    if reqs != [] {
      NeverOverAndCancelled(Apply(g, reqs[0]), reqs[1..]);
    }
  }

  /** The game record that the handlers update in place. */
  class Game {
    var player1: Player
    var player2: Player
    var currentPlayer: Player
    var gameOver: bool
    var cancelled: bool
    var winner: Player
    var player1ShipsRemaining: int
    var player2ShipsRemaining: int
    var history: seq<HistoryEntry>
    var lastMove: int

    function Snapshot(): GameState
      reads this
    {
      GameState(player1, player2, currentPlayer, gameOver, cancelled, winner,
                player1ShipsRemaining, player2ShipsRemaining, history, lastMove)
    }

    /** Loads a stored record. */
    constructor (g: GameState)
      ensures Snapshot() == g
    {
      player1, player2, currentPlayer := g.player1, g.player2, g.currentPlayer;
      gameOver, cancelled, winner := g.gameOver, g.cancelled, g.winner;
      player1ShipsRemaining, player2ShipsRemaining := g.player1ShipsRemaining, g.player2ShipsRemaining;
      history, lastMove := g.history, g.lastMove;
    }

    method EndGame(w: Player)
      modifies this
      ensures Snapshot() == GameEnded(old(Snapshot()), w)
    {
      gameOver := true;
      winner := w;
    }

    /** `make_move`: serves one move request against this record. */
    method MakeMove(isPlayer1Move: bool, logic: Logic, now: int) returns (reply: Reply, notification: Option<Notification>)
      modifies this
      ensures MoveResult(Snapshot(), reply, notification) == Move(old(Snapshot()), isPlayer1Move, logic, now)
    {
      notification := None;
      if gameOver {
        reply := GameOverForm("Game already over!");
        return;
      }
      if cancelled {
        reply := GameOverForm("Game already cancelled!");
        return;
      }
      if !logic.isCorrectPlayer {
        reply := GameMoveForm("It is not your turn!", isPlayer1Move);
        return;
      }
      player1ShipsRemaining, player2ShipsRemaining := logic.player1ShipsRemaining, logic.player2ShipsRemaining;
      var mover, next := player2, player1;
      if isPlayer1Move {
        mover, next := player1, player2;
      }
      var moverName, nextName := NameOf(mover), NameOf(next);
      var msg := HitMessage(moverName, nextName, logic.shot);
      history := history + [HistoryEntry(moverName, logic.shot.move, logic.shot.isShipDestroyed)];
      lastMove := now;
      if player1ShipsRemaining < 1 || player2ShipsRemaining < 1 {
        var winnerName;
        if player1ShipsRemaining < 1 {
          EndGame(player2);
          winnerName := NameOf(player2);
        } else {
          EndGame(player1);
          winnerName := NameOf(player1);
        }
        reply := GameOverForm("Game over! " + winnerName + " wins!");
      } else {
        currentPlayer := next;
        if currentPlayer.Some? {
          notification := Some(Notification(nextName));
        }
        reply := GameMoveForm(msg + "! " + nextName + "'s turn", isPlayer1Move);
      }
    }

    /** `cancel_game`: cancels this record if it is still active. */
    method Cancel() returns (reply: Reply)
      modifies this
      ensures CancelResult(Snapshot(), reply) == CancelGame(old(Snapshot()))
    {
      if gameOver {
        reply := GameOverForm("Game already over!");
      } else if cancelled {
        reply := GameOverForm("Game already cancelled!");
      } else {
        cancelled := true;
        reply := GameOverForm("Game Cancelled!");
      }
    }
  }
}
