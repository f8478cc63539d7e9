/**
 * Marble counting, the game-over test and the reward of a finished game:
 * `opposingMarblesOut`, `winner` and `reward`.
 */
module Scoring {
  import opened Grid
  import opened Rules

  /** Each side starts with fourteen marbles. */
  const Marbles: int := 14

  /** Six marbles lost ends the game. */
  const Lost: int := 6

  /** `opposingMarblesOut(color)`: how many marbles the other side has lost. */
  function MarblesOut(g: Grid, color: Cell): (n: int)
    ensures color == B ==> n == Marbles - Count(g, W)
    ensures color != B ==> n == Marbles - Count(g, B)
  {
    Marbles - Count(g, Other(color))
  }

  /**
   * `winner()`: checked with Black's losses first, answering whether the side
   * to move is the side that has taken six marbles; None otherwise.
   */
  function WinnerOf(g: Grid, turn: Cell): Option<bool>
  {
    var scoreWhite := MarblesOut(g, B);
    var scoreBlack := MarblesOut(g, W);
    if scoreBlack == Lost && turn == W then Some(true)
    else if scoreBlack == Lost && turn == B then Some(false)
    else if scoreWhite == Lost && turn == B then Some(true)
    else if scoreWhite == Lost && turn == W then Some(false)
    else None
  }

  /**
   * The game is decided exactly when the side to move is a player and one
   * side has exactly eight marbles left (six out; seven out is not a win).
   * True means the side to move took six marbles, False that it lost six.
   */
  lemma WinnerMeaning(g: Grid, turn: Cell)
    ensures WinnerOf(g, turn).Some? <==> IsColor(turn) && (Count(g, B) == 8 || Count(g, W) == 8)
    ensures WinnerOf(g, turn) == Some(true) ==> IsColor(turn) && Count(g, Other(turn)) == 8
    ensures WinnerOf(g, turn) == Some(false) ==> IsColor(turn) && Count(g, turn) == 8
    ensures IsColor(turn) && Count(g, B) == 8 ==> WinnerOf(g, turn) == Some(turn == W)
    ensures IsColor(turn) && Count(g, B) != 8 && Count(g, W) == 8 ==> WinnerOf(g, turn) == Some(turn == B)
  {
  }

  /** The two possible values of the name `self.winner` inside `reward`. */
  datatype WinnerValue =
    | Flag(flag: Option<bool>)   // the namedtuple field, as the code intends
    | BoundMethod                // the `winner` method that shadows the field

  /** What `reward()` gives: one of its three errors, or a reward. */
  datatype RewardResult = NonTerminalError | UnreachableError | UnknownWinnerTypeError | Value(v: real)

  /** The branches of `reward()` on a given value of `self.winner`. */
  function RewardOf(terminal: bool, w: WinnerValue): RewardResult
  {
    if !terminal then NonTerminalError
    else match w
      case Flag(Some(true)) => UnreachableError
      case Flag(Some(false)) => Value(0.0)
      case Flag(None) => Value(0.5)
      case BoundMethod => UnknownWinnerTypeError
  }

  /**
   * `reward()` reading the stored winner: 0 for a game the opponent just won,
   * 1/2 for a draw, an error on an unfinished game or one the side to move has won.
   */
  function Reward(terminal: bool, winner: Option<bool>): (r: RewardResult)
    ensures r.Value? <==> terminal && winner != Some(true)
    ensures r.Value? ==> 0.0 <= r.v <= 1.0
    ensures r.Value? && winner == Some(false) ==> r.v == 0.0
    ensures r.Value? && winner == None ==> r.v == 0.5
    ensures !terminal <==> r == NonTerminalError
  {
    RewardOf(terminal, Flag(winner))
  }

  /** `reward()` as written: `self.winner` is the bound method, so no board ever has a reward. */
  function RewardAsWritten(terminal: bool): (r: RewardResult)
    ensures !r.Value?
    ensures terminal <==> r == UnknownWinnerTypeError
  {
    RewardOf(terminal, BoundMethod)
  }
}
