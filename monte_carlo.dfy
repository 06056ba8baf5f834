/**
 * The Monte Carlo tic-tac-toe player of week3_tic_tac_toe.py.
 *
 * The random square choices of `mc_trial` are a parameter: the `i`-th move
 * of a trial takes `empty[picks[i] % |empty|]`.  Scores are `real`s in an
 * `array2`, updated in place.
 */
module MonteCarlo {
  import opened Wrappers
  import opened TicTacToe

  /** `SCORE_CURRENT` and `SCORE_OTHER` */
  const ScoreCurrent: real := 1.0
  const ScoreOther: real := 1.0

  // ---------------------------------------------------------------------------
  // `mc_trial`

  /**
   * The finished board of a game played from `b` with `player` to move,
   * the players alternating and the `i`-th move taking `empty[picks[i] % |empty|]`.
   */
  function Playout(b: Cells, n: nat, player: Player, picks: seq<nat>): (r: Cells)
    requires IsBoard(b, n) && |picks| >= |EmptySquares(b, n)|
    ensures IsBoard(r, n)
    ensures GameResult(r, n) != None
    ensures forall i, j :: 0 <= i < n && 0 <= j < n && b[i][j] != Empty ==> r[i][j] == b[i][j]
    decreases |EmptySquares(b, n)|
  {
    if GameResult(b, n) != None then b
    else
      var empty := EmptySquares(b, n);
      var square := empty[picks[0] % |empty|];
      PlaceFillsOneSquare(b, n, square.0, square.1, player);
      Playout(Place(b, square.0, square.1, player), n, SwitchPlayer(player), picks[1..])
  }

  /** `mc_trial`: play random moves on `board` until `check_win` reports an end. */
  method MCTrial(board: Board, player: Player, picks: seq<nat>)
    requires board.Valid() && |picks| >= |EmptySquares(board.cells, board.dim)|
    modifies board
    ensures board.Valid()
    ensures board.cells == Playout(old(board.cells), board.dim, player, picks)
  {
    var p := player;
    var i := 0;
    while board.CheckWin() == None
      invariant board.Valid() && 0 <= i <= |picks|
      invariant |picks| - i >= |EmptySquares(board.cells, board.dim)|
      invariant Playout(board.cells, board.dim, p, picks[i..]) == Playout(old(board.cells), board.dim, player, picks)
      decreases |EmptySquares(board.cells, board.dim)|
    {
      ghost var before := board.cells;
      var empty := board.GetEmptySquares();
      var choice := empty[picks[i] % |empty|];
      PlaceFillsOneSquare(before, board.dim, choice.0, choice.1, p);
      board.Move(choice.0, choice.1, p);
      assert picks[i..][1..] == picks[i + 1..];
      p := SwitchPlayer(p);
      i := i + 1;
    }
  }

  /** `mc_trial` on a finished board changes nothing. */
  lemma PlayoutOfFinishedBoard(b: Cells, n: nat, player: Player, picks: seq<nat>)
    requires IsBoard(b, n) && |picks| >= |EmptySquares(b, n)| && GameResult(b, n) != None
    ensures Playout(b, n, player, picks) == b
  {
  }

  /**
   * One iteration of `mc_trial` puts `player`'s mark on one square that was
   * empty, leaves every other square as it was, and one empty square fewer remains.
   */
  lemma PlayoutStep(b: Cells, n: nat, player: Player, picks: seq<nat>)
    requires IsBoard(b, n) && |picks| >= |EmptySquares(b, n)| && GameResult(b, n) == None
    ensures var empty := EmptySquares(b, n);
      var square := empty[picks[0] % |empty|];
      var b' := Place(b, square.0, square.1, player);
      && b[square.0][square.1] == Empty
      && b'[square.0][square.1] == Mark(player)
      && (forall i, j :: 0 <= i < n && 0 <= j < n && (i, j) != square ==> b'[i][j] == b[i][j])
      && IsBoard(b', n) && |EmptySquares(b', n)| == |empty| - 1
      && Playout(b, n, player, picks) == Playout(b', n, SwitchPlayer(player), picks[1..])
  {
    var empty := EmptySquares(b, n);
    var square := empty[picks[0] % |empty|];
    PlaceFillsOneSquare(b, n, square.0, square.1, player);
  }

  // ---------------------------------------------------------------------------
  // `mc_update_scores`

  /** What `mc_update_scores` adds to the score of a square holding `cell`. */
  function Reward(result: Option<Outcome>, player: Player, cell: Cell): (r: real)
    ensures r == 0.0 <==> result == Some(Draw) || cell == Empty
    ensures r > 0.0 <==>
      result != Some(Draw) && cell != Empty && ((result == Some(Win(player))) == (cell == Mark(player)))
    ensures result == Some(Win(player)) ==> r in {ScoreCurrent, -ScoreCurrent, 0.0}
    ensures result != Some(Win(player)) ==> r in {ScoreOther, -ScoreOther, 0.0}
  {
    if result == Some(Draw) || cell == Empty then 0.0
    else if result == Some(Win(player)) then
      (if cell == Mark(player) then ScoreCurrent else -ScoreCurrent)
    else
      (if cell == Mark(player) then -ScoreOther else ScoreOther)
  }

  /** A drawn game scores nothing, and an empty square scores nothing. */
  lemma UnscoredSquares(result: Option<Outcome>, player: Player, cell: Cell)
    ensures result == Some(Draw) ==> Reward(result, player, cell) == 0.0
    ensures cell == Empty ==> Reward(result, player, cell) == 0.0
  {
  }

  /** `mc_update_scores`: add the reward of every square of the finished `board` to `scores`. */
  method MCUpdateScores(scores: array2<real>, board: Board, player: Player)
    requires board.Valid() && scores.Length0 == board.dim && scores.Length1 == board.dim
    modifies scores
    ensures forall r, c :: 0 <= r < board.dim && 0 <= c < board.dim ==>
      scores[r, c] == old(scores[r, c]) + Reward(board.CheckWin(), player, board.cells[r][c])
  {
    var winner := board.CheckWin();
    if winner == Some(Draw) {
      return;
    }
    var machineWin := winner == Some(Win(player));
    for row := 0 to board.GetDim()
      invariant forall r, c :: 0 <= r < board.dim && 0 <= c < board.dim ==>
        scores[r, c] == old(scores[r, c]) + (if r < row then Reward(winner, player, board.cells[r][c]) else 0.0)
    {
      UpdateRow(scores, board, player, winner, machineWin, row);
    }
  }

  /** The inner loop of `mc_update_scores`, over the columns of row `row`. */
  method UpdateRow(scores: array2<real>, board: Board, player: Player, winner: Option<Outcome>,
                   machineWin: bool, row: int)
    requires board.Valid() && scores.Length0 == board.dim && scores.Length1 == board.dim
    requires 0 <= row < board.dim && winner != Some(Draw) && machineWin == (winner == Some(Win(player)))
    modifies scores
    ensures forall r, c :: 0 <= r < board.dim && 0 <= c < board.dim ==>
      scores[r, c] == old(scores[r, c]) + (if r == row then Reward(winner, player, board.cells[r][c]) else 0.0)
  {
    for col := 0 to board.GetDim()
      invariant forall r, c :: 0 <= r < board.dim && 0 <= c < board.dim ==>
        scores[r, c] == old(scores[r, c]) + (if r == row && c < col then Reward(winner, player, board.cells[r][c]) else 0.0)
    {
      var position := board.Square(row, col);
      if position == Empty {
        continue;
      }
      var machineHere := position == Mark(player);
      if machineWin && machineHere {
        scores[row, col] := scores[row, col] + ScoreCurrent;
      } else if machineWin && !machineHere {
        scores[row, col] := scores[row, col] - ScoreCurrent;
      } else if !machineWin && !machineHere {
        scores[row, col] := scores[row, col] + ScoreOther;
      } else {
        scores[row, col] := scores[row, col] - ScoreOther;
      }
    }
  }

  /** Number of squares holding `cell` in rows `r` to `n - 1` and columns `c` to `n - 1` of row `r`. */
  function CountFrom(b: Cells, n: nat, cell: Cell, r: nat, c: nat): nat
    requires IsBoard(b, n) && r <= n && c <= n
    decreases n - r, n - c
  {
    if r == n then 0
    else if c == n then CountFrom(b, n, cell, r + 1, 0)
    else (if b[r][c] == cell then 1 else 0) + CountFrom(b, n, cell, r, c + 1)
  }

  /** The sum of the rewards over the same squares. */
  function RewardFrom(b: Cells, n: nat, result: Option<Outcome>, player: Player, r: nat, c: nat): real
    requires IsBoard(b, n) && r <= n && c <= n
    decreases n - r, n - c
  {
    if r == n then 0.0
    else if c == n then RewardFrom(b, n, result, player, r + 1, 0)
    else Reward(result, player, b[r][c]) + RewardFrom(b, n, result, player, r, c + 1)
  }

  lemma {:induction false} RewardFromCounts(b: Cells, n: nat, result: Option<Outcome>, player: Player, r: nat, c: nat)
    requires IsBoard(b, n) && r <= n && c <= n
    ensures var mine := CountFrom(b, n, Mark(player), r, c) as real;
      var theirs := CountFrom(b, n, Mark(SwitchPlayer(player)), r, c) as real;
      RewardFrom(b, n, result, player, r, c)
        == if result == Some(Draw) then 0.0
           else if result == Some(Win(player)) then (mine - theirs) * ScoreCurrent
           else (theirs - mine) * ScoreOther
    decreases n - r, n - c
  {
    if r < n {
      if c == n {
        RewardFromCounts(b, n, result, player, r + 1, 0);
      } else {
        RewardFromCounts(b, n, result, player, r, c + 1);
      }
    }
  }

  /**
   * The total that `mc_update_scores` adds: (#machine - #other) * SCORE_CURRENT
   * when the machine won, (#other - #machine) * SCORE_OTHER when it did not,
   * nothing on a draw.
   */
  lemma TotalReward(b: Cells, n: nat, result: Option<Outcome>, player: Player)
    requires IsBoard(b, n)
    ensures var mine := CountFrom(b, n, Mark(player), 0, 0) as real;
      var theirs := CountFrom(b, n, Mark(SwitchPlayer(player)), 0, 0) as real;
      RewardFrom(b, n, result, player, 0, 0)
        == if result == Some(Draw) then 0.0
           else if result == Some(Win(player)) then (mine - theirs) * ScoreCurrent
           else (theirs - mine) * ScoreOther
  {
    RewardFromCounts(b, n, result, player, 0, 0);
  }

  // ---------------------------------------------------------------------------
  // `get_best_move` and `mc_move`

  /**
   * The index `get_best_move`'s loop settles on among the first `k` values:
   * a maximum, and the first one, since only a strictly greater score replaces it.
   */
  function FirstMaxIndex(vals: seq<real>, k: nat): (i: nat)
    requires 0 < k <= |vals|
    ensures i < k
    ensures forall j :: 0 <= j < k ==> vals[j] <= vals[i]
    ensures forall j :: 0 <= j < i ==> vals[j] < vals[i]
  {
    if k == 1 then 0
    else
      var i := FirstMaxIndex(vals, k - 1);
      if vals[k - 1] > vals[i] then k - 1 else i
  }

  /** The scores of `squares`, in order. */
  function ScoresOf(scores: array2<real>, squares: seq<(int, int)>): (vals: seq<real>)
    reads scores
    requires forall k :: 0 <= k < |squares| ==>
      0 <= squares[k].0 < scores.Length0 && 0 <= squares[k].1 < scores.Length1
    ensures |vals| == |squares|
  {
    seq(|squares|, k requires 0 <= k < |squares| reads scores => scores[squares[k].0, squares[k].1])
  }

  /** The move `get_best_move` picks among `empty` given their scores `vals`. */
  function BestMove(empty: seq<(int, int)>, vals: seq<real>): Option<(int, int)>
    requires |vals| == |empty|
  {
    if empty == [] then None else Some(empty[FirstMaxIndex(vals, |empty|)])
  }

  /** `get_best_move`: the first empty square of maximal score, `None` on a full board. */
  method GetBestMove(board: Board, scores: array2<real>) returns (best: Option<(int, int)>)
    requires board.Valid() && scores.Length0 == board.dim && scores.Length1 == board.dim
    ensures best == BestMove(board.GetEmptySquares(), ScoresOf(scores, board.GetEmptySquares()))
  {
    var empty := board.GetEmptySquares();
    if |empty| == 0 {
      return None;
    }
    ghost var vals := ScoresOf(scores, empty);
    var bestMove: Option<(int, int)> := None;
    var bestScore: real := 0.0;  // not read while `bestMove` is `None`
    for k := 0 to |empty|
      invariant k == 0 ==> bestMove == None
      invariant k > 0 ==> bestMove == Some(empty[FirstMaxIndex(vals, k)]) && bestScore == vals[FirstMaxIndex(vals, k)]
    {
      var square := empty[k];
      if bestMove == None || scores[square.0, square.1] > bestScore {
        bestMove := Some(square);
        bestScore := scores[square.0, square.1];
      }
    }
    return bestMove;
  }

  /**
   * The move `get_best_move` returns is an empty square whose score is at
   * least that of every empty square, and strictly above the scores of the
   * empty squares listed before it; it is `None` only when no square is empty.
   */
  lemma BestMoveIsFirstMaximum(empty: seq<(int, int)>, vals: seq<real>)
    requires |vals| == |empty|
    ensures BestMove(empty, vals) == None <==> empty == []
    ensures BestMove(empty, vals).Some? ==>
      exists i :: 0 <= i < |empty| && empty[i] == BestMove(empty, vals).value
        && (forall j :: 0 <= j < |empty| ==> vals[j] <= vals[i])
        && (forall j :: 0 <= j < i ==> vals[j] < vals[i])
  {
    if empty != [] {
      var i := FirstMaxIndex(vals, |empty|);
      assert empty[i] == BestMove(empty, vals).value;
    }
  }

  /** The score square (`r`, `c`) has after the first `t` trials of `mc_move`, each from `b`. */
  function TrialScore(b: Cells, n: nat, player: Player, picks: seq<seq<nat>>, t: nat, r: int, c: int): real
    requires IsBoard(b, n) && t <= |picks| && 0 <= r < n && 0 <= c < n
    requires forall k :: 0 <= k < |picks| ==> |picks[k]| >= |EmptySquares(b, n)|
  {
    if t == 0 then 0.0
    else
      var finished := Playout(b, n, player, picks[t - 1]);
      TrialScore(b, n, player, picks, t - 1, r, c) + Reward(GameResult(finished, n), player, finished[r][c])
  }

  /** The scores of the empty squares of `b` after `trials` trials. */
  function TrialScores(b: Cells, n: nat, player: Player, picks: seq<seq<nat>>, trials: nat): (vals: seq<real>)
    requires IsBoard(b, n) && trials <= |picks|
    requires forall k :: 0 <= k < |picks| ==> |picks[k]| >= |EmptySquares(b, n)|
    ensures |vals| == |EmptySquares(b, n)|
  {
    var empty := EmptySquares(b, n);
    seq(|empty|, k requires 0 <= k < |empty| => TrialScore(b, n, player, picks, trials, empty[k].0, empty[k].1))
  }

  /**
   * `mc_move`: run `trials` playouts, each on a clone of `board`, add up their
   * rewards in a fresh all-zero score grid, and pick the best empty square of
   * `board`, which is never changed.
   */
  method MCMove(board: Board, player: Player, trials: nat, picks: seq<seq<nat>>) returns (move: Option<(int, int)>)
    requires board.Valid() && trials <= |picks|
    requires forall k :: 0 <= k < |picks| ==> |picks[k]| >= |EmptySquares(board.cells, board.dim)|
    ensures move == BestMove(EmptySquares(board.cells, board.dim),
                             TrialScores(board.cells, board.dim, player, picks, trials))
  {
    var scores := new real[board.GetDim(), board.GetDim()]((_, _) => 0.0);
    for t := 0 to trials
      invariant forall r, c :: 0 <= r < board.dim && 0 <= c < board.dim ==>
        scores[r, c] == TrialScore(board.cells, board.dim, player, picks, t, r, c)
    {
      RunTrial(scores, board, player, picks[t]);
    }
    move := GetBestMove(board, scores);
    ScoresAreTrialScores(scores, board.cells, board.dim, player, picks, trials);
  }

  /** The body of `mc_move`'s loop: one playout on a clone of `board`, scored into `scores`. */
  method RunTrial(scores: array2<real>, board: Board, player: Player, picks: seq<nat>)
    requires board.Valid() && scores.Length0 == board.dim && scores.Length1 == board.dim
    requires |picks| >= |EmptySquares(board.cells, board.dim)|
    modifies scores
    ensures forall r, c :: 0 <= r < board.dim && 0 <= c < board.dim ==>
      var finished := Playout(board.cells, board.dim, player, picks);
      scores[r, c] == old(scores[r, c]) + Reward(GameResult(finished, board.dim), player, finished[r][c])
  {
    var trialBoard := board.Clone();
    MCTrial(trialBoard, player, picks);
    MCUpdateScores(scores, trialBoard, player);
  }

  lemma ScoresAreTrialScores(scores: array2<real>, b: Cells, n: nat, player: Player, picks: seq<seq<nat>>, trials: nat)
    requires IsBoard(b, n) && trials <= |picks| && scores.Length0 == n && scores.Length1 == n
    requires forall k :: 0 <= k < |picks| ==> |picks[k]| >= |EmptySquares(b, n)|
    requires forall r, c :: 0 <= r < n && 0 <= c < n ==> scores[r, c] == TrialScore(b, n, player, picks, trials, r, c)
    ensures ScoresOf(scores, EmptySquares(b, n)) == TrialScores(b, n, player, picks, trials)
  {
  }
}
