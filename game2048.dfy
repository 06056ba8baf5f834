/**
 * The 2048 game logic (class `TwentyFortyEight` of poc_2048_template.py).
 *
 * The grid is a field of type `seq<seq<int>>` that `SetTile` reassigns; the
 * four edge lists are constant fields built by the constructor.  `Move` walks
 * every row or column from its edge tile, merges it with `Merge.Merge` and
 * writes it back, then calls `NewTile`.  The random draws of `new_tile` are a
 * parameter: a sequence of probes, one per iteration of its loop.
 */
module Game2048 {
  import opened Merge

  /** The four directions (1, 2, 3 and 4 in the source). */
  datatype Direction = Up | Down | Left | Right

  /** `OFFSETS`: the step from one tile of a line to the next. */
  function Offset(d: Direction): (int, int)
  {
    match d
    case Up => (1, 0)
    case Down => (-1, 0)
    case Left => (0, 1)
    case Right => (0, -1)
  }

  /** Every offset is one step along one axis: UP and DOWN move along a column, LEFT and RIGHT along a row. */
  lemma OffsetIsUnitStep(d: Direction)
    ensures var o := Offset(d); -1 <= o.0 <= 1 && -1 <= o.1 <= 1 && (o.0 == 0) != (o.1 == 0)
    ensures Offset(d).1 == 0 <==> d == Up || d == Down
  {
  }

  type Grid = seq<seq<int>>

  /** `g` has `h` rows of `w` cells. */
  predicate IsGrid(g: Grid, h: nat, w: nat)
  {
    |g| == h && forall r :: 0 <= r < h ==> |g[r]| == w
  }

  /** The all-empty grid built by `reset`. */
  function EmptyGrid(h: nat, w: nat): (g: Grid)
    ensures IsGrid(g, h, w)
  {
    seq(h, _ => seq(w, _ => 0))
  }

  // ---------------------------------------------------------------------------
  // Lines of the grid, as `move` walks them.

  /** Number of lines `move` processes (the length of the edge list). */
  function LineCount(d: Direction, h: nat, w: nat): nat
  {
    if d == Up || d == Down then w else h
  }

  /** `times`: number of tiles in each line. */
  function LineLength(d: Direction, h: nat, w: nat): nat
  {
    if d == Up || d == Down then h else w
  }

  /** The `t`-th cell visited from the `k`-th edge tile. */
  function CellAt(d: Direction, k: int, t: int, h: nat, w: nat): (int, int)
  {
    match d
    case Up => (t, k)
    case Down => (h - 1 - t, k)
    case Left => (k, t)
    case Right => (k, w - 1 - t)
  }

  /** The line that passes through cell (`r`, `c`). */
  function LineOf(d: Direction, r: int, c: int): int
  {
    if d == Up || d == Down then c else r
  }

  /** The position of cell (`r`, `c`) along its line. */
  function PosOf(d: Direction, r: int, c: int, h: nat, w: nat): int
  {
    match d
    case Up => r
    case Down => h - 1 - r
    case Left => c
    case Right => w - 1 - c
  }

  predicate InGrid(cell: (int, int), h: nat, w: nat)
  {
    0 <= cell.0 < h && 0 <= cell.1 < w
  }

  /** The tiles of line `k`, in the order `move` reads them. */
  function ReadLine(g: Grid, d: Direction, k: int, h: nat, w: nat): (line: seq<int>)
    requires IsGrid(g, h, w) && 0 <= k < LineCount(d, h, w)
    ensures |line| == LineLength(d, h, w)
  {
    seq(LineLength(d, h, w), t requires 0 <= t < LineLength(d, h, w) =>
      g[CellAt(d, k, t, h, w).0][CellAt(d, k, t, h, w).1])
  }

  /** The grid after the merge phase of `move`: every line replaced by its merge. */
  function Shifted(g: Grid, d: Direction, h: nat, w: nat): (s: Grid)
    requires IsGrid(g, h, w)
    ensures IsGrid(s, h, w)
  {
    seq(h, r requires 0 <= r < h => seq(w, c requires 0 <= c < w =>
      MergeSpec(ReadLine(g, d, LineOf(d, r, c), h, w))[PosOf(d, r, c, h, w)]))
  }

  /**
   * The grid while `move` is at line `k`, position `t`: cells of earlier
   * lines and of the first `t` positions of line `k` hold `s`, the rest `g`.
   */
  function Partial(g: Grid, s: Grid, d: Direction, h: nat, w: nat, k: int, t: int): (p: Grid)
    requires IsGrid(g, h, w) && IsGrid(s, h, w)
    ensures IsGrid(p, h, w)
  {
    seq(h, r requires 0 <= r < h => seq(w, c requires 0 <= c < w =>
      if LineOf(d, r, c) < k || (LineOf(d, r, c) == k && PosOf(d, r, c, h, w) < t)
      then s[r][c] else g[r][c]))
  }

  // ---------------------------------------------------------------------------
  // `new_tile`, with its random draws as probes.

  /** One iteration's draws: `randint` for the row and column, `choice` for the value. */
  datatype Probe = Probe(row: int, col: int, value: int)

  /** The first `n` probes are what the random source can produce. */
  predicate ValidProbes(probes: seq<Probe>, n: nat, h: nat, w: nat)
  {
    n <= |probes| &&
    forall i :: 0 <= i < n ==>
      0 <= probes[i].row < h && 0 <= probes[i].col < w && probes[i].value in {2, 4}
  }

  /** The grid after `new_tile` has drawn probes `i` to `n - 1`, stopping at the first empty cell. */
  function PlaceTile(g: Grid, probes: seq<Probe>, i: nat, n: nat, h: nat, w: nat): (r: Grid)
    requires IsGrid(g, h, w) && ValidProbes(probes, n, h, w) && i <= n
    ensures IsGrid(r, h, w)
    decreases n - i
  {
    if i == n then g
    else if g[probes[i].row][probes[i].col] == 0 then
      g[probes[i].row := g[probes[i].row][probes[i].col := probes[i].value]]
    else PlaceTile(g, probes, i + 1, n, h, w)
  }

  // ---------------------------------------------------------------------------
  // The class.

  class TwentyFortyEight {
    const height: nat
    const width: nat
    const upList: seq<(int, int)>
    const downList: seq<(int, int)>
    const leftList: seq<(int, int)>
    const rightList: seq<(int, int)>
    const moveDict: map<Direction, seq<(int, int)>>
    var grid: Grid

    /** The grid has `height` rows of `width` cells. */
    ghost predicate Valid()
      reads this
    {
      IsGrid(grid, height, width) && EdgesBuilt()
    }

    /** The edge lists and `moveDict` as `__init__` builds them. */
    ghost predicate EdgesBuilt()
    {
      && upList == seq(width, c => (0, c))
      && downList == seq(width, c => (height - 1, c))
      && leftList == seq(height, r => (r, 0))
      && rightList == seq(height, r => (r, width - 1))
      && moveDict == map[Up := upList, Down := downList, Left := leftList, Right := rightList]
    }

    /** `__init__`, with the probes of the two `new_tile` calls made by `reset`. */
    constructor (gridHeight: nat, gridWidth: nat, probes1: seq<Probe>, probes2: seq<Probe>)
      requires ValidProbes(probes1, gridWidth * gridHeight, gridHeight, gridWidth)
      requires ValidProbes(probes2, gridWidth * gridHeight, gridHeight, gridWidth)
      ensures Valid() && height == gridHeight && width == gridWidth
      ensures grid == PlaceTile(PlaceTile(EmptyGrid(height, width), probes1, 0, width * height, height, width),
                                probes2, 0, width * height, height, width)
    {
      height := gridHeight;
      width := gridWidth;
      upList := seq(gridWidth, c => (0, c));
      downList := seq(gridWidth, c => (gridHeight - 1, c));
      leftList := seq(gridHeight, r => (r, 0));
      rightList := seq(gridHeight, r => (r, gridWidth - 1));
      moveDict := map[Up := seq(gridWidth, c => (0, c)), Down := seq(gridWidth, c => (gridHeight - 1, c)),
                      Left := seq(gridHeight, r => (r, 0)), Right := seq(gridHeight, r => (r, gridWidth - 1))];
      grid := EmptyGrid(gridHeight, gridWidth);
      new;
      Reset(probes1, probes2);
    }

    /** `reset`: an empty grid, then two `new_tile` calls. */
    method Reset(probes1: seq<Probe>, probes2: seq<Probe>)
      requires Valid()
      requires ValidProbes(probes1, width * height, height, width)
      requires ValidProbes(probes2, width * height, height, width)
      modifies this
      ensures Valid()
      ensures grid == PlaceTile(PlaceTile(EmptyGrid(height, width), probes1, 0, width * height, height, width),
                                probes2, 0, width * height, height, width)
    {
      grid := EmptyGrid(height, width);
      NewTile(probes1);
      NewTile(probes2);
    }

    function GetGridHeight(): nat
    {
      height
    }

    function GetGridWidth(): nat
    {
      width
    }

    function GetTile(row: int, col: int): int
      reads this
      requires Valid() && InGrid((row, col), height, width)
    {
      grid[row][col]
    }

    /** `set_tile`: the cell takes `value`; every other cell keeps its tile. */
    method SetTile(row: int, col: int, value: int)
      requires Valid() && InGrid((row, col), height, width)
      modifies this
      ensures Valid()
      ensures grid == old(grid)[row := old(grid)[row][col := value]]
      ensures GetTile(row, col) == value
      ensures forall r, c :: InGrid((r, c), height, width) && (r, c) != (row, col) ==>
        GetTile(r, c) == old(GetTile(r, c))
    {
      grid := grid[row := grid[row][col := value]];
    }

    /**
     * `new_tile`: probe at most width * height random cells and put the
     * probe's value on the first empty one.
     */
    method NewTile(probes: seq<Probe>)
      requires Valid() && ValidProbes(probes, width * height, height, width)
      modifies this
      ensures Valid()
      ensures grid == PlaceTile(old(grid), probes, 0, width * height, height, width)
    {
      var selected := false;
      var count := width * height;
      ghost var n := width * height;
      while !selected && count != 0
        invariant Valid() && 0 <= count <= n
        invariant !selected ==> grid == old(grid)
        invariant !selected ==>
          PlaceTile(old(grid), probes, n - count, n, height, width) == PlaceTile(old(grid), probes, 0, n, height, width)
        invariant selected ==> grid == PlaceTile(old(grid), probes, 0, n, height, width)
      {
        var probe := probes[width * height - count];
        var row, col := probe.row, probe.col;
        if grid[row][col] == 0 {
          SetTile(row, col, probe.value);
          selected := true;
        }
        count := count - 1;
      }
    }

    /** The edge list `move` starts from in direction `d`. */
    function EdgeList(d: Direction): (tiles: seq<(int, int)>)
      reads this
      requires Valid()
      ensures |tiles| == LineCount(d, height, width)
      ensures forall k :: 0 <= k < |tiles| ==> tiles[k] == CellAt(d, k, 0, height, width)
    {
      assert d.Up? || d.Down? || d.Left? || d.Right?;
      moveDict[d]
    }

    /**
     * `move`: merge every line toward direction `d`, then call `new_tile`,
     * whether or not a tile moved.
     */
    method Move(d: Direction, probes: seq<Probe>)
      requires Valid() && ValidProbes(probes, width * height, height, width)
      modifies this
      ensures Valid()
      ensures grid == PlaceTile(Shifted(old(grid), d, height, width), probes, 0, width * height, height, width)
    {
      ghost var g0 := grid;
      ghost var s := Shifted(g0, d, height, width);
      var directionTiles := EdgeList(d);
      var offset := Offset(d);
      var times := if d == Up || d == Down then height else width;
      PartialStart(g0, s, d, height, width);
      for k := 0 to |directionTiles|
        invariant Valid()
        invariant grid == Partial(g0, s, d, height, width, k, 0)
      {
        MoveLine(directionTiles[k], offset, times, d, k, g0, s);
      }
      PartialEnd(g0, s, d, height, width);
      NewTile(probes);
    }
    /**
     * The body of `move`'s loop over the edge list: read line `k` from its
     * edge tile, merge it, and write the merged line back along the same cells.
     */
    method MoveLine(currentTile: (int, int), offset: (int, int), times: nat,
                    ghost d: Direction, ghost k: int, ghost g0: Grid, ghost s: Grid)
      requires Valid() && IsGrid(g0, height, width) && s == Shifted(g0, d, height, width)
      requires 0 <= k < LineCount(d, height, width) && times == LineLength(d, height, width)
      requires currentTile == CellAt(d, k, 0, height, width) && offset == Offset(d)
      requires grid == Partial(g0, s, d, height, width, k, 0)
      modifies this
      ensures Valid() && grid == Partial(g0, s, d, height, width, k + 1, 0)
    {
      var temp := ReadLineTiles(currentTile, offset, times, d, k);
      ReadPartialLine(g0, s, d, height, width, k);
      var result := Merge.Merge(temp);
      ShiftedLines(g0, d, height, width, k);
      WriteLineTiles(currentTile, offset, times, result, d, k, g0, s);
      PartialNextLine(g0, s, d, height, width, k);
    }

    /** The first inner loop of `move`: collect the `times` tiles of line `k`. */
    method ReadLineTiles(currentTile: (int, int), offset: (int, int), times: nat,
                         ghost d: Direction, ghost k: int) returns (temp: seq<int>)
      requires Valid() && 0 <= k < LineCount(d, height, width) && times == LineLength(d, height, width)
      requires currentTile == CellAt(d, k, 0, height, width) && offset == Offset(d)
      ensures temp == ReadLine(grid, d, k, height, width)
    {
      var tile := currentTile;
      temp := [];
      for t := 0 to times
        invariant tile == CellAt(d, k, t, height, width)
        invariant temp == ReadLine(grid, d, k, height, width)[..t]
      {
        ReadLineNext(grid, d, k, t, height, width);
        temp := temp + [GetTile(tile.0, tile.1)];
        StepAlongLine(d, k, t, height, width, tile, offset);
        tile := (tile.0 + offset.0, tile.1 + offset.1);
      }
    }

    /** The second inner loop of `move`: write the merged line back along line `k`. */
    method WriteLineTiles(currentTile: (int, int), offset: (int, int), times: nat, result: seq<int>,
                          ghost d: Direction, ghost k: int, ghost g0: Grid, ghost s: Grid)
      requires Valid() && IsGrid(g0, height, width) && IsGrid(s, height, width)
      requires 0 <= k < LineCount(d, height, width) && times == LineLength(d, height, width)
      requires currentTile == CellAt(d, k, 0, height, width) && offset == Offset(d)
      requires result == ReadLine(s, d, k, height, width)
      requires grid == Partial(g0, s, d, height, width, k, 0)
      modifies this
      ensures Valid() && grid == Partial(g0, s, d, height, width, k, times)
    {
      var tile := currentTile;
      for t := 0 to times
        invariant Valid()
        invariant tile == CellAt(d, k, t, height, width)
        invariant grid == Partial(g0, s, d, height, width, k, t)
      {
        PartialStep(g0, s, d, height, width, k, t, tile.0, tile.1);
        SetTile(tile.0, tile.1, result[t]);
        StepAlongLine(d, k, t, height, width, tile, offset);
        tile := (tile.0 + offset.0, tile.1 + offset.1);
      }
    }
  }

  // ---------------------------------------------------------------------------
  // Lemmas for the walk of `move`.

  /**
   * Every cell `move` reads or writes, `t` steps of `Offset(d)` from the `k`-th
   * edge tile, lies inside the grid, and it is the `t`-th cell of line `k`.
   */
  lemma WalkStaysInGrid(d: Direction, k: int, t: int, h: nat, w: nat)
    requires 0 <= k < LineCount(d, h, w) && 0 <= t < LineLength(d, h, w)
    ensures InGrid(CellAt(d, k, t, h, w), h, w)
    ensures LineOf(d, CellAt(d, k, t, h, w).0, CellAt(d, k, t, h, w).1) == k
    ensures PosOf(d, CellAt(d, k, t, h, w).0, CellAt(d, k, t, h, w).1, h, w) == t
  {
  }

  /** The walk of `move` is the edge tile plus `t` steps of `Offset(d)`. */
  lemma WalkFollowsOffset(d: Direction, k: int, t: int, h: nat, w: nat)
    requires 0 <= k < LineCount(d, h, w) && 0 <= t < LineLength(d, h, w)
    ensures var start := CellAt(d, k, 0, h, w);
      CellAt(d, k, t, h, w) == (start.0 + t * Offset(d).0, start.1 + t * Offset(d).1)
  {
  }

  lemma PartialStart(g: Grid, s: Grid, d: Direction, h: nat, w: nat)
    requires IsGrid(g, h, w) && IsGrid(s, h, w)
    ensures Partial(g, s, d, h, w, 0, 0) == g
  {
    var p := Partial(g, s, d, h, w, 0, 0);
    forall r | 0 <= r < h
      ensures p[r] == g[r]
    {
    }
  }

  lemma PartialEnd(g: Grid, s: Grid, d: Direction, h: nat, w: nat)
    requires IsGrid(g, h, w) && IsGrid(s, h, w)
    ensures Partial(g, s, d, h, w, LineCount(d, h, w), 0) == s
  {
    var p := Partial(g, s, d, h, w, LineCount(d, h, w), 0);
    forall r | 0 <= r < h
      ensures p[r] == s[r]
    {
    }
  }

  lemma PartialNextLine(g: Grid, s: Grid, d: Direction, h: nat, w: nat, k: int)
    requires IsGrid(g, h, w) && IsGrid(s, h, w)
    ensures Partial(g, s, d, h, w, k, LineLength(d, h, w)) == Partial(g, s, d, h, w, k + 1, 0)
  {
    var p, q := Partial(g, s, d, h, w, k, LineLength(d, h, w)), Partial(g, s, d, h, w, k + 1, 0);
    forall r | 0 <= r < h
      ensures p[r] == q[r]
    {
    }
  }

  /** Writing the merged tile at position `t` of line `k` advances the walk. */
  lemma PartialStep(g: Grid, s: Grid, d: Direction, h: nat, w: nat, k: int, t: int, r: int, c: int)
    requires IsGrid(g, h, w) && IsGrid(s, h, w)
    requires 0 <= k < LineCount(d, h, w) && 0 <= t < LineLength(d, h, w)
    requires (r, c) == CellAt(d, k, t, h, w)
    ensures 0 <= r < h && 0 <= c < w
    ensures Partial(g, s, d, h, w, k, t)[r := Partial(g, s, d, h, w, k, t)[r][c := s[r][c]]]
         == Partial(g, s, d, h, w, k, t + 1)
  {
    WalkStaysInGrid(d, k, t, h, w);
    var p, q := Partial(g, s, d, h, w, k, t), Partial(g, s, d, h, w, k, t + 1);
    var p' := p[r := p[r][c := s[r][c]]];
    forall i | 0 <= i < h
      ensures p'[i] == q[i]
    {
    }
  }

  /** One step of `Offset(d)` moves the walk to the next cell of its line. */
  lemma StepAlongLine(d: Direction, k: int, t: int, h: nat, w: nat, cell: (int, int), offset: (int, int))
    requires cell == CellAt(d, k, t, h, w) && offset == Offset(d)
    ensures (cell.0 + offset.0, cell.1 + offset.1) == CellAt(d, k, t + 1, h, w)
  {
  }

  lemma ReadLineNext(g: Grid, d: Direction, k: int, t: int, h: nat, w: nat)
    requires IsGrid(g, h, w) && 0 <= k < LineCount(d, h, w) && 0 <= t < LineLength(d, h, w)
    ensures InGrid(CellAt(d, k, t, h, w), h, w)
    ensures ReadLine(g, d, k, h, w)[..t + 1]
         == ReadLine(g, d, k, h, w)[..t] + [g[CellAt(d, k, t, h, w).0][CellAt(d, k, t, h, w).1]]
  {
    WalkStaysInGrid(d, k, t, h, w);
  }

  /** Before `move` writes line `k`, that line still holds the original tiles. */
  lemma ReadPartialLine(g: Grid, s: Grid, d: Direction, h: nat, w: nat, k: int)
    requires IsGrid(g, h, w) && IsGrid(s, h, w) && 0 <= k < LineCount(d, h, w)
    ensures ReadLine(Partial(g, s, d, h, w, k, 0), d, k, h, w) == ReadLine(g, d, k, h, w)
  {
    var p := Partial(g, s, d, h, w, k, 0);
    forall t | 0 <= t < LineLength(d, h, w)
      ensures ReadLine(p, d, k, h, w)[t] == ReadLine(g, d, k, h, w)[t]
    {
      WalkStaysInGrid(d, k, t, h, w);
    }
  }

  /** `move` replaces line `k`, read from its edge tile, by its merge. */
  lemma ShiftedLines(g: Grid, d: Direction, h: nat, w: nat, k: int)
    requires IsGrid(g, h, w) && 0 <= k < LineCount(d, h, w)
    ensures ReadLine(Shifted(g, d, h, w), d, k, h, w) == MergeSpec(ReadLine(g, d, k, h, w))
  {
    var s := Shifted(g, d, h, w);
    forall t | 0 <= t < LineLength(d, h, w)
      ensures ReadLine(s, d, k, h, w)[t] == MergeSpec(ReadLine(g, d, k, h, w))[t]
    {
      WalkStaysInGrid(d, k, t, h, w);
    }
  }

  // ---------------------------------------------------------------------------
  // What the merge phase of `move` does to rows and columns.

  function Reverse(s: seq<int>): (r: seq<int>)
    ensures |r| == |s|
  {
    seq(|s|, i requires 0 <= i < |s| => s[|s| - 1 - i])
  }

  /** Column `c`, top to bottom. */
  function Column(g: Grid, c: int, h: nat, w: nat): (col: seq<int>)
    requires IsGrid(g, h, w) && 0 <= c < w
    ensures |col| == h
  {
    seq(h, r requires 0 <= r < h => g[r][c])
  }

  lemma ReverseReverse(s: seq<int>)
    ensures Reverse(Reverse(s)) == s
  {
  }

  /** The lines `move` reads: rows for LEFT, reversed rows for RIGHT, columns for UP, reversed columns for DOWN. */
  lemma LineShapes(g: Grid, h: nat, w: nat, k: int)
    requires IsGrid(g, h, w)
    ensures 0 <= k < h ==> ReadLine(g, Left, k, h, w) == g[k]
    ensures 0 <= k < h ==> ReadLine(g, Right, k, h, w) == Reverse(g[k])
    ensures 0 <= k < w ==> ReadLine(g, Up, k, h, w) == Column(g, k, h, w)
    ensures 0 <= k < w ==> ReadLine(g, Down, k, h, w) == Reverse(Column(g, k, h, w))
  {
  }

  /** LEFT replaces each row by its merge. */
  lemma MoveLeftMergesRows(g: Grid, h: nat, w: nat, r: int)
    requires IsGrid(g, h, w) && 0 <= r < h
    ensures Shifted(g, Left, h, w)[r] == MergeSpec(g[r])
  {
    ShiftedLines(g, Left, h, w, r);
    LineShapes(g, h, w, r);
    LineShapes(Shifted(g, Left, h, w), h, w, r);
  }

  /** RIGHT replaces each row by the reverse of the merge of the reversed row. */
  lemma MoveRightMergesReversedRows(g: Grid, h: nat, w: nat, r: int)
    requires IsGrid(g, h, w) && 0 <= r < h
    ensures Shifted(g, Right, h, w)[r] == Reverse(MergeSpec(Reverse(g[r])))
  {
    var s := Shifted(g, Right, h, w);
    ShiftedLines(g, Right, h, w, r);
    LineShapes(g, h, w, r);
    LineShapes(s, h, w, r);
    ReverseReverse(s[r]);
  }

  /** UP replaces each column by its merge. */
  lemma MoveUpMergesColumns(g: Grid, h: nat, w: nat, c: int)
    requires IsGrid(g, h, w) && 0 <= c < w
    ensures Column(Shifted(g, Up, h, w), c, h, w) == MergeSpec(Column(g, c, h, w))
  {
    ShiftedLines(g, Up, h, w, c);
    LineShapes(g, h, w, c);
    LineShapes(Shifted(g, Up, h, w), h, w, c);
  }

  /** DOWN replaces each column by the reverse of the merge of the reversed column. */
  lemma MoveDownMergesReversedColumns(g: Grid, h: nat, w: nat, c: int)
    requires IsGrid(g, h, w) && 0 <= c < w
    ensures Column(Shifted(g, Down, h, w), c, h, w) == Reverse(MergeSpec(Reverse(Column(g, c, h, w))))
  {
    var s := Shifted(g, Down, h, w);
    ShiftedLines(g, Down, h, w, c);
    LineShapes(g, h, w, c);
    LineShapes(s, h, w, c);
    ReverseReverse(Column(s, c, h, w));
  }

  // ---------------------------------------------------------------------------
  // The merge phase of `move` keeps the total of the tiles.

  /** Total of the first `n` rows. */
  function RowsSum(g: Grid, n: nat): int
    requires n <= |g|
  {
    if n == 0 then 0 else RowsSum(g, n - 1) + Sum(g[n - 1])
  }

  /** Total of all tiles. */
  function GridSum(g: Grid): int
  {
    RowsSum(g, |g|)
  }

  /** Total of the first `n` columns. */
  function ColumnsSum(g: Grid, h: nat, w: nat, n: nat): int
    requires IsGrid(g, h, w) && n <= w
  {
    if n == 0 then 0 else ColumnsSum(g, h, w, n - 1) + Sum(Column(g, n - 1, h, w))
  }

  /** Total of the first `n` lines `move` walks in direction `d`. */
  function LinesSum(g: Grid, d: Direction, h: nat, w: nat, n: nat): int
    requires IsGrid(g, h, w) && n <= LineCount(d, h, w)
  {
    if n == 0 then 0 else LinesSum(g, d, h, w, n - 1) + Sum(ReadLine(g, d, n - 1, h, w))
  }

  lemma {:induction false} SumReverse(s: seq<int>)
    ensures Sum(Reverse(s)) == Sum(s)
  {
    if s != [] {
      SumReverse(s[1..]);
      assert Reverse(s) == Reverse(s[1..]) + [s[0]];
      SumAppend(Reverse(s[1..]), [s[0]]);
    }
  }

  /** Replacing every line by its merge keeps the total of the first `n` lines. */
  lemma {:induction false} MergedLinesKeepSum(g: Grid, s: Grid, d: Direction, h: nat, w: nat, n: nat)
    requires IsGrid(g, h, w) && IsGrid(s, h, w) && n <= LineCount(d, h, w)
    requires forall k :: 0 <= k < n ==> ReadLine(s, d, k, h, w) == MergeSpec(ReadLine(g, d, k, h, w))
    ensures LinesSum(s, d, h, w, n) == LinesSum(g, d, h, w, n)
  {
    if n > 0 {
      MergedLinesKeepSum(g, s, d, h, w, n - 1);
      MergeKeepsSum(ReadLine(g, d, n - 1, h, w));
    }
  }

  lemma {:induction false} RowLinesSum(g: Grid, d: Direction, h: nat, w: nat, n: nat)
    requires IsGrid(g, h, w) && (d == Left || d == Right) && n <= h
    ensures LinesSum(g, d, h, w, n) == RowsSum(g, n)
  {
    if n > 0 {
      RowLinesSum(g, d, h, w, n - 1);
      LineShapes(g, h, w, n - 1);
      SumReverse(g[n - 1]);
    }
  }

  lemma {:induction false} ColumnLinesSum(g: Grid, d: Direction, h: nat, w: nat, n: nat)
    requires IsGrid(g, h, w) && (d == Up || d == Down) && n <= w
    ensures LinesSum(g, d, h, w, n) == ColumnsSum(g, h, w, n)
  {
    if n > 0 {
      ColumnLinesSum(g, d, h, w, n - 1);
      LineShapes(g, h, w, n - 1);
      SumReverse(Column(g, n - 1, h, w));
    }
  }

  lemma {:induction false} RowsSumPrefix(g: Grid, m: nat, n: nat)
    requires n <= m <= |g|
    ensures RowsSum(g[..m], n) == RowsSum(g, n)
  {
    if n > 0 {
      RowsSumPrefix(g, m, n - 1);
    }
  }

  lemma {:induction false} ColumnsSumOfEmpty(g: Grid, w: nat, n: nat)
    requires IsGrid(g, 0, w) && n <= w
    ensures ColumnsSum(g, 0, w, n) == 0
  {
    if n > 0 {
      ColumnsSumOfEmpty(g, w, n - 1);
      assert Column(g, n - 1, 0, w) == [];
    }
  }

  /** Removing the last row takes its first `n` tiles off the first `n` columns. */
  lemma {:induction false} ColumnsSumLastRow(g: Grid, h: nat, w: nat, n: nat)
    requires IsGrid(g, h, w) && h > 0 && n <= w
    ensures IsGrid(g[..h - 1], h - 1, w)
    ensures ColumnsSum(g, h, w, n) == ColumnsSum(g[..h - 1], h - 1, w, n) + Sum(g[h - 1][..n])
  {
    var g' := g[..h - 1];
    var row := g[h - 1];
    if n > 0 {
      ColumnsSumLastRow(g, h, w, n - 1);
      assert Column(g, n - 1, h, w) == Column(g', n - 1, h - 1, w) + [row[n - 1]];
      SumAppend(Column(g', n - 1, h - 1, w), [row[n - 1]]);
      assert row[..n] == row[..n - 1] + [row[n - 1]];
      SumAppend(row[..n - 1], [row[n - 1]]);
    }
  }

  /** Summing by columns gives the same total as summing by rows. */
  lemma {:induction false} ColumnsSumIsGridSum(g: Grid, h: nat, w: nat)
    requires IsGrid(g, h, w)
    ensures ColumnsSum(g, h, w, w) == GridSum(g)
  {
    if h == 0 {
      ColumnsSumOfEmpty(g, w, w);
    } else {
      var g' := g[..h - 1];
      ColumnsSumLastRow(g, h, w, w);
      ColumnsSumIsGridSum(g', h - 1, w);
      RowsSumPrefix(g, h - 1, h - 1);
      assert g[h - 1][..w] == g[h - 1];
    }
  }

  lemma LinesSumIsGridSum(g: Grid, d: Direction, h: nat, w: nat)
    requires IsGrid(g, h, w)
    ensures LinesSum(g, d, h, w, LineCount(d, h, w)) == GridSum(g)
  {
    if d == Left || d == Right {
      RowLinesSum(g, d, h, w, h);
    } else {
      ColumnLinesSum(g, d, h, w, w);
      ColumnsSumIsGridSum(g, h, w);
    }
  }

  /** The merge phase of `move` keeps the grid's shape and the total of its tiles. */
  lemma MoveKeepsTileSum(g: Grid, d: Direction, h: nat, w: nat)
    requires IsGrid(g, h, w)
    ensures IsGrid(Shifted(g, d, h, w), h, w)
    ensures GridSum(Shifted(g, d, h, w)) == GridSum(g)
  {
    var s := Shifted(g, d, h, w);
    forall k | 0 <= k < LineCount(d, h, w)
      ensures ReadLine(s, d, k, h, w) == MergeSpec(ReadLine(g, d, k, h, w))
    {
      ShiftedLines(g, d, h, w, k);
    }
    LinesSumIsGridSum(g, d, h, w);
    LinesSumIsGridSum(s, d, h, w);
    MergedLinesKeepSum(g, s, d, h, w, LineCount(d, h, w));
  }

  // ---------------------------------------------------------------------------
  // `new_tile` puts at most one tile, on an empty cell.

  /**
   * The probes from `i` on either all hit occupied cells and the grid is
   * unchanged, or the first that hits an empty cell puts its 2 or 4 there.
   */
  lemma {:induction false} PlaceTileChangesOneEmptyCell(g: Grid, probes: seq<Probe>, i: nat, n: nat, h: nat, w: nat)
    requires IsGrid(g, h, w) && ValidProbes(probes, n, h, w) && i <= n
    ensures PlaceTile(g, probes, i, n, h, w) == g
        <==> forall j :: i <= j < n ==> g[probes[j].row][probes[j].col] != 0
    ensures PlaceTile(g, probes, i, n, h, w) == g
         || exists j :: i <= j < n && g[probes[j].row][probes[j].col] == 0 && probes[j].value in {2, 4}
              && PlaceTile(g, probes, i, n, h, w)
                 == g[probes[j].row := g[probes[j].row][probes[j].col := probes[j].value]]
    decreases n - i
  {
    if i < n {
      var p := probes[i];
      if g[p.row][p.col] == 0 {
        var r := g[p.row := g[p.row][p.col := p.value]];
        assert r[p.row][p.col] != g[p.row][p.col];
      } else {
        PlaceTileChangesOneEmptyCell(g, probes, i + 1, n, h, w);
      }
    }
  }

  /** On a grid with no empty cell, `new_tile` changes nothing. */
  lemma FullGridUnchanged(g: Grid, probes: seq<Probe>, h: nat, w: nat)
    requires IsGrid(g, h, w) && ValidProbes(probes, w * h, h, w)
    requires forall r, c :: 0 <= r < h && 0 <= c < w ==> g[r][c] != 0
    ensures PlaceTile(g, probes, 0, w * h, h, w) == g
  {
    PlaceTileChangesOneEmptyCell(g, probes, 0, w * h, h, w);
  }

  /** `new_tile` draws at most `n` = width * height probes: later ones are never read. */
  lemma {:induction false} PlaceTileReadsFirstProbes(g: Grid, probes: seq<Probe>, i: nat, n: nat, h: nat, w: nat)
    requires IsGrid(g, h, w) && ValidProbes(probes, n, h, w) && i <= n
    ensures ValidProbes(probes[..n], n, h, w)
    ensures PlaceTile(g, probes[..n], i, n, h, w) == PlaceTile(g, probes, i, n, h, w)
    decreases n - i
  {
    if i < n {
      PlaceTileReadsFirstProbes(g, probes, i + 1, n, h, w);
    }
  }
}
