/** The maze simulator of script.js as a state machine over values: the grid,
    the robot's position and whether it holds the key. isValidMove, the four
    move functions, checkCellActions and the two replay loops are functions
    here; the Game class implements them over a mutable grid. */
module Maze {
  import opened Commands

  /** The grid, row by row: grid[y][x]. */
  type Grid = seq<seq<char>>

  const Wall: char := '#'
  const Open: char := '.'
  const KeyCell: char := 'K'
  const DoorCell: char := 'D'
  const FlagCell: char := 'F'

  /** The module state the moves touch: maze, robotPos and hasKey. */
  datatype Robot = Robot(grid: Grid, x: int, y: int, hasKey: bool)

  /** maze[y][x] as JavaScript reads it; past the end of a row it is undefined. */
  function CellAt(g: Grid, x: int, y: int): (c: Option<char>)
    requires 0 <= y < |g| && 0 <= x
    ensures c.None? <==> |g[y]| <= x
    ensures c.Some? ==> c.value == g[y][x]
  {
    if x < |g[y]| then Some(g[y][x]) else None
  }

  /** isValidMove(x, y). MAZE_SIZE is the number of rows and bounds both axes. */
  predicate IsValidMove(r: Robot, x: int, y: int)
    ensures IsValidMove(r, x, y) ==> 0 <= x < |r.grid| && 0 <= y < |r.grid|
    ensures IsValidMove(r, x, y) && x < |r.grid[y]| ==>
              r.grid[y][x] != Wall && (r.grid[y][x] == DoorCell ==> r.hasKey)
  {
    0 <= x < |r.grid| && 0 <= y < |r.grid|
    && CellAt(r.grid, x, y) != Some(Wall)
    && !(CellAt(r.grid, x, y) == Some(DoorCell) && !r.hasKey)
  }

  /** maze[y][x] = c */
  function SetCell(g: Grid, x: int, y: int, c: char): (h: Grid)
    requires 0 <= y < |g| && 0 <= x < |g[y]|
    ensures SameShape(g, h) && h[y][x] == c
    ensures forall i, j :: 0 <= i < |g| && 0 <= j < |g[i]| && (i != y || j != x) ==> h[i][j] == g[i][j]
  {
    g[y := g[y][x := c]]
  }

  /** The position one step away in direction d (y grows downwards). */
  function Target(r: Robot, d: Dir): (t: (int, int))
    ensures (d == Up || d == Down) <==> t.0 == r.x
    ensures (d == Left || d == Right) <==> t.1 == r.y
    ensures t.0 - r.x + t.1 - r.y == if d == Up || d == Left then -1 else 1
  {
    match d
    case Up => (r.x, r.y - 1)
    case Down => (r.x, r.y + 1)
    case Left => (r.x - 1, r.y)
    case Right => (r.x + 1, r.y)
  }

  /** The same number of rows, each of the same length. */
  predicate SameShape(g: Grid, h: Grid)
  {
    |g| == |h| && forall i :: 0 <= i < |g| ==> |g[i]| == |h[i]|
  }

  /** checkCellActions: the effects of entering the robot's cell, and whether
      that cell is the flag. */
  function CellActions(r: Robot): (res: (Robot, bool))
    requires 0 <= r.y < |r.grid| && 0 <= r.x
    ensures SameShape(r.grid, res.0.grid)
    ensures res.0.x == r.x && res.0.y == r.y
  {
    var t := CellAt(r.grid, r.x, r.y);
    var r1 := if t == Some(KeyCell) then r.(hasKey := true, grid := SetCell(r.grid, r.x, r.y, Open)) else r;
    var r2 := if t == Some(DoorCell) && r1.hasKey then r1.(grid := SetCell(r1.grid, r.x, r.y, Open)) else r1;
    (r2, t == Some(FlagCell))
  }

  /** moveUp, moveDown, moveLeft, moveRight: a valid target is entered and its
      cell effects applied; otherwise nothing changes. The flag test inside is
      ignored, as the move functions ignore it. */
  function Step(r: Robot, d: Dir): (res: (Robot, bool))
    ensures SameShape(r.grid, res.0.grid)
    ensures res.1 ==> 0 <= res.0.x < |res.0.grid| && 0 <= res.0.y < |res.0.grid|
  {
    var (nx, ny) := Target(r, d);
    if IsValidMove(r, nx, ny) then (CellActions(r.(x := nx, y := ny)).0, true) else (r, false)
  }

  /** How a command sequence ends: every command applied, a move blocked at the
      given index, or the flag reached by the move at the given index. */
  datatype Outcome = Completed | Blocked(step: nat) | FlagReached(step: nat)

  /** The loop of executeUserCode from command i on: each command is a move; a
      blocked move stops the run; after a move checkCellActions runs once more
      and stops the run on the flag. */
  function Replay(r: Robot, cmds: seq<Dir>, i: nat): (res: (Robot, Outcome))
    requires i <= |cmds|
    decreases |cmds| - i
    ensures SameShape(r.grid, res.0.grid)
    ensures r.hasKey ==> res.0.hasKey
    ensures !res.1.Completed? ==> i < |cmds|
  {
    if i == |cmds| then (r, Completed)
    else
      var (r1, ok) := Step(r, cmds[i]);
      if !ok then (r1, Blocked(i))
      else
        var (r2, flag) := CellActions(r1);
        if flag then (r2, FlagReached(i)) else Replay(r2, cmds, i + 1)
  }

  /** How a live run ends, by source line: all lines done, stopped by the user
      before a line, a move of the line blocked, or the flag reached on it. */
  datatype LiveOutcome = LiveFinished | LiveStopped(line: nat) | LiveBlocked(line: nat) | LiveFlag(line: nat)

  /** The loop of liveExecute from line idx on. The stop request is found set
      before line cancelAt; each line's commands run as in a batch run. */
  function LiveReplay(r: Robot, lines: seq<seq<Dir>>, idx: nat, cancelAt: nat): (res: (Robot, LiveOutcome))
    requires idx <= |lines|
    decreases |lines| - idx
    ensures SameShape(r.grid, res.0.grid)
    ensures res.1.LiveBlocked? ==> idx <= res.1.line < |lines| && res.1.line < cancelAt
    ensures res.1.LiveFlag? ==> idx <= res.1.line < |lines| && res.1.line < cancelAt
  {
    if idx == |lines| then (r, LiveFinished)
    else if cancelAt <= idx then (r, LiveStopped(idx))
    else
      var (r1, o) := Replay(r, lines[idx], 0);
      match o
      case Blocked(_) => (r1, LiveBlocked(idx))
      case FlagReached(_) => (r1, LiveFlag(idx))
      case Completed => LiveReplay(r1, lines, idx + 1, cancelAt)
  }
}
