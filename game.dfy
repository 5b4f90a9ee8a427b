/** The module state of script.js and the functions that change it in place:
    the live grid `maze`, `robotPos`, `hasKey`, `moveCommands` and `moveCount`,
    with the moves, the cell actions, the reset and the two run modes with
    their rendering and pacing taken out. Each method is specified by the
    value model in module Maze and the interpreter in module Interpreter. */
module Game {
  import opened Commands
  import Maze
  import Interpreter

  /** The grid held by an array, row y, column x at m[y, x]. */
  ghost function GridOf(m: array2<char>): (g: Maze.Grid)
    reads m
    ensures |g| == m.Length0
    ensures forall i :: 0 <= i < m.Length0 ==> |g[i]| == m.Length1
    ensures forall i, j :: 0 <= i < m.Length0 && 0 <= j < m.Length1 ==> g[i][j] == m[i, j]
  {
    seq(m.Length0, i reads m requires 0 <= i < m.Length0 =>
      seq(m.Length1, j reads m requires 0 <= j < m.Length1 => m[i, j]))
  }

  /** Two grids with the same shape and the same cells are equal. */
  lemma GridsEqual(g: Maze.Grid, h: Maze.Grid)
    requires Maze.SameShape(g, h)
    requires forall i, j :: 0 <= i < |g| && 0 <= j < |g[i]| ==> g[i][j] == h[i][j]
    ensures g == h
  {
    forall i | 0 <= i < |g|
      ensures g[i] == h[i]
    {
    }
  }

  /** A batch run after parsing: a parse error leaves the state as it was;
      parsed commands are replayed. */
  function BatchRun(r: Maze.Robot, parsed: Interpreter.Result<seq<Dir>>): (res: (Maze.Robot, Interpreter.Result<Maze.Outcome>))
    ensures res.1.Err? <==> parsed.Err?
    ensures parsed.Err? ==> res.0 == r && res.1.error == parsed.error
    ensures Maze.SameShape(r.grid, res.0.grid) && (r.hasKey ==> res.0.hasKey)
  {
    match parsed
    case Err(e) => (r, Interpreter.Err(e))
    case Ok(cmds) =>
      var (s, outcome) := Maze.Replay(r, cmds, 0);
      (s, Interpreter.Ok(outcome))
  }

  /** One line of the live loop, when no stop request comes before it: the
      line's replay (r1, o) ends the run, or the loop goes on from r1. */
  lemma LiveStep(r: Maze.Robot, lines: seq<seq<Dir>>, idx: nat, cancelAt: nat, r1: Maze.Robot, o: Maze.Outcome)
    requires idx < |lines| && idx < cancelAt
    requires (r1, o) == Maze.Replay(r, lines[idx], 0)
    ensures o.Blocked? ==> Maze.LiveReplay(r, lines, idx, cancelAt) == (r1, Maze.LiveBlocked(idx))
    ensures o.FlagReached? ==> Maze.LiveReplay(r, lines, idx, cancelAt) == (r1, Maze.LiveFlag(idx))
    ensures o.Completed? ==> Maze.LiveReplay(r, lines, idx, cancelAt) == Maze.LiveReplay(r1, lines, idx + 1, cancelAt)
  {
  }

  /** The moves a batch run counts: all of them, or up to and including the
      one that was blocked or reached the flag. */
  function Attempted(cmds: seq<Dir>, outcome: Maze.Outcome): nat
  {
    match outcome
    case Completed => |cmds|
    case Blocked(i) => i + 1
    case FlagReached(i) => i + 1
  }

  /** All rows of a preset have the same length, so it fits a two-dimensional array. */
  predicate Rectangular(t: Maze.Grid)
  {
    forall i :: 0 <= i < |t| ==> |t[i]| == |t[0]|
  }

  /** cloneMaze: a fresh copy of a preset's grid. */
  method CloneMaze(template: Maze.Grid) returns (m: array2<char>)
    requires Rectangular(template)
    ensures fresh(m)
    ensures GridOf(m) == template
  {
    var rows := |template|;
    var cols := if rows == 0 then 0 else |template[0]|;
    m := new char[rows, cols];
    for i := 0 to rows
      invariant forall a, b :: 0 <= a < i && 0 <= b < cols ==> m[a, b] == template[a][b]
    {
      for j := 0 to cols
        invariant forall a, b :: 0 <= a < i && 0 <= b < cols ==> m[a, b] == template[a][b]
        invariant forall b :: 0 <= b < j ==> m[i, b] == template[i][b]
      {
        m[i, j] := template[i][j];
      }
    }
    GridsEqual(GridOf(m), template);
  }

  class Game {
    var maze: array2<char>
    var x: int
    var y: int
    var hasKey: bool
    var moveCommands: seq<Dir>
    var moveCount: nat

    /** The state the simulator works on, as a value. */
    ghost function Model(): Maze.Robot
      reads this, maze
    {
      Maze.Robot(GridOf(maze), x, y, hasKey)
    }

    /** The page load: the preset's grid copied, the robot on its start cell. */
    constructor (template: Maze.Grid, startX: int, startY: int)
      requires Rectangular(template)
      ensures fresh(maze)
      ensures Model() == Maze.Robot(template, startX, startY, false)
      ensures moveCommands == [] && moveCount == 0
    {
      var grid := CloneMaze(template);
      maze := grid;
      x, y := startX, startY;
      hasKey := false;
      moveCommands, moveCount := [], 0;
    }

    /** resetMaze: the key dropped, the grid restored from the preset and the
        robot put back on the start cell. */
    method Reset(template: Maze.Grid, startX: int, startY: int)
      requires Rectangular(template)
      modifies this
      ensures fresh(maze)
      ensures Model() == Maze.Robot(template, startX, startY, false)
      ensures moveCommands == [] && moveCount == 0
    {
      hasKey := false;
      moveCommands, moveCount := [], 0;
      maze := CloneMaze(template);
      x, y := startX, startY;
    }

    /** isValidMove over the live grid. */
    function IsValidMove(nx: int, ny: int): (ok: bool)
      reads this, maze
      ensures ok == Maze.IsValidMove(Model(), nx, ny)
    {
      if nx < 0 || nx >= maze.Length0 || ny < 0 || ny >= maze.Length0 then false
      else
        var t := if nx < maze.Length1 then Some(maze[ny, nx]) else None;
        if t == Some('#') then false
        else if t == Some('D') && !hasKey then false
        else true
    }

    /** checkCellActions over the live grid. */
    method CheckCellActions() returns (flag: bool)
      requires 0 <= y < maze.Length0 && 0 <= x
      modifies this`hasKey, maze
      ensures (Model(), flag) == Maze.CellActions(old(Model()))
    {
      ghost var before := Model();
      var t := if x < maze.Length1 then Some(maze[y, x]) else None;
      assert t == Maze.CellAt(before.grid, x, y);
      if t == Some('K') {
        hasKey := true;
        maze[y, x] := '.';
        GridsEqual(GridOf(maze), Maze.SetCell(before.grid, x, y, '.'));
      }
      ghost var middle := Model();
      if t == Some('D') && hasKey {
        maze[y, x] := '.';
        GridsEqual(GridOf(maze), Maze.SetCell(middle.grid, x, y, '.'));
      }
      flag := t == Some('F');
    }

    /** The shared body of the four move functions. */
    method MoveTo(newX: int, newY: int) returns (ok: bool)
      modifies this, maze
      ensures maze == old(maze)
      ensures moveCommands == old(moveCommands) && moveCount == old(moveCount)
      ensures ok == Maze.IsValidMove(old(Model()), newX, newY)
      ensures Model() == if ok then Maze.CellActions(old(Model()).(x := newX, y := newY)).0 else old(Model())
    {
      if IsValidMove(newX, newY) {
        x, y := newX, newY;
        var _ := CheckCellActions();
        return true;
      }
      return false;
    }

    method MoveUp() returns (ok: bool)
      modifies this, maze
      ensures maze == old(maze)
      ensures moveCommands == old(moveCommands) && moveCount == old(moveCount)
      ensures (Model(), ok) == Maze.Step(old(Model()), Up)
    {
      ok := MoveTo(x, y - 1);
    }

    method MoveDown() returns (ok: bool)
      modifies this, maze
      ensures maze == old(maze)
      ensures moveCommands == old(moveCommands) && moveCount == old(moveCount)
      ensures (Model(), ok) == Maze.Step(old(Model()), Down)
    {
      ok := MoveTo(x, y + 1);
    }

    method MoveLeft() returns (ok: bool)
      modifies this, maze
      ensures maze == old(maze)
      ensures moveCommands == old(moveCommands) && moveCount == old(moveCount)
      ensures (Model(), ok) == Maze.Step(old(Model()), Left)
    {
      ok := MoveTo(x - 1, y);
    }

    method MoveRight() returns (ok: bool)
      modifies this, maze
      ensures maze == old(maze)
      ensures moveCommands == old(moveCommands) && moveCount == old(moveCount)
      ensures (Model(), ok) == Maze.Step(old(Model()), Right)
    {
      ok := MoveTo(x + 1, y);
    }

    /** The switch on a command in both run loops. */
    method Apply(c: Dir) returns (ok: bool)
      modifies this, maze
      ensures maze == old(maze)
      ensures moveCommands == old(moveCommands) && moveCount == old(moveCount)
      ensures (Model(), ok) == Maze.Step(old(Model()), c)
    {
      match c
      case Up => ok := MoveUp();
      case Down => ok := MoveDown();
      case Left => ok := MoveLeft();
      case Right => ok := MoveRight();
    }

    /** The command loop of executeUserCode: every command attempted is
        counted; the run stops at the first blocked move or on the flag. */
    method RunCommands(cmds: seq<Dir>) returns (outcome: Maze.Outcome)
      modifies this, maze
      ensures maze == old(maze) && moveCommands == old(moveCommands)
      ensures (Model(), outcome) == Maze.Replay(old(Model()), cmds, 0)
      ensures moveCount == old(moveCount) + Attempted(cmds, outcome)
    {
      var i := 0;
      while i < |cmds|
        invariant i <= |cmds|
        invariant maze == old(maze) && moveCommands == old(moveCommands)
        invariant Maze.Replay(old(Model()), cmds, 0) == Maze.Replay(Model(), cmds, i)
        invariant moveCount == old(moveCount) + i
      {
        var ok := Apply(cmds[i]);
        moveCount := moveCount + 1;
        if !ok {
          return Maze.Blocked(i);
        }
        var flag := CheckCellActions();
        if flag {
          return Maze.FlagReached(i);
        }
        i := i + 1;
      }
      return Maze.Completed;
    }

    /** executeUserCode from the current state: an empty text, an
        interpreter error or too many moves aborts before anything moves;
        otherwise the commands are replayed. */
    method ExecuteUserCode(code: seq<Interpreter.Lexeme>) returns (res: Interpreter.Result<Maze.Outcome>)
      modifies this, maze
      ensures maze == old(maze)
      ensures (Model(), res) == BatchRun(old(Model()), Interpreter.ParseProgram(code))
      ensures var t := Interpreter.Trim(code);
              moveCommands == if t != [] && Interpreter.Interpret(t).Ok? then Interpreter.Interpret(t).value else []
      ensures var parsed := Interpreter.ParseProgram(code);
              moveCount == if parsed.Ok? && res.Ok? then Attempted(parsed.value, res.value) else 0
    {
      moveCommands := [];
      moveCount := 0;
      var parsed, built := Interpreter.ParseUserCode(code);
      moveCommands := built;
      res := RunParsed(parsed);
    }

    /** The part of executeUserCode after parsing: a parse error is reported
        and nothing moves; parsed commands are replayed and counted. */
    method RunParsed(parsed: Interpreter.Result<seq<Dir>>) returns (res: Interpreter.Result<Maze.Outcome>)
      requires moveCount == 0
      modifies this, maze
      ensures maze == old(maze) && moveCommands == old(moveCommands)
      ensures (Model(), res) == BatchRun(old(Model()), parsed)
      ensures moveCount == if parsed.Ok? && res.Ok? then Attempted(parsed.value, res.value) else 0
    {
      if parsed.Err? {
        return Interpreter.Err(parsed.error);
      }
      var outcome := RunCommands(parsed.value);
      return Interpreter.Ok(outcome);
    }

    /** The for...of loop of liveExecute over one line's commands: the same
        moves as the batch loop, without counting them. */
    method RunLine(commands: seq<Dir>) returns (outcome: Maze.Outcome)
      modifies this, maze
      ensures maze == old(maze)
      ensures moveCommands == old(moveCommands) && moveCount == old(moveCount)
      ensures (Model(), outcome) == Maze.Replay(old(Model()), commands, 0)
    {
      var j := 0;
      while j < |commands|
        invariant j <= |commands|
        invariant maze == old(maze)
        invariant moveCommands == old(moveCommands) && moveCount == old(moveCount)
        invariant Maze.Replay(old(Model()), commands, 0) == Maze.Replay(Model(), commands, j)
      {
        var ok := Apply(commands[j]);
        if !ok {
          return Maze.Blocked(j);
        }
        var flag := CheckCellActions();
        if flag {
          return Maze.FlagReached(j);
        }
        j := j + 1;
      }
      return Maze.Completed;
    }

    /** One line of liveExecute: parsed on its own, its commands run at once. */
    method LiveLine(line: seq<Interpreter.Lexeme>, ghost parsed: seq<Dir>) returns (outcome: Maze.Outcome)
      requires parsed == Interpreter.ParseSingleLine(line)
      modifies this, maze
      ensures maze == old(maze)
      ensures moveCommands == old(moveCommands) && moveCount == old(moveCount)
      ensures (Model(), outcome) == Maze.Replay(old(Model()), parsed, 0)
    {
      var commands := Interpreter.ParseLine(line);
      outcome := RunLine(commands);
    }

    /** liveExecute: the text line by line, each line parsed on its own and its
        commands run at once; a blocked move or the flag ends the run, and a
        stop request is honoured before line cancelAt. */
    method LiveExecute(code: seq<Interpreter.Lexeme>, cancelAt: nat) returns (outcome: Maze.LiveOutcome)
      modifies this, maze
      ensures maze == old(maze)
      ensures moveCommands == old(moveCommands) && moveCount == old(moveCount)
      ensures (Model(), outcome)
              == Maze.LiveReplay(old(Model()), Interpreter.ParseLines(Interpreter.SplitLines(code)), 0, cancelAt)
    {
      var lines := Interpreter.SplitLines(code);
      outcome := LiveLines(lines, cancelAt);
    }

    /** The for loop of liveExecute over the lines of the text. */
    method LiveLines(lines: seq<seq<Interpreter.Lexeme>>, cancelAt: nat) returns (outcome: Maze.LiveOutcome)
      modifies this, maze
      ensures maze == old(maze)
      ensures moveCommands == old(moveCommands) && moveCount == old(moveCount)
      ensures (Model(), outcome) == Maze.LiveReplay(old(Model()), Interpreter.ParseLines(lines), 0, cancelAt)
    {
      ghost var parsed := Interpreter.ParseLines(lines);
      ghost var start := Model();
      var idx := 0;
      while idx < |lines|
        invariant idx <= |lines|
        invariant maze == old(maze)
        invariant moveCommands == old(moveCommands) && moveCount == old(moveCount)
        invariant Maze.LiveReplay(start, parsed, 0, cancelAt) == Maze.LiveReplay(Model(), parsed, idx, cancelAt)
      {
        if cancelAt <= idx {
          return Maze.LiveStopped(idx);
        }
        ghost var before := Model();
        var lineOutcome := LiveLine(lines[idx], parsed[idx]);
        LiveStep(before, parsed, idx, cancelAt, Model(), lineOutcome);
        match lineOutcome
        case Blocked(_) => return Maze.LiveBlocked(idx);
        case FlagReached(_) => return Maze.LiveFlag(idx);
        case Completed =>
        idx := idx + 1;
      }
      return Maze.LiveFinished;
    }
  }
}
