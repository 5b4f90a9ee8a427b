/** Properties of the maze simulator: what one move does, what entering a cell
    does, what the grid can turn into over a run, and how a run is built from
    its commands and, in live mode, from its lines. */
module MazeProps {
  import opened Commands
  import opened Maze

  // ---------------------------------------------------------------------------
  // One move.

  /** The displacement each movement function applies (y grows downwards). */
  function Delta(d: Dir): (int, int)
  {
    match d
    case Up => (0, -1)
    case Down => (0, 1)
    case Left => (-1, 0)
    case Right => (1, 0)
  }

  /** A move succeeds exactly when isValidMove accepts the neighbouring cell.
      Then the robot is on that cell, one coordinate changed by one. Otherwise
      the move reports false and the state is unchanged. */
  lemma StepEffect(r: Robot, d: Dir)
    ensures var (s, ok) := Step(r, d);
            var (dx, dy) := Delta(d);
            ok == IsValidMove(r, r.x + dx, r.y + dy)
            && (ok ==> s.x == r.x + dx && s.y == r.y + dy)
            && (!ok ==> s == r)
  {
    var (dx, dy) := Delta(d);
    assert Target(r, d) == (r.x + dx, r.y + dy);
  }

  /** isValidMove refuses the border and beyond, walls, and doors without the
      key, and accepts every other cell. */
  lemma ValidMoveCases(r: Robot, x: int, y: int)
    ensures !(0 <= x < |r.grid| && 0 <= y < |r.grid|) ==> !IsValidMove(r, x, y)
    ensures 0 <= x < |r.grid| && 0 <= y < |r.grid| ==>
              (IsValidMove(r, x, y) <==>
                 match CellAt(r.grid, x, y)
                 case None => true
                 case Some(c) => c != Wall && (c == DoorCell ==> r.hasKey))
  {
  }

  // ---------------------------------------------------------------------------
  // Entering a cell.

  /** checkCellActions: a key is picked up and its cell opened; a door is
      opened when the key is held; the flag is reported; nothing else
      changes. */
  lemma CellActionsEffect(r: Robot)
    requires 0 <= r.y < |r.grid| && 0 <= r.x
    ensures var (s, flag) := CellActions(r);
            var t := CellAt(r.grid, r.x, r.y);
            (flag <==> t == Some(FlagCell))
            && s.x == r.x && s.y == r.y
            && s.hasKey == (r.hasKey || t == Some(KeyCell))
            && (t == Some(KeyCell) || (t == Some(DoorCell) && r.hasKey) ==>
                  s.grid == SetCell(r.grid, r.x, r.y, Open))
            && (!(t == Some(KeyCell) || (t == Some(DoorCell) && r.hasKey)) ==> s.grid == r.grid)
  {
  }

  /** A second checkCellActions on the same cell changes nothing and reports the
      same flag, so the batch loop's extra call after each move is harmless. */
  lemma CellActionsIdempotent(r: Robot)
    requires 0 <= r.y < |r.grid| && 0 <= r.x
    ensures var (s, flag) := CellActions(r);
            CellActions(s) == (s, flag)
  {
    var t := CellAt(r.grid, r.x, r.y);
    var (s, flag) := CellActions(r);
    if t == Some(KeyCell) || (t == Some(DoorCell) && r.hasKey) {
      assert CellAt(s.grid, r.x, r.y) == Some(Open);
    } else {
      assert s == r;
    }
  }

  /** The robot is inside the grid, not on a wall. */
  predicate Standing(r: Robot)
  {
    0 <= r.x < |r.grid| && 0 <= r.y < |r.grid| && CellAt(r.grid, r.x, r.y) != Some(Wall)
  }

  /** After a successful move the robot stands on a cell that is neither a
      wall, nor a key (it was collected), nor a door (it was opened). */
  lemma StepLandsClear(r: Robot, d: Dir)
    ensures var (s, ok) := Step(r, d);
            ok ==> Standing(s) && CellAt(s.grid, s.x, s.y) != Some(KeyCell)
                   && CellAt(s.grid, s.x, s.y) != Some(DoorCell)
  {
    var (nx, ny) := Target(r, d);
    if IsValidMove(r, nx, ny) {
      var m := r.(x := nx, y := ny);
      var t := CellAt(r.grid, nx, ny);
      var s := CellActions(m).0;
      if t == Some(KeyCell) || (t == Some(DoorCell) && r.hasKey) {
        assert CellAt(s.grid, nx, ny) == Some(Open);
      } else {
        assert s == m;
      }
    }
  }

  /** A robot that stands keeps standing, move after move. */
  lemma StepKeepsStanding(r: Robot, d: Dir)
    requires Standing(r)
    ensures Standing(Step(r, d).0)
  {
    StepLandsClear(r, d);
  }

  // ---------------------------------------------------------------------------
  // What the grid can turn into.

  /** s is a state r can evolve into: the same shape, the key never lost, and
      a cell changed only from a key or a door to open floor, and only once
      the key is held. Walls and the flag therefore never change. */
  predicate MayBecome(r: Robot, s: Robot)
  {
    SameShape(r.grid, s.grid) && (r.hasKey ==> s.hasKey)
    && forall i, j :: 0 <= i < |r.grid| && 0 <= j < |r.grid[i]| ==>
         r.grid[i][j] == s.grid[i][j]
         || (s.grid[i][j] == Open && (r.grid[i][j] == KeyCell || r.grid[i][j] == DoorCell) && s.hasKey)
  }

  lemma MayBecomeRefl(r: Robot)
    ensures MayBecome(r, r)
  {
  }

  lemma MayBecomeTrans(r: Robot, s: Robot, u: Robot)
    requires MayBecome(r, s) && MayBecome(s, u)
    ensures MayBecome(r, u)
  {
    forall i, j | 0 <= i < |r.grid| && 0 <= j < |r.grid[i]|
      ensures r.grid[i][j] == u.grid[i][j]
              || (u.grid[i][j] == Open && (r.grid[i][j] == KeyCell || r.grid[i][j] == DoorCell) && u.hasKey)
    {
      assert j < |s.grid[i]|;
    }
  }

  lemma CellActionsMayBecome(r: Robot)
    requires 0 <= r.y < |r.grid| && 0 <= r.x
    ensures MayBecome(r, CellActions(r).0)
  {
    CellActionsEffect(r);
  }

  lemma StepMayBecome(r: Robot, d: Dir)
    ensures MayBecome(r, Step(r, d).0)
  {
    var (nx, ny) := Target(r, d);
    if IsValidMove(r, nx, ny) {
      var m := r.(x := nx, y := ny);
      CellActionsMayBecome(m);
    }
  }

  /** Over a whole batch run the grid only evolves as MayBecome allows. */
  lemma {:induction false} ReplayMayBecome(r: Robot, cmds: seq<Dir>, i: nat)
    requires i <= |cmds|
    decreases |cmds| - i
    ensures MayBecome(r, Replay(r, cmds, i).0)
  {
    if i == |cmds| {
      MayBecomeRefl(r);
    } else {
      var (r1, ok) := Step(r, cmds[i]);
      StepMayBecome(r, cmds[i]);
      if ok {
        var (r2, flag) := CellActions(r1);
        CellActionsMayBecome(r1);
        MayBecomeTrans(r, r1, r2);
        if !flag {
          ReplayMayBecome(r2, cmds, i + 1);
          MayBecomeTrans(r, r2, Replay(r2, cmds, i + 1).0);
        }
      }
    }
  }

  /** A run never moves a wall or the flag, and leaves the grid as it was
      until the key has been collected. */
  lemma ReplayKeepsLayout(r: Robot, cmds: seq<Dir>)
    ensures var s := Replay(r, cmds, 0).0;
            SameShape(r.grid, s.grid)
            && (forall i, j :: 0 <= i < |r.grid| && 0 <= j < |r.grid[i]| && r.grid[i][j] == Wall ==> s.grid[i][j] == Wall)
            && (forall i, j :: 0 <= i < |r.grid| && 0 <= j < |r.grid[i]| && r.grid[i][j] == FlagCell ==> s.grid[i][j] == FlagCell)
            && (!s.hasKey ==> s.grid == r.grid)
  {
    var s := Replay(r, cmds, 0).0;
    ReplayMayBecome(r, cmds, 0);
    if !s.hasKey {
      assert forall i :: 0 <= i < |r.grid| ==> r.grid[i] == s.grid[i];
    }
  }

  /** A robot that starts standing is standing when the run ends. */
  lemma {:induction false} ReplayKeepsStanding(r: Robot, cmds: seq<Dir>, i: nat)
    requires i <= |cmds| && Standing(r)
    decreases |cmds| - i
    ensures Standing(Replay(r, cmds, i).0)
  {
    if i < |cmds| {
      var (r1, ok) := Step(r, cmds[i]);
      StepKeepsStanding(r, cmds[i]);
      if ok {
        CellActionsIdempotent(r1);
        var (r2, flag) := CellActions(r1);
        assert r2 == r1;
        if !flag {
          ReplayKeepsStanding(r2, cmds, i + 1);
        }
      }
    }
  }

  // ---------------------------------------------------------------------------
  // Runs built from their commands.

  /** A run's outcome with its command index moved on by k. */
  function Shift(res: (Robot, Outcome), k: nat): (Robot, Outcome)
  {
    match res.1
    case Completed => res
    case Blocked(j) => (res.0, Blocked(j + k))
    case FlagReached(j) => (res.0, FlagReached(j + k))
  }

  /** The index a run stops at lies among the commands it was given. */
  lemma {:induction false} ReplayStopIndex(r: Robot, cmds: seq<Dir>, i: nat)
    requires i <= |cmds|
    decreases |cmds| - i
    ensures match Replay(r, cmds, i).1
            case Completed => true
            case Blocked(j) => i <= j < |cmds|
            case FlagReached(j) => i <= j < |cmds|
  {
    if i < |cmds| {
      var (r1, ok) := Step(r, cmds[i]);
      if ok {
        var (r2, flag) := CellActions(r1);
        if !flag {
          ReplayStopIndex(r2, cmds, i + 1);
        }
      }
    }
  }

  /** Commands after a prefix run exactly as they would on their own, with
      their indices moved on by the prefix's length. */
  lemma {:induction false} ReplayOffset(r: Robot, pre: seq<Dir>, b: seq<Dir>, j: nat)
    requires j <= |b|
    decreases |b| - j
    ensures Replay(r, pre + b, |pre| + j) == Shift(Replay(r, b, j), |pre|)
  {
    var c := pre + b;
    if j < |b| {
      assert c[|pre| + j] == b[j];
      var (r1, ok) := Step(r, b[j]);
      if ok {
        var (r2, flag) := CellActions(r1);
        if !flag {
          ReplayOffset(r2, pre, b, j + 1);
        }
      }
    }
  }

  /** A run of a + b is the run of a, followed, if a completed, by the run of
      b from where a left the robot. */
  lemma {:induction false} ReplayAppend(r: Robot, a: seq<Dir>, b: seq<Dir>, i: nat)
    requires i <= |a|
    decreases |a| - i
    ensures Replay(r, a + b, i)
            == var (s, o) := Replay(r, a, i);
               if o.Completed? then Shift(Replay(s, b, 0), |a|) else (s, o)
  {
    var c := a + b;
    if i == |a| {
      ReplayOffset(r, a, b, 0);
    } else {
      assert c[i] == a[i];
      var (r1, ok) := Step(r, a[i]);
      if ok {
        var (r2, flag) := CellActions(r1);
        if !flag {
          ReplayAppend(r2, a, b, i + 1);
        }
      }
    }
  }

  /** Once a move is blocked or the flag is reached, no later command is
      applied: appending commands changes neither the state nor the outcome. */
  lemma ReplayStopsEarly(r: Robot, a: seq<Dir>, b: seq<Dir>)
    requires !Replay(r, a, 0).1.Completed?
    ensures Replay(r, a + b, 0) == Replay(r, a, 0)
  {
    ReplayAppend(r, a, b, 0);
  }

  /** A run blocked at command i ran the first i commands to completion and
      then left the robot where the blocked move found it. */
  lemma ReplayBlockedAt(r: Robot, cmds: seq<Dir>, i: nat)
    requires Replay(r, cmds, 0).1 == Blocked(i)
    ensures i < |cmds|
    ensures var (s, o) := Replay(r, cmds[..i], 0);
            o == Completed && !Step(s, cmds[i]).1 && Replay(r, cmds, 0).0 == s
  {
    ReplayStopIndex(r, cmds, 0);
    var a, b := cmds[..i], cmds[i..];
    assert a + b == cmds;
    ReplayAppend(r, a, b, 0);
    var (s, o) := Replay(r, a, 0);
    ReplayStopIndex(r, a, 0);
    assert o == Completed;
    assert b[0] == cmds[i];
    var (r1, ok) := Step(s, b[0]);
    if ok {
      var (r2, flag) := CellActions(r1);
      if !flag {
        ReplayStopIndex(r2, b, 1);
      }
      assert false;
    }
  }

  /** A run that reached the flag with command i ran the first i commands to
      completion, and command i moved the robot onto the flag cell, where the
      run ends after the cell actions. */
  lemma ReplayFlagAt(r: Robot, cmds: seq<Dir>, i: nat)
    requires Replay(r, cmds, 0).1 == FlagReached(i)
    ensures i < |cmds|
    ensures var (s, o) := Replay(r, cmds[..i], 0);
            var (s1, ok) := Step(s, cmds[i]);
            o == Completed && ok && CellAt(s1.grid, s1.x, s1.y) == Some(FlagCell)
            && CellActions(s1) == (Replay(r, cmds, 0).0, true)
  {
    ReplayStopIndex(r, cmds, 0);
    var a, b := cmds[..i], cmds[i..];
    assert a + b == cmds;
    ReplayAppend(r, a, b, 0);
    var (s, o) := Replay(r, a, 0);
    ReplayStopIndex(r, a, 0);
    assert o == Completed;
    assert b[0] == cmds[i];
    var (r1, ok) := Step(s, b[0]);
    if ok {
      var (r2, flag) := CellActions(r1);
      if !flag {
        ReplayStopIndex(r2, b, 1);
        assert false;
      }
    }
  }

  // ---------------------------------------------------------------------------
  // Live runs.

  /** The commands of several lines, one after the other. */
  function Flatten(lines: seq<seq<Dir>>): (r: seq<Dir>)
    ensures lines == [] ==> r == []
  {
    if lines == [] then [] else lines[0] + Flatten(lines[1..])
  }

  /** A live run that is not stopped runs the same moves as a batch run of all
      its lines' commands in a row: the same final state, and it finishes,
      is blocked or reaches the flag exactly when the batch run does. */
  lemma {:induction false} LiveMatchesBatch(r: Robot, lines: seq<seq<Dir>>, idx: nat, cancelAt: nat)
    requires idx <= |lines| <= cancelAt
    decreases |lines| - idx
    ensures var (s, o) := LiveReplay(r, lines, idx, cancelAt);
            var (t, p) := Replay(r, Flatten(lines[idx..]), 0);
            s == t && (o.LiveFinished? <==> p.Completed?)
            && (o.LiveBlocked? <==> p.Blocked?) && (o.LiveFlag? <==> p.FlagReached?)
  {
    var rest := lines[idx..];
    if idx < |lines| {
      assert rest[1..] == lines[idx + 1..];
      assert Flatten(rest) == lines[idx] + Flatten(lines[idx + 1..]);
      ReplayAppend(r, lines[idx], Flatten(lines[idx + 1..]), 0);
      var (r1, o) := Replay(r, lines[idx], 0);
      if o.Completed? {
        LiveMatchesBatch(r1, lines, idx + 1, cancelAt);
      }
    }
  }

  /** A stop request takes effect only before line cancelAt, and only if the
      run got that far. */
  lemma {:induction false} LiveStopsAtCancel(r: Robot, lines: seq<seq<Dir>>, idx: nat, cancelAt: nat)
    requires idx <= |lines|
    decreases |lines| - idx
    ensures var o := LiveReplay(r, lines, idx, cancelAt).1;
            o.LiveStopped? ==> o.line == if idx < cancelAt then cancelAt else idx
    ensures var o := LiveReplay(r, lines, idx, cancelAt).1;
            o.LiveStopped? ==> o.line < |lines|
  {
    if idx < |lines| && idx < cancelAt {
      var (r1, o) := Replay(r, lines[idx], 0);
      if o.Completed? {
        LiveStopsAtCancel(r1, lines, idx + 1, cancelAt);
      }
    }
  }
}
