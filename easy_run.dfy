/** The easy preset of the puzzle and its hinted solution, "get the key (two
    rights), left, down through the door, down to the flag", written one call
    per line and run in both modes. Line by line it solves the maze; in a
    batch run the same text walks into a wall. */
module EasyRun {
  import opened Commands
  import opened Interpreter
  import opened Maze
  import InterpreterProps
  import Modes

  /** The easy maze: start (1,1), key (3,1), door (2,2), flag (2,3). */
  const EasyGrid: Grid := ["#####", "#S.K#", "#.D.#", "#.F.#", "#####"]

  const EasyStart: Robot := Robot(EasyGrid, 1, 1, false)

  /** The hint's moves in the order a player writes them. */
  const HintMoves: seq<Dir> := [Right, Right, Left, Down, Down]

  /** The grid once the key is collected, and once the door is opened too. */
  const KeyTaken: Grid := ["#####", "#S..#", "#.D.#", "#.F.#", "#####"]
  const DoorOpened: Grid := ["#####", "#S..#", "#...#", "#.F.#", "#####"]

  /** Run in the order written, the hint collects the key, opens the door and
      reaches the flag with its fifth move. */
  lemma HintSolvesMaze()
    ensures Replay(EasyStart, HintMoves, 0).1 == FlagReached(4)
    ensures Replay(EasyStart, HintMoves, 0).0.hasKey
  {
    HintToKey();
    HintFromKey();
  }

  /** Right, right, left: the key is collected and the robot is back above
      the door. */
  lemma HintToKey()
    ensures Replay(EasyStart, HintMoves, 0) == Replay(Robot(KeyTaken, 2, 1, true), HintMoves, 3)
  {
    var r1 := Robot(EasyGrid, 2, 1, false);
    assert Step(EasyStart, Right) == (r1, true);
    assert CellActions(r1) == (r1, false);
    assert EasyGrid[1][3 := Open] == "#S..#";
    assert SetCell(EasyGrid, 3, 1, Open) == KeyTaken;
    var r2 := Robot(KeyTaken, 3, 1, true);
    assert Step(r1, Right) == (r2, true);
    assert CellActions(r2) == (r2, false);
    var r3 := Robot(KeyTaken, 2, 1, true);
    assert Step(r2, Left) == (r3, true);
    assert CellActions(r3) == (r3, false);
    assert Replay(r2, HintMoves, 2) == Replay(r3, HintMoves, 3);
    assert Replay(r1, HintMoves, 1) == Replay(r3, HintMoves, 3);
  }

  /** Down through the door, which the key opens, and down onto the flag. */
  lemma HintFromKey()
    ensures Replay(Robot(KeyTaken, 2, 1, true), HintMoves, 3) == (Robot(DoorOpened, 2, 3, true), FlagReached(4))
  {
    var r3 := Robot(KeyTaken, 2, 1, true);
    assert KeyTaken[2][2 := Open] == "#...#";
    assert SetCell(KeyTaken, 2, 2, Open) == DoorOpened;
    var r4 := Robot(DoorOpened, 2, 2, true);
    assert Step(r3, Down) == (r4, true);
    assert CellActions(r4) == (r4, false);
    var r5 := Robot(DoorOpened, 2, 3, true);
    assert Step(r4, Down) == (r5, true);
    assert CellActions(r5) == (r5, true);
    assert Replay(r4, HintMoves, 4) == (r5, FlagReached(4));
  }

  /** The four replace passes turn the hint into down, down, left, right, right. */
  lemma HintGrouped()
    ensures InterpreterProps.GroupedOf(HintMoves) == [Down, Down, Left, Right, Right]
  {
    assert multiset(HintMoves) == multiset{Right, Right, Left, Down, Down};
    assert multiset(HintMoves)[Up] == 0;
    assert multiset(HintMoves)[Down] == 2;
    assert multiset(HintMoves)[Left] == 1;
    assert multiset(HintMoves)[Right] == 2;
    assert Repeat(Down, 2) == [Down, Down];
    assert Repeat(Left, 1) == [Left];
    assert Repeat(Right, 2) == [Right, Right];
  }

  /** Down, down, left, right, right from the start cell: two steps down the
      left corridor, then the wall. */
  lemma GroupedMovesBlocked()
    ensures Replay(EasyStart, [Down, Down, Left, Right, Right], 0) == (Robot(EasyGrid, 1, 3, false), Blocked(2))
  {
    var cmds := [Down, Down, Left, Right, Right];
    var r1 := Robot(EasyGrid, 1, 2, false);
    assert Step(EasyStart, Down) == (r1, true);
    assert CellActions(r1) == (r1, false);
    var r2 := Robot(EasyGrid, 1, 3, false);
    assert Step(r1, Down) == (r2, true);
    assert CellActions(r2) == (r2, false);
    assert Step(r2, Left) == (r2, false);
    assert Replay(r2, cmds, 2) == (r2, Blocked(2));
    assert Replay(r1, cmds, 1) == (r2, Blocked(2));
  }

  /** In a batch run the hint's third command is blocked and the key is never
      reached. */
  lemma HintBlockedInBatch()
    ensures ParseProgram(InterpreterProps.CallProgram(HintMoves)) == Ok([Down, Down, Left, Right, Right])
    ensures Replay(EasyStart, [Down, Down, Left, Right, Right], 0).1 == Blocked(2)
    ensures !Replay(EasyStart, [Down, Down, Left, Right, Right], 0).0.hasKey
  {
    Modes.BatchRunsGrouped(HintMoves);
    HintGrouped();
    GroupedMovesBlocked();
  }

  /** Line by line the same text reaches the flag, holding the key. */
  lemma HintSolvesMazeLive(cancelAt: nat)
    requires cancelAt >= |HintMoves|
    ensures var (s, o) := LiveReplay(EasyStart, ParseLines(SplitLines(InterpreterProps.CallProgram(HintMoves))), 0, cancelAt);
            o.LiveFlag? && s.hasKey
  {
    Modes.LiveRunsInOrder(EasyStart, HintMoves, cancelAt);
    HintSolvesMaze();
  }
}
