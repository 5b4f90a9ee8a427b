/** The two run modes of the page on the same text. A batch run
    (executeUserCode) interprets the whole text, so its moves come out
    grouped by direction. A live run (liveExecute) takes the text line by
    line, so a program of one call per line runs in the order written. */
module Modes {
  import opened Commands
  import opened Interpreter
  import opened Maze
  import InterpreterProps
  import MazeProps

  /** Lines of one move each, run one after the other, are the moves. */
  lemma {:induction false} FlattenSingles(ds: seq<Dir>)
    ensures MazeProps.Flatten(InterpreterProps.Singles(ds)) == ds
  {
    if ds != [] {
      assert InterpreterProps.Singles(ds)[1..] == InterpreterProps.Singles(ds[1..]);
      FlattenSingles(ds[1..]);
      assert ds == [ds[0]] + ds[1..];
    }
  }

  /** A batch run of a program of one call per line, within the move limit,
      replays the written moves sorted by direction, a permutation of them. */
  lemma BatchRunsGrouped(ds: seq<Dir>)
    requires 0 < |ds| <= MoveLimit
    ensures ParseProgram(InterpreterProps.CallProgram(ds)) == Ok(InterpreterProps.GroupedOf(ds))
    ensures Grouped(InterpreterProps.GroupedOf(ds))
    ensures multiset(InterpreterProps.GroupedOf(ds)) == multiset(ds)
  {
    InterpreterProps.CallProgramBatch(ds);
    InterpreterProps.GroupedOfSpec(ds);
    assert |InterpreterProps.GroupedOf(ds)| == |ds| by {
      assert |multiset(InterpreterProps.GroupedOf(ds))| == |multiset(ds)|;
    }
  }

  /** A live run of the same program, not stopped, makes the moves in the
      order written: it ends on the state a replay of ds in that order ends
      on, and finishes, is blocked or reaches the flag exactly when that
      replay does. */
  lemma LiveRunsInOrder(r: Robot, ds: seq<Dir>, cancelAt: nat)
    requires 0 < |ds| <= cancelAt
    ensures var (s, o) := LiveReplay(r, ParseLines(SplitLines(InterpreterProps.CallProgram(ds))), 0, cancelAt);
            var (t, p) := Replay(r, ds, 0);
            s == t && (o.LiveFinished? <==> p.Completed?)
            && (o.LiveBlocked? <==> p.Blocked?) && (o.LiveFlag? <==> p.FlagReached?)
  {
    var lines := InterpreterProps.Singles(ds);
    InterpreterProps.CallProgramLive(ds);
    assert lines[0..] == lines;
    FlattenSingles(ds);
    MazeProps.LiveMatchesBatch(r, lines, 0, cancelAt);
  }
}
