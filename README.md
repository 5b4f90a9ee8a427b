# Maze robot puzzle: interpreter and simulator

A model of the core of `script.js` from a browser maze puzzle. A player writes
movement calls (`moveUp();`, `moveDown();`, `moveLeft();`, `moveRight();`) and
canonical `for (let i = 0; i < N; i++)` loops. The page turns the text into a
command list and replays it on a grid of walls `#`, open cells `.`, a key `K`,
a door `D` and a flag `F`. It has two run modes.

- **Batch run**, `executeUserCode`. `buildCommands` rewrites the whole text
  in stages:
  1. It rejects disallowed keywords.
  2. It expands braced loops, at most 20 rounds.
  3. It expands single-line loops.
  4. It rejects any leftover `for (`.
  5. It strips comments and collects the calls.

  A list longer than 100 is rejected. The list is then replayed until a move
  is blocked or the flag is reached.
- **Live run**, `liveExecute`. The text is split into lines and
  `parseSingleLine` parses each one on its own. Each line's commands run
  immediately.

The project has these modules.

- `Commands` (commands.dfy): the four directions, `Repeat`, and the `Grouped`
  order up, down, left, right.
- `Interpreter` (interpreter.dfy): the interpreter over a sequence of lexemes.
  - Every stage is a function: `ExpandBraces`, `ExpandSingleLines`,
    `HasFor`, `StripLineComments`, `StripBlockComments`, `Translate`, and
    `Interpret` for the whole.
  - The imperative parts of the source are methods proved equal to those
    functions. These are the guarded `while` loop (`ExpandBracesLoop`), the
    four push passes (`PushMoves`, `CollectMoves`), `BuildCommands`, the
    parse step of the batch run (`ParseUserCode`), and `parseSingleLine`'s
    conditional pushes (`ParseLine`, `PushMentioned`).
- `InterpreterProps` (interpreter_props.dfy) holds the interpreter's
  properties:
  - loop bounds and copies;
  - the expansion guard;
  - leftover loops;
  - comments;
  - the grouped output and its counts;
  - the move limit;
  - the live line parser;
  - splitting a text into lines.
- `Maze` (maze.dfy): the grid and robot as values. It defines `IsValidMove`,
  the cell actions, one `Step`, the batch `Replay` and the `LiveReplay`.
- `MazeProps` (maze_props.dfy) holds the simulator's properties: move
  validity, cell effects, what a replay may change, stopping at the first
  block or the flag, and live against batch.
- `Game` (game.dfy): the page's mutable state as a class, with the grid in an
  `array2<char>`, `x`, `y`, `hasKey`, `moveCommands` and `moveCount`. Its
  methods (the clone and reset, `isValidMove`, `checkCellActions`, the four
  moves, the batch and live loops) are each proved against the value model.
- `Modes` (modes.dfy): for a text of one call per line, the batch run
  executes the grouped sequence while the live run executes the calls in the
  order written.
- `EasyRun` (easy_run.dfy) uses the easy preset and its hint, "two rights,
  left, down, down", written one call per line. Line by line it collects the
  key and reaches the flag. As a batch run, the same text becomes down, down,
  left, right, right, and that run is blocked by a wall at its third move.

Text is a sequence of lexemes, one per piece of text the regular expressions
tell apart:

- a movement call;
- a canonical loop header with its bound of one or two digits;
- any other `for (`;
- `{`, `}` and `;`;
- a newline;
- a run of spaces or tabs between two lexemes (`Blank`);
- `//`, `/*` and `*/`;
- the start of a disallowed keyword not preceded by a letter, digit or `_`
  (`Banned`);
- other text.

`Banned` follows the keyword pattern of script.js:222, which checks only the
left side of the word. A word that merely begins with a keyword, such as
`newline` or `evaluate`, is banned too. So is a keyword inside a comment,
because the scan runs before any stripping.

`Blank` matters to the loop patterns. The braced pattern allows spaces and
newlines between the header and its `{`, so a `{` on the next line still
opens a loop (`InterpreterProps.BraceOnNextLine`). The single-line
statement `[^;\n{]+` can give back the last space before a `{`. A header,
a space and a `{` that no `}` closes therefore becomes n lone `;`, and the
text after the `{` runs once (`InterpreterProps.SpacedUnclosedBrace`).
Without the space the header is left over and refused
(`InterpreterProps.TightUnclosedBrace`).

Nested braced loops go through both stages. The lazy body ends at the
first `}`, which is the inner one. The first round therefore copies the inner
header and its body, and the second round copies everything up to the outer
`}`. Each inner header left before an unclosed `{` becomes lone `;` in the
single-line stage. Two loops of bound 2 around `moveUp();` give four ups
(`InterpreterProps.NestedUps`).

Comment contents stay visible to every stage before stripping, just as they
do to the regular expressions. The single-line pattern's statement
`[^;\n{]+` stops inside a canonical header, because a header contains `;`.
`MatchSingle` models that case.

The batch output follows the code, not its intent. The four global replace
passes collect all ups, then all downs, then all lefts, then all rights. The
source order is lost (`InterpreterProps.SourceOrderNotKept`,
`Modes.BatchRunsGrouped`). The easy preset's hint (script.js:22) lists its
moves in the order they must happen. The live run follows that order and
solves the maze; the batch run regroups the moves and walks into a wall
(`EasyRun`). The model follows the code.

## Model

| member | source | states |
|---|---|---|
| Interpreter.Interpret | script.js:222-223 | the result is the disallowed-syntax error exactly when the text holds a disallowed keyword, anywhere, comments included; every other error is a loop error |
| Interpreter.BuildCommands | script.js:220-266 | the staged rewrite as statements (scan, guarded loop, single-line pass, leftover check, strips, pushes) returns exactly `Interpret(code)` |
| Interpreter.ExpandBracesLoop | script.js:229-240 | the `while (braceFor.test(...) && guard < 20)` loop, then the `guard === 20` check, returns exactly `ExpandBraces(code)` |
| Interpreter.FirstBraceLoop | script.js:230-232 | the braced pattern's leftmost match: a header followed, after spaces and newlines, by `{` and later a `}`, with no match before it; None when there is none |
| Interpreter.HasBraceLoop | script.js:232 | `braceFor.test` holds exactly when the pattern matches at some index |
| Interpreter.StmtEnd | script.js:243 | the statement `[^;\n{]+` runs over the longest stretch without `;`, newline, `{` or header, and stops at one of them or at the end |
| Interpreter.MatchSingle | script.js:243 | a single-line match leaves a shorter tail, and its statement ends with `;` and holds no newline or `{`; the pattern fails exactly when no statement text follows the header's spaces, no header follows them, and there is no space to give back |
| Interpreter.MovesOf | script.js:260-263 | one replace pass pushes one command per call of its function, as many as there are calls |
| Interpreter.AfterBraces | script.js:242-265 | stages 3 to 5 fail only with the bound error or the unsupported-loop error |
| Interpreter.ExpandFirstBrace | script.js:230-237 | one replace of the first braced loop fails, with the bound error, exactly when its bound exceeds 20 |
| Interpreter.BraceRounds | script.js:231-239 | the rounds raise only the bound error; the guard stays within [start, 20]; and while it is below 20 no braced loop is left |
| Interpreter.ExpandBraces | script.js:229-240 | stage 2 fails only with the bound or depth error; a success leaves no braced loop; a text without loop headers is unchanged |
| Interpreter.Copies | script.js:236 | `n` copies joined by newlines: empty for 0, and made only of the body's lexemes and newlines |
| Interpreter.ExpandSingleLines | script.js:242-248 | the single-line pass fails only with the bound error and leaves a text without headers unchanged |
| Interpreter.StripLineComments | script.js:258 | no `//` is left, nothing new appears, and a text without `//` is unchanged |
| Interpreter.StripBlockComments | script.js:259 | nothing new appears, and a text without `/*` is unchanged |
| Interpreter.Translate | script.js:256-263 | the commands are `Occurrences(Move(Up))` ups, then downs, then lefts, then rights, one per call in the text |
| Interpreter.PushMoves | script.js:260-263 | one replace pass appends one command per occurrence of its call to the list |
| Interpreter.CollectMoves | script.js:256-263 | the four passes in order build exactly `Translate(processed)` |
| Interpreter.CheckMoveLimit | script.js:282-284 | a list is accepted exactly when it has at most 100 commands, and is then unchanged; otherwise the error names the count and the limit 100 |
| Interpreter.Trim | script.js:274 | the trimmed text starts and ends with no space or newline and keeps every other lexeme; a text without spaces or newlines is unchanged |
| Interpreter.TrimIsSlice | script.js:274 | the trimmed text is one slice of the text, with only spaces and newlines before and after it |
| Interpreter.ParseProgram | script.js:272-284 | the empty-program error occurs exactly when the trimmed text is empty; an accepted list has at most 100 commands |
| Interpreter.ParseUserCode | script.js:272-284 | the parse step returns `ParseProgram(code)`, and `moveCommands` holds the built list, or [] when building failed |
| Interpreter.ParseSingleLine | script.js:376-391 | a blank line gives []. A `for (` line gives `buildCommands`' result, or [] on an error. Any other line names each direction it mentions exactly once, in the order up, down, left, right |
| Interpreter.Mentioned | script.js:384-388 | the four conditional pushes give a strictly ordered list whose members are exactly the directions called on the line |
| Interpreter.MentionedMembers | script.js:384-388 | the chain of four pushes is strictly ordered and holds a direction exactly when its call occurs |
| Interpreter.PushIfOrdered | script.js:385-388 | one conditional push keeps the list strictly ordered and adds its direction exactly when the call occurs |
| Interpreter.ParseLine | script.js:376-391 | the statement form of `parseSingleLine` returns exactly `ParseSingleLine(line)` |
| Interpreter.PushMentioned | script.js:384-388 | the four `if (...) cmds.push(...)` statements build exactly `Mentioned(t)` |
| Interpreter.SplitLines | script.js:394 | one line more than there are newlines, no newline inside a line, and joining the lines gives back the text |
| InterpreterProps.PlainProgram | script.js:255-265 | a text of calls, `;`, newlines and other words, with no loops, goes straight to translation |
| InterpreterProps.TranslateGrouped | script.js:260-263 | the translated list is grouped: no up after a down, and so on |
| InterpreterProps.TranslateCounts | script.js:260-263 | the list holds each direction exactly as often as its call occurs in the text |
| InterpreterProps.CopiesOccurrences | script.js:236 | n copies hold n times each lexeme of the body, newlines aside |
| InterpreterProps.BracedMatch | script.js:230-237 | with no header before it, a braced loop is the first match whatever spaces and newlines stand before its `{`, and it is replaced by n copies of its body in place; a bound over 20 fails |
| InterpreterProps.BracedLoopExpands | script.js:229-240 | a braced loop over a plain body, with any spaces and newlines before its `{`, expands to exactly n copies, or fails above 20 |
| InterpreterProps.BracedLoopProgram | script.js:230-236 | a braced loop, with any spaces and newlines before its `{`, runs its body's calls n times (none for 0) or fails with the bound error above 20 |
| InterpreterProps.BraceOnNextLine | script.js:230 | a header, a newline, `{`, `moveUp();` on its own line and `}` give [up, up, up] |
| InterpreterProps.CopiesTranslate | script.js:236 | translating n copies equals translating the body n times over |
| InterpreterProps.UpRounds | script.js:231-239 | m loops after a calls: each round expands one loop, until none is left or the guard reaches 20 |
| InterpreterProps.UpLoopsBracesWithin | script.js:229-240 | fewer than 20 braced loops all expand |
| InterpreterProps.UpLoopsBracesBeyond | script.js:240 | 20 or more braced loops fail with the depth error, even when the 20th expansion was the last one needed |
| InterpreterProps.ExpansionGuardLimit | script.js:229-240 | for m one-round loops, `Interpret` gives m ups when m < 20 and the depth error otherwise |
| InterpreterProps.UpCallsProgram | script.js:255-263 | a run of a up-calls interprets to a ups |
| InterpreterProps.SingleLineMatch | script.js:243 | for a header, any spaces and newlines, a statement of calls, words and blanks, and its `;`, the single-line pattern matches the statement trimmed and given its `;`, and the rest of the text starts right after that `;` |
| InterpreterProps.SpacedUnclosedBrace | script.js:230-263 | a header, a space and an unclosed `{` before a plain text: the statement is the space, the header becomes n lone `;`, and the text runs once; a bound over 20 fails |
| InterpreterProps.TightUnclosedBrace | script.js:230-253 | a header directly followed by an unclosed `{` matches neither loop pattern and gives the unsupported-loop error, whatever its bound |
| InterpreterProps.NestedLoops | script.js:229-263 | two nested loops of bound 2, each `{` after a space, around a plain body: the first `}` ends the outer body, the leftover inner headers become lone `;`, the program is accepted and the body's calls run four times, grouped by direction |
| InterpreterProps.NestedUps | script.js:229-263 | `for (let i = 0; i < 2; i++) { for (let i = 0; i < 2; i++) { moveUp(); } }` gives [up, up, up, up] |
| InterpreterProps.SingleLineExpands | script.js:243-247 | a header, any spaces, a statement and its `;` become n copies of the trimmed statement with its `;`, joined by newlines, followed by the expansion of the rest of the text. Errors in the rest propagate, and a bound over 20 fails |
| InterpreterProps.SingleLineLoopProgram | script.js:242-263 | a single-line loop, with or without spaces after its `)` and blanks inside the statement, runs the statement's calls exactly n times (none for 0), or fails with the bound error above 20 |
| InterpreterProps.SpacedRightThrice | script.js:242 | the commented example, with a space after the `)`, for a right move and a bound of 3, gives three rights |
| InterpreterProps.SemiNotCounted | script.js:247 | the appended `;` adds no command |
| InterpreterProps.LeftoverLoopRejected | script.js:250-253 | a `for (` that survives both expansions gives the unsupported-loop error: the `/for\s*\(/` test (`Interpreter.HasFor`) refuses the program |
| InterpreterProps.QuietProgram | script.js:222-263 | a text with no loops or keywords, comments included, is only stripped and translated |
| InterpreterProps.DisallowedInComment | script.js:222-223 | a banned word inside a line comment or a block comment refuses the whole text with the disallowed-syntax error |
| InterpreterProps.StripLinePrefix | script.js:258 | line stripping keeps everything before the first `//` |
| InterpreterProps.StripBlockPrefix | script.js:259 | block stripping keeps everything before the first `/*` |
| InterpreterProps.StripLineComment | script.js:258 | `//` removes the rest of its line and keeps the newline |
| InterpreterProps.StripBlockComment | script.js:259 | `/* ... */` is removed up to the first `*/` |
| InterpreterProps.LineCommentIgnored | script.js:256-263 | calls inside a line comment give no command |
| InterpreterProps.BlockCommentIgnored | script.js:256-263 | calls inside a block comment give no command |
| InterpreterProps.UpCallsParse | script.js:272-284 | a run of a up-calls parses to the move-limit check of a ups |
| InterpreterProps.MoveLimitBoundary | script.js:282-284 | with MOVE_LIMIT at 100, 100 calls are accepted; 101 are rejected with the count 101 and the limit 100 |
| InterpreterProps.LiveLineReportsEachOnce | script.js:384-388 | `moveRight(); moveRight(); // moveUp() while` gives [up, right]: once each, up first, comments not stripped, no keyword check |
| InterpreterProps.LiveLoopLine | script.js:380-382 | a live line that is a single-line loop parses to the statement's calls n times, and to no command at all when its bound exceeds 20 |
| InterpreterProps.SplitJoin | script.js:394 | splitting a join of newline-free lines gives the lines back |
| InterpreterProps.CallProgramCounts | script.js:260-263 | a one-call-per-line text holds each call as often as the command list names it |
| InterpreterProps.CallProgramBatch | script.js:220-284 | a one-call-per-line text batch-parses to the move-limit check of its grouped commands |
| InterpreterProps.SourceOrderNotKept | script.js:260-263 | `moveRight();` then `moveUp();` parses to [up, right] |
| InterpreterProps.GroupedOfSpec | script.js:260-263 | the grouped list is grouped and a permutation of the commands written |
| InterpreterProps.CallLineParse | script.js:376-391 | a line with a single call parses to that single command |
| InterpreterProps.ParseCallLines | script.js:396-399 | lines of one call each parse to one command each, in order |
| InterpreterProps.CallProgramLive | script.js:394-399 | split into lines, a one-call-per-line text parses line by line to its commands in the order written |
| Maze.IsValidMove | script.js:135-141 | an accepted target lies inside [0, MAZE_SIZE) on both axes, and its cell, when the row has one, is no wall and no door unless the key is held |
| Maze.SetCell | script.js:189-195 | writing a cell keeps the grid's shape, sets that cell and leaves every other cell as it was |
| Maze.Target | script.js:144-182 | the target is one cell away: an up or down move keeps x, a left or right move keeps y, and up and left decrease a coordinate by one while down and right increase one |
| Maze.Replay | script.js:300-318 | a batch replay keeps the grid's shape and never drops the key, and it stops early only on a command of the list |
| Maze.LiveReplay | script.js:396-411 | a live run keeps the grid's shape; a line reported blocked or on the flag lies between the start line and the last line, and before the stop request |
| Maze.CellActions | script.js:185-206 | the cell actions leave the robot's position and the grid's shape unchanged |
| Maze.Step | script.js:144-182 | a move keeps the grid's shape, and a successful move lands inside the grid |
| MazeProps.ValidMoveCases | script.js:135-141 | a target is invalid exactly when it is outside [0, MAZE_SIZE) on either axis, a wall, or a door without the key (a cell past a short row, which `Maze.CellAt` reads as missing, is passable) |
| MazeProps.StepEffect | script.js:144-182 | a move changes exactly one coordinate by one when the target is valid; otherwise nothing changes |
| MazeProps.CellActionsEffect | script.js:185-206 | the flag result is set exactly on `F`; a key cell sets `hasKey`; a key cell, or a door with the key, becomes `.`; no other cell changes |
| MazeProps.CellActionsIdempotent | script.js:185-206 | a second call of the cell actions, as the batch loop makes, changes nothing and gives the same flag answer |
| MazeProps.StepLandsClear | script.js:144-206 | after a successful move the robot stands on an in-bounds, non-wall cell that is no longer a key or a door |
| MazeProps.StepKeepsStanding | script.js:144-182 | a robot on a non-wall cell inside the grid stays on one |
| MazeProps.MayBecomeTrans | script.js:185-206 | the "may become" relation (same shape, key kept, only keys and doors opened) is transitive |
| MazeProps.StepMayBecome | script.js:144-206 | one move only opens key and door cells, and only with the key |
| MazeProps.ReplayMayBecome | script.js:300-318 | a whole replay only opens key and door cells, and only with the key |
| MazeProps.ReplayKeepsLayout | script.js:300-318 | a replay keeps the grid's shape, every wall and the flag; without the key the grid is unchanged |
| MazeProps.ReplayKeepsStanding | script.js:300-318 | a replay from a valid standing cell ends on one |
| MazeProps.ReplayStopIndex | script.js:300-318 | a reported stop index is a command of the list |
| MazeProps.ReplayAppend | script.js:300-318 | replaying a + b is replaying a, then, only if a completed, b with indices shifted |
| MazeProps.ReplayStopsEarly | script.js:310-316 | once a prefix blocks or reaches the flag, no later command is applied |
| MazeProps.ReplayBlockedAt | script.js:310-314 | a block at i means the first i commands completed, command i failed, and the robot stays where the prefix left it |
| MazeProps.ReplayFlagAt | script.js:315-316 | reaching the flag at i means the first i commands completed, command i moved the robot onto the flag cell, and the run ends in the state the cell actions leave |
| MazeProps.LiveMatchesBatch | script.js:396-411 | with no stop request, the live run ends in the state of a batch replay of all lines' commands in order, with matching outcome kinds |
| MazeProps.LiveStopsAtCancel | script.js:397 | a stopped live run stopped at the stop request, before a line of the text |
| Game.BatchRun | script.js:279-323 | a parse error is reported as it is and leaves the robot as it was; any run keeps the grid's shape and never drops the key |
| Game.CloneMaze | script.js:86-89 | `cloneMaze` gives a fresh array holding the preset's grid |
| Game.Game.constructor | script.js:86-89 | the page load: a fresh grid equal to the preset, the robot at the start cell, no key, no commands |
| Game.Game.Reset | script.js:328-336 | `resetMaze`: the key dropped, the commands and the count cleared, a fresh copy of the preset, the robot at the start cell |
| Game.Game.IsValidMove | script.js:135-141 | the check over the live array agrees with `Maze.IsValidMove` |
| Game.Game.CheckCellActions | script.js:185-206 | the in-place cell actions give the state and flag answer of `Maze.CellActions` |
| Game.Game.MoveTo | script.js:144-182 | the shared body of the moves: on a valid target, move there and run the cell actions; otherwise change nothing |
| Game.Game.MoveUp | script.js:144-152 | `moveUp` gives the state and result of `Maze.Step(_, Up)` |
| Game.Game.MoveDown | script.js:154-162 | `moveDown` gives the state and result of `Maze.Step(_, Down)` |
| Game.Game.MoveLeft | script.js:164-172 | `moveLeft` gives the state and result of `Maze.Step(_, Left)` |
| Game.Game.MoveRight | script.js:174-182 | `moveRight` gives the state and result of `Maze.Step(_, Right)` |
| Game.Game.Apply | script.js:303-308 | the switch on a command performs that command's move |
| Game.Game.RunCommands | script.js:300-318 | the batch loop ends in the state and outcome of `Maze.Replay`, counting every attempted move |
| Game.Game.RunParsed | script.js:279-323 | the batch run after parsing: an error moves nothing; commands are replayed and counted |
| Game.Game.ExecuteUserCode | script.js:268-325 | `executeUserCode`: the state and result are `BatchRun` of `ParseProgram(code)`; `moveCommands` holds what `buildCommands` returned, and `moveCount` the attempted moves |
| Game.Game.RunLine | script.js:402-408 | one line's commands run like the batch loop, uncounted, ending as `Maze.Replay` |
| Game.Game.LiveLine | script.js:398-408 | one live line: parsed by `parseSingleLine`, then run |
| Game.Game.LiveLines | script.js:396-411 | the loop over the lines ends in the state and outcome of `Maze.LiveReplay` over the lines parsed one by one (`Interpreter.ParseLines`: each line on its own, through `ParseSingleLine`); the `maze` array reference and the batch fields `moveCommands` and `moveCount` are unchanged |
| Game.Game.LiveExecute | script.js:393-413 | `liveExecute` ends in the state and outcome of `Maze.LiveReplay` over the parsed lines |
| Modes.BatchRunsGrouped | script.js:220-284 | a batch run of one call per line runs the grouped permutation of the calls |
| Modes.LiveRunsInOrder | script.js:393-411 | a live run of one call per line runs the calls in the order written, ending like a batch replay of them in that order |
| EasyRun.HintSolvesMaze | script.js:10-22 | on the easy preset, right, right, left, down, down in order collects the key and reaches the flag with the fifth move |
| EasyRun.HintToKey | script.js:10-22 | right, right, left collects the key, opens the key cell and leaves the robot above the door |
| EasyRun.HintFromKey | script.js:10-22 | with the key, down, down opens the door and stops on the flag at the fifth move |
| EasyRun.HintBlockedInBatch | script.js:10-21 | in a batch run the same text runs down, down, left, right, right; the third move is blocked and the key is never collected |
| EasyRun.HintSolvesMazeLive | script.js:10-21 | in a live run the same text reaches the flag holding the key |

## Left out

- Rendering and status text are not modelled: `renderCell`, `initMaze`'s grid building, `updateRobotPosition`, `updateStatus`, and the button states. They are display only.
- Event listeners, `applyDifficulty`'s hint text, the medium and hard presets, and the console helpers (`showMaze`, `showPosition`, `hint`, `hardSolution`) are not modelled. They are I/O and flavour text; `EasyRun` uses the easy preset only.
- The `await` delays between moves and the `isRunning` and `liveMode` flags are left out. They pace the run and guard against concurrent clicks, but they do not change which moves happen.
- `liveCancel` is not a flag in the model. A stop request is the input `cancelAt`: the flag is found set before line `cancelAt`. A block or the flag ends the live run directly, as setting `liveCancel` does.
- `tokenize` is never called, so it is not modelled.
- The pre-run prediction of the first move only logs to the console, so it is not modelled.
- The console output and the flag string are not modelled.
- Regular expressions are not modelled character by character. The text is a sequence of lexemes, so the following are assumed rather than modelled:
  - spacing inside a loop header;
  - `parseInt` of one or two digits;
  - the `\r\n` normalisation.
- Nested braced loops are computed only for two loops of bound 2 with a space before each `{` (`InterpreterProps.NestedLoops`). Other bounds and layouts follow from the same stage rules, but no lemma computes them.
- A `Blank` stands only between lexemes. Spacing inside a loop header or a call belongs to that lexeme, and other text has no space at either end. The cases where a `\s*` or a `trim` sees spaces are modelled through `Blank`.
- Text that a removal or a replacement joins is not read again as new lexemes. Every replace stage of script.js:220-265 works on characters, so the text on the two sides of what it removes or inserts can join into a new word. The model fixes the lexemes once, before the stages, so it never forms such a word. Three examples:
  - a block comment: `move/* x */Up()` becomes `moveUp()` after stripping and is then counted; the model counts nothing;
  - a loop of bound 0: `fofor (let i = 0; i < 0; i++) {}r (` becomes `for (`, which the leftover check refuses; the model gives an empty command list;
  - a call pass: `movemoveUp()Down()` leaves `moveDown()` after the up pass, and the down pass counts it; the model gives only the up.
- Interpreter.SplitLines: a newline lexeme stands for `\n`, `\r\n` and `\r` alike. The live split at script.js:394 splits at `\n` only. After `\r\n` it leaves a `\r` at a line's end, which `trim` removes, so that case is the same split. A lone `\r` does not split a live line in the source, but the model treats it as a line break. A textarea's value holds `\n` line breaks in any case.
- Game.Game.CheckCellActions: the live grid is a rectangular `array2`, so a row shorter than `MAZE_SIZE`, where the source reads `undefined`, exists only in the value model. There `Maze.CellAt` gives `None`: the cell is passable and has no effect.
