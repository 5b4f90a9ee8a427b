/** The restricted-language interpreter of the maze puzzle (buildCommands and
    parseSingleLine of script.js).

    The source works on raw text with regular expressions. Here the text is a
    sequence of lexemes, one per piece of text a pattern of the interpreter
    tells apart. A run of spaces or tabs between two lexemes is a Blank; the
    spacing inside a loop header or a call belongs to that lexeme, and other
    text holds no space at either end. Comment text is NOT hidden
    inside a lexeme: like the regular expressions, every stage before the
    final translation sees what a comment contains. */
module Interpreter {
  import opened Commands

  /** A loop bound as the canonical header accepts it: one or two decimal digits. */
  type Bound = n: nat | n < 100

  datatype Lexeme =
    | Move(dir: Dir)        // moveUp(), moveDown(), moveLeft(), moveRight()
    | Header(bound: Bound)  // for (let i = 0; i < N; i++)
    | ForOpen               // any other `for (`
    | LBrace                // {
    | RBrace                // }
    | Semi                  // ;
    | Newline               // \n, \r\n or \r
    | Blank                 // a run of spaces or tabs
    | LineComment           // //
    | BlockStart            // /*
    | BlockEnd              // */
    | Banned                // the start of a disallowed keyword, not preceded by a letter, digit or _
    | Other                 // any other text: no newline, brace or `for (` in it, and no ; except in
                            // the header remainder ` i < N; i++)` that MatchSingle leaves behind

  datatype Error =
    | EmptyProgram                    // "Please write some movement commands!"
    | Disallowed                      // "Disallowed syntax detected."
    | BoundTooLarge                   // "Loop upper bound too large (max 20)."
    | DepthLimit                      // "Loop expansion depth limit reached."
    | UnsupportedLoop                 // "Only basic for loops with i from 0 to N-1 are allowed."
    | TooManyMoves(count: nat, limit: nat)  // "Too many moves (count). Limit is limit."

  datatype Result<+T> = Ok(value: T) | Err(error: Error)

  /** Largest loop bound a loop may have. */
  const MaxBound: nat := 20
  /** Number of braced expansions that makes the interpreter give up. */
  const ExpansionGuard: nat := 20
  /** Longest command sequence the batch run accepts (MOVE_LIMIT). */
  const MoveLimit: nat := 100

  /** How often x occurs in s. */
  function Occurrences(s: seq<Lexeme>, x: Lexeme): nat
  {
    multiset(s)[x]
  }

  /** The first index at or after from that holds x. */
  function IndexOf(s: seq<Lexeme>, x: Lexeme, from: nat): (r: Option<nat>)
    decreases |s| - from
    ensures r.Some? ==> from <= r.value < |s| && s[r.value] == x
    ensures r.Some? ==> forall k :: from <= k < r.value ==> s[k] != x
    ensures r.None? ==> forall k :: from <= k < |s| ==> s[k] != x
  {
    if from >= |s| then None
    else if s[from] == x then Some(from)
    else IndexOf(s, x, from + 1)
  }

  /** What `\s` matches and trim removes. */
  predicate IsSpace(x: Lexeme)
  {
    x == Newline || x == Blank
  }

  /** Past the spaces and newlines from k on (a `\s*`). */
  function SkipSpaces(s: seq<Lexeme>, k: nat): (r: nat)
    requires k <= |s|
    decreases |s| - k
    ensures k <= r <= |s| && (r < |s| ==> !IsSpace(s[r]))
    ensures forall m :: k <= m < r ==> IsSpace(s[m])
  {
    if k == |s| || !IsSpace(s[k]) then k else SkipSpaces(s, k + 1)
  }

  /** The last index in [lo, hi) that holds x. */
  function LastIndexOf(s: seq<Lexeme>, x: Lexeme, lo: nat, hi: nat): (r: Option<nat>)
    requires lo <= hi <= |s|
    decreases hi
    ensures r.Some? ==> lo <= r.value < hi && s[r.value] == x
    ensures r.Some? ==> forall k :: r.value < k < hi ==> s[k] != x
    ensures r.None? ==> forall k :: lo <= k < hi ==> s[k] != x
  {
    if hi == lo then None
    else if s[hi - 1] == x then Some(hi - 1)
    else LastIndexOf(s, x, lo, hi - 1)
  }

  // ---------------------------------------------------------------------------
  // Stage 1: the disallowed-keyword scan (over the whole input, comments too).

  /** disallowed.test(code): a banned word starts somewhere in the text, not
      preceded by a letter, digit or `_`. The pattern has no boundary on its
      right, so a word that only begins with a banned one (`newline`,
      `evaluate`) is a Banned lexeme too, and so is one inside a comment. */
  predicate HasDisallowed(code: seq<Lexeme>)
  {
    Banned in code
  }

  // ---------------------------------------------------------------------------
  // Stage 2: braced loops, `for (let i = 0; i < N; i++) { body }`, expanded one
  // at a time, the first match each round, the body ending at the first `}`.

  /** Where the braced-loop pattern matches: a canonical header, then `{` after
      any spaces and newlines, and a `}` somewhere after it. */
  predicate BraceLoopAt(s: seq<Lexeme>, i: nat)
  {
    i < |s| && s[i].Header?
    && var k := SkipSpaces(s, i + 1);
       k < |s| && s[k] == LBrace && RBrace in s[k + 1..]
  }

  /** The leftmost match of the braced-loop pattern at or after from. */
  function FirstBraceLoop(s: seq<Lexeme>, from: nat): (r: Option<nat>)
    decreases |s| - from
    ensures r.Some? ==> from <= r.value && BraceLoopAt(s, r.value)
    ensures r.Some? ==> forall k :: from <= k < r.value ==> !BraceLoopAt(s, k)
    ensures r.None? ==> forall k :: from <= k ==> !BraceLoopAt(s, k)
  {
    if from >= |s| then None
    else if BraceLoopAt(s, from) then Some(from)
    else FirstBraceLoop(s, from + 1)
  }

  /** braceFor.test(expanded) */
  predicate HasBraceLoop(s: seq<Lexeme>)
    ensures HasBraceLoop(s) <==> exists i :: BraceLoopAt(s, i)
  {
    FirstBraceLoop(s, 0).Some?
  }

  /** n copies of a text joined by newlines, as
      Array.from({length: n}, () => body).join('\n') builds them. */
  function Copies(body: seq<Lexeme>, n: nat): (r: seq<Lexeme>)
    ensures n == 0 ==> r == []
    ensures forall x :: x in r ==> x in body || x == Newline
  {
    if n == 0 then [] else if n == 1 then body else body + [Newline] + Copies(body, n - 1)
  }

  /** One replace with the braced-loop pattern: its first match becomes n copies
      of the body; a bound over 20 throws. */
  function ExpandFirstBrace(s: seq<Lexeme>): (r: Result<seq<Lexeme>>)
    requires HasBraceLoop(s)
    ensures r.Err? ==> r.error == BoundTooLarge
    ensures r.Err? <==> s[FirstBraceLoop(s, 0).value].bound > MaxBound
  {
    var i := FirstBraceLoop(s, 0).value;
    var k := SkipSpaces(s, i + 1);
    assert RBrace in s[k + 1..];
    var j := IndexOf(s, RBrace, k + 1).value;
    var n := s[i].bound;
    if n > MaxBound then Err(BoundTooLarge)
    else Ok(s[..i] + Copies(s[k + 1..j], n) + s[j + 1..])
  }

  /** The while loop over braced loops from round `guard` on: the expanded text
      and the final value of the guard. */
  function BraceRounds(s: seq<Lexeme>, guard: nat): (r: Result<(seq<Lexeme>, nat)>)
    requires guard <= ExpansionGuard
    decreases ExpansionGuard - guard
    ensures r.Err? ==> r.error.BoundTooLarge?
    ensures r.Ok? ==> guard <= r.value.1 <= ExpansionGuard
    ensures r.Ok? && r.value.1 < ExpansionGuard ==> !HasBraceLoop(r.value.0)
  {
    if HasBraceLoop(s) && guard < ExpansionGuard then
      match ExpandFirstBrace(s)
      case Err(e) => Err(e)
      case Ok(t) => BraceRounds(t, guard + 1)
    else Ok((s, guard))
  }

  /** Stage 2 as a whole: reaching a guard of 20 is an error, even when the
      twentieth expansion was the last one needed. */
  function ExpandBraces(s: seq<Lexeme>): (r: Result<seq<Lexeme>>)
    ensures r.Err? ==> r.error == BoundTooLarge || r.error == DepthLimit
    ensures r.Ok? ==> !HasBraceLoop(r.value)
    ensures (forall k :: 0 <= k < |s| ==> !s[k].Header?) ==> r == Ok(s)
  {
    match BraceRounds(s, 0)
    case Err(e) => Err(e)
    case Ok((t, guard)) => if guard == ExpansionGuard then Err(DepthLimit) else Ok(t)
  }

  // ---------------------------------------------------------------------------
  // Stage 3: single-line loops, `for (let i = 0; i < N; i++) stmt;`, replaced
  // globally from left to right; the statement is `[^;\n{]+`.

  /** A lexeme the statement part cannot run across. A canonical header holds a
      `;`, so the statement stops inside one. */
  predicate StopsStmt(x: Lexeme)
  {
    x == Semi || x == Newline || x == LBrace || x.Header?
  }

  /** The end of the longest statement starting at k. */
  function StmtEnd(s: seq<Lexeme>, k: nat): (r: nat)
    requires k <= |s|
    decreases |s| - k
    ensures k <= r <= |s| && (r < |s| ==> StopsStmt(s[r]))
    ensures forall m :: k <= m < r ==> !StopsStmt(s[m])
  {
    if k == |s| || StopsStmt(s[k]) then k else StmtEnd(s, k + 1)
  }

  /** The single-line pattern tried at the header s[0]: the statement each copy
      holds (trimmed, with its `;`) and the text after the match; None when the
      pattern does not match there. When no statement text follows the spaces,
      `\s*` gives back the last space or tab, which becomes the statement. */
  function MatchSingle(s: seq<Lexeme>): (r: Option<(seq<Lexeme>, seq<Lexeme>)>)
    requires |s| > 0 && s[0].Header?
    ensures r.Some? ==> |r.value.1| < |s|
    ensures r.Some? ==> var body := r.value.0;
              |body| > 0 && body[|body| - 1] == Semi && Newline !in body && LBrace !in body
    ensures r.None? <==> var k := SkipSpaces(s, 1);
              StmtEnd(s, k) == k && (k == |s| || !s[k].Header?) && Blank !in s[1..k]
  {
    var k := SkipSpaces(s, 1);
    var e := StmtEnd(s, k);
    if e < |s| && s[e].Header? then
      // the statement runs into `for (let i = 0` and the `;` after it is consumed
      Some((s[k..e] + [ForOpen, Other, Semi], [Other] + s[e + 1..]))
    else if e == k then
      var last := LastIndexOf(s, Blank, 1, k);
      BlankBefore(s, k, last);
      if last.None? then None
      else
        // the statement is one space, and trimmed it leaves only the `;`
        var b := last.value;
        if b + 1 < |s| && s[b + 1] == Semi then Some(([Semi], s[b + 2..]))
        else Some(([Semi], s[b + 1..]))
    else
      var body := StmtBody(s, k, e);
      if e < |s| && s[e] == Semi then Some((body, s[e + 1..]))
      else Some((body, s[e..]))
  }

  lemma BlankBefore(s: seq<Lexeme>, k: nat, last: Option<nat>)
    requires 1 <= k <= |s| && last == LastIndexOf(s, Blank, 1, k)
    ensures last.None? <==> Blank !in s[1..k]
  {
    if last.Some? {
      assert s[1..k][last.value - 1] == Blank;
    }
  }

  /** stmt.trim() + ';' for the statement s[k..e]. */
  function StmtBody(s: seq<Lexeme>, k: nat, e: nat): (r: seq<Lexeme>)
    requires k <= e <= |s|
    requires forall m :: k <= m < e ==> !StopsStmt(s[m])
    ensures |r| > 0 && r[|r| - 1] == Semi && Newline !in r && LBrace !in r
  {
    var t := s[k..e];
    assert forall m :: 0 <= m < |t| ==> !StopsStmt(t[m]) by {
      forall m | 0 <= m < |t|
        ensures !StopsStmt(t[m])
      {
        assert t[m] == s[k + m];
      }
    }
    var u := Trim(t);
    assert Newline !in u && LBrace !in u;
    u + [Semi]
  }

  /** expanded.replace(singleLineFor, ...): every match, left to right. */
  function ExpandSingleLines(s: seq<Lexeme>): (r: Result<seq<Lexeme>>)
    decreases |s|
    ensures r.Err? ==> r.error == BoundTooLarge
    ensures (forall k :: 0 <= k < |s| ==> !s[k].Header?) ==> r == Ok(s)
  {
    if s == [] then Ok([])
    else if s[0].Header? && MatchSingle(s).Some? then
      var (stmt, tail) := MatchSingle(s).value;
      if s[0].bound > MaxBound then Err(BoundTooLarge)
      else
        match ExpandSingleLines(tail)
        case Err(e) => Err(e)
        case Ok(t) => Ok(Copies(stmt, s[0].bound) + t)
    else
      assert s == [s[0]] + s[1..];
      match ExpandSingleLines(s[1..])
      case Err(e) => Err(e)
      case Ok(t) => Ok([s[0]] + t)
  }

  // ---------------------------------------------------------------------------
  // Stage 4: any `for (` left over is an error.

  /** The lexeme starts with `for (`. */
  predicate IsFor(x: Lexeme)
  {
    x.Header? || x == ForOpen
  }

  /** /for\s*\(/.test(expanded): a `for (` of any form is left. */
  predicate HasFor(s: seq<Lexeme>)
    ensures HasFor(s) <==> ForOpen in s || exists n: Bound :: Header(n) in s
  {
    exists k :: 0 <= k < |s| && IsFor(s[k])
  }

  // ---------------------------------------------------------------------------
  // Stage 5: comments stripped, then the four movement calls collected, one
  // global pass per direction.

  /** replace(/\/\/.*$/gm, ''): from `//` up to the end of its line. */
  function StripLineComments(s: seq<Lexeme>): (r: seq<Lexeme>)
    decreases |s|
    ensures LineComment !in r
    ensures forall x :: x in r ==> x in s
    ensures LineComment !in s ==> r == s
  {
    if s == [] then []
    else if s[0] == LineComment then
      match IndexOf(s, Newline, 1)
      case None => []
      case Some(e) => StripLineComments(s[e..])
    else [s[0]] + StripLineComments(s[1..])
  }

  /** replace(/\/\*[\s\S]*?\*\//g, ''): from `/*` up to the first `*/` after it. */
  function StripBlockComments(s: seq<Lexeme>): (r: seq<Lexeme>)
    decreases |s|
    ensures forall x :: x in r ==> x in s
    ensures BlockStart !in s ==> r == s
  {
    if s == [] then []
    else if s[0] == BlockStart && IndexOf(s, BlockEnd, 1).Some? then
      StripBlockComments(s[IndexOf(s, BlockEnd, 1).value + 1..])
    else [s[0]] + StripBlockComments(s[1..])
  }

  /** The tokens one replace pass pushes: one d per call of that movement function. */
  function MovesOf(s: seq<Lexeme>, d: Dir): (r: seq<Dir>)
    ensures r == Repeat(d, Occurrences(s, Move(d)))
  {
    if s == [] then []
    else
      assert s == s[..|s| - 1] + [s[|s| - 1]];
      MovesOf(s[..|s| - 1], d) + (if s[|s| - 1] == Move(d) then [d] else [])
  }

  /** The four passes in their fixed order: all ups, then all downs, all lefts,
      all rights, whatever order the calls have in the text. */
  function Translate(s: seq<Lexeme>): (r: seq<Dir>)
    ensures r == Repeat(Up, Occurrences(s, Move(Up))) + Repeat(Down, Occurrences(s, Move(Down)))
               + Repeat(Left, Occurrences(s, Move(Left))) + Repeat(Right, Occurrences(s, Move(Right)))
  {
    MovesOf(s, Up) + MovesOf(s, Down) + MovesOf(s, Left) + MovesOf(s, Right)
  }

  // ---------------------------------------------------------------------------
  // The interpreter.

  /** What buildCommands(code) returns or throws. */
  function Interpret(code: seq<Lexeme>): (r: Result<seq<Dir>>)
    ensures r.Err? ==> r.error in {Disallowed, BoundTooLarge, DepthLimit, UnsupportedLoop}
    ensures r == Err(Disallowed) <==> HasDisallowed(code)
  {
    if HasDisallowed(code) then Err(Disallowed)
    else
      match ExpandBraces(code)
      case Err(e) => Err(e)
      case Ok(b) => AfterBraces(b)
  }

  /** Stages 3 to 5, on the text the braced expansion left. */
  function AfterBraces(b: seq<Lexeme>): (r: Result<seq<Dir>>)
    ensures r.Err? ==> r.error == BoundTooLarge || r.error == UnsupportedLoop
  {
    match ExpandSingleLines(b)
    case Err(e) => Err(e)
    case Ok(t) =>
      if HasFor(t) then Err(UnsupportedLoop)
      else Ok(Translate(StripBlockComments(StripLineComments(t))))
  }

  /** One of the four replace passes of the translation: its callback pushes a
      token for every call of one movement function. */
  method PushMoves(processed: seq<Lexeme>, d: Dir, commands: seq<Dir>) returns (out: seq<Dir>)
    ensures out == commands + Repeat(d, Occurrences(processed, Move(d)))
  {
    out := commands;
    for k := 0 to |processed|
      invariant out == commands + MovesOf(processed[..k], d)
    {
      PushStep(commands, processed, d, k, out);
      if processed[k] == Move(d) {
        out := out + [d];
      }
    }
    assert processed[..|processed|] == processed;
  }

  /** The pass after one more lexeme. */
  lemma PushStep(commands: seq<Dir>, processed: seq<Lexeme>, d: Dir, k: nat, out: seq<Dir>)
    requires k < |processed| && out == commands + MovesOf(processed[..k], d)
    ensures processed[k] == Move(d) ==> out + [d] == commands + MovesOf(processed[..k + 1], d)
    ensures processed[k] != Move(d) ==> out == commands + MovesOf(processed[..k + 1], d)
  {
    var done := MovesOf(processed[..k], d);
    assert processed[..k + 1] == processed[..k] + [processed[k]];
    MovesOfSnoc(processed[..k], processed[k], d);
    assert (commands + done) + [d] == commands + (done + [d]);
  }

  /** One more lexeme adds at most one token to a pass. */
  lemma MovesOfSnoc(s: seq<Lexeme>, x: Lexeme, d: Dir)
    ensures MovesOf(s + [x], d) == MovesOf(s, d) + (if x == Move(d) then [d] else [])
  {
    assert (s + [x])[..|s + [x]| - 1] == s;
  }

  /** The guarded while loop of buildCommands over braced loops. */
  method ExpandBracesLoop(code: seq<Lexeme>) returns (r: Result<seq<Lexeme>>)
    ensures r == ExpandBraces(code)
  {
    var expanded := code;
    var guard := 0;
    while HasBraceLoop(expanded) && guard < ExpansionGuard
      invariant guard <= ExpansionGuard
      invariant BraceRounds(code, 0) == BraceRounds(expanded, guard)
      decreases ExpansionGuard - guard
    {
      var step := ExpandFirstBrace(expanded);
      if step.Err? {
        assert BraceRounds(expanded, guard) == Err(step.error);
        return Err(step.error);
      }
      expanded := step.value;
      guard := guard + 1;
    }
    assert BraceRounds(code, 0) == Ok((expanded, guard));
    if guard == ExpansionGuard {
      return Err(DepthLimit);
    }
    return Ok(expanded);
  }

  /** The four replace passes of buildCommands, in their fixed order. */
  method CollectMoves(processed: seq<Lexeme>) returns (commands: seq<Dir>)
    ensures commands == Translate(processed)
  {
    ghost var up := Repeat(Up, Occurrences(processed, Move(Up)));
    ghost var down := Repeat(Down, Occurrences(processed, Move(Down)));
    ghost var left := Repeat(Left, Occurrences(processed, Move(Left)));
    ghost var right := Repeat(Right, Occurrences(processed, Move(Right)));
    commands := PushMoves(processed, Up, []);
    assert commands == up by { assert [] + up == up; }
    commands := PushMoves(processed, Down, commands);
    assert commands == up + down;
    commands := PushMoves(processed, Left, commands);
    assert commands == up + down + left;
    commands := PushMoves(processed, Right, commands);
    assert commands == up + down + left + right;
  }

  /** buildCommands: the staged rewrite. It returns exactly what Interpret
      describes. */
  method BuildCommands(code: seq<Lexeme>) returns (r: Result<seq<Dir>>)
    ensures r == Interpret(code)
  {
    if HasDisallowed(code) {
      return Err(Disallowed);
    }
    var braces := ExpandBracesLoop(code);
    if braces.Err? {
      return Err(braces.error);
    }
    var expanded := braces.value;
    assert Interpret(code) == AfterBraces(expanded);
    var single := ExpandSingleLines(expanded);
    if single.Err? {
      return Err(single.error);
    }
    expanded := single.value;
    if HasFor(expanded) {
      return Err(UnsupportedLoop);
    }
    var processed := StripBlockComments(StripLineComments(expanded));
    var commands := CollectMoves(processed);
    return Ok(commands);
  }

  /** The result of a batch run's parse is checked against MOVE_LIMIT. */
  function CheckMoveLimit(cmds: seq<Dir>): (r: Result<seq<Dir>>)
    ensures r.Ok? <==> |cmds| <= MoveLimit
    ensures r.Ok? ==> r.value == cmds
    ensures r.Err? ==> r.error == TooManyMoves(|cmds|, MoveLimit)
  {
    if |cmds| > MoveLimit then Err(TooManyMoves(|cmds|, MoveLimit)) else Ok(cmds)
  }

  // ---------------------------------------------------------------------------
  // Trimming and lines.

  /** String.prototype.trim: the text without the spaces and newlines at
      either end. */
  function Trim(s: seq<Lexeme>): (r: seq<Lexeme>)
    ensures r == [] || (!IsSpace(r[0]) && !IsSpace(r[|r| - 1]))
    ensures forall x :: x in r ==> x in s
    ensures forall x :: !IsSpace(x) ==> (x in r <==> x in s)
    ensures (forall k :: 0 <= k < |s| ==> !IsSpace(s[k])) ==> r == s
  {
    var i := SkipSpaces(s, 0);
    var j := TrimEnd(s, i, |s|);
    TrimSlice(s, i, j);
    TrimEnds(s, i, j);
    s[i..j]
  }

  /** The trimmed slice starts and ends on other lexemes, and a text without
      spaces is its own slice. */
  lemma TrimEnds(s: seq<Lexeme>, i: nat, j: nat)
    requires i <= j <= |s| && (i < |s| ==> !IsSpace(s[i])) && (j > i ==> !IsSpace(s[j - 1]))
    requires forall k :: 0 <= k < i ==> IsSpace(s[k])
    requires forall k :: j <= k < |s| ==> IsSpace(s[k])
    ensures s[i..j] == [] || (!IsSpace(s[i..j][0]) && !IsSpace(s[i..j][|s[i..j]| - 1]))
    ensures (forall k :: 0 <= k < |s| ==> !IsSpace(s[k])) ==> s[i..j] == s
  {
    if forall k :: 0 <= k < |s| ==> !IsSpace(s[k]) {
      if |s| > 0 {
        assert !IsSpace(s[0]) && !IsSpace(s[|s| - 1]);
      }
    }
  }

  /** The trimmed text is a slice of the text with only spaces and newlines
      around it. */
  lemma TrimIsSlice(s: seq<Lexeme>)
    ensures exists i, j :: 0 <= i <= j <= |s| && Trim(s) == s[i..j]
              && (forall k :: 0 <= k < i ==> IsSpace(s[k]))
              && (forall k :: j <= k < |s| ==> IsSpace(s[k]))
  {
    var i := SkipSpaces(s, 0);
    var j := TrimEnd(s, i, |s|);
    assert Trim(s) == s[i..j];
  }

  /** A slice with only spaces and newlines around it keeps every other lexeme. */
  lemma TrimSlice(s: seq<Lexeme>, i: nat, j: nat)
    requires i <= j <= |s|
    requires forall k :: 0 <= k < i ==> IsSpace(s[k])
    requires forall k :: j <= k < |s| ==> IsSpace(s[k])
    ensures forall x :: x in s[i..j] ==> x in s
    ensures forall x :: !IsSpace(x) ==> (x in s[i..j] <==> x in s)
  {
    forall x | !IsSpace(x) && x in s
      ensures x in s[i..j]
    {
      var m :| 0 <= m < |s| && s[m] == x;
      assert s[i..j][m - i] == x;
    }
  }

  /** The end of the text once the spaces and newlines before hi are dropped,
      going no lower than lo. */
  function TrimEnd(s: seq<Lexeme>, lo: nat, hi: nat): (r: nat)
    requires lo <= hi <= |s|
    decreases hi
    ensures lo <= r <= hi && (r > lo ==> !IsSpace(s[r - 1]))
    ensures forall k :: r <= k < hi ==> IsSpace(s[k])
  {
    if hi == lo || !IsSpace(s[hi - 1]) then hi else TrimEnd(s, lo, hi - 1)
  }

  /** Lines joined by newlines; the inverse of SplitLines. */
  function JoinLines(lines: seq<seq<Lexeme>>): seq<Lexeme>
  {
    if lines == [] then []
    else if |lines| == 1 then lines[0]
    else lines[0] + [Newline] + JoinLines(lines[1..])
  }

  /** code.split(/\n/) */
  function SplitLines(s: seq<Lexeme>): (r: seq<seq<Lexeme>>)
    decreases |s|
    ensures |r| == Occurrences(s, Newline) + 1
    ensures forall i :: 0 <= i < |r| ==> Newline !in r[i]
    ensures JoinLines(r) == s
  {
    match IndexOf(s, Newline, 0)
    case None =>
      [s]
    case Some(i) =>
      var rest := SplitLines(s[i + 1..]);
      assert s == s[..i] + [Newline] + s[i + 1..];
      [s[..i]] + rest
  }

  // ---------------------------------------------------------------------------
  // Entry points used by the two run modes.

  /** The start of executeUserCode: trim, refuse empty text, interpret and apply
      the move limit. */
  function ParseProgram(code: seq<Lexeme>): (r: Result<seq<Dir>>)
    ensures r == Err(EmptyProgram) <==> Trim(code) == []
    ensures r.Ok? ==> |r.value| <= MoveLimit
  {
    var t := Trim(code);
    if t == [] then Err(EmptyProgram)
    else
      match Interpret(t)
      case Err(e) => Err(e)
      case Ok(cmds) => CheckMoveLimit(cmds)
  }

  /** The parsing half of executeUserCode: the text is trimmed, an empty text
      refused, the interpreter run and the move limit applied. The second
      result is what moveCommands holds afterwards: the interpreter's list,
      kept even when it is over the limit, or empty when parsing failed. */
  method ParseUserCode(code: seq<Lexeme>) returns (r: Result<seq<Dir>>, built: seq<Dir>)
    ensures r == ParseProgram(code)
    ensures var t := Trim(code);
            built == if t != [] && Interpret(t).Ok? then Interpret(t).value else []
  {
    built := [];
    var t := Trim(code);
    if t == [] {
      return Err(EmptyProgram), built;
    }
    var b := BuildCommands(t);
    if b.Err? {
      return Err(b.error), built;
    }
    built := b.value;
    if |built| > MoveLimit {
      return Err(TooManyMoves(|built|, MoveLimit)), built;
    }
    return Ok(built), built;
  }

  /** /^for\s*\(/.test(line) */
  predicate StartsWithFor(t: seq<Lexeme>)
  {
    |t| > 0 && IsFor(t[0])
  }

  /** No direction twice, in the order up, down, left, right. */
  predicate StrictlyOrdered(s: seq<Dir>)
  {
    forall i, j :: 0 <= i < j < |s| ==> Rank(s[i]) < Rank(s[j])
  }

  /** parseSingleLine: a loop line goes through the interpreter (an error gives
      no commands and does not stop the run); any other line reports each
      direction it mentions once. Such a line is neither scanned for
      disallowed keywords nor stripped of comments. */
  function ParseSingleLine(line: seq<Lexeme>): (r: seq<Dir>)
    ensures Trim(line) == [] ==> r == []
    ensures StartsWithFor(Trim(line)) ==>
              (r == [] && Interpret(Trim(line)).Err?) || Interpret(Trim(line)) == Ok(r)
    ensures !StartsWithFor(Trim(line)) ==>
              StrictlyOrdered(r) && forall d :: d in r <==> Move(d) in Trim(line)
  {
    var t := Trim(line);
    if t == [] then []
    else if StartsWithFor(t) then
      match Interpret(t)
      case Ok(cmds) => cmds
      case Err(_) => []
    else Mentioned(t)
  }

  /** The directions whose movement call appears in t, each once, in the order
      of the four tests. */
  function Mentioned(t: seq<Lexeme>): (r: seq<Dir>)
    ensures StrictlyOrdered(r)
    ensures forall d :: d in r <==> Move(d) in t
  {
    var r := PushIf(PushIf(PushIf(PushIf([], t, Up), t, Down), t, Left), t, Right);
    MentionedMembers(t);
    r
  }

  lemma MentionedMembers(t: seq<Lexeme>)
    ensures var r := PushIf(PushIf(PushIf(PushIf([], t, Up), t, Down), t, Left), t, Right);
            StrictlyOrdered(r) && forall d :: d in r <==> Move(d) in t
  {
    var a := PushIf([], t, Up);
    var b := PushIf(a, t, Down);
    var c := PushIf(b, t, Left);
    PushIfOrdered([], t, Up);
    PushIfOrdered(a, t, Down);
    PushIfOrdered(b, t, Left);
    PushIfOrdered(c, t, Right);
  }

  /** cmds.push(d) when the call of d appears in t. */
  function PushIf(acc: seq<Dir>, t: seq<Lexeme>, d: Dir): seq<Dir>
  {
    acc + (if Move(d) in t then [d] else [])
  }

  lemma PushIfOrdered(acc: seq<Dir>, t: seq<Lexeme>, d: Dir)
    requires StrictlyOrdered(acc)
    requires forall i :: 0 <= i < |acc| ==> Rank(acc[i]) < Rank(d)
    ensures StrictlyOrdered(PushIf(acc, t, d))
    ensures forall i :: 0 <= i < |PushIf(acc, t, d)| ==> Rank(PushIf(acc, t, d)[i]) <= Rank(d)
    ensures forall x :: x in PushIf(acc, t, d) <==> x in acc || (x == d && Move(d) in t)
  {
  }

  /** parseSingleLine as written: a trimmed line, a loop line handed to
      buildCommands, or one conditional push per direction. */
  method ParseLine(line: seq<Lexeme>) returns (cmds: seq<Dir>)
    ensures cmds == ParseSingleLine(line)
  {
    var t := Trim(line);
    if t == [] {
      return [];
    }
    if StartsWithFor(t) {
      var r := BuildCommands(t);
      if r.Err? {
        return [];
      }
      return r.value;
    }
    assert ParseSingleLine(line) == Mentioned(t);
    cmds := PushMentioned(t);
  }

  /** The four conditional pushes of parseSingleLine. */
  method PushMentioned(t: seq<Lexeme>) returns (cmds: seq<Dir>)
    ensures cmds == Mentioned(t)
  {
    cmds := [];
    if Move(Up) in t {
      cmds := cmds + [Up];
    }
    assert cmds == PushIf([], t, Up);
    if Move(Down) in t {
      cmds := cmds + [Down];
    }
    if Move(Left) in t {
      cmds := cmds + [Left];
    }
    if Move(Right) in t {
      cmds := cmds + [Right];
    }
  }

  /** What liveExecute runs: each line of the text, parsed on its own. */
  function ParseLines(lines: seq<seq<Lexeme>>): (r: seq<seq<Dir>>)
    ensures |r| == |lines|
    ensures forall i :: 0 <= i < |lines| ==> r[i] == ParseSingleLine(lines[i])
  {
    seq(|lines|, i requires 0 <= i < |lines| => ParseSingleLine(lines[i]))
  }
}
