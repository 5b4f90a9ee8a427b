/** Properties of the interpreter: the keyword ban, the loop bounds and the
    expansion guard, the translation's grouping, comment stripping, the move
    limit, the live-mode line parser and the line split. */
module InterpreterProps {
  import opened Commands
  import opened Interpreter

  /** Lexemes that only the final translation looks at. */
  predicate Inert(x: Lexeme)
  {
    x.Move? || x == Semi || x == Newline || x == Blank || x == Other
  }

  /** A text of movement calls, semicolons, newlines and other words only. */
  predicate Plain(s: seq<Lexeme>)
  {
    forall k :: 0 <= k < |s| ==> Inert(s[k])
  }

  /** Spaces and newlines only. */
  predicate Spaces(s: seq<Lexeme>)
  {
    forall k :: 0 <= k < |s| ==> IsSpace(s[k])
  }

  /** A statement a single-line loop can repeat: calls, other words and the
      blanks between them, beginning with a call or a word (what `\s*` leaves). */
  predicate Statement(s: seq<Lexeme>)
  {
    |s| > 0 && s[0] != Blank && forall k :: 0 <= k < |s| ==> s[k].Move? || s[k] == Other || s[k] == Blank
  }

  // ---------------------------------------------------------------------------
  // Helpers: the searches find what is there.

  lemma IndexOfIs(s: seq<Lexeme>, x: Lexeme, from: nat, e: nat)
    requires from <= e < |s| && s[e] == x
    requires forall k :: from <= k < e ==> s[k] != x
    ensures IndexOf(s, x, from) == Some(e)
  {
  }

  lemma IndexOfAbsent(s: seq<Lexeme>, x: Lexeme, from: nat)
    requires forall k :: from <= k < |s| ==> s[k] != x
    ensures IndexOf(s, x, from) == None
  {
  }

  lemma PlainCopies(body: seq<Lexeme>, n: nat)
    requires Plain(body)
    ensures Plain(Copies(body, n))
  {
    var c := Copies(body, n);
    forall k | 0 <= k < |c|
      ensures Inert(c[k])
    {
      assert c[k] in c;
    }
  }

  /** Stages 3 to 5 leave a plain text as it is and translate it. */
  lemma PlainAfterBraces(b: seq<Lexeme>)
    requires Plain(b)
    ensures AfterBraces(b) == Ok(Translate(b))
  {
    assert ExpandSingleLines(b) == Ok(b);
    assert !HasFor(b);
    assert LineComment !in b;
    assert BlockStart !in b;
  }

  // ---------------------------------------------------------------------------
  // Counting.

  lemma {:induction false} CopiesOccurrences(body: seq<Lexeme>, n: nat, x: Lexeme)
    requires x != Newline
    ensures Occurrences(Copies(body, n), x) == n * Occurrences(body, x)
  {
    if n > 1 {
      var k := Occurrences(body, x);
      CopiesOccurrences(body, n - 1, x);
      assert multiset(Copies(body, n)) == multiset(body) + multiset([Newline]) + multiset(Copies(body, n - 1));
      assert n * k == k + (n - 1) * k;
    }
  }

  // ---------------------------------------------------------------------------
  // The translation: grouped by direction, one token per call.

  lemma {:induction false} RepeatCount(d: Dir, n: nat, e: Dir)
    ensures multiset(Repeat(d, n))[e] == if e == d then n else 0
  {
    if n > 0 {
      assert Repeat(d, n) == Repeat(d, n - 1) + [d];
      RepeatCount(d, n - 1, e);
    }
  }

  /** The translation holds all ups, then all downs, lefts and rights. */
  lemma TranslateGrouped(s: seq<Lexeme>)
    ensures Grouped(Translate(s))
  {
    RepeatsGrouped(Occurrences(s, Move(Up)), Occurrences(s, Move(Down)),
                   Occurrences(s, Move(Left)), Occurrences(s, Move(Right)));
  }

  /** Runs of ups, downs, lefts and rights, in that order, are grouped. */
  lemma RepeatsGrouped(u: nat, w: nat, l: nat, t: nat)
    ensures Grouped(Repeat(Up, u) + Repeat(Down, w) + Repeat(Left, l) + Repeat(Right, t))
  {
    var r := Repeat(Up, u) + Repeat(Down, w) + Repeat(Left, l) + Repeat(Right, t);
    forall i | 0 <= i < |r|
      ensures Rank(r[i]) == if i < u then 0 else if i < u + w then 1 else if i < u + w + l then 2 else 3
    {
    }
  }

  /** The translation has as many tokens of each direction as the text has
      calls of that movement function. */
  lemma TranslateCounts(s: seq<Lexeme>, d: Dir)
    ensures multiset(Translate(s))[d] == Occurrences(s, Move(d))
  {
    RepeatCount(Up, Occurrences(s, Move(Up)), d);
    RepeatCount(Down, Occurrences(s, Move(Down)), d);
    RepeatCount(Left, Occurrences(s, Move(Left)), d);
    RepeatCount(Right, Occurrences(s, Move(Right)), d);
  }

  /** A text without loops or comments is translated as it stands. */
  lemma PlainProgram(code: seq<Lexeme>)
    requires Plain(code)
    ensures Interpret(code) == Ok(Translate(code))
  {
    assert Banned !in code;
    assert ExpandBraces(code) == Ok(code);
    PlainAfterBraces(code);
  }

  // ---------------------------------------------------------------------------
  // Braced loops.

  /** The braced pattern matches the first header followed by `{` after any
      spaces and newlines, and its body runs to the first `}`. */
  lemma BracedMatch(pre: seq<Lexeme>, n: Bound, gap: seq<Lexeme>, body: seq<Lexeme>, post: seq<Lexeme>)
    requires forall k :: 0 <= k < |pre| ==> !pre[k].Header?
    requires Spaces(gap) && RBrace !in body
    ensures HasBraceLoop(pre + [Header(n)] + gap + [LBrace] + body + [RBrace] + post)
    ensures ExpandFirstBrace(pre + [Header(n)] + gap + [LBrace] + body + [RBrace] + post)
            == if n > MaxBound then Err(BoundTooLarge) else Ok(pre + Copies(body, n) + post)
  {
    var s := pre + [Header(n)] + gap + [LBrace] + body + [RBrace] + post;
    var i := |pre|;
    var k := i + |gap| + 1;
    var j := k + 1 + |body|;
    BracedFirst(pre, n, gap, body, post, s, i, k);
    BracedSlices(pre, n, gap, body, post, s, i, k, j);
    assert IndexOf(s, RBrace, k + 1) == Some(j) by {
      IndexOfSlice(s, RBrace, k + 1, j);
    }
    ExpandFirstBraceAt(s, i, k, j);
  }

  /** One braced expansion, given where the match, its `{` and its `}` are. */
  lemma ExpandFirstBraceAt(s: seq<Lexeme>, i: nat, k: nat, j: nat)
    requires FirstBraceLoop(s, 0) == Some(i)
    requires i < |s| && SkipSpaces(s, i + 1) == k
    requires IndexOf(s, RBrace, k + 1) == Some(j)
    ensures HasBraceLoop(s)
    ensures ExpandFirstBrace(s) == if s[i].bound > MaxBound then Err(BoundTooLarge)
                                   else Ok(s[..i] + Copies(s[k + 1..j], s[i].bound) + s[j + 1..])
  {
  }

  /** The first x from b on is at j when the slice before j has none. */
  lemma IndexOfSlice(s: seq<Lexeme>, x: Lexeme, b: nat, j: nat)
    requires b <= j < |s| && s[j] == x && x !in s[b..j]
    ensures IndexOf(s, x, b) == Some(j)
  {
    forall m | b <= m < j
      ensures s[m] != x
    {
      assert s[m] == s[b..j][m - b];
    }
    IndexOfIs(s, x, b, j);
  }

  /** The parts of a braced loop as slices of its text. */
  lemma BracedSlices(pre: seq<Lexeme>, n: Bound, gap: seq<Lexeme>, body: seq<Lexeme>, post: seq<Lexeme>,
                     s: seq<Lexeme>, i: nat, k: nat, j: nat)
    requires s == pre + [Header(n)] + gap + [LBrace] + body + [RBrace] + post
    requires i == |pre| && k == i + |gap| + 1 && j == k + 1 + |body|
    ensures j < |s| && s[i] == Header(n) && s[j] == RBrace
    ensures s[..i] == pre && s[k + 1..j] == body && s[j + 1..] == post
  {
    assert s[..i] == pre;
    assert s[k + 1..j] == body;
    assert s[j + 1..] == post;
  }

  /** The first match of the braced pattern is at the header after pre, and
      its `{` ends the gap. */
  lemma BracedFirst(pre: seq<Lexeme>, n: Bound, gap: seq<Lexeme>, body: seq<Lexeme>, post: seq<Lexeme>,
                    s: seq<Lexeme>, i: nat, k: nat)
    requires forall k :: 0 <= k < |pre| ==> !pre[k].Header?
    requires Spaces(gap)
    requires s == pre + [Header(n)] + gap + [LBrace] + body + [RBrace] + post
    requires i == |pre| && k == i + |gap| + 1
    ensures FirstBraceLoop(s, 0) == Some(i) && SkipSpaces(s, i + 1) == k
  {
    BracedSkip(pre, n, gap, body, post);
    BracedAt(pre, n, gap, body, post);
    BracedNoneBefore(pre, n, gap, body, post);
    FirstBraceLoopIs(s, |pre|);
  }

  lemma BracedSkip(pre: seq<Lexeme>, n: Bound, gap: seq<Lexeme>, body: seq<Lexeme>, post: seq<Lexeme>)
    requires Spaces(gap)
    ensures SkipSpaces(pre + [Header(n)] + gap + [LBrace] + body + [RBrace] + post, |pre| + 1) == |pre| + |gap| + 1
  {
    var s := pre + [Header(n)] + gap + [LBrace] + body + [RBrace] + post;
    var k := |pre| + 1;
    var q := |pre| + |gap| + 1;
    forall m | k <= m < q
      ensures IsSpace(s[m])
    {
      assert s[m] == gap[m - k];
    }
    assert s[q] == LBrace;
    SkipSpacesTo(s, k, q);
  }

  lemma BracedAt(pre: seq<Lexeme>, n: Bound, gap: seq<Lexeme>, body: seq<Lexeme>, post: seq<Lexeme>)
    requires Spaces(gap)
    ensures BraceLoopAt(pre + [Header(n)] + gap + [LBrace] + body + [RBrace] + post, |pre|)
  {
    var s := pre + [Header(n)] + gap + [LBrace] + body + [RBrace] + post;
    var q := |pre| + |gap| + 1;
    BracedSkip(pre, n, gap, body, post);
    assert s[q] == LBrace;
    assert s[q + 1..][|body|] == RBrace;
  }

  lemma BracedNoneBefore(pre: seq<Lexeme>, n: Bound, gap: seq<Lexeme>, body: seq<Lexeme>, post: seq<Lexeme>)
    requires forall k :: 0 <= k < |pre| ==> !pre[k].Header?
    ensures forall k :: 0 <= k < |pre| ==> !BraceLoopAt(pre + [Header(n)] + gap + [LBrace] + body + [RBrace] + post, k)
  {
    var s := pre + [Header(n)] + gap + [LBrace] + body + [RBrace] + post;
    forall k | 0 <= k < |pre|
      ensures !s[k].Header?
    {
      assert s[k] == pre[k];
    }
  }

  lemma FirstBraceLoopIs(s: seq<Lexeme>, p: nat)
    requires BraceLoopAt(s, p)
    requires forall k :: 0 <= k < p ==> !BraceLoopAt(s, k)
    ensures FirstBraceLoop(s, 0) == Some(p)
  {
  }

  /** SkipSpaces stops at the first lexeme that is not a space or newline. */
  lemma {:induction false} SkipSpacesTo(s: seq<Lexeme>, k: nat, q: nat)
    requires k <= q < |s| && !IsSpace(s[q])
    requires forall m :: k <= m < q ==> IsSpace(s[m])
    decreases q - k
    ensures SkipSpaces(s, k) == q
  {
    if k < q {
      SkipSpacesTo(s, k + 1, q);
    }
  }

  /** What n runs of a text translate to: n times as many tokens of each
      direction, still grouped. */
  function TranslateTimes(s: seq<Lexeme>, n: nat): seq<Dir>
  {
    Repeat(Up, n * Occurrences(s, Move(Up))) + Repeat(Down, n * Occurrences(s, Move(Down)))
    + Repeat(Left, n * Occurrences(s, Move(Left))) + Repeat(Right, n * Occurrences(s, Move(Right)))
  }

  /** n copies of a text translate to the text's calls n times over. */
  lemma CopiesTranslate(body: seq<Lexeme>, n: nat)
    ensures Translate(Copies(body, n)) == TranslateTimes(body, n)
  {
    CopiesOccurrences(body, n, Move(Up));
    CopiesOccurrences(body, n, Move(Down));
    CopiesOccurrences(body, n, Move(Left));
    CopiesOccurrences(body, n, Move(Right));
  }

  /** The braced expansion of a single loop with a plain body, whatever spaces
      and newlines stand between the header and its `{`. */
  lemma BracedLoopExpands(n: Bound, gap: seq<Lexeme>, body: seq<Lexeme>)
    requires Spaces(gap) && Plain(body)
    ensures ExpandBraces([Header(n)] + gap + [LBrace] + body + [RBrace])
            == if n > MaxBound then Err(BoundTooLarge) else Ok(Copies(body, n))
  {
    var s := [Header(n)] + gap + [LBrace] + body + [RBrace];
    BracedLoopFirst(n, gap, body);
    if n <= MaxBound {
      var c := Copies(body, n);
      PlainCopies(body, n);
      NoHeaderNoBraceLoop(c);
      BraceRoundsStep(s, 0, c);
      BraceRoundsDone(c, 1);
      ExpandBracesFrom(s, c, 1);
    }
  }

  /** The one braced loop is the first match, and replacing it leaves n copies. */
  lemma BracedLoopFirst(n: Bound, gap: seq<Lexeme>, body: seq<Lexeme>)
    requires Spaces(gap) && Plain(body)
    ensures HasBraceLoop([Header(n)] + gap + [LBrace] + body + [RBrace])
    ensures ExpandFirstBrace([Header(n)] + gap + [LBrace] + body + [RBrace])
            == if n > MaxBound then Err(BoundTooLarge) else Ok(Copies(body, n))
  {
    var s := [Header(n)] + gap + [LBrace] + body + [RBrace];
    var c := Copies(body, n);
    assert [] + [Header(n)] + gap + [LBrace] + body + [RBrace] + [] == s;
    assert [] + c + [] == c;
    assert RBrace !in body;
    BracedMatch([], n, gap, body, []);
  }

  /** A braced loop whose body holds only calls and plain words runs the body
      exactly n times: n times each call, nothing for 0, an error above 20.
      The `{` may stand on a later line than the header. */
  lemma BracedLoopProgram(n: Bound, gap: seq<Lexeme>, body: seq<Lexeme>)
    requires Spaces(gap) && Plain(body)
    ensures Interpret([Header(n)] + gap + [LBrace] + body + [RBrace])
            == if n > MaxBound then Err(BoundTooLarge) else Ok(TranslateTimes(body, n))
  {
    var s := [Header(n)] + gap + [LBrace] + body + [RBrace];
    assert Banned !in s by {
      var q := |gap| + 2;
      assert forall k :: 1 <= k < q - 1 ==> s[k] == gap[k - 1];
      assert forall k :: q <= k < |s| - 1 ==> s[k] == body[k - q];
    }
    BracedLoopExpands(n, gap, body);
    if n <= MaxBound {
      PlainCopies(body, n);
      PlainAfterBraces(Copies(body, n));
      CopiesTranslate(body, n);
    }
  }

  /** m braced loops in a row, each `for (let i = 0; i < 1; i++) { moveUp(); }`. */
  function UpLoops(m: nat): seq<Lexeme>
  {
    if m == 0 then [] else [Header(1), LBrace, Move(Up), RBrace] + UpLoops(m - 1)
  }

  /** a calls `moveUp()`. */
  function UpCalls(a: nat): (r: seq<Lexeme>)
    ensures |r| == a && forall k :: 0 <= k < a ==> r[k] == Move(Up)
  {
    seq(a, _ => Move(Up))
  }

  lemma UpCallsSucc(a: nat)
    ensures UpCalls(a) + [Move(Up)] == UpCalls(a + 1)
  {
    assert (UpCalls(a) + [Move(Up)])[a] == Move(Up);
  }

  /** One braced expansion of the first of m loops after a calls. */
  lemma UpLoopStep(a: nat, m: nat)
    requires m > 0
    ensures HasBraceLoop(UpCalls(a) + UpLoops(m))
    ensures ExpandFirstBrace(UpCalls(a) + UpLoops(m)) == Ok(UpCalls(a + 1) + UpLoops(m - 1))
  {
    assert UpCalls(a) + UpLoops(m) == UpCalls(a) + [Header(1), LBrace] + [Move(Up)] + [RBrace] + UpLoops(m - 1);
    assert UpCalls(a) + [Header(1), LBrace] + [Move(Up)] + [RBrace] + UpLoops(m - 1)
        == UpCalls(a) + [Header(1)] + [] + [LBrace] + [Move(Up)] + [RBrace] + UpLoops(m - 1);
    BracedMatch(UpCalls(a), 1, [], [Move(Up)], UpLoops(m - 1));
    assert Copies([Move(Up)], 1) == [Move(Up)];
    UpCallsSucc(a);
    assert UpCalls(a) + [Move(Up)] + UpLoops(m - 1) == UpCalls(a + 1) + UpLoops(m - 1);
  }

  lemma BraceRoundsStep(s: seq<Lexeme>, g: nat, t: seq<Lexeme>)
    requires g < ExpansionGuard && HasBraceLoop(s) && ExpandFirstBrace(s) == Ok(t)
    ensures BraceRounds(s, g) == BraceRounds(t, g + 1)
  {
  }

  lemma BraceRoundsDone(s: seq<Lexeme>, g: nat)
    requires g <= ExpansionGuard && (!HasBraceLoop(s) || g == ExpansionGuard)
    ensures BraceRounds(s, g) == Ok((s, g))
  {
  }

  lemma NoHeaderNoBraceLoop(s: seq<Lexeme>)
    requires forall k :: 0 <= k < |s| ==> !s[k].Header?
    ensures !HasBraceLoop(s)
  {
  }

  /** What the rounds from round g on leave of a calls followed by m loops:
      every loop expanded while the guard stays below 20, and otherwise the
      text after the expansion that brought the guard to 20. */
  function UpRoundsResult(a: nat, m: nat, g: nat): Result<(seq<Lexeme>, nat)>
    requires g <= ExpansionGuard
  {
    if g + m < ExpansionGuard then Ok((UpCalls(a + m), g + m))
    else Ok((UpCalls(a + (ExpansionGuard - g)) + UpLoops(m - (ExpansionGuard - g)), ExpansionGuard))
  }

  lemma UpRounds(a: nat, m: nat, g: nat)
    requires g <= ExpansionGuard
    ensures BraceRounds(UpCalls(a) + UpLoops(m), g) == UpRoundsResult(a, m, g)
  {
    UpRoundsInduction(a, m, g);
  }

  /** The closed form of the rounds, as one fact about (a, m, g). */
  ghost predicate UpRoundsHold(a: nat, m: nat, g: nat)
    requires g <= ExpansionGuard
  {
    BraceRounds(UpCalls(a) + UpLoops(m), g) == UpRoundsResult(a, m, g)
  }

  lemma {:induction false} UpRoundsInduction(a: nat, m: nat, g: nat)
    requires g <= ExpansionGuard
    decreases m
    ensures UpRoundsHold(a, m, g)
  {
    if m == 0 {
      UpRoundsEmpty(a, g);
    } else if g == ExpansionGuard {
      UpRoundsGuard(a, m);
    } else {
      var a', m', g' := a + 1, m - 1, g + 1;
      UpRoundsInduction(a', m', g');
      UpRoundsChain(a, m, g, a', m', g');
    }
  }

  /** One round below the guard joined to the rounds after it. */
  lemma UpRoundsChain(a: nat, m: nat, g: nat, a': nat, m': nat, g': nat)
    requires g < ExpansionGuard && m > 0
    requires a' == a + 1 && m' == m - 1 && g' == g + 1
    requires UpRoundsHold(a', m', g')
    ensures UpRoundsHold(a, m, g)
  {
    UpRoundsAdvance(a, m, g, a', m', g');
    UpRoundsResultStep(a, m, g, a', m', g');
  }

  /** At a guard of 20 the rounds stop, loops or not. */
  lemma UpRoundsGuard(a: nat, m: nat)
    requires m > 0
    ensures BraceRounds(UpCalls(a) + UpLoops(m), ExpansionGuard) == UpRoundsResult(a, m, ExpansionGuard)
  {
    BraceRoundsDone(UpCalls(a) + UpLoops(m), ExpansionGuard);
    assert a + (ExpansionGuard - ExpansionGuard) == a && m - (ExpansionGuard - ExpansionGuard) == m;
  }

  /** Below the guard one round expands the first loop. */
  lemma UpRoundsAdvance(a: nat, m: nat, g: nat, a': nat, m': nat, g': nat)
    requires g < ExpansionGuard && m > 0
    requires a' == a + 1 && m' == m - 1 && g' == g + 1
    ensures BraceRounds(UpCalls(a) + UpLoops(m), g) == BraceRounds(UpCalls(a') + UpLoops(m'), g')
  {
    assert UpCalls(a') + UpLoops(m') == UpCalls(a + 1) + UpLoops(m - 1);
    UpLoopStep(a, m);
    BraceRoundsStep(UpCalls(a) + UpLoops(m), g, UpCalls(a') + UpLoops(m'));
  }

  lemma UpRoundsResultStep(a: nat, m: nat, g: nat, a': nat, m': nat, g': nat)
    requires g < ExpansionGuard && m > 0
    requires a' == a + 1 && m' == m - 1 && g' == g + 1
    ensures UpRoundsResult(a', m', g') == UpRoundsResult(a, m, g)
  {
    assert a + 1 + (m - 1) == a + m && g + 1 + (m - 1) == g + m;
    assert a + 1 + (ExpansionGuard - (g + 1)) == a + (ExpansionGuard - g);
    assert m - 1 - (ExpansionGuard - (g + 1)) == m - (ExpansionGuard - g);
  }

  lemma UpRoundsEmpty(a: nat, g: nat)
    requires g <= ExpansionGuard
    ensures BraceRounds(UpCalls(a) + UpLoops(0), g) == Ok((UpCalls(a), g))
    ensures BraceRounds(UpCalls(a) + UpLoops(0), g) == UpRoundsResult(a, 0, g)
  {
    assert UpCalls(a) + UpLoops(0) == UpCalls(a);
    NoHeaderNoBraceLoop(UpCalls(a));
    BraceRoundsDone(UpCalls(a), g);
  }

  /** The braced stage as a whole, from the rounds' result. */
  lemma ExpandBracesFrom(s: seq<Lexeme>, t: seq<Lexeme>, g: nat)
    requires BraceRounds(s, 0) == Ok((t, g))
    ensures ExpandBraces(s) == if g == ExpansionGuard then Err(DepthLimit) else Ok(t)
  {
  }

  /** The braced stage on fewer than 20 loops expands them all. */
  lemma UpLoopsBracesWithin(m: nat)
    requires m < ExpansionGuard
    ensures ExpandBraces(UpLoops(m)) == Ok(UpCalls(m))
  {
    UpRounds(0, m, 0);
    assert UpCalls(0) + UpLoops(m) == UpLoops(m);
    assert BraceRounds(UpLoops(m), 0) == Ok((UpCalls(m), m));
    ExpandBracesFrom(UpLoops(m), UpCalls(m), m);
  }

  /** The braced stage on 20 loops or more reaches the guard. */
  lemma UpLoopsBracesBeyond(m: nat)
    requires m >= ExpansionGuard
    ensures ExpandBraces(UpLoops(m)) == Err(DepthLimit)
  {
    UpRounds(0, m, 0);
    assert UpCalls(0) + UpLoops(m) == UpLoops(m);
    var t := UpCalls(ExpansionGuard) + UpLoops(m - ExpansionGuard);
    assert BraceRounds(UpLoops(m), 0) == Ok((t, ExpansionGuard));
    ExpandBracesFrom(UpLoops(m), t, ExpansionGuard);
  }

  lemma {:induction false} UpLoopsWords(m: nat)
    ensures Banned !in UpLoops(m)
  {
    if m > 0 {
      UpLoopsWords(m - 1);
    }
  }

  lemma {:induction false} UpCallsCount(a: nat)
    ensures Occurrences(UpCalls(a), Move(Up)) == a
    ensures forall d :: d != Up ==> Occurrences(UpCalls(a), Move(d)) == 0
  {
    if a > 0 {
      UpCallsSucc(a - 1);
      UpCallsCount(a - 1);
    }
  }

  /** a calls of moveUp() translate to a up tokens. */
  lemma UpCallsProgram(a: nat)
    ensures Interpret(UpCalls(a)) == Ok(Repeat(Up, a))
  {
    var code := UpCalls(a);
    assert Plain(code);
    PlainProgram(code);
    UpCallsCount(a);
    assert Repeat(Down, 0) == [] && Repeat(Left, 0) == [] && Repeat(Right, 0) == [];
    assert Translate(code) == Repeat(Up, a) + [] + [] + [];
    assert Repeat(Up, a) + [] + [] + [] == Repeat(Up, a);
    assert Interpret(code) == Ok(Repeat(Up, a));
  }

  /** At most 19 braced expansions succeed: 19 loops run, 20 loops are refused
      although the twentieth expansion leaves nothing to expand. */
  lemma ExpansionGuardLimit(m: nat)
    ensures Interpret(UpLoops(m)) == if m < ExpansionGuard then Ok(Repeat(Up, m)) else Err(DepthLimit)
  {
    UpLoopsWords(m);
    if m < ExpansionGuard {
      UpLoopsBracesWithin(m);
      UpCallsProgram(m);
      UpCallsBraces(m);
    } else {
      UpLoopsBracesBeyond(m);
    }
  }

  lemma UpCallsBraces(a: nat)
    ensures ExpandBraces(UpCalls(a)) == Ok(UpCalls(a))
    ensures !HasDisallowed(UpCalls(a))
  {
  }

  // ---------------------------------------------------------------------------
  // Single-line loops.

  /** The single-line pattern at `for (let i = 0; i < n; i++) stmt;`, with any
      spaces and newlines after the `)`: the statement is trimmed, given its
      `;`, and the match ends after the `;`. */
  lemma SingleLineMatch(n: Bound, gap: seq<Lexeme>, stmt: seq<Lexeme>, post: seq<Lexeme>)
    requires Spaces(gap) && Statement(stmt)
    ensures MatchSingle([Header(n)] + gap + stmt + [Semi] + post) == Some((Trim(stmt) + [Semi], post))
  {
    var s := [Header(n)] + gap + stmt + [Semi] + post;
    var k := 1 + |gap|;
    var e := k + |stmt|;
    SingleLineSlices(n, gap, stmt, post, s, k, e);
    SkipSpacesTo(s, 1, k);
    StmtEndTo(s, k, e);
    assert StmtBody(s, k, e) == Trim(stmt) + [Semi];
    MatchSingleStmt(s, k, e);
  }

  /** Where the gap, the statement, its `;` and the rest lie in a single-line loop. */
  lemma SingleLineSlices(n: Bound, gap: seq<Lexeme>, stmt: seq<Lexeme>, post: seq<Lexeme>,
                         s: seq<Lexeme>, k: nat, e: nat)
    requires Spaces(gap) && Statement(stmt)
    requires s == [Header(n)] + gap + stmt + [Semi] + post
    requires k == 1 + |gap| && e == k + |stmt|
    ensures e < |s| && s[0] == Header(n) && s[e] == Semi && !IsSpace(s[k])
    ensures forall m :: 1 <= m < k ==> IsSpace(s[m])
    ensures forall m :: k <= m < e ==> !StopsStmt(s[m])
    ensures s[k..e] == stmt && s[e + 1..] == post
  {
    forall m | 1 <= m < k
      ensures IsSpace(s[m])
    {
      assert s[m] == gap[m - 1];
    }
    forall m | k <= m < e
      ensures !StopsStmt(s[m])
    {
      assert s[m] == stmt[m - k];
    }
    assert s[k] == stmt[0];
  }

  /** StmtEnd stops at the first lexeme that ends a statement. */
  lemma {:induction false} StmtEndTo(s: seq<Lexeme>, k: nat, q: nat)
    requires k <= q < |s| && StopsStmt(s[q])
    requires forall m :: k <= m < q ==> !StopsStmt(s[m])
    decreases q - k
    ensures StmtEnd(s, k) == q
  {
    if k < q {
      StmtEndTo(s, k + 1, q);
    }
  }

  /** A statement ended by its `;` is taken with the `;` consumed. */
  lemma MatchSingleStmt(s: seq<Lexeme>, k: nat, e: nat)
    requires |s| > 0 && s[0].Header? && k <= |s|
    requires SkipSpaces(s, 1) == k && StmtEnd(s, k) == e && k < e < |s| && s[e] == Semi
    ensures MatchSingle(s) == Some((StmtBody(s, k, e), s[e + 1..]))
  {
  }

  /** A single-line loop passes the keyword scan and the braced stage untouched. */
  lemma SingleLineBraces(n: Bound, gap: seq<Lexeme>, stmt: seq<Lexeme>)
    requires Spaces(gap) && Statement(stmt)
    ensures !HasDisallowed([Header(n)] + gap + stmt + [Semi])
    ensures ExpandBraces([Header(n)] + gap + stmt + [Semi]) == Ok([Header(n)] + gap + stmt + [Semi])
  {
    var s := [Header(n)] + gap + stmt + [Semi];
    forall x | x in s
      ensures x != Banned && x != LBrace
    {
      if x in gap {
        var m :| 0 <= m < |gap| && gap[m] == x;
        assert IsSpace(gap[m]);
      } else if x in stmt {
        var m :| 0 <= m < |stmt| && stmt[m] == x;
      }
    }
    assert !HasBraceLoop(s) by {
      forall i | 0 <= i
        ensures !BraceLoopAt(s, i)
      {
        if i < |s| && s[i].Header? {
          var k := SkipSpaces(s, i + 1);
          if k < |s| {
            assert s[k] in s;
          }
        }
      }
    }
    BraceRoundsDone(s, 0);
  }

  /** The single-line stage turns the loop into n copies of the trimmed
      statement and its `;`, and goes on after the `;`. */
  lemma SingleLineExpands(n: Bound, gap: seq<Lexeme>, stmt: seq<Lexeme>, post: seq<Lexeme>)
    requires Spaces(gap) && Statement(stmt)
    ensures ExpandSingleLines([Header(n)] + gap + stmt + [Semi] + post)
            == if n > MaxBound then Err(BoundTooLarge)
               else match ExpandSingleLines(post)
                    case Err(e) => Err(e)
                    case Ok(t) => Ok(Copies(Trim(stmt) + [Semi], n) + t)
  {
    SingleLineMatch(n, gap, stmt, post);
  }

  /** A trailing semicolon adds no call. */
  lemma SemiNotCounted(stmt: seq<Lexeme>, n: nat)
    ensures TranslateTimes(stmt + [Semi], n) == TranslateTimes(stmt, n)
  {
    var body := stmt + [Semi];
    assert multiset(body) == multiset(stmt) + multiset{Semi};
    assert Occurrences(body, Move(Up)) == Occurrences(stmt, Move(Up));
    assert Occurrences(body, Move(Down)) == Occurrences(stmt, Move(Down));
    assert Occurrences(body, Move(Left)) == Occurrences(stmt, Move(Left));
    assert Occurrences(body, Move(Right)) == Occurrences(stmt, Move(Right));
  }

  /** A plain text passes the leftover-loop check and comment stripping untouched. */
  lemma PlainTail(t: seq<Lexeme>)
    requires Plain(t)
    ensures !HasFor(t) && StripBlockComments(StripLineComments(t)) == t
  {
    assert LineComment !in t;
    assert BlockStart !in t;
  }

  /** `for (let i = 0; i < n; i++) stmt;` runs the statement's calls exactly n
      times, nothing for 0, and is an error above 20. */
  lemma SingleLineLoopProgram(n: Bound, gap: seq<Lexeme>, stmt: seq<Lexeme>)
    requires Spaces(gap) && Statement(stmt)
    ensures Interpret([Header(n)] + gap + stmt + [Semi])
            == if n > MaxBound then Err(BoundTooLarge) else Ok(TranslateTimes(stmt, n))
  {
    var s := [Header(n)] + gap + stmt + [Semi];
    SingleLineBraces(n, gap, stmt);
    assert s + [] == s;
    SingleLineExpands(n, gap, stmt, []);
    assert ExpandSingleLines([]) == Ok([]);
    if n <= MaxBound {
      var u := Trim(stmt);
      var body := u + [Semi];
      var c := Copies(body, n);
      assert c + [] == c;
      StatementTrimPlain(stmt);
      PlainCat(u, [Semi]);
      PlainCopies(body, n);
      PlainTail(c);
      assert AfterBraces(s) == Ok(Translate(c));
      CopiesTranslate(body, n);
      SemiNotCounted(u, n);
      TrimTranslate(stmt, n);
    }
  }

  /** A trimmed statement is plain. */
  lemma StatementTrimPlain(stmt: seq<Lexeme>)
    requires Statement(stmt)
    ensures Plain(Trim(stmt))
  {
    var u := Trim(stmt);
    forall k | 0 <= k < |u|
      ensures Inert(u[k])
    {
      assert u[k] in stmt;
      var m :| 0 <= m < |stmt| && stmt[m] == u[k];
    }
  }

  /** Trimming removes no call. */
  lemma TrimTranslate(s: seq<Lexeme>, n: nat)
    ensures TranslateTimes(Trim(s), n) == TranslateTimes(s, n)
  {
    TrimOccurrences(s, Move(Up));
    TrimOccurrences(s, Move(Down));
    TrimOccurrences(s, Move(Left));
    TrimOccurrences(s, Move(Right));
  }

  lemma TrimOccurrences(s: seq<Lexeme>, x: Lexeme)
    requires !IsSpace(x)
    ensures Occurrences(Trim(s), x) == Occurrences(s, x)
  {
    TrimIsSlice(s);
    var i, j :| 0 <= i <= j <= |s| && Trim(s) == s[i..j]
              && (forall k :: 0 <= k < i ==> IsSpace(s[k]))
              && (forall k :: j <= k < |s| ==> IsSpace(s[k]));
    SliceOccurrences(s, i, j, x);
  }

  /** A slice holds every x of s when there is none outside it. */
  lemma SliceOccurrences(s: seq<Lexeme>, i: nat, j: nat, x: Lexeme)
    requires i <= j <= |s|
    requires forall k :: 0 <= k < i ==> s[k] != x
    requires forall k :: j <= k < |s| ==> s[k] != x
    ensures Occurrences(s[i..j], x) == Occurrences(s, x)
  {
    assert s == s[..i] + s[i..j] + s[j..];
    assert x !in s[..i];
    assert x !in s[j..];
  }

  /** The single-line loop of the comment at script.js:242, with its space
      after the `)`: `for (let i = 0; i < 3; i++) moveRight();`. */
  lemma SpacedRightThrice()
    ensures Interpret([Header(3), Blank, Move(Right), Semi]) == Ok([Right, Right, Right])
  {
    assert [Header(3)] + [Blank] + [Move(Right)] + [Semi] == [Header(3), Blank, Move(Right), Semi];
    assert Spaces([Blank]) && Statement([Move(Right)]);
    SingleLineLoopProgram(3, [Blank], [Move(Right)]);
    OneRightThrice();
  }

  lemma OneRightThrice()
    ensures TranslateTimes([Move(Right)], 3) == [Right, Right, Right]
  {
    assert multiset([Move(Right)]) == multiset{Move(Right)};
    assert Repeat(Right, 3) == [Right, Right, Right];
  }

  /** `for (let i = 0; i < 3; i++)`, then `{` on the next line, the call on
      a line of its own and `}`: the braced pattern allows newlines before
      the `{`, so the call runs three times. */
  lemma BraceOnNextLine()
    ensures Interpret([Header(3), Newline, LBrace, Newline, Move(Up), Semi, Newline, RBrace]) == Ok([Up, Up, Up])
  {
    var body := [Newline, Move(Up), Semi, Newline];
    assert [Header(3)] + [Newline] + [LBrace] + body + [RBrace]
        == [Header(3), Newline, LBrace, Newline, Move(Up), Semi, Newline, RBrace];
    assert Plain(body) && Spaces([Newline]);
    BracedLoopProgram(3, [Newline], body);
    OneUpThrice(body);
  }

  lemma OneUpThrice(body: seq<Lexeme>)
    requires body == [Newline, Move(Up), Semi, Newline]
    ensures TranslateTimes(body, 3) == [Up, Up, Up]
  {
    assert multiset(body) == multiset{Newline, Newline, Move(Up), Semi};
    assert Occurrences(body, Move(Up)) == 1;
    assert Occurrences(body, Move(Down)) == 0 && Occurrences(body, Move(Left)) == 0;
    assert Occurrences(body, Move(Right)) == 0;
    assert Repeat(Up, 3) == [Up, Up, Up];
  }

  /** A header, one space and a `{` that no `}` closes: the braced pattern
      finds no `}`, and the single-line pattern takes the space as its
      statement, so the header turns into n lone `;` and the body after the
      `{` runs once (or the bound error is raised above 20). */
  lemma SpacedUnclosedBrace(n: Bound, body: seq<Lexeme>)
    requires Plain(body)
    ensures Interpret([Header(n), Blank, LBrace] + body)
            == if n > MaxBound then Err(BoundTooLarge) else Ok(Translate(body))
  {
    var s := [Header(n), Blank, LBrace] + body;
    UnclosedBraces(s, 2);
    SpacedExpand(n, body, s);
    if n <= MaxBound {
      SemisThenBody(n, body);
    }
  }

  /** The single-line pass over a header, a space and a `{`. */
  lemma SpacedExpand(n: Bound, body: seq<Lexeme>, s: seq<Lexeme>)
    requires Plain(body) && s == [Header(n), Blank, LBrace] + body
    ensures ExpandSingleLines(s)
            == if n > MaxBound then Err(BoundTooLarge) else Ok(Copies([Semi], n) + ([LBrace] + body))
  {
    SpacedMatch(n, body, s);
    assert ExpandSingleLines([LBrace] + body) == Ok([LBrace] + body) by {
      NoHeaderAfterBrace(body);
    }
  }

  /** The single-line pattern takes the space as the statement. */
  lemma SpacedMatch(n: Bound, body: seq<Lexeme>, s: seq<Lexeme>)
    requires s == [Header(n), Blank, LBrace] + body
    ensures MatchSingle(s) == Some(([Semi], [LBrace] + body))
  {
    assert SkipSpaces(s, 1) == 2;
    assert StmtEnd(s, 2) == 2;
    assert LastIndexOf(s, Blank, 1, 2) == Some(1);
    assert s[2..] == [LBrace] + body;
  }

  /** The same text without the space: neither pattern matches at the header,
      which is left over and refused, whatever its bound. */
  lemma TightUnclosedBrace(n: Bound, body: seq<Lexeme>)
    requires Plain(body)
    ensures Interpret([Header(n), LBrace] + body) == Err(UnsupportedLoop)
  {
    var s := [Header(n), LBrace] + body;
    UnclosedBraces(s, 1);
    assert MatchSingle(s).None? by {
      assert SkipSpaces(s, 1) == 1;
      assert StmtEnd(s, 1) == 1;
      assert LastIndexOf(s, Blank, 1, 1).None?;
    }
    assert s[1..] == [LBrace] + body;
    assert ExpandSingleLines([LBrace] + body) == Ok([LBrace] + body) by {
      NoHeaderAfterBrace(body);
    }
    assert ExpandSingleLines(s) == Ok([Header(n)] + ([LBrace] + body));
    assert IsFor(([Header(n)] + ([LBrace] + body))[0]);
  }

  // Nested braced loops.

  /** `for (let i = 0; i < 2; i++) {` */
  const SpacedHead: seq<Lexeme> := [Header(2), Blank, LBrace]
  /** Two lone `;`, what a header with a space for statement becomes. */
  const TwoSemis: seq<Lexeme> := [Semi, Newline, Semi]

  /** `for (let i = 0; i < 2; i++) { for (let i = 0; i < 2; i++) {u} }` */
  function NestedOf(u: seq<Lexeme>): seq<Lexeme>
  {
    SpacedHead + [Blank] + SpacedHead + u + [RBrace, Blank, RBrace]
  }

  /** The outer body as the first round finds it, up to the first `}`. */
  function OuterBody(u: seq<Lexeme>): seq<Lexeme>
  {
    [Blank] + SpacedHead + u
  }

  /** The body the second round finds, up to the outer `}`. */
  function SecondBody(u: seq<Lexeme>): seq<Lexeme>
  {
    u + [Newline, Blank] + SpacedHead + u + [Blank]
  }

  /** The text after the second round, each header turned into two lone `;`. */
  function DoneOf(u: seq<Lexeme>): seq<Lexeme>
  {
    ([Blank] + u + [Newline, Blank])
    + (TwoSemis + ([LBrace] + ((u + [Blank] + [Newline] + u + [Newline, Blank])
    + (TwoSemis + ([LBrace] + (u + [Blank]))))))
  }

  /** Two nested loops of bound 2 around a plain body u. The inner `}` ends
      the outer body, so the first round copies the inner header with u, the
      second round copies everything up to the outer `}`, and each header
      left before its unclosed `{` becomes two lone `;`. The body runs four
      times, as the bounds would also give, but through the single-line
      stage. */
  lemma NestedLoops(u: seq<Lexeme>)
    requires Plain(u)
    ensures Interpret(NestedOf(u)) == Ok(TranslateTimes(u, 4))
  {
    var s1 := OuterBody(u) + [Newline] + OuterBody(u) + [Blank, RBrace];
    var s2 := [Blank] + SecondBody(u) + [Newline] + SecondBody(u);
    var t := DoneOf(u);
    NestedBraces(u, s1, s2);
    NestedSingleLines(u, s2, t);
    NestedTail(u, t);
    assert AfterBraces(s2) == Ok(Translate(t));
  }

  /** `for (let i = 0; i < 2; i++) { for (let i = 0; i < 2; i++) { moveUp(); } }`
      gives four ups. */
  lemma NestedUps()
    ensures Interpret(NestedOf(UpBody)) == Ok([Up, Up, Up, Up])
  {
    UpBodyFacts();
    NestedLoops(UpBody);
  }

  /** ` moveUp(); ` */
  const UpBody: seq<Lexeme> := [Blank, Move(Up), Semi, Blank]

  /** ` moveUp(); ` is plain and, four times over, makes four ups. */
  lemma UpBodyFacts()
    ensures Plain(UpBody) && TranslateTimes(UpBody, 4) == [Up, Up, Up, Up]
  {
    assert Plain(UpBody);
    UpBodyCount(Up);
    UpBodyCount(Down);
    UpBodyCount(Left);
    UpBodyCount(Right);
    assert Repeat(Up, 4) == [Up, Up, Up, Up];
  }

  /** ` moveUp(); ` holds one call, to moveUp. */
  lemma UpBodyCount(d: Dir)
    ensures Occurrences(UpBody, Move(d)) == if d == Up then 1 else 0
  {
    var u := UpBody;
    assert u == [Blank] + [Move(Up)] + [Semi] + [Blank];
    assert multiset(u) == multiset([Blank]) + multiset([Move(Up)]) + multiset([Semi]) + multiset([Blank]);
  }

  /** Two braced rounds, then no `}` is left and the stage ends. */
  lemma NestedBraces(u: seq<Lexeme>, s1: seq<Lexeme>, s2: seq<Lexeme>)
    requires Plain(u)
    requires s1 == OuterBody(u) + [Newline] + OuterBody(u) + [Blank, RBrace]
    requires s2 == [Blank] + SecondBody(u) + [Newline] + SecondBody(u)
    ensures !HasDisallowed(NestedOf(u)) && ExpandBraces(NestedOf(u)) == Ok(s2)
  {
    var s := NestedOf(u);
    NestedMembers(u, s, s2);
    NestedRound1(u, s, s1);
    BraceRoundsStep(s, 0, s1);
    NestedRound2(u, s1, s2);
    BraceRoundsStep(s1, 1, s2);
    BraceRoundsDone(s2, 2);
    ExpandBracesFrom(s, s2, 2);
  }

  /** No banned word in the nested text, and no `}` after the second round. */
  lemma NestedMembers(u: seq<Lexeme>, s: seq<Lexeme>, s2: seq<Lexeme>)
    requires Plain(u) && s == NestedOf(u)
    requires s2 == [Blank] + SecondBody(u) + [Newline] + SecondBody(u)
    ensures RBrace !in u && !HasDisallowed(s) && !HasBraceLoop(s2)
  {
    assert RBrace !in u && Banned !in u;
    assert Banned !in SpacedHead && RBrace !in SpacedHead;
    assert RBrace !in SecondBody(u);
    assert RBrace !in s2;
  }

  lemma NestedRound1(u: seq<Lexeme>, s: seq<Lexeme>, s1: seq<Lexeme>)
    requires RBrace !in u && s == NestedOf(u)
    requires s1 == OuterBody(u) + [Newline] + OuterBody(u) + [Blank, RBrace]
    ensures HasBraceLoop(s) && ExpandFirstBrace(s) == Ok(s1)
  {
    var b := OuterBody(u);
    assert s == [] + [Header(2)] + [Blank] + [LBrace] + b + [RBrace] + [Blank, RBrace];
    BracedMatch([], 2, [Blank], b, [Blank, RBrace]);
    var c := Copies(b, 2);
    assert ExpandFirstBrace(s) == Ok([] + c + [Blank, RBrace]);
    assert c == b + [Newline] + b;
    assert [] + c == c;
  }

  lemma NestedRound2(u: seq<Lexeme>, s1: seq<Lexeme>, s2: seq<Lexeme>)
    requires RBrace !in u
    requires s1 == OuterBody(u) + [Newline] + OuterBody(u) + [Blank, RBrace]
    requires s2 == [Blank] + SecondBody(u) + [Newline] + SecondBody(u)
    ensures HasBraceLoop(s1) && ExpandFirstBrace(s1) == Ok(s2)
  {
    var b := SecondBody(u);
    assert s1 == [Blank] + [Header(2)] + [Blank] + [LBrace] + b + [RBrace] + [];
    BracedMatch([Blank], 2, [Blank], b, []);
    var c := Copies(b, 2);
    assert ExpandFirstBrace(s1) == Ok([Blank] + c + []);
    assert c == b + [Newline] + b;
    assert [Blank] + c + [] == [Blank] + c;
    CopiesAssoc([Blank], b);
  }

  /** Two copies regrouped. */
  lemma CopiesAssoc(a: seq<Lexeme>, b: seq<Lexeme>)
    ensures a + (b + [Newline] + b) == a + b + [Newline] + b
  {
  }

  /** Each of the two headers takes the space before its `{` as statement. */
  lemma NestedSingleLines(u: seq<Lexeme>, s2: seq<Lexeme>, t: seq<Lexeme>)
    requires Plain(u)
    requires s2 == [Blank] + SecondBody(u) + [Newline] + SecondBody(u)
    requires t == DoneOf(u)
    ensures ExpandSingleLines(s2) == Ok(t)
  {
    var a := [Blank] + u + [Newline, Blank];
    var r1 := u + [Blank] + [Newline] + u + [Newline, Blank];
    var r2 := u + [Blank];
    assert s2 == a + (SpacedHead + (r1 + (SpacedHead + r2)));
    NoHeaderParts(u, a, r1, r2);
    var inner := r1 + (SpacedHead + r2);
    var done := r1 + (TwoSemis + ([LBrace] + r2));
    InnerSingleLine(r1, r2, inner, done);
    OuterSingleLine(a, inner, done);
    assert a + (TwoSemis + ([LBrace] + done)) == t;
  }

  /** Two lone `;`: a bound of 2 with an empty statement. */
  lemma TwoSemiCopies()
    ensures Copies([Semi], 2) == TwoSemis
  {
  }

  /** The inner header of the second-round text. */
  lemma InnerSingleLine(r1: seq<Lexeme>, r2: seq<Lexeme>, inner: seq<Lexeme>, done: seq<Lexeme>)
    requires forall k :: 0 <= k < |r1| ==> !r1[k].Header?
    requires forall k :: 0 <= k < |r2| ==> !r2[k].Header?
    requires inner == r1 + (SpacedHead + r2)
    requires done == r1 + (TwoSemis + ([LBrace] + r2))
    ensures ExpandSingleLines(inner) == Ok(done)
  {
    SinglePrefix(r2, []);
    assert r2 + [] == r2;
    assert ExpandSingleLines(r2) == Ok(r2);
    SpacedHeader(2, r2);
    TwoSemiCopies();
    SinglePrefix(r1, SpacedHead + r2);
  }

  /** The outer header of the second-round text. */
  lemma OuterSingleLine(a: seq<Lexeme>, inner: seq<Lexeme>, done: seq<Lexeme>)
    requires forall k :: 0 <= k < |a| ==> !a[k].Header?
    requires ExpandSingleLines(inner) == Ok(done)
    ensures ExpandSingleLines(a + (SpacedHead + inner)) == Ok(a + (TwoSemis + ([LBrace] + done)))
  {
    SpacedHeader(2, inner);
    TwoSemiCopies();
    SinglePrefix(a, SpacedHead + inner);
  }

  /** The plain parts between the headers hold no header. */
  lemma NoHeaderParts(u: seq<Lexeme>, a: seq<Lexeme>, r1: seq<Lexeme>, r2: seq<Lexeme>)
    requires Plain(u)
    requires a == [Blank] + u + [Newline, Blank]
    requires r1 == u + [Blank] + [Newline] + u + [Newline, Blank]
    requires r2 == u + [Blank]
    ensures Plain(a) && Plain(r1) && Plain(r2)
    ensures forall k :: 0 <= k < |a| ==> !a[k].Header?
    ensures forall k :: 0 <= k < |r1| ==> !r1[k].Header?
    ensures forall k :: 0 <= k < |r2| ==> !r2[k].Header?
  {
    assert Plain(a) && Plain(r1) && Plain(r2) by {
      PlainCat([Blank], u);
      PlainCat([Blank] + u, [Newline, Blank]);
      PlainCat(u, [Blank]);
      PlainCat(u + [Blank], [Newline]);
      PlainCat(u + [Blank] + [Newline], u);
      PlainCat(u + [Blank] + [Newline] + u, [Newline, Blank]);
    }
  }

  lemma PlainCat(a: seq<Lexeme>, b: seq<Lexeme>)
    requires Plain(a) && Plain(b)
    ensures Plain(a + b)
  {
    forall k | |a| <= k < |a + b|
      ensures Inert((a + b)[k])
    {
      assert (a + b)[k] == b[k - |a|];
    }
  }

  /** The expanded text has no `for (` and no comment, and holds the body's
      calls four times. */
  lemma NestedTail(u: seq<Lexeme>, t: seq<Lexeme>)
    requires Plain(u)
    requires t == DoneOf(u)
    ensures !HasFor(t) && StripBlockComments(StripLineComments(t)) == t
    ensures Translate(t) == TranslateTimes(u, 4)
  {
    NestedTailShape(u, t);
    forall d
      ensures Occurrences(t, Move(d)) == 4 * Occurrences(u, Move(d))
    {
      NestedTailCount(u, t, d);
    }
  }

  lemma NestedTailShape(u: seq<Lexeme>, t: seq<Lexeme>)
    requires Plain(u)
    requires t == DoneOf(u)
    ensures !HasFor(t) && StripBlockComments(StripLineComments(t)) == t
  {
    var a := [Blank] + u + [Newline, Blank];
    var r1 := u + [Blank] + [Newline] + u + [Newline, Blank];
    var r2 := u + [Blank];
    NoHeaderParts(u, a, r1, r2);
    PlainCalm(a);
    PlainCalm(r1);
    PlainCalm(r2);
    var h := TwoSemis + [LBrace];
    assert Calm(h);
    var w := h + r2;
    CalmCat(h, r2);
    var v := h + (r1 + w);
    CalmCat(r1, w);
    CalmCat(h, r1 + w);
    CalmCat(a, v);
    assert t == a + v by {
      assert TwoSemis + ([LBrace] + r2) == w;
      assert TwoSemis + ([LBrace] + (r1 + w)) == v;
    }
  }

  /** No `for (` and no comment opener anywhere in s. */
  predicate Calm(s: seq<Lexeme>)
  {
    forall x :: x in s ==> !IsFor(x) && x != LineComment && x != BlockStart
  }

  lemma PlainCalm(s: seq<Lexeme>)
    requires Plain(s)
    ensures Calm(s)
  {
    forall x | x in s
      ensures !IsFor(x) && x != LineComment && x != BlockStart
    {
      var k :| 0 <= k < |s| && s[k] == x;
      assert Inert(s[k]);
    }
  }

  lemma CalmCat(a: seq<Lexeme>, b: seq<Lexeme>)
    requires Calm(a) && Calm(b)
    ensures Calm(a + b)
  {
  }

  lemma NestedTailCount(u: seq<Lexeme>, t: seq<Lexeme>, d: Dir)
    requires t == DoneOf(u)
    ensures Occurrences(t, Move(d)) == 4 * Occurrences(u, Move(d))
  {
    var x := Move(d);
    var m := multiset(u)[x];
    var a := [Blank] + u + [Newline, Blank];
    var r1 := u + [Blank] + [Newline] + u + [Newline, Blank];
    var r2 := u + [Blank];
    var h := TwoSemis + [LBrace];
    assert multiset(h)[x] == 0;
    assert multiset(a)[x] == m;
    assert multiset(r1)[x] == 2 * m;
    assert multiset(r2)[x] == m;
    var w := h + r2;
    var v := h + (r1 + w);
    assert t == a + v by {
      assert TwoSemis + ([LBrace] + r2) == w;
      assert TwoSemis + ([LBrace] + (r1 + w)) == v;
    }
    assert multiset(w)[x] == m;
    assert multiset(v)[x] == 3 * m;
  }

  /** A text without headers passes the single-line stage unchanged in front
      of whatever follows it. */
  lemma {:induction false} SinglePrefix(a: seq<Lexeme>, t: seq<Lexeme>)
    requires forall k :: 0 <= k < |a| ==> !a[k].Header?
    decreases |a|
    ensures ExpandSingleLines(a + t) == match ExpandSingleLines(t)
                                         case Err(e) => Err(e)
                                         case Ok(u) => Ok(a + u)
  {
    if a == [] {
      assert a + t == t;
      match ExpandSingleLines(t)
      case Err(e) =>
      case Ok(u) => assert a + u == u;
    } else {
      var x, rest := a[0], a[1..];
      assert !x.Header?;
      var v := rest + t;
      assert a + t == [x] + v;
      SingleCons(x, v);
      SinglePrefix(rest, t);
      match ExpandSingleLines(t)
      case Err(e) =>
      case Ok(u) => ConsAppend(a, u);
    }
  }

  /** A lexeme other than a header passes the single-line stage as it is. */
  lemma SingleCons(x: Lexeme, v: seq<Lexeme>)
    requires !x.Header?
    ensures ExpandSingleLines([x] + v) == match ExpandSingleLines(v)
                                          case Err(e) => Err(e)
                                          case Ok(w) => Ok([x] + w)
  {
    assert ([x] + v)[0] == x;
    assert ([x] + v)[1..] == v;
  }

  /** A header, a space and a `{`: the single-line pattern takes the space,
      and the text after the `{` goes on through the stage. */
  lemma SpacedHeader(n: Bound, rest: seq<Lexeme>)
    requires n <= MaxBound
    ensures ExpandSingleLines([Header(n), Blank, LBrace] + rest)
            == match ExpandSingleLines(rest)
               case Err(e) => Err(e)
               case Ok(u) => Ok(Copies([Semi], n) + ([LBrace] + u))
  {
    var s := [Header(n), Blank, LBrace] + rest;
    SpacedMatch(n, rest, s);
    var b := [LBrace] + rest;
    assert b[0] == LBrace && b[1..] == rest;
  }

  lemma NoHeaderAfterBrace(body: seq<Lexeme>)
    requires Plain(body)
    ensures forall k :: 0 <= k < |[LBrace] + body| ==> !([LBrace] + body)[k].Header?
  {
    var t := [LBrace] + body;
    forall k | 1 <= k < |t|
      ensures !t[k].Header?
    {
      assert t[k] == body[k - 1];
    }
  }

  /** A header, then spaces and a `{` at index q, then a plain text: no
      banned word, and the braced stage leaves the text as it is. */
  lemma UnclosedBraces(s: seq<Lexeme>, q: nat)
    requires 0 < q < |s| && s[0].Header? && s[q] == LBrace
    requires forall k :: 0 < k < q ==> s[k] == Blank
    requires Plain(s[q + 1..])
    ensures !HasDisallowed(s) && ExpandBraces(s) == Ok(s)
  {
    var body := s[q + 1..];
    forall k | q < k < |s|
      ensures Inert(s[k])
    {
      assert s[k] == body[k - q - 1];
    }
    assert Banned !in s;
    assert !BraceLoopAt(s, 0) by {
      SkipSpacesTo(s, 1, q);
      assert RBrace !in body;
    }
    assert forall k :: 0 < k < |s| ==> !BraceLoopAt(s, k);
    assert !HasBraceLoop(s);
    BraceRoundsDone(s, 0);
  }

  /** n lone `;`, a `{` and a plain text reach the translation as they are
      and translate like the plain text. */
  lemma SemisThenBody(n: nat, body: seq<Lexeme>)
    requires Plain(body)
    ensures AfterBraces(Copies([Semi], n) + ([LBrace] + body)) == Ok(Translate(body))
    ensures ExpandSingleLines(Copies([Semi], n) + ([LBrace] + body)) == Ok(Copies([Semi], n) + ([LBrace] + body))
  {
    var t := Copies([Semi], n) + ([LBrace] + body);
    SemisThenBodyShape(n, body);
    assert ExpandSingleLines(t) == Ok(t);
    assert !HasFor(t);
    assert StripBlockComments(StripLineComments(t)) == t;
    forall d
      ensures Occurrences(t, Move(d)) == Occurrences(body, Move(d))
    {
      SemisThenBodyCount(n, body, d);
    }
    assert Translate(t) == Translate(body);
  }

  lemma SemisThenBodyShape(n: nat, body: seq<Lexeme>)
    requires Plain(body)
    ensures forall k :: 0 <= k < |Copies([Semi], n) + ([LBrace] + body)| ==>
              var x := (Copies([Semi], n) + ([LBrace] + body))[k];
              !IsFor(x) && x != LineComment && x != BlockStart
  {
    var c := Copies([Semi], n);
    var t := c + ([LBrace] + body);
    assert Plain([Semi]);
    PlainCopies([Semi], n);
    forall k | 0 <= k < |t|
      ensures !IsFor(t[k]) && t[k] != LineComment && t[k] != BlockStart
    {
      if k < |c| {
        assert t[k] == c[k];
      } else if k > |c| {
        assert t[k] == body[k - |c| - 1];
      }
    }
  }

  lemma SemisThenBodyCount(n: nat, body: seq<Lexeme>, d: Dir)
    ensures Occurrences(Copies([Semi], n) + ([LBrace] + body), Move(d)) == Occurrences(body, Move(d))
  {
    var c := Copies([Semi], n);
    CopiesOccurrences([Semi], n, Move(d));
    assert multiset(c + ([LBrace] + body)) == multiset(c) + multiset{LBrace} + multiset(body);
  }

  // ---------------------------------------------------------------------------
  // Leftover loops.

  /** A `for (` that is not a canonical loop is refused, wherever it stands,
      inside a comment too. */
  lemma LeftoverLoopRejected(code: seq<Lexeme>)
    requires !HasDisallowed(code)
    requires forall k :: 0 <= k < |code| ==> !code[k].Header?
    requires ForOpen in code
    ensures Interpret(code) == Err(UnsupportedLoop)
  {
    var k :| 0 <= k < |code| && code[k] == ForOpen;
    assert IsFor(code[k]);
  }

  // ---------------------------------------------------------------------------
  // Comments.

  lemma StripLineCons(x: Lexeme, t: seq<Lexeme>)
    requires x != LineComment
    ensures StripLineComments([x] + t) == [x] + StripLineComments(t)
  {
    assert ([x] + t)[1..] == t;
  }

  lemma StripBlockCons(x: Lexeme, t: seq<Lexeme>)
    requires x != BlockStart
    ensures StripBlockComments([x] + t) == [x] + StripBlockComments(t)
  {
    assert ([x] + t)[1..] == t;
  }

  lemma ConsAppend(a: seq<Lexeme>, w: seq<Lexeme>)
    requires a != []
    ensures [a[0]] + (a[1..] + w) == a + w
  {
    assert a == [a[0]] + a[1..];
  }

  /** Line comments are stripped from the first `//` on; what comes before it is kept. */
  lemma {:induction false} StripLinePrefix(a: seq<Lexeme>, t: seq<Lexeme>)
    requires LineComment !in a
    ensures StripLineComments(a + t) == a + StripLineComments(t)
  {
    if a == [] {
      assert a + t == t;
    } else {
      var x, rest := a[0], a[1..];
      assert x in a && LineComment !in rest;
      var u := rest + t;
      assert a + t == [x] + u;
      StripLineCons(x, u);
      var v := StripLineComments(u);
      assert StripLineComments(a + t) == [x] + v;
      StripLinePrefix(rest, t);
      var w := StripLineComments(t);
      assert v == rest + w;
      ConsAppend(a, w);
    }
  }

  /** Block comments are stripped from the first comment opener on; what comes before it is kept. */
  lemma {:induction false} StripBlockPrefix(a: seq<Lexeme>, t: seq<Lexeme>)
    requires BlockStart !in a
    ensures StripBlockComments(a + t) == a + StripBlockComments(t)
  {
    if a == [] {
      assert a + t == t;
    } else {
      var x, rest := a[0], a[1..];
      assert x in a && BlockStart !in rest;
      var u := rest + t;
      assert a + t == [x] + u;
      StripBlockCons(x, u);
      var v := StripBlockComments(u);
      assert StripBlockComments(a + t) == [x] + v;
      StripBlockPrefix(rest, t);
      var w := StripBlockComments(t);
      assert v == rest + w;
      ConsAppend(a, w);
    }
  }

  /** Lexemes a comment may hold without touching the stages before stripping. */
  predicate Quiet(x: Lexeme)
  {
    !x.Header? && x != ForOpen && x != Banned
  }

  /** A text with no loop header, `for (` or banned word reaches comment
      stripping unchanged. */
  lemma QuietProgram(s: seq<Lexeme>)
    requires forall k :: 0 <= k < |s| ==> Quiet(s[k])
    ensures Interpret(s) == Ok(Translate(StripBlockComments(StripLineComments(s))))
  {
    assert Banned !in s;
    assert ExpandBraces(s) == Ok(s);
    assert ExpandSingleLines(s) == Ok(s);
    assert !HasFor(s);
  }

  /** The keyword scan runs before comments are stripped: a banned word in
      a line or block comment refuses the whole text. */
  lemma DisallowedInComment(pre: seq<Lexeme>, c: seq<Lexeme>, post: seq<Lexeme>)
    ensures Interpret(pre + [LineComment] + c + [Banned] + post) == Err(Disallowed)
    ensures Interpret(pre + [BlockStart] + c + [Banned, BlockEnd] + post) == Err(Disallowed)
  {
    var s := pre + [LineComment] + c + [Banned] + post;
    assert s[|pre| + 1 + |c|] == Banned;
    var t := pre + [BlockStart] + c + [Banned, BlockEnd] + post;
    assert t[|pre| + 1 + |c|] == Banned;
  }

  /** A line comment is removed up to its newline, which stays. */
  lemma StripLineComment(c: seq<Lexeme>, b: seq<Lexeme>)
    requires Newline !in c && LineComment !in b
    ensures StripLineComments([LineComment] + c + [Newline] + b) == [Newline] + b
  {
    var tail := [LineComment] + c + [Newline] + b;
    var e := |c| + 1;
    assert forall k :: 1 <= k < e ==> tail[k] != Newline by {
      forall k | 1 <= k < e
        ensures tail[k] != Newline
      {
        assert tail[k] == c[k - 1];
      }
    }
    IndexOfIs(tail, Newline, 1, e);
    assert tail[e..] == [Newline] + b;
  }

  /** Plain text around a quiet middle is quiet throughout. */
  lemma QuietAround(a: seq<Lexeme>, m: seq<Lexeme>, b: seq<Lexeme>)
    requires Plain(a) && Plain(b)
    requires forall k :: 0 <= k < |m| ==> Quiet(m[k])
    ensures forall k :: 0 <= k < |a + m + b| ==> Quiet((a + m + b)[k])
    ensures LineComment !in m ==> LineComment !in a + m + b
  {
    var s := a + m + b;
    forall k | 0 <= k < |s|
      ensures Quiet(s[k])
    {
      if k < |a| {
        assert s[k] == a[k];
      } else if k < |a| + |m| {
        assert s[k] == m[k - |a|];
      } else {
        assert s[k] == b[k - |a| - |m|];
      }
    }
    assert LineComment !in a && LineComment !in b;
  }

  /** Plain texts joined, with or without a newline between them, are plain. */
  lemma PlainJoin(a: seq<Lexeme>, m: seq<Lexeme>, b: seq<Lexeme>)
    requires Plain(a) && Plain(m) && Plain(b)
    ensures Plain(a + m + b)
  {
    var s := a + m + b;
    forall k | 0 <= k < |s|
      ensures Inert(s[k])
    {
      if k < |a| {
        assert s[k] == a[k];
      } else if k < |a| + |m| {
        assert s[k] == m[k - |a|];
      } else {
        assert s[k] == b[k - |a| - |m|];
      }
    }
  }

  /** Line comment stripping on plain text around one comment. */
  lemma LineCommentStrips(a: seq<Lexeme>, c: seq<Lexeme>, b: seq<Lexeme>)
    requires Plain(a) && Plain(b) && Newline !in c
    ensures StripLineComments(a + [LineComment] + c + [Newline] + b) == a + [Newline] + b
  {
    var tail := [LineComment] + c + [Newline] + b;
    LineCommentJoin(a, c, b);
    assert StripLineComments(a + tail) == a + StripLineComments(tail) by {
      StripLinePrefix(a, tail);
    }
    assert StripLineComments(tail) == [Newline] + b by {
      StripLineComment(c, b);
    }
  }

  lemma LineCommentJoin(a: seq<Lexeme>, c: seq<Lexeme>, b: seq<Lexeme>)
    ensures a + ([LineComment] + c + [Newline] + b) == a + [LineComment] + c + [Newline] + b
    ensures a + ([Newline] + b) == a + [Newline] + b
  {
  }

  /** The calls in a line comment are not run: the text translates as if the
      comment were not there. */
  lemma LineCommentIgnored(a: seq<Lexeme>, c: seq<Lexeme>, b: seq<Lexeme>)
    requires Plain(a) && Plain(b)
    requires forall k :: 0 <= k < |c| ==> Quiet(c[k]) && c[k] != Newline
    ensures Interpret(a + [LineComment] + c + [Newline] + b) == Ok(Translate(a + [Newline] + b))
  {
    var m := [LineComment] + c + [Newline];
    var s := a + m + b;
    LineCommentShape(a, c, b);
    LineCommentQuiet(c);
    QuietAround(a, m, b);
    QuietProgram(s);
    LineCommentStrips(a, c, b);
    var kept := a + [Newline] + b;
    PlainJoin(a, [Newline], b);
    PlainNoBlocks(kept);
  }

  lemma LineCommentShape(a: seq<Lexeme>, c: seq<Lexeme>, b: seq<Lexeme>)
    ensures a + ([LineComment] + c + [Newline]) + b == a + [LineComment] + c + [Newline] + b
  {
  }

  lemma LineCommentQuiet(c: seq<Lexeme>)
    requires forall k :: 0 <= k < |c| ==> Quiet(c[k])
    ensures var m := [LineComment] + c + [Newline];
            forall k :: 0 <= k < |m| ==> Quiet(m[k])
  {
    var m := [LineComment] + c + [Newline];
    forall k | 0 <= k < |m|
      ensures Quiet(m[k])
    {
      if 0 < k < |m| - 1 {
        assert m[k] == c[k - 1];
      }
    }
  }

  /** Block stripping leaves a plain text as it is. */
  lemma PlainNoBlocks(s: seq<Lexeme>)
    requires Plain(s)
    ensures StripBlockComments(s) == s
  {
    assert BlockStart !in s;
  }

  /** A block comment is removed up to its first end. */
  lemma StripBlockComment(c: seq<Lexeme>, b: seq<Lexeme>)
    requires BlockEnd !in c
    ensures StripBlockComments([BlockStart] + c + [BlockEnd] + b) == StripBlockComments(b)
  {
    var tail := [BlockStart] + c + [BlockEnd] + b;
    var e := |c| + 1;
    assert forall k :: 1 <= k < e ==> tail[k] != BlockEnd by {
      forall k | 1 <= k < e
        ensures tail[k] != BlockEnd
      {
        assert tail[k] == c[k - 1];
      }
    }
    IndexOfIs(tail, BlockEnd, 1, e);
    assert tail[e + 1..] == b;
  }

  /** Block comment stripping on plain text around one comment. */
  lemma BlockCommentStrips(a: seq<Lexeme>, c: seq<Lexeme>, b: seq<Lexeme>)
    requires Plain(a) && Plain(b) && BlockEnd !in c
    ensures StripBlockComments(a + [BlockStart] + c + [BlockEnd] + b) == a + b
  {
    var tail := [BlockStart] + c + [BlockEnd] + b;
    assert a + tail == a + [BlockStart] + c + [BlockEnd] + b;
    assert BlockStart !in a && BlockStart !in b;
    StripBlockPrefix(a, tail);
    StripBlockComment(c, b);
  }

  /** The calls in a block comment are not run either. */
  lemma BlockCommentIgnored(a: seq<Lexeme>, c: seq<Lexeme>, b: seq<Lexeme>)
    requires Plain(a) && Plain(b)
    requires forall k :: 0 <= k < |c| ==> Quiet(c[k]) && c[k] != BlockEnd && c[k] != LineComment
    ensures Interpret(a + [BlockStart] + c + [BlockEnd] + b) == Ok(Translate(a + b))
  {
    var m := [BlockStart] + c + [BlockEnd];
    var s := a + m + b;
    assert s == a + [BlockStart] + c + [BlockEnd] + b;
    assert forall k :: 0 <= k < |m| ==> Quiet(m[k]) && m[k] != LineComment by {
      forall k | 0 <= k < |m|
        ensures Quiet(m[k]) && m[k] != LineComment
      {
        if 0 < k < |m| - 1 {
          assert m[k] == c[k - 1];
        }
      }
    }
    assert LineComment !in m;
    QuietAround(a, m, b);
    QuietProgram(s);
    assert StripLineComments(s) == s;
    BlockCommentStrips(a, c, b);
    assert Interpret(s) == Ok(Translate(a + b));
  }

  // ---------------------------------------------------------------------------
  // The move limit.

  /** A batch run's parse of a calls of moveUp(). */
  lemma UpCallsParse(a: nat)
    requires a > 0
    ensures ParseProgram(UpCalls(a)) == CheckMoveLimit(Repeat(Up, a))
  {
    assert forall k :: 0 <= k < a ==> !IsSpace(UpCalls(a)[k]);
    assert Trim(UpCalls(a)) == UpCalls(a);
    UpCallsProgram(a);
  }

  /** 100 moves are accepted; 101 are refused with the count and the limit. */
  lemma MoveLimitBoundary()
    ensures ParseProgram(UpCalls(100)) == Ok(Repeat(Up, 100))
    ensures ParseProgram(UpCalls(101)) == Err(TooManyMoves(101, 100))
  {
    UpCallsParse(100);
    UpCallsParse(101);
  }

  // ---------------------------------------------------------------------------
  // The live-mode line parser.

  /** On a line that is not a loop, each direction is reported once, in the
      fixed order, however often it is called: calls inside a comment count,
      and a disallowed keyword is not looked for. */
  lemma LiveLineReportsEachOnce()
    ensures ParseSingleLine([Move(Right), Semi, Move(Right), Semi, LineComment, Move(Up), Banned]) == [Up, Right]
  {
    var line := [Move(Right), Semi, Move(Right), Semi, LineComment, Move(Up), Banned];
    LiveLineTrim(line);
    LiveLineMentioned(line);
  }

  lemma LiveLineTrim(line: seq<Lexeme>)
    requires line == [Move(Right), Semi, Move(Right), Semi, LineComment, Move(Up), Banned]
    ensures Trim(line) == line && !StartsWithFor(line)
  {
    assert forall k :: 0 <= k < |line| ==> !IsSpace(line[k]);
  }

  lemma LiveLineMentioned(line: seq<Lexeme>)
    requires line == [Move(Right), Semi, Move(Right), Semi, LineComment, Move(Up), Banned]
    ensures Mentioned(line) == [Up, Right]
  {
    assert Move(Up) in line && Move(Right) in line;
    assert forall k :: 0 <= k < |line| ==> line[k] != Move(Down) && line[k] != Move(Left);
    assert PushIf(PushIf(PushIf(PushIf([], line, Up), line, Down), line, Left), line, Right) == [Up, Right];
  }

  /** A single-line loop on a live line runs its statement's calls n times,
      and a bound over 20 gives no command at all. */
  lemma LiveLoopLine(n: Bound, gap: seq<Lexeme>, stmt: seq<Lexeme>)
    requires Spaces(gap) && Statement(stmt)
    ensures ParseSingleLine([Header(n)] + gap + stmt + [Semi])
            == if n > MaxBound then [] else TranslateTimes(stmt, n)
  {
    var line := [Header(n)] + gap + stmt + [Semi];
    TrimFixed(line);
    assert StartsWithFor(line);
    SingleLineLoopProgram(n, gap, stmt);
  }

  /** A text that starts and ends with neither a space nor a newline is its own trim. */
  lemma TrimFixed(s: seq<Lexeme>)
    requires |s| > 0 && !IsSpace(s[0]) && !IsSpace(s[|s| - 1])
    ensures Trim(s) == s
  {
    TrimIsSlice(s);
    var i, j :| 0 <= i <= j <= |s| && Trim(s) == s[i..j]
              && (forall k :: 0 <= k < i ==> IsSpace(s[k]))
              && (forall k :: j <= k < |s| ==> IsSpace(s[k]));
    assert i == 0 && j == |s|;
  }

  // ---------------------------------------------------------------------------
  // Lines.

  /** Splitting the joined lines gives the lines back. */
  lemma {:induction false} SplitJoin(lines: seq<seq<Lexeme>>)
    requires |lines| >= 1
    requires forall i :: 0 <= i < |lines| ==> Newline !in lines[i]
    ensures SplitLines(JoinLines(lines)) == lines
  {
    var s := JoinLines(lines);
    var h := lines[0];
    assert forall k :: 0 <= k < |h| ==> h[k] != Newline;
    if |lines| == 1 {
      assert s == h;
      IndexOfAbsent(s, Newline, 0);
    } else {
      assert s == h + [Newline] + JoinLines(lines[1..]);
      IndexOfIs(s, Newline, 0, |h|);
      assert s[..|h|] == h;
      assert s[|h| + 1..] == JoinLines(lines[1..]);
      SplitJoin(lines[1..]);
      assert [h] + lines[1..] == lines;
    }
  }

  // ---------------------------------------------------------------------------
  // Programs of one movement call per line.

  /** A line holding a single movement call, `moveX();`. */
  function CallLine(d: Dir): seq<Lexeme>
  {
    [Move(d), Semi]
  }

  /** One such line per direction of ds. */
  function CallLines(ds: seq<Dir>): (r: seq<seq<Lexeme>>)
    ensures |r| == |ds|
    ensures forall i :: 0 <= i < |ds| ==> r[i] == CallLine(ds[i])
  {
    if ds == [] then [] else [CallLine(ds[0])] + CallLines(ds[1..])
  }

  /** The program that writes the moves ds one per line, in order. */
  function CallProgram(ds: seq<Dir>): seq<Lexeme>
  {
    JoinLines(CallLines(ds))
  }

  /** Each move of ds as a line of its own. */
  function Singles(ds: seq<Dir>): (r: seq<seq<Dir>>)
    ensures |r| == |ds|
    ensures forall i :: 0 <= i < |ds| ==> r[i] == [ds[i]]
  {
    if ds == [] then [] else [[ds[0]]] + Singles(ds[1..])
  }

  /** The moves of ds arranged as the four replace passes arrange them. */
  function GroupedOf(ds: seq<Dir>): seq<Dir>
  {
    Repeat(Up, multiset(ds)[Up]) + Repeat(Down, multiset(ds)[Down])
    + Repeat(Left, multiset(ds)[Left]) + Repeat(Right, multiset(ds)[Right])
  }

  /** The first line, a newline, and the program of the rest. */
  lemma CallProgramCons(ds: seq<Dir>)
    requires |ds| > 1
    ensures CallProgram(ds) == CallLine(ds[0]) + [Newline] + CallProgram(ds[1..])
  {
    assert CallLines(ds)[1..] == CallLines(ds[1..]);
  }

  /** The program is plain text. */
  lemma {:induction false} CallProgramPlain(ds: seq<Dir>)
    ensures Plain(CallProgram(ds))
  {
    if |ds| > 1 {
      CallProgramCons(ds);
      CallProgramPlain(ds[1..]);
      PlainJoin(CallLine(ds[0]), [Newline], CallProgram(ds[1..]));
    }
  }

  /** A call line holds its own call once and no other. */
  lemma CallLineCount(e: Dir, d: Dir)
    ensures Occurrences(CallLine(e), Move(d)) == multiset{e}[d]
  {
    assert multiset(CallLine(e)) == multiset{Move(e), Semi};
    if e == d {
      assert multiset{e}[d] == 1;
    } else {
      assert multiset{e}[d] == 0;
    }
  }

  /** The program holds each written call once. */
  lemma {:induction false} CallProgramCounts(ds: seq<Dir>, d: Dir)
    ensures Occurrences(CallProgram(ds), Move(d)) == multiset(ds)[d]
  {
    if |ds| == 1 {
      assert ds == [ds[0]];
    } else if |ds| > 1 {
      var h, t := CallLine(ds[0]), CallProgram(ds[1..]);
      calc {
        Occurrences(CallProgram(ds), Move(d));
        == { CallProgramCons(ds); }
        Occurrences(h + [Newline] + t, Move(d));
        == { OccurrencesJoin(h, t, Move(d)); }
        Occurrences(h, Move(d)) + Occurrences(t, Move(d));
        == { CallLineCount(ds[0], d); CallProgramCounts(ds[1..], d); }
        multiset{ds[0]}[d] + multiset(ds[1..])[d];
        == { MultisetCons(ds, d); }
        multiset(ds)[d];
      }
    }
  }

  /** Occurrences of a call in two texts joined by a newline. */
  lemma OccurrencesJoin(a: seq<Lexeme>, b: seq<Lexeme>, x: Lexeme)
    requires x != Newline
    ensures Occurrences(a + [Newline] + b, x) == Occurrences(a, x) + Occurrences(b, x)
  {
    assert multiset(a + [Newline] + b) == multiset(a) + multiset{Newline} + multiset(b);
  }

  lemma MultisetCons(ds: seq<Dir>, d: Dir)
    requires |ds| > 0
    ensures multiset(ds)[d] == multiset{ds[0]}[d] + multiset(ds[1..])[d]
  {
    assert ds == [ds[0]] + ds[1..];
  }

  /** The program starts with the first call and ends with a semicolon. */
  lemma {:induction false} CallProgramEnds(ds: seq<Dir>)
    requires |ds| > 0
    ensures |CallProgram(ds)| > 0 && CallProgram(ds)[0] == Move(ds[0])
    ensures CallProgram(ds)[|CallProgram(ds)| - 1] == Semi
  {
    if |ds| > 1 {
      CallProgramCons(ds);
      CallProgramEnds(ds[1..]);
    }
  }

  /** A program with at least one call reaches the interpreter untrimmed, and
      a batch run gets its moves grouped by direction, subject to the move
      limit. */
  lemma CallProgramBatch(ds: seq<Dir>)
    requires |ds| > 0
    ensures ParseProgram(CallProgram(ds)) == CheckMoveLimit(GroupedOf(ds))
  {
    var s := CallProgram(ds);
    CallProgramPlain(ds);
    CallProgramEnds(ds);
    forall d
      ensures Occurrences(s, Move(d)) == multiset(ds)[d]
    {
      CallProgramCounts(ds, d);
    }
    assert Trim(s) == s;
    PlainProgram(s);
    assert Translate(s) == GroupedOf(ds);
  }

  /** The source order of the calls is lost: `moveRight();` then `moveUp();`
      on the next line run as up, right. */
  lemma SourceOrderNotKept()
    ensures ParseProgram(CallProgram([Right, Up])) == Ok([Up, Right])
  {
    CallProgramBatch([Right, Up]);
    RightUpGrouped();
  }

  lemma RightUpGrouped()
    ensures GroupedOf([Right, Up]) == [Up, Right]
  {
    var ds := [Right, Up];
    assert multiset(ds)[Up] == 1 && multiset(ds)[Down] == 0;
    assert multiset(ds)[Left] == 0 && multiset(ds)[Right] == 1;
    assert Repeat(Up, 1) == [Up] && Repeat(Right, 1) == [Right];
    assert GroupedOf(ds) == [Up] + [] + [] + [Right];
  }

  /** The grouped moves are a permutation of the written ones, in the fixed
      direction order. */
  lemma GroupedOfSpec(ds: seq<Dir>)
    ensures Grouped(GroupedOf(ds))
    ensures multiset(GroupedOf(ds)) == multiset(ds)
  {
    var m := multiset(ds);
    RepeatsGrouped(m[Up], m[Down], m[Left], m[Right]);
    forall d
      ensures multiset(GroupedOf(ds))[d] == m[d]
    {
      RepeatCount(Up, m[Up], d);
      RepeatCount(Down, m[Down], d);
      RepeatCount(Left, m[Left], d);
      RepeatCount(Right, m[Right], d);
    }
  }

  /** A line with a single call reports that direction. */
  lemma CallLineParse(d: Dir)
    ensures ParseSingleLine(CallLine(d)) == [d]
  {
    var t := CallLine(d);
    assert Trim(t) == t;
    assert !StartsWithFor(t);
    CallLineMentioned(d);
  }

  /** A line with one call mentions exactly that direction. */
  lemma CallLineMentioned(d: Dir)
    ensures Mentioned(CallLine(d)) == [d]
  {
    var t := CallLine(d);
    assert Move(d) in t;
    forall e | e != d
      ensures Move(e) !in t
    {
      assert t[0] != Move(e) && t[1] != Move(e);
    }
    match d
    case Up =>
      assert PushIf([], t, Up) == [Up];
    case Down =>
      assert PushIf([], t, Up) == [];
      assert PushIf([], t, Down) == [Down];
    case Left =>
      assert PushIf(PushIf([], t, Up), t, Down) == [];
      assert PushIf([], t, Left) == [Left];
    case Right =>
      assert PushIf(PushIf(PushIf([], t, Up), t, Down), t, Left) == [];
  }

  /** No line of the program holds a newline. */
  lemma CallLinesNoNewline(ds: seq<Dir>)
    ensures forall i :: 0 <= i < |ds| ==> Newline !in CallLines(ds)[i]
  {
    forall i | 0 <= i < |ds|
      ensures Newline !in CallLines(ds)[i]
    {
      assert CallLines(ds)[i] == [Move(ds[i]), Semi];
    }
  }

  /** Each line of the program parses to its one move. */
  lemma ParseCallLines(ds: seq<Dir>)
    ensures ParseLines(CallLines(ds)) == Singles(ds)
  {
    var parsed := ParseLines(CallLines(ds));
    forall i | 0 <= i < |ds|
      ensures parsed[i] == Singles(ds)[i]
    {
      CallLineParse(ds[i]);
    }
  }

  /** Live mode splits the program back into its lines, each one move, in the
      order written. */
  lemma CallProgramLive(ds: seq<Dir>)
    requires |ds| > 0
    ensures ParseLines(SplitLines(CallProgram(ds))) == Singles(ds)
  {
    var lines := CallLines(ds);
    CallLinesNoNewline(ds);
    SplitJoin(lines);
    ParseCallLines(ds);
  }
}
