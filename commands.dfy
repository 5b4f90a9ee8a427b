/** Values shared by the interpreter and the maze: the four movement tokens
    and an Option type. */
module Commands {

  datatype Option<+T> = None | Some(value: T)

  /** One movement token of a command sequence ('up', 'down', 'left', 'right'). */
  datatype Dir = Up | Down | Left | Right

  /** The position of a direction in the fixed pass order up, down, left, right. */
  function Rank(d: Dir): nat
  {
    match d
    case Up => 0
    case Down => 1
    case Left => 2
    case Right => 3
  }

  /** n copies of one token. */
  function Repeat(d: Dir, n: nat): (r: seq<Dir>)
    ensures |r| == n
    ensures forall i :: 0 <= i < n ==> r[i] == d
  {
    seq(n, _ => d)
  }

  /** Every token of s ranks no lower than the one before it. */
  predicate Grouped(s: seq<Dir>)
  {
    forall i, j :: 0 <= i < j < |s| ==> Rank(s[i]) <= Rank(s[j])
  }
}
