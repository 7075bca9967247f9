/** The problem generator: a random addition fact A + B = C in which one
    addend is shown as a blank for the player to fill in. */
module Problems {

  /** Which addend is blanked out. */
  datatype Side = Left | Right

  datatype Problem = Problem(a: int, b: int, c: int, hidden: Side)

  /** What every problem the game poses satisfies. */
  predicate ValidProblem(p: Problem) {
    p.a + p.b == p.c && 1 <= p.a && 1 <= p.b && 2 <= p.c <= 20
  }

  /** The three results of the random source that one problem consumes,
      in the order they are drawn: the side to hide, the sum, the left addend. */
  datatype Draw = Draw(side: real, sum: real, addend: real)

  /** Every draw lies in [0, 1). */
  predicate ValidDraw(d: Draw) {
    0.0 <= d.side < 1.0 && 0.0 <= d.sum < 1.0 && 0.0 <= d.addend < 1.0
  }

  /** A draw scaled by n lies in [0, n], and below n when n is positive. */
  lemma {:induction false} ScaledDraw(r: real, n: nat)
    requires 0.0 <= r < 1.0
    ensures 0.0 <= r * n as real <= n as real
    ensures n >= 1 ==> r * n as real < n as real
  {
    if n > 0 {
      ScaledDraw(r, n - 1);
      assert r * n as real == r * (n - 1) as real + r;
    }
  }

  /** Scaling a draw by n and rounding down gives an index in [0, n). */
  lemma FloorOfScaledDraw(r: real, n: int)
    requires 0.0 <= r < 1.0 && 1 <= n
    ensures 0 <= (r * n as real).Floor < n
  {
    ScaledDraw(r, n);
    var x := r * n as real;
    assert 0.0 <= x < n as real;
  }

  /** A quotient of a smaller by a larger non-negative number is a valid draw. */
  lemma QuotientBelowOne(x: real, y: real)
    requires 0.0 <= x < y
    ensures 0.0 <= x / y < 1.0
  {
  }

  /** Builds the problem from the draws: the left addend is hidden when the
      first draw is below one half, the sum is one of 2..20 and the left
      addend one of 1..sum-1. */
  function Generate(d: Draw): (p: Problem)
    requires ValidDraw(d)
    ensures ValidProblem(p)
  {
    var hidden := if d.side < 0.5 then Left else Right;
    FloorOfScaledDraw(d.sum, 19);
    var sum := (d.sum * 19.0).Floor + 2;
    FloorOfScaledDraw(d.addend, sum - 1);
    var a := (d.addend * (sum - 1) as real).Floor + 1;
    Problem(a, sum - a, sum, hidden)
  }

  /** For every index x in [0, n) some draw scales and rounds down to x. */
  lemma DrawFor(x: int, n: int) returns (r: real)
    requires 0 <= x < n
    ensures 0.0 <= r < 1.0
    ensures (r * n as real).Floor == x
  {
    r := x as real / n as real;
    QuotientBelowOne(x as real, n as real);
    assert r * n as real == x as real;
  }

  /** The generator is onto: every valid problem comes out for some draws. */
  lemma GenerateReachesAll(p: Problem)
    requires ValidProblem(p)
    ensures exists d :: ValidDraw(d) && Generate(d) == p
  {
    var side := if p.hidden == Left then 0.0 else 0.5;
    var sum := DrawFor(p.c - 2, 19);
    var addend := DrawFor(p.a - 1, p.c - 1);
    var d := Draw(side, sum, addend);
    assert ValidDraw(d);
    assert Generate(d) == p;
  }

  /** The number that belongs in the blank: A when the left addend is
      hidden, B otherwise. For a valid problem it is the one number that
      completes the equation. */
  function Answer(p: Problem): (x: int)
    ensures ValidProblem(p) ==> 1 <= x <= 19
    ensures ValidProblem(p) ==> (if p.hidden == Left then x + p.b else p.a + x) == p.c
  {
    if p.hidden == Left then p.a else p.b
  }
}
