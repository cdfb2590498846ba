/**
 * The values shared by the tree generator and the renderer: the branch record,
 * the constants of the drawing, and what the code takes from the browser.
 */
module TreeData {
  import opened Wrappers

  /** A CSS colour string such as "#8e3496". */
  type Color = string

  datatype Point = Point(x: real, y: real)

  /**
   * One branch record. `i` is the branch's index in the branch list, (x, y) its
   * origin, `a` its angle in radians (0 points straight up), `l` its length, `d`
   * its depth, `parent` the index of the branch that spawned it (None for the
   * seed) and `c` its stroke colour.
   */
  datatype Branch = Branch(i: nat, x: real, y: real, a: real, l: real, d: nat, parent: Option<nat>, c: Color)

  /**
   * What the tree code takes from outside: the end point of a branch as a
   * function of its origin, angle and length (the trigonometry of endPt), the
   * stream of Math.random() results numbered from 0 in the order they are drawn,
   * and the colorAt function of the rainbowvis library.
   */
  datatype Env = Env(endPt: (real, real, real, real) -> Point, random: int -> real, colorAt: int -> Color)

  /** The n-th Math.random() result. */
  function Draw(env: Env, n: int): real {
    env.random(n)
  }

  /** rainbow.colorAt(n): the colour of the rainbow at position n. */
  function ColorAt(env: Env, n: int): Color {
    env.colorAt(n)
  }

  /** Angle delta between a branch and each of its children. */
  const Da: real := 0.5
  /** Length factor from a branch to its children. */
  const Dl: real := 0.8
  /** Width of the interval of random angle noise. */
  const Ar: real := 0.7

  const InitialMaxDepth: int := 10
  const InitialColor: Color := "#8e3496"

  /** The root record every generation starts from. */
  const Seed: Branch := Branch(0, 420.0, 600.0, 0.0, 130.0, 0, None, InitialColor)

  /**
   * Where branch `b` ends: `l` away from its origin in direction `a`. The sine
   * and cosine that locate it are not modelled; only the dependence on the
   * origin, angle and length is.
   */
  function EndPt(b: Branch, env: Env): Point {
    env.endPt(b.x, b.y, b.a, b.l)
  }

  /** The random offset `ar * r - ar * 0.5` a child adds to its angle, for a draw `r`. */
  function Noise(r: real): (n: real)
    ensures 0.0 <= r < 1.0 ==> -Ar / 2.0 <= n < Ar / 2.0
  {
    Ar * r - Ar * 0.5
  }

  function Pow2(n: nat): (p: nat)
    ensures p >= 1
  {
    if n == 0 then 1 else 2 * Pow2(n - 1)
  }

  /**
   * The invariants a branch list must keep for the parent walk to be safe: every
   * record's index is its position, the first record is a root at depth 0, and
   * every other record points to an earlier record one level up.
   */
  ghost predicate WellFormed(bs: seq<Branch>) {
    && (forall j :: 0 <= j < |bs| ==>
         && bs[j].i == j
         && (bs[j].parent.None? <==> j == 0)
         && (j == 0 ==> bs[j].d == 0)
         && (bs[j].parent.Some? ==> bs[j].parent.value < j))
    && (forall j, q :: 0 <= q < j < |bs| && bs[j].parent == Some(q) ==> bs[j].d == bs[q].d + 1)
  }
}
