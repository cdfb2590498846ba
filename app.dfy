/**
 * The state of one page of the tree application and what it does with it: the
 * branch list, the depth limit and colour settings, the stream of random draws
 * consumed so far and the SVG surface; regenerating the tree (the recursive
 * branch generator followed by a first paint or a redraw) and the walk that
 * highlights a branch's ancestors while the mouse is over it.
 */
module App {
  import opened Wrappers
  import opened TreeData
  import opened Generator
  import opened Render

  /** Math.round: the nearest integer, halves rounded up. */
  function Round(x: real): (n: int)
    ensures n as real - 0.5 <= x < n as real + 0.5
  {
    (x + 0.5).Floor
  }

  /** The rainbow position picked for a draw `r`: Math.round(r * 100) + 1. */
  function RainbowIndex(r: real): (n: int)
    ensures 0.0 <= r < 1.0 ==> 1 <= n <= 101
  {
    Round(r * 100.0) + 1
  }

  /** The stroke style the ancestors of a hovered branch get. */
  const Highlight: Color := "green"

  /** The records of `bs` met by following parent links from record k up to the root, k first. */
  function Ancestors(bs: seq<Branch>, k: nat): (r: seq<nat>)
    requires WellFormed(bs) && k < |bs|
    ensures 1 <= |r| && r[0] == k
    decreases k
  {
    if bs[k].parent.None? then [k] else [k] + Ancestors(bs, bs[k].parent.value)
  }

  /**
   * The walk from record k visits d_k + 1 records: it starts at k, each next one
   * is the parent of the one before and sits one level higher at a smaller
   * index, and it ends at the root, record 0.
   */
  lemma {:induction false} AncestorWalk(bs: seq<Branch>, k: nat)
    requires WellFormed(bs) && k < |bs|
    ensures var r := Ancestors(bs, k);
      && |r| == bs[k].d + 1
      && r[|r| - 1] == 0
      && (forall i :: 0 <= i < |r| ==> r[i] < |bs| && bs[r[i]].d == bs[k].d - i)
      && (forall i :: 0 < i < |r| ==> bs[r[i - 1]].parent == Some(r[i]) && r[i] < r[i - 1])
    decreases k
  {
    if bs[k].parent.Some? {
      var p := bs[k].parent.value;
      var r, t := Ancestors(bs, k), Ancestors(bs, p);
      AncestorWalk(bs, p);
      assert r == [k] + t && bs[k].d == bs[p].d + 1;
      forall i | 0 < i < |r|
        ensures r[i] == t[i - 1]
      {
      }
    }
  }

  /** The walk never visits a record twice: its indices strictly decrease. */
  lemma AncestorsDecrease(bs: seq<Branch>, k: nat, i: nat, j: nat)
    requires WellFormed(bs) && k < |bs| && i < j < |Ancestors(bs, k)|
    ensures Ancestors(bs, k)[j] < Ancestors(bs, k)[i]
    decreases j - i
  {
    AncestorWalk(bs, k);
    if i + 1 < j {
      AncestorsDecrease(bs, k, i + 1, j);
    }
  }

  /**
   * `lines` after setting, one visited position after another, the inline
   * stroke style of the line at that position to `style`.
   */
  function Restroked(lines: seq<Line>, visited: seq<nat>, style: Option<Color>): (r: seq<Line>)
    ensures |r| == |lines|
    decreases |visited|
  {
    if visited == [] then lines
    else
      var rest := Restroked(lines, visited[..|visited| - 1], style);
      var x := visited[|visited| - 1];
      if x < |rest| then rest[x := rest[x].(style := style)] else rest
  }

  /**
   * Restyling changes only the inline style, and exactly of the lines whose
   * positions were visited: they get `style`, the others keep theirs.
   */
  lemma {:induction false} RestrokedAt(lines: seq<Line>, visited: seq<nat>, style: Option<Color>, p: nat)
    requires p < |lines|
    ensures Restroked(lines, visited, style)[p] == lines[p].(style := if p in visited then style else lines[p].style)
    decreases |visited|
  {
    if visited != [] {
      var init := visited[..|visited| - 1];
      RestrokedAt(lines, init, style, p);
      assert visited == init + [visited[|visited| - 1]];
      assert (p in visited) == (p in init || p == visited[|visited| - 1]);
    }
  }

  /**
   * One step of the walk from record k: when `visited` followed by the walk
   * from record x is the walk from k, then `visited` and x followed by the walk
   * from x's parent is too, and at the root the walk from k is complete.
   */
  lemma WalkStep(bs: seq<Branch>, k: nat, visited: seq<nat>, x: nat)
    requires WellFormed(bs) && x < |bs| && k < |bs|
    requires visited + Ancestors(bs, x) == Ancestors(bs, k)
    ensures bs[x].parent.Some? <==> bs[x].d > 0
    ensures bs[x].parent.Some? ==>
      && bs[x].parent.value < |bs| && bs[bs[x].parent.value].d + 1 == bs[x].d
      && (visited + [x]) + Ancestors(bs, bs[x].parent.value) == Ancestors(bs, k)
    ensures bs[x].parent.None? ==> visited + [x] == Ancestors(bs, k)
  {
    if bs[x].parent.Some? {
      var q := bs[x].parent.value;
      assert bs[x].d == bs[q].d + 1;
      assert visited + Ancestors(bs, x) == (visited + [x]) + Ancestors(bs, q);
    }
  }

  /**
   * Styling the line with id 'id-x' in lines labelled by a well formed branch
   * list styles line x, so the walk's restyled lines grow by x.
   */
  lemma HighlightStep(lines0: seq<Line>, bs: seq<Branch>, visited: seq<nat>, x: nat, style: Option<Color>)
    requires Labelled(lines0, bs) && WellFormed(bs) && x < |bs|
    ensures var lines := Restroked(lines0, visited, style);
      && x < |lines| && FirstWithId(lines, ElementId(x)) == Some(x)
      && Restroked(lines0, visited + [x], style) == lines[x := lines[x].(style := style)]
  {
    LabelledRestroked(lines0, bs, visited, style);
    LabelledLookup(Restroked(lines0, visited, style), bs, x);
    assert (visited + [x])[..|visited|] == visited;
  }

  /**
   * Moving the mouse out of a branch undoes moving it in: the visited lines lose
   * their highlight, so when no line had an inline style before, none has one after.
   */
  lemma HoverRoundTrip(lines: seq<Line>, visited: seq<nat>)
    requires forall p :: 0 <= p < |lines| ==> lines[p].style == None
    ensures Restroked(Restroked(lines, visited, Some(Highlight)), visited, None) == lines
  {
    var lit := Restroked(lines, visited, Some(Highlight));
    var r := Restroked(lit, visited, None);
    forall p | 0 <= p < |r|
      ensures r[p] == lines[p]
    {
      RestrokedAt(lines, visited, Some(Highlight), p);
      RestrokedAt(lit, visited, None, p);
    }
  }

  /**
   * What the lines show after the handler: a visited line shows green on
   * mouseover and its own stroke colour again on mouseout; every other line
   * shows what it showed before.
   */
  lemma HoverShown(lines: seq<Line>, visited: seq<nat>, over: bool, p: nat)
    requires p < |lines|
    ensures var r := Restroked(lines, visited, if over then Some(Highlight) else None);
      && (p in visited ==> Shown(r[p]) == if over then Highlight else lines[p].stroke)
      && (p !in visited ==> Shown(r[p]) == Shown(lines[p]))
  {
    RestrokedAt(lines, visited, if over then Some(Highlight) else None, p);
  }

  /** Styling lines leaves their ids alone. */
  lemma LabelledRestroked(lines: seq<Line>, bs: seq<Branch>, visited: seq<nat>, style: Option<Color>)
    requires Labelled(lines, bs)
    ensures Labelled(Restroked(lines, visited, style), bs)
  {
    forall p | 0 <= p < |lines| {
      RestrokedAt(lines, visited, style, p);
    }
  }

  /** Concatenation regrouped. */
  lemma Concat<T>(a: seq<T>, b: seq<T>, c: seq<T>, d: seq<T>)
    ensures a + b + c + d == a + (b + c + d)
  {
  }

  /**
   * The records pushed by growing b: b itself, then everything grown from its
   * left child, then everything grown from its right child.
   */
  lemma GrownList(before: seq<Branch>, b: Branch, left: Branch, right: Branch, k: nat, maxDepth: int, color: Color, env: Env)
    requires b.d < maxDepth
    requires left.(c := color) == Left(b, k, color, env)
    requires right.(c := color) == Right(b, k, SubtreeSize(b.d + 1, maxDepth), color, env)
    ensures var s := SubtreeSize(b.d + 1, maxDepth);
      before + [b] + Gen(left.(c := color), k + 1, maxDepth, color, env)
        + Gen(right.(c := color), k + 1 + s, maxDepth, color, env)
      == before + Gen(b, k, maxDepth, color, env)
  {
    var s := SubtreeSize(b.d + 1, maxDepth);
    GenSplit(b, k, maxDepth, color, env);
    Concat(before, [b], Gen(Left(b, k, color, env), k + 1, maxDepth, color, env), Gen(Right(b, k, s, color, env), k + 1 + s, maxDepth, color, env));
  }

  /** The left child the loop body builds is the generator's left child. */
  lemma BuiltLeft(b: Branch, k: nat, color: Color, env: Env, r: real)
    requires r == Draw(env, k)
    ensures var end := EndPt(b, env);
      var left := Branch(b.i + 1, end.x, end.y, b.a - Da + Noise(r), b.l * Dl, b.d + 1, Some(b.i), color);
      left == Left(b, k, color, env) == left.(c := color)
  {
  }

  /** The right child the loop body builds is the generator's right child. */
  lemma BuiltRight(b: Branch, k: nat, s: nat, color: Color, env: Env, r: real)
    requires r == Draw(env, k + s)
    ensures var end := EndPt(b, env);
      var right := Branch(b.i + 1 + s, end.x, end.y, b.a + Da + Noise(r), b.l * Dl, b.d + 1, Some(b.i), color);
      right == Right(b, k, s, color, env) == right.(c := color)
  {
  }

  /** One page of the application. */
  class Session {
    /** The branch records, in the order the generator pushed them. */
    var branches: seq<Branch>
    var maxDepth: int
    var currentColor: Color
    var useRainbow: bool
    /** How many Math.random() draws have been made so far. */
    var drawn: nat
    /** What the page takes from the browser and libraries. */
    const env: Env
    /** The SVG element the tree is drawn in. */
    const surface: Surface

    /** The surface's lines are distinct elements, each with both handlers. */
    ghost predicate Valid()
      reads this, surface
    {
      surface.Valid()
    }

    /** A page before its first paint, with the initial depth limit and colour. */
    constructor (env: Env)
      ensures Valid()
      ensures branches == [] && maxDepth == InitialMaxDepth && currentColor == InitialColor
      ensures !useRainbow && drawn == 0 && this.env == env
      ensures fresh(surface) && surface.lines == []
    {
      branches := [];
      maxDepth := InitialMaxDepth;
      currentColor := InitialColor;
      useRainbow := false;
      drawn := 0;
      this.env := env;
      surface := new Surface();
    }

    /** Math.random(): the next draw of the stream. */
    method Random() returns (r: real)
      modifies `drawn
      ensures r == Draw(env, old(drawn)) && drawn == old(drawn) + 1
    {
      r := Draw(env, drawn);
      drawn := drawn + 1;
    }

    /** randomColor: '#' followed by the rainbow colour at the position one draw picks, in [1, 101]. */
    method RandomColor() returns (c: Color)
      modifies `drawn
      ensures drawn == old(drawn) + 1
      ensures c == "#" + ColorAt(env, RainbowIndex(Draw(env, old(drawn))))
    {
      var r := Random();
      c := "#" + ColorAt(env, Round(r * 100.0) + 1);
    }

    /**
     * branch: pushes `b` in the current colour and, above the depth limit, builds
     * its left child from the next draw and grows it, then builds the right child
     * from the draw after that and grows it. The records pushed are the
     * generator's pre-order list for `b`, and one draw is used per record below `b`.
     */
    method Grow(b: Branch)
      requires b.i == |branches| && b.d <= maxDepth
      modifies `branches, `drawn
      ensures branches == old(branches) + Gen(b.(c := currentColor), old(drawn), maxDepth, currentColor, env)
      ensures drawn + 1 == old(drawn) + SubtreeSize(b.d, maxDepth)
      decreases maxDepth - b.d
    {
      ghost var k, before := drawn, branches;
      var end := EndPt(b, env);
      var b' := b.(c := currentColor);
      branches := branches + [b'];
      if b'.d == maxDepth {
        GenSplit(b', k, maxDepth, currentColor, env);
        return;
      }
      GenHalves(b', maxDepth);
      ghost var s := SubtreeSize(b'.d + 1, maxDepth);
      var daR := Random();
      var left := Branch(|branches|, end.x, end.y, b'.a - Da + Noise(daR), b'.l * Dl, b'.d + 1, Some(b'.i), currentColor);
      BuiltLeft(b', k, currentColor, env, daR);
      Grow(left);
      assert drawn == k + s;
      daR := Random();
      var right := Branch(|branches|, end.x, end.y, b'.a + Da + Noise(daR), b'.l * Dl, b'.d + 1, Some(b'.i), currentColor);
      BuiltRight(b', k, s, currentColor, env, daR);
      Grow(right);
      GrownList(before, b', left, right, k, maxDepth, currentColor, env);
    }

    /**
     * regenerate: re-picks the colour from the rainbow when that option is on,
     * empties the branch list and grows it from the seed, then paints the lines
     * (`initialise`) or redraws them. The new list is the generator's list for
     * the colour in effect, a well formed full binary tree in that one colour,
     * and growing it uses one draw per record below the seed. A first paint
     * keeps the lines already there and appends the missing ones; a redraw keeps
     * the lines at shared positions and restyles them. After a redraw, or a
     * first paint on an empty surface, the lines match the new list.
     */
    method Regenerate(initialise: bool)
      requires Valid() && maxDepth >= 0
      modifies this, surface
      ensures Valid()
      ensures maxDepth == old(maxDepth) && useRainbow == old(useRainbow)
      ensures currentColor == if useRainbow then "#" + ColorAt(env, RainbowIndex(Draw(env, old(drawn)))) else old(currentColor)
      ensures branches == Generate(maxDepth, currentColor, old(drawn) + if useRainbow then 1 else 0, env)
      ensures drawn == old(drawn) + (if useRainbow then 1 else 0) + Pow2(maxDepth + 1) - 2
      ensures initialise ==> Appended(old(surface.lines), surface.lines, old(surface.nextNode), branches, maxDepth, env)
      ensures !initialise ==> Redrawn(old(surface.lines), surface.lines, old(surface.nextNode), branches, maxDepth, env)
      ensures !initialise || old(surface.lines) == [] ==> Reconciled(surface.lines, branches, maxDepth, env)
    {
      if useRainbow {
        currentColor := RandomColor();
      }
      Rebuild();
      Paint(initialise);
    }

    /**
     * The middle of regenerate: empties the branch list and grows it from the
     * seed, which uses one draw per record below the seed.
     */
    method Rebuild()
      requires maxDepth >= 0
      modifies `branches, `drawn
      ensures branches == Generate(maxDepth, currentColor, old(drawn), env)
      ensures drawn == old(drawn) + Pow2(maxDepth + 1) - 2
    {
      ghost var k := drawn;
      branches := [];
      Grow(Seed);
      assert branches == Generate(maxDepth, currentColor, k, env);
    }

    /**
     * The last step of regenerate: a first paint (`initialise`) or a redraw of
     * the branch list, with what each keeps of the lines already there. After a
     * redraw, or a first paint on an empty surface, the lines match the list.
     */
    method Paint(initialise: bool)
      requires Valid()
      modifies surface
      ensures Valid()
      ensures initialise ==> Appended(old(surface.lines), surface.lines, old(surface.nextNode), branches, maxDepth, env)
      ensures !initialise ==> Redrawn(old(surface.lines), surface.lines, old(surface.nextNode), branches, maxDepth, env)
      ensures !initialise || old(surface.lines) == [] ==> Reconciled(surface.lines, branches, maxDepth, env)
    {
      if initialise {
        surface.Create(branches, maxDepth, env);
      } else {
        surface.Update(branches, maxDepth, env);
      }
    }

    /**
     * The mouseover (`over`) and mouseout handler of line k: walking from branch
     * k through its ancestors, d_k + 1 steps, it sets the stroke style of the
     * line with each visited branch's id to green, or clears it on mouseout so
     * the line's own stroke shows again. Only the visited lines change, so the
     * surface stays valid and its lines keep the branch ids for the next event.
     */
    method HighlightParents(k: nat, over: bool) returns (visited: seq<nat>)
      requires Valid() && WellFormed(branches) && k < |branches| && Labelled(surface.lines, branches)
      modifies surface
      ensures Valid() && Labelled(surface.lines, branches)
      ensures visited == Ancestors(branches, k)
      ensures surface.lines == Restroked(old(surface.lines), visited, if over then Some(Highlight) else None)
      ensures surface.nextNode == old(surface.nextNode)
    {
      var style := if over then Some(Highlight) else None;
      var bs := branches;
      ghost var lines0 := surface.lines;
      var d := bs[k];
      var depth := d.d;
      var i: nat := 0;
      visited := [];
      while i <= depth
        invariant i <= depth ==> d.i < |bs| && d == bs[d.i] && i + d.d == depth
        invariant i <= depth ==> visited + Ancestors(bs, d.i) == Ancestors(bs, k)
        invariant i > depth ==> visited == Ancestors(bs, k)
        invariant surface.lines == Restroked(lines0, visited, style)
        invariant surface.nextNode == old(surface.nextNode)
      {
        WalkStep(bs, k, visited, d.i);
        DecimalRoundTrip(d.i);
        var id := "id-" + Decimal(ParseDecimal(Decimal(d.i)));
        HighlightStep(lines0, bs, visited, d.i, style);
        surface.StyleFirst(id, style);
        visited := visited + [d.i];
        if d.parent.Some? {
          d := bs[d.parent.value];
        }
        i := i + 1;
      }
      forall p | 0 <= p < |lines0| {
        RestrokedAt(lines0, visited, style, p);
      }
      LabelledRestroked(lines0, bs, visited, style);
    }
  }
}
