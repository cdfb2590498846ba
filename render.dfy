/**
 * The SVG side of the tree: the `line` element drawn for each branch record and
 * the two ways the code brings the drawn set in line with the branch list, a
 * first paint (`create`) and a data join with enter, exit and update phases
 * (`update`). Only the resulting element records are modelled: selections,
 * attribute setters and the animation of a transition are not.
 */
module Render {
  import opened Wrappers
  import opened TreeData
  import opened Generator

  /** The character of a decimal digit. */
  function Digit(n: nat): (c: char)
    requires n < 10
    ensures '0' <= c <= '9' && c as int - '0' as int == n
  {
    (n + '0' as int) as char
  }

  /** The decimal digits JavaScript writes for a non-negative integer. */
  function Decimal(n: nat): (s: string)
    ensures 1 <= |s| && forall k :: 0 <= k < |s| ==> '0' <= s[k] <= '9'
    ensures (|s| == 1) == (n < 10)
  {
    if n < 10 then [Digit(n)] else Decimal(n / 10) + [Digit(n % 10)]
  }

  /** The value of a string of decimal digits, as parseInt reads it. */
  function ParseDecimal(s: string): nat
    requires forall k :: 0 <= k < |s| ==> '0' <= s[k] <= '9'
  {
    if s == [] then 0 else 10 * ParseDecimal(s[..|s| - 1]) + (s[|s| - 1] as int - '0' as int)
  }

  /** parseInt reads back the number that was written in decimal. */
  lemma {:induction false} DecimalRoundTrip(n: nat)
    ensures ParseDecimal(Decimal(n)) == n
  {
    var s := Decimal(n);
    if n >= 10 {
      DecimalRoundTrip(n / 10);
      assert s[..|s| - 1] == Decimal(n / 10);
    }
  }

  /** Different numbers are written differently. */
  lemma DecimalInjective(a: nat, b: nat)
    requires Decimal(a) == Decimal(b)
    ensures a == b
  {
    DecimalRoundTrip(a);
    DecimalRoundTrip(b);
  }

  /** The element id of the line drawn for branch `i`: "id-" followed by i in decimal. */
  function ElementId(i: nat): string {
    "id-" + Decimal(i)
  }

  /** Two branches get the same element id only when they have the same index. */
  lemma ElementIdInjective(a: nat, b: nat)
    ensures ElementId(a) == ElementId(b) <==> a == b
  {
    if ElementId(a) == ElementId(b) {
      assert Decimal(a) == ElementId(a)[3..];
      assert Decimal(b) == ElementId(b)[3..];
      DecimalInjective(a, b);
    }
  }

  /** The stroke width in pixels of a branch at depth `d`: the trunk is widest, the deepest twigs are 1px. */
  function StrokeWidth(maxDepth: int, d: nat): (w: int)
    ensures d <= maxDepth ==> 1 <= w <= maxDepth + 1
    ensures d == 0 ==> w == maxDepth + 1
    ensures d == maxDepth ==> w == 1
  {
    maxDepth + 1 - d
  }

  /** The endpoints of a line: the branch's origin and its end point. */
  datatype Segment = Segment(x1: real, y1: real, x2: real, y2: real)

  function SegmentOf(b: Branch, env: Env): Segment {
    var end := EndPt(b, env);
    Segment(b.x, b.y, end.x, end.y)
  }

  /**
   * One `line` element of the SVG. `node` tells elements apart (a line that is
   * kept keeps its node, a new line gets a new one); `id`, `stroke`, `width` and
   * `segment` are its attributes (None while unset); `style` is an inline
   * stroke style that overrides `stroke` while set; `hover` says whether the
   * mouseover and mouseout handlers are attached.
   */
  datatype Line = Line(
    node: nat,
    id: Option<string>,
    stroke: Color,
    width: Option<int>,
    segment: Option<Segment>,
    style: Option<Color>,
    hover: bool)

  /** The colour a line shows: its inline style if set, else its stroke attribute. */
  function Shown(line: Line): Color {
    if line.style.Some? then line.style.value else line.stroke
  }

  /** Whether `line` displays branch `b`: every attribute set from it, handlers attached. */
  ghost predicate Shows(line: Line, b: Branch, maxDepth: int, env: Env) {
    && line.id == Some(ElementId(b.i))
    && line.stroke == b.c
    && line.width == Some(StrokeWidth(maxDepth, b.d))
    && line.segment == Some(SegmentOf(b, env))
    && line.hover
  }

  /** The drawn set matches the branch list: one line per branch, in order. */
  ghost predicate Reconciled(lines: seq<Line>, bs: seq<Branch>, maxDepth: int, env: Env) {
    |lines| == |bs| && forall p :: 0 <= p < |lines| ==> Shows(lines[p], bs[p], maxDepth, env)
  }

  /** Line p carries the id of branch p's record, as it does once the set is reconciled. */
  ghost predicate Labelled(lines: seq<Line>, bs: seq<Branch>) {
    |lines| == |bs| && forall p :: 0 <= p < |lines| ==> lines[p].id == Some(ElementId(bs[p].i))
  }

  /**
   * `after` is what the first paint makes of `before`: the lines already there
   * are kept as they are, and a fully drawn line made at or after node `next`
   * is appended for each branch beyond them.
   */
  ghost predicate Appended(before: seq<Line>, after: seq<Line>, next: nat, bs: seq<Branch>, maxDepth: int, env: Env) {
    && |after| == (if |bs| > |before| then |bs| else |before|)
    && after[..|before|] == before
    && forall p :: |before| <= p < |after| ==>
         after[p] == Drawn(after[p].node, bs[p], maxDepth, env) && after[p].node >= next
  }

  /**
   * `after` is what the differential redraw makes of `before`: one line per
   * branch showing it, the lines at shared positions kept (same element, same
   * inline style), and the others new elements made at or after node `next`
   * with no inline style.
   */
  ghost predicate Redrawn(before: seq<Line>, after: seq<Line>, next: nat, bs: seq<Branch>, maxDepth: int, env: Env) {
    && Reconciled(after, bs, maxDepth, env)
    && (forall p :: 0 <= p < |after| && p < |before| ==>
          after[p].node == before[p].node && after[p].style == before[p].style)
    && (forall p :: |before| <= p < |after| ==> next <= after[p].node && after[p].style == None)
  }

  /** A line appended by the first paint, with every attribute and both handlers. */
  function Drawn(node: nat, b: Branch, maxDepth: int, env: Env): Line {
    Line(node, Some(ElementId(b.i)), b.c, Some(StrokeWidth(maxDepth, b.d)), Some(SegmentOf(b, env)), None, true)
  }

  /** A line appended in the enter phase of an update: only its stroke and handlers are set. */
  function Entered(node: nat, b: Branch): Line {
    Line(node, None, b.c, None, None, None, true)
  }

  /** A kept line after the update phase's transition has set its attributes from `b`. */
  function Restyled(line: Line, b: Branch, maxDepth: int, env: Env): Line {
    line.(id := Some(ElementId(b.i)), stroke := b.c, width := Some(StrokeWidth(maxDepth, b.d)), segment := Some(SegmentOf(b, env)))
  }

  /**
   * The two ways a line is made agree: a line appended in the enter phase of an
   * update, once the update phase has set its attributes, is the line the
   * first paint draws for the same branch.
   */
  lemma EnteredRestyled(node: nat, b: Branch, maxDepth: int, env: Env)
    ensures Restyled(Entered(node, b), b, maxDepth, env) == Drawn(node, b, maxDepth, env)
    ensures Shows(Drawn(node, b, maxDepth, env), b, maxDepth, env)
  {
  }

  /**
   * The drawn tree is connected: the line of every regenerated branch but the
   * seed starts where the line of its parent ends.
   */
  lemma DrawnTreeConnected(maxDepth: int, color: Color, k: nat, env: Env, q: nat)
    requires maxDepth >= 0 && 0 < q < |Generate(maxDepth, color, k, env)|
    ensures var r := Generate(maxDepth, color, k, env);
      && r[q].parent.Some? && r[q].parent.value < q
      && SegmentOf(r[q], env).x1 == SegmentOf(r[r[q].parent.value], env).x2
      && SegmentOf(r[q], env).y1 == SegmentOf(r[r[q].parent.value], env).y2
  {
    var r := Generate(maxDepth, color, k, env);
    GenerateShape(maxDepth, color, k, env);
    var p := r[q].parent.value;
    GenerateChildren(maxDepth, color, k, env, p, q);
    ChildGeometry(maxDepth, color, k, env, p);
  }

  /** The position of the first line whose id attribute is `id`, as a document lookup by id finds it. */
  function FirstWithId(lines: seq<Line>, id: string): (r: Option<nat>)
    ensures r.Some? ==>
      && r.value < |lines| && lines[r.value].id == Some(id)
      && forall p :: 0 <= p < r.value ==> lines[p].id != Some(id)
    ensures r.None? ==> forall p :: 0 <= p < |lines| ==> lines[p].id != Some(id)
  {
    FirstWithIdFrom(lines, id, 0)
  }

  /** The position of the first line at or after `from` whose id attribute is `id`. */
  function FirstWithIdFrom(lines: seq<Line>, id: string, from: nat): (r: Option<nat>)
    requires from <= |lines|
    ensures r.Some? ==>
      && from <= r.value < |lines| && lines[r.value].id == Some(id)
      && forall p :: from <= p < r.value ==> lines[p].id != Some(id)
    ensures r.None? ==> forall p :: from <= p < |lines| ==> lines[p].id != Some(id)
    decreases |lines| - from
  {
    if from == |lines| then None
    else if lines[from].id == Some(id) then Some(from)
    else FirstWithIdFrom(lines, id, from + 1)
  }

  /** The `svg` element: the lines it holds, in document order, and a supply of fresh nodes. */
  class Surface {
    var lines: seq<Line>
    var nextNode: nat

    /** Every line is a different element, made before `nextNode`, with both hover handlers attached. */
    ghost predicate Valid()
      reads this
    {
      && (forall p :: 0 <= p < |lines| ==> lines[p].node < nextNode && lines[p].hover)
      && (forall p, q :: 0 <= p < q < |lines| ==> lines[p].node != lines[q].node)
    }

    /** An empty `svg` element. */
    constructor ()
      ensures lines == [] && Valid()
    {
      lines := [];
      nextNode := 0;
    }

    /**
     * The first paint: the lines already there keep their data, and one fully
     * drawn line with both handlers is appended for each branch beyond them.
     * On an empty surface the result is one line per branch.
     */
    method Create(bs: seq<Branch>, maxDepth: int, env: Env)
      requires Valid()
      modifies this
      ensures Valid()
      ensures |lines| == if |bs| > |old(lines)| then |bs| else |old(lines)|
      ensures lines[..|old(lines)|] == old(lines)
      ensures forall p :: |old(lines)| <= p < |lines| ==>
        lines[p] == Drawn(lines[p].node, bs[p], maxDepth, env) && lines[p].node >= old(nextNode)
      ensures old(lines) == [] ==> Reconciled(lines, bs, maxDepth, env)
    {
      var p := |lines|;
      while p < |bs|
        invariant |old(lines)| <= |lines| && (p == |lines| || (p < |lines| && |bs| <= p))
        invariant |lines| == if p > |old(lines)| then p else |old(lines)|
        invariant |old(lines)| < |lines| ==> |lines| <= |bs|
        invariant lines[..|old(lines)|] == old(lines)
        invariant forall q :: |old(lines)| <= q < |lines| ==>
          lines[q] == Drawn(lines[q].node, bs[q], maxDepth, env) && old(nextNode) <= lines[q].node
        invariant old(nextNode) <= nextNode
        invariant Valid()
      {
        lines := lines + [Drawn(nextNode, bs[p], maxDepth, env)];
        nextNode := nextNode + 1;
        p := p + 1;
      }
    }

    /**
     * The differential redraw. Enter: a line with a stroke and both handlers is
     * appended for each new position. Exit: lines past the end of the branch list
     * are removed. Update: every remaining line gets its endpoints, stroke, width
     * and id from the branch at its position. Lines at positions shared with the
     * old set are kept (same node, same inline style), new ones are fresh.
     */
    method Update(bs: seq<Branch>, maxDepth: int, env: Env)
      requires Valid()
      modifies this
      ensures Valid()
      ensures Reconciled(lines, bs, maxDepth, env)
      ensures forall p :: 0 <= p < |lines| && p < |old(lines)| ==>
        lines[p].node == old(lines[p].node) && lines[p].style == old(lines[p].style)
      ensures forall p :: |old(lines)| <= p < |lines| ==> old(nextNode) <= lines[p].node && lines[p].style == None
    {
      // Enter.
      var p := |lines|;
      while p < |bs|
        invariant p == |lines| || (p < |lines| && |bs| <= p)
        invariant |old(lines)| <= |lines| && lines[..|old(lines)|] == old(lines)
        invariant |lines| == if p > |old(lines)| then p else |old(lines)|
        invariant |old(lines)| < |lines| ==> |lines| <= |bs|
        invariant forall q :: |old(lines)| <= q < |lines| ==>
          lines[q] == Entered(lines[q].node, bs[q]) && old(nextNode) <= lines[q].node
        invariant old(nextNode) <= nextNode
        invariant Valid()
      {
        lines := lines + [Entered(nextNode, bs[p])];
        nextNode := nextNode + 1;
        p := p + 1;
      }
      // Exit.
      if |lines| > |bs| {
        lines := lines[..|bs|];
      }
      // Update.
      ghost var entered := lines;
      var q := 0;
      while q < |lines|
        invariant q <= |lines| == |bs| == |entered|
        invariant forall r :: 0 <= r < q ==> lines[r] == Restyled(entered[r], bs[r], maxDepth, env)
        invariant forall r :: q <= r < |lines| ==> lines[r] == entered[r]
        invariant Valid()
      {
        lines := lines[q := Restyled(lines[q], bs[q], maxDepth, env)];
        q := q + 1;
      }
    }

    /** Sets the inline stroke style of the first line whose id is `id`, if there is one. */
    method StyleFirst(id: string, style: Option<Color>)
      modifies this
      ensures old(Valid()) ==> Valid()
      ensures nextNode == old(nextNode)
      ensures lines == match FirstWithId(old(lines), id)
        case Some(p) => old(lines)[p := old(lines)[p].(style := style)]
        case None => old(lines)
    {
      var p := 0;
      while p < |lines| && lines[p].id != Some(id)
        invariant p <= |lines|
        invariant forall q :: 0 <= q < p ==> lines[q].id != Some(id)
      {
        p := p + 1;
      }
      if p < |lines| {
        lines := lines[p := lines[p].(style := style)];
      }
    }
  }

  /**
   * When the lines carry the ids of a well formed branch list, line p carries
   * the id "id-q" exactly when p is q: element ids are unique.
   */
  lemma LabelledIds(lines: seq<Line>, bs: seq<Branch>, p: nat, q: nat)
    requires Labelled(lines, bs) && WellFormed(bs) && p < |lines|
    ensures lines[p].id == Some(ElementId(q)) <==> p == q
  {
    ElementIdInjective(p, q);
  }

  /** ... so looking up "id-q" finds the line for branch q. */
  lemma LabelledLookup(lines: seq<Line>, bs: seq<Branch>, q: nat)
    requires Labelled(lines, bs) && WellFormed(bs) && q < |bs|
    ensures FirstWithId(lines, ElementId(q)) == Some(q)
  {
    forall p | 0 <= p < q
      ensures lines[p].id != Some(ElementId(q))
    {
      LabelledIds(lines, bs, p, q);
    }
    LabelledIds(lines, bs, q, q);
  }

  /** A reconciled set is labelled, and its widths lie in [1, maxDepth + 1] when no branch is deeper than maxDepth. */
  lemma ReconciledLabelled(lines: seq<Line>, bs: seq<Branch>, maxDepth: int, env: Env)
    requires Reconciled(lines, bs, maxDepth, env)
    ensures Labelled(lines, bs)
    ensures (forall p :: 0 <= p < |bs| ==> bs[p].d <= maxDepth) ==>
      forall p :: 0 <= p < |lines| ==> lines[p].width.Some? && 1 <= lines[p].width.value <= maxDepth + 1
  {
  }
}
