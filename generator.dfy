/**
 * The pure specification of the recursive branch generator: which records it
 * pushes, in which order, and the shape of the resulting tree.
 */
module Generator {
  import opened Wrappers
  import opened TreeData

  /** A child of `b` with index `i` and angle `angle`: it starts where `b` ends and is `Dl` times as long. */
  function Child(b: Branch, i: nat, angle: real, color: Color, env: Env): Branch {
    var end := EndPt(b, env);
    Branch(i, end.x, end.y, angle, b.l * Dl, b.d + 1, Some(b.i), color)
  }

  /** The left child of `b`, built right after `b` is pushed, from draw `k`. */
  function Left(b: Branch, k: nat, color: Color, env: Env): Branch {
    Child(b, b.i + 1, b.a - Da + Noise(Draw(env, k)), color, env)
  }

  /** The right child of `b`, built after the `s` records and `s` draws of the left subtree. */
  function Right(b: Branch, k: nat, s: nat, color: Color, env: Env): Branch {
    Child(b, b.i + 1 + s, b.a + Da + Noise(Draw(env, k + s)), color, env)
  }

  /** How many records the generator pushes for a branch at depth `d`: a full binary tree down to maxDepth. */
  function SubtreeSize(d: nat, maxDepth: int): nat
    requires d <= maxDepth
  {
    Pow2(maxDepth - d + 1) - 1
  }

  /**
   * `s` is the record count of one subtree of a full binary tree: 2^h - 1 for
   * some height h, so halving it (rounding down) gives the next level's count.
   */
  ghost predicate Full(s: nat)
    decreases s
  {
    s == 0 || (s % 2 == 1 && Full(s / 2))
  }

  /** The height h with s == 2^h - 1. */
  function Height(s: nat): nat
    decreases s
  {
    if s == 0 then 0 else 1 + Height(s / 2)
  }

  /** The subtrees below depth d hold 2^(maxDepth - d) - 1 records each. */
  lemma {:induction false} FullPow(h: nat)
    ensures Full(Pow2(h) - 1) && Height(Pow2(h) - 1) == h
  {
    if h > 0 {
      FullPow(h - 1);
      assert (Pow2(h) - 1) / 2 == Pow2(h - 1) - 1;
    }
  }

  /** Conversely, a full count is one less than a power of two. */
  lemma {:induction false} FullSize(s: nat)
    requires Full(s)
    ensures Pow2(Height(s)) == s + 1
    decreases s
  {
    if s > 0 {
      FullSize(s / 2);
    }
  }

  /** One level down a full tree: the count halves to the next full count, one less high. */
  lemma FullHalf(s: nat)
    requires Full(s) && s > 0
    ensures Full(s / 2) && 2 * (s / 2) + 1 == s && Height(s / 2) + 1 == Height(s)
  {
  }

  /**
   * Record `j` of what the generator pushes for `b`, when `k` random draws have
   * been made before and each of b's two subtrees holds `s` records (0 at the
   * depth limit). Record 0 is `b`; records 1..s are the left subtree and the s
   * records after them the right subtree. Every child is created in `color`.
   */
  function GenAt(b: Branch, s: nat, k: nat, color: Color, env: Env, j: nat): Branch
    decreases s
  {
    if j == 0 || s == 0 then b
    else if j <= s then GenAt(Left(b, k, color, env), s / 2, k + 1, color, env, j - 1)
    else GenAt(Right(b, k, s, color, env), s / 2, k + 1 + s, color, env, j - 1 - s)
  }

  /**
   * The subtree size that GenAt reaches at record `j`: record j's own subtrees
   * hold SubSize(s, j) records each, and its whole subtree lies inside the
   * generated range.
   */
  function SubSize(s: nat, j: nat): (u: nat)
    ensures Full(s) && j <= 2 * s ==> Full(u) && j + 2 * u <= 2 * s
    decreases s
  {
    if j == 0 || s == 0 then s
    else if j <= s then SubSize(s / 2, j - 1)
    else SubSize(s / 2, j - 1 - s)
  }

  /**
   * The whole sequence of records the generator pushes when called on `b` after
   * `k` draws, once `b` carries the current colour.
   */
  function Gen(b: Branch, k: nat, maxDepth: int, color: Color, env: Env): seq<Branch>
    requires b.d <= maxDepth
  {
    var s := Pow2(maxDepth - b.d) - 1;
    seq(SubtreeSize(b.d, maxDepth), j => GenAt(b, s, k, color, env, if j < 0 then 0 else j))
  }

  /** Record j of what the generator pushes for `b`. */
  lemma GenIndex(b: Branch, k: nat, maxDepth: int, color: Color, env: Env, j: nat)
    requires b.d <= maxDepth && j < SubtreeSize(b.d, maxDepth)
    ensures Gen(b, k, maxDepth, color, env)[j] == GenAt(b, Pow2(maxDepth - b.d) - 1, k, color, env, j)
  {
  }

  /** The branch list one regeneration builds from the seed, starting at draw `k`. */
  function Generate(maxDepth: int, color: Color, k: nat, env: Env): seq<Branch>
    requires maxDepth >= 0
  {
    Gen(Seed.(c := color), k, maxDepth, color, env)
  }

  /**
   * The generator's recursion, pre-order: it pushes `b` and stops at the depth
   * limit; otherwise it goes on with the whole left subtree (first draw) and then
   * the whole right subtree (the draw after the left subtree's, index right after
   * the left subtree's records).
   */
  lemma GenSplit(b: Branch, k: nat, maxDepth: int, color: Color, env: Env)
    requires b.d <= maxDepth
    ensures Gen(b, k, maxDepth, color, env) ==
      if b.d == maxDepth then [b]
      else
        var s := SubtreeSize(b.d + 1, maxDepth);
        [b]
          + Gen(Left(b, k, color, env), k + 1, maxDepth, color, env)
          + Gen(Right(b, k, s, color, env), k + 1 + s, maxDepth, color, env)
  {
    var r := Gen(b, k, maxDepth, color, env);
    if b.d == maxDepth {
      GenIndex(b, k, maxDepth, color, env, 0);
    } else {
      var s := SubtreeSize(b.d + 1, maxDepth);
      var ls := Gen(Left(b, k, color, env), k + 1, maxDepth, color, env);
      var rs := Gen(Right(b, k, s, color, env), k + 1 + s, maxDepth, color, env);
      var t := [b] + ls + rs;
      GenHalves(b, maxDepth);
      forall j | 0 <= j < |r| ensures r[j] == t[j] {
        if j == 0 {
          GenIndex(b, k, maxDepth, color, env, 0);
        } else if j <= s {
          GenSplitLeft(b, k, maxDepth, color, env, j);
          assert t[j] == ls[j - 1];
        } else {
          GenSplitRight(b, k, maxDepth, color, env, j);
          assert t[j] == rs[j - 1 - s];
        }
      }
    }
  }

  /** Below the depth limit, a subtree's records are the root and two subtrees one level down. */
  lemma GenHalves(b: Branch, maxDepth: int)
    requires b.d < maxDepth
    ensures var s := Pow2(maxDepth - b.d) - 1;
      && SubtreeSize(b.d, maxDepth) == 2 * s + 1
      && SubtreeSize(b.d + 1, maxDepth) == s
      && s / 2 == Pow2(maxDepth - b.d - 1) - 1
  {
    assert Pow2(maxDepth - b.d) == 2 * Pow2(maxDepth - b.d - 1);
  }

  /** GenSplit for a record in the left subtree. */
  lemma GenSplitLeft(b: Branch, k: nat, maxDepth: int, color: Color, env: Env, j: nat)
    requires b.d < maxDepth && 0 < j <= SubtreeSize(b.d + 1, maxDepth) && j < SubtreeSize(b.d, maxDepth)
    ensures Gen(b, k, maxDepth, color, env)[j] == Gen(Left(b, k, color, env), k + 1, maxDepth, color, env)[j - 1]
  {
    GenHalves(b, maxDepth);
    var left := Left(b, k, color, env);
    assert left.d == b.d + 1;
    GenAtLeft(b, SubtreeSize(b.d + 1, maxDepth), k, color, env, j);
  }

  /** GenSplit for a record in the right subtree. */
  lemma GenSplitRight(b: Branch, k: nat, maxDepth: int, color: Color, env: Env, j: nat)
    requires b.d < maxDepth && SubtreeSize(b.d + 1, maxDepth) < j < SubtreeSize(b.d, maxDepth)
    requires SubtreeSize(b.d, maxDepth) == 2 * SubtreeSize(b.d + 1, maxDepth) + 1
    ensures var s := SubtreeSize(b.d + 1, maxDepth);
      Gen(b, k, maxDepth, color, env)[j] == Gen(Right(b, k, s, color, env), k + 1 + s, maxDepth, color, env)[j - 1 - s]
  {
    GenHalves(b, maxDepth);
    var s := SubtreeSize(b.d + 1, maxDepth);
    var right := Right(b, k, s, color, env);
    assert right.d == b.d + 1;
    GenIndex(b, k, maxDepth, color, env, j);
    GenIndex(right, k + 1 + s, maxDepth, color, env, j - 1 - s);
    GenAtRight(b, s, k, color, env, j);
  }

  /** One step of GenAt into the left subtree. */
  lemma GenAtLeft(b: Branch, s: nat, k: nat, color: Color, env: Env, j: nat)
    requires 0 < j <= s
    ensures GenAt(b, s, k, color, env, j) == GenAt(Left(b, k, color, env), s / 2, k + 1, color, env, j - 1)
  {
  }

  /** One step of GenAt into the right subtree. */
  lemma GenAtRight(b: Branch, s: nat, k: nat, color: Color, env: Env, j: nat)
    requires 0 < s < j
    ensures GenAt(b, s, k, color, env, j) == GenAt(Right(b, k, s, color, env), s / 2, k + 1 + s, color, env, j - 1 - s)
  {
  }

  /**
   * Record `j` of a generated subtree: its index is its position, every record
   * but the root was created in the generation's colour, and (below the root)
   * its parent is an earlier record exactly one level up.
   */
  ghost predicate EntryFacts(b: Branch, s: nat, k: nat, color: Color, env: Env, j: nat) {
    var e := GenAt(b, s, k, color, env, j);
    && (j <= 2 * s ==> e.i == b.i + j)
    && (j > 0 && s > 0 ==> e.c == color)
    && (0 < j <= 2 * s ==>
          && e.parent.Some?
          && b.i <= e.parent.value < b.i + j
          && e.d == GenAt(b, s, k, color, env, e.parent.value - b.i).d + 1)
  }

  lemma {:induction false} GenEntry(b: Branch, s: nat, k: nat, color: Color, env: Env, j: nat)
    requires Full(s)
    ensures EntryFacts(b, s, k, color, env, j)
    decreases s, 1
  {
    if j > 0 && s > 0 {
      if j <= s {
        GenEntryLeft(b, s, k, color, env, j);
      } else {
        GenEntryRight(b, s, k, color, env, j);
      }
    }
  }

  /** GenEntry for a record in the left subtree. */
  lemma {:induction false} GenEntryLeft(b: Branch, s: nat, k: nat, color: Color, env: Env, j: nat)
    requires Full(s) && 0 < j <= s
    ensures EntryFacts(b, s, k, color, env, j)
    decreases s, 0
  {
    FullHalf(s);
    GenEntry(Left(b, k, color, env), s / 2, k + 1, color, env, j - 1);
  }

  /** GenEntry for a record in the right subtree. */
  lemma {:induction false} GenEntryRight(b: Branch, s: nat, k: nat, color: Color, env: Env, j: nat)
    requires Full(s) && 0 < s < j
    ensures EntryFacts(b, s, k, color, env, j)
    decreases s, 0
  {
    FullHalf(s);
    GenEntry(Right(b, k, s, color, env), s / 2, k + 1 + s, color, env, j - 1 - s);
  }

  /**
   * Depth and subtree size go together: a record `h` levels below the root has
   * subtrees of height Height(s) - h, so it is above the depth limit exactly
   * when its subtrees are non-empty.
   */
  lemma {:induction false} GenDepth(b: Branch, s: nat, k: nat, color: Color, env: Env, j: nat)
    ensures b.d <= GenAt(b, s, k, color, env, j).d
    ensures GenAt(b, s, k, color, env, j).d + Height(SubSize(s, j)) == b.d + Height(s)
    decreases s
  {
    if j > 0 && s > 0 {
      if j <= s {
        GenDepth(Left(b, k, color, env), s / 2, k + 1, color, env, j - 1);
      } else {
        GenDepth(Right(b, k, s, color, env), s / 2, k + 1 + s, color, env, j - 1 - s);
      }
    }
  }

  /**
   * Pre-order contiguity: the records from `j` on, as far as j's own subtree
   * reaches, are exactly what the generator pushes for record j, starting from
   * the draws made before j's first child.
   */
  lemma {:induction false} GenSub(b: Branch, s: nat, k: nat, color: Color, env: Env, j: nat, q: nat, e: Branch, u: nat, c: nat)
    requires Full(s) && j <= 2 * s
    requires e == GenAt(b, s, k, color, env, j) && u == SubSize(s, j) && c == k + j && q <= 2 * u
    ensures GenAt(b, s, k, color, env, j + q) == GenAt(e, u, c, color, env, q)
    decreases s, 1
  {
    if j > 0 && s > 0 {
      if j <= s {
        GenSubLeft(b, s, k, color, env, j, q, e, u, c);
      } else {
        GenSubRight(b, s, k, color, env, j, q, e, u, c);
      }
    }
  }

  /** GenSub for a record in the left subtree. */
  lemma {:induction false} GenSubLeft(b: Branch, s: nat, k: nat, color: Color, env: Env, j: nat, q: nat, e: Branch, u: nat, c: nat)
    requires Full(s) && 0 < j <= s
    requires e == GenAt(b, s, k, color, env, j) && u == SubSize(s, j) && c == k + j && q <= 2 * u
    ensures GenAt(b, s, k, color, env, j + q) == GenAt(e, u, c, color, env, q)
    decreases s, 0
  {
    FullHalf(s);
    GenSub(Left(b, k, color, env), s / 2, k + 1, color, env, j - 1, q, e, u, c);
  }

  /** GenSub for a record in the right subtree. */
  lemma {:induction false} GenSubRight(b: Branch, s: nat, k: nat, color: Color, env: Env, j: nat, q: nat, e: Branch, u: nat, c: nat)
    requires Full(s) && s < j <= 2 * s
    requires e == GenAt(b, s, k, color, env, j) && u == SubSize(s, j) && c == k + j && q <= 2 * u
    ensures GenAt(b, s, k, color, env, j + q) == GenAt(e, u, c, color, env, q)
    decreases s, 0
  {
    FullHalf(s);
    GenSub(Right(b, k, s, color, env), s / 2, k + 1 + s, color, env, j - 1 - s, q, e, u, c);
  }

  /**
   * A record `j` above the depth limit has its left child right after it and
   * its right child after its left subtree. Both are built from record j: they
   * start at its end point, are `Dl` times as long, one level deeper, point
   * back to it, and the left angle uses draw k + j and the right angle the draw
   * after the left subtree's.
   */
  lemma GenChildren(b: Branch, s: nat, k: nat, color: Color, env: Env, j: nat)
    requires Full(s) && j <= 2 * s && SubSize(s, j) > 0
    ensures var e := GenAt(b, s, k, color, env, j);
      var u := SubSize(s, j);
      && j + 1 + u <= 2 * s
      && GenAt(b, s, k, color, env, j + 1) == Left(e, k + j, color, env)
      && GenAt(b, s, k, color, env, j + 1 + u) == Right(e, k + j, u, color, env)
  {
    var e, u := GenAt(b, s, k, color, env, j), SubSize(s, j);
    GenSub(b, s, k, color, env, j, 1, e, u, k + j);
    GenSub(b, s, k, color, env, j, 1 + u, e, u, k + j);
  }

  /**
   * The only records whose parent is record `j` are the two children named in
   * GenChildren; in particular a record at the depth limit has none.
   */
  lemma {:induction false} GenOnlyChildren(b: Branch, s: nat, k: nat, color: Color, env: Env, j: nat, q: nat)
    requires Full(s) && j <= 2 * s && 0 < q <= 2 * s
    requires GenAt(b, s, k, color, env, q).parent == Some(b.i + j)
    ensures SubSize(s, j) > 0 && (q == j + 1 || q == j + 1 + SubSize(s, j))
    decreases s, 1
  {
    if 1 < q <= s {
      GenOnlyChildrenLeft(b, s, k, color, env, j, q);
    } else if q > s + 1 {
      GenOnlyChildrenRight(b, s, k, color, env, j, q);
    }
  }

  /** GenOnlyChildren for a record deeper in the left subtree. */
  lemma {:induction false} GenOnlyChildrenLeft(b: Branch, s: nat, k: nat, color: Color, env: Env, j: nat, q: nat)
    requires Full(s) && j <= 2 * s && 1 < q <= s
    requires GenAt(b, s, k, color, env, q).parent == Some(b.i + j)
    ensures SubSize(s, j) > 0 && (q == j + 1 || q == j + 1 + SubSize(s, j))
    decreases s, 0
  {
    FullHalf(s);
    var left := Left(b, k, color, env);
    GenEntry(left, s / 2, k + 1, color, env, q - 1);
    GenOnlyChildren(left, s / 2, k + 1, color, env, j - 1, q - 1);
  }

  /** GenOnlyChildren for a record deeper in the right subtree. */
  lemma {:induction false} GenOnlyChildrenRight(b: Branch, s: nat, k: nat, color: Color, env: Env, j: nat, q: nat)
    requires Full(s) && j <= 2 * s && s + 1 < q <= 2 * s
    requires GenAt(b, s, k, color, env, q).parent == Some(b.i + j)
    ensures SubSize(s, j) > 0 && (q == j + 1 || q == j + 1 + SubSize(s, j))
    decreases s, 0
  {
    FullHalf(s);
    var right := Right(b, k, s, color, env);
    GenEntry(right, s / 2, k + 1 + s, color, env, q - 1 - s);
    GenOnlyChildren(right, s / 2, k + 1 + s, color, env, j - 1 - s, q - 1 - s);
  }

  /**
   * A record's level decides its subtrees: a record above the depth limit has
   * two subtrees of 2^(levels left) - 1 records each, one at the limit has none.
   */
  lemma GenLevels(b: Branch, s: nat, k: nat, color: Color, env: Env, j: nat)
    requires Full(s) && j <= 2 * s
    ensures var e, u := GenAt(b, s, k, color, env, j), SubSize(s, j);
      && b.d <= e.d <= b.d + Height(s)
      && Pow2(b.d + Height(s) - e.d) == u + 1
      && (e.d < b.d + Height(s) <==> u > 0)
  {
    GenDepth(b, s, k, color, env, j);
    FullSize(SubSize(s, j));
  }

  /** Record q is a child of record j exactly when it is one of the two that GenChildren names. */
  lemma GenParentIff(b: Branch, s: nat, k: nat, color: Color, env: Env, j: nat, q: nat)
    requires Full(s) && j <= 2 * s && 0 < q <= 2 * s
    ensures var u := SubSize(s, j);
      GenAt(b, s, k, color, env, q).parent == Some(b.i + j) <==> u > 0 && (q == j + 1 || q == j + 1 + u)
  {
    if GenAt(b, s, k, color, env, q).parent == Some(b.i + j) {
      GenOnlyChildren(b, s, k, color, env, j, q);
    }
    var u := SubSize(s, j);
    if u > 0 && (q == j + 1 || q == j + 1 + u) {
      GenChildren(b, s, k, color, env, j);
      GenEntry(b, s, k, color, env, j);
    }
  }

  /** The size of the regenerated list, and the subtree count below its root. */
  lemma GenerateSize(maxDepth: int, color: Color, k: nat, env: Env)
    requires maxDepth >= 0
    ensures var s := Pow2(maxDepth) - 1;
      && Full(s) && Height(s) == maxDepth
      && |Generate(maxDepth, color, k, env)| == 2 * s + 1
  {
    FullPow(maxDepth);
    assert SubtreeSize(0, maxDepth) == 2 * Pow2(maxDepth) - 1;
  }

  /** Record j of the regenerated list. */
  lemma GenerateIndex(maxDepth: int, color: Color, k: nat, env: Env, j: nat)
    requires maxDepth >= 0 && j < |Generate(maxDepth, color, k, env)|
    ensures Generate(maxDepth, color, k, env)[j] == GenAt(Seed.(c := color), Pow2(maxDepth) - 1, k, color, env, j)
  {
    GenIndex(Seed.(c := color), k, maxDepth, color, env, j);
  }

  /**
   * A regenerated branch list is well formed (index equals position, the seed is
   * the only root, parents come first and are one level up), starts with the
   * seed, never goes deeper than maxDepth, and is drawn in a single colour.
   */
  lemma GenerateShape(maxDepth: int, color: Color, k: nat, env: Env)
    requires maxDepth >= 0
    ensures var r := Generate(maxDepth, color, k, env);
      && |r| == Pow2(maxDepth + 1) - 1
      && WellFormed(r)
      && r[0] == Seed.(c := color)
      && forall j :: 0 <= j < |r| ==> r[j].d <= maxDepth && r[j].c == color
  {
    var r := Generate(maxDepth, color, k, env);
    var root, s := Seed.(c := color), Pow2(maxDepth) - 1;
    GenerateSize(maxDepth, color, k, env);
    GenerateIndex(maxDepth, color, k, env, 0);
    forall j | 0 <= j < |r|
      ensures r[j].i == j && r[j].d <= maxDepth && r[j].c == color
      ensures j > 0 ==> r[j].parent.Some? && r[j].parent.value < j && r[j].d == r[r[j].parent.value].d + 1
    {
      GenerateIndex(maxDepth, color, k, env, j);
      GenEntry(root, s, k, color, env, j);
      GenLevels(root, s, k, color, env, j);
      if j > 0 {
        GenerateIndex(maxDepth, color, k, env, r[j].parent.value);
      }
    }
  }

  /**
   * In a regenerated list, record q (other than the seed) is a child of record j
   * exactly when j is above the depth limit and q is j + 1 (left child) or
   * j + 2^(maxDepth - depth of j) (right child): a full binary tree in pre-order.
   */
  lemma GenerateChildren(maxDepth: int, color: Color, k: nat, env: Env, j: nat, q: nat)
    requires maxDepth >= 0
    requires j < |Generate(maxDepth, color, k, env)| && 0 < q < |Generate(maxDepth, color, k, env)|
    ensures var r := Generate(maxDepth, color, k, env);
      r[q].parent == Some(j) <==> r[j].d < maxDepth && (q == j + 1 || q == j + Pow2(maxDepth - r[j].d))
  {
    var root, s := Seed.(c := color), Pow2(maxDepth) - 1;
    GenerateSize(maxDepth, color, k, env);
    GenLevels(root, s, k, color, env, j);
    GenParentIff(root, s, k, color, env, j, q);
    GenerateIndex(maxDepth, color, k, env, j);
    GenerateIndex(maxDepth, color, k, env, q);
  }

  /**
   * Geometry of the two children of a regenerated record j: both start at its end
   * point and are Dl times as long; the left angle is a - Da plus noise and the
   * right angle a + Da plus noise, each noise from its own draw (the left one
   * k + j, the right one after the left subtree's draws) and, when the draws lie
   * in [0, 1), within [-Ar/2, Ar/2).
   */
  lemma ChildGeometry(maxDepth: int, color: Color, k: nat, env: Env, j: nat)
    requires maxDepth >= 0
    requires j < |Generate(maxDepth, color, k, env)| && Generate(maxDepth, color, k, env)[j].d < maxDepth
    ensures var r := Generate(maxDepth, color, k, env);
      var t := Pow2(maxDepth - r[j].d);
      var end := EndPt(r[j], env);
      && j + t < |r|
      && r[j + 1].x == end.x && r[j + 1].y == end.y && r[j + 1].l == r[j].l * Dl
      && r[j + t].x == end.x && r[j + t].y == end.y && r[j + t].l == r[j].l * Dl
      && r[j + 1].a == r[j].a - Da + Noise(Draw(env, k + j))
      && r[j + t].a == r[j].a + Da + Noise(Draw(env, k + j + t - 1))
      && (0.0 <= Draw(env, k + j) < 1.0 ==> -Ar / 2.0 <= r[j + 1].a - (r[j].a - Da) < Ar / 2.0)
      && (0.0 <= Draw(env, k + j + t - 1) < 1.0 ==> -Ar / 2.0 <= r[j + t].a - (r[j].a + Da) < Ar / 2.0)
  {
    var r := Generate(maxDepth, color, k, env);
    GenerateChildRecords(maxDepth, color, k, env, j);
    var t := Pow2(maxDepth - r[j].d);
    assert r[j + 1] == Left(r[j], k + j, color, env);
    assert r[j + t] == Right(r[j], k + j, t - 1, color, env);
  }

  /**
   * The two children of a regenerated record j above the depth limit are the
   * records the generator builds from it: the left one at j + 1 with draw k + j,
   * the right one at j + 2^(maxDepth - depth of j) with the draw that follows the
   * left subtree's draws.
   */
  lemma GenerateChildRecords(maxDepth: int, color: Color, k: nat, env: Env, j: nat)
    requires maxDepth >= 0
    requires j < |Generate(maxDepth, color, k, env)| && Generate(maxDepth, color, k, env)[j].d < maxDepth
    ensures var r := Generate(maxDepth, color, k, env);
      var t := Pow2(maxDepth - r[j].d);
      && j + t < |r|
      && r[j + 1] == Left(r[j], k + j, color, env)
      && r[j + t] == Right(r[j], k + j, t - 1, color, env)
  {
    var r := Generate(maxDepth, color, k, env);
    var e := r[j];
    var t := Pow2(maxDepth - e.d);
    var left, right := GenerateChildPair(maxDepth, color, k, env, j, e);
    GenerateChildAt(maxDepth, color, k, env, j + 1, left);
    GenerateChildAt(maxDepth, color, k, env, j + t, right);
  }

  /** The children GenChildrenAt builds for regenerated record j, by name. */
  lemma GenerateChildPair(maxDepth: int, color: Color, k: nat, env: Env, j: nat, e: Branch)
      returns (left: Branch, right: Branch)
    requires maxDepth >= 0
    requires j < |Generate(maxDepth, color, k, env)| && Generate(maxDepth, color, k, env)[j] == e && e.d < maxDepth
    ensures var root, s, t := Seed.(c := color), Pow2(maxDepth) - 1, Pow2(maxDepth - e.d);
      && j + t <= 2 * s
      && left == GenAt(root, s, k, color, env, j + 1) && left == Left(e, k + j, color, env)
      && right == GenAt(root, s, k, color, env, j + t) && right == Right(e, k + j, t - 1, color, env)
  {
    var root, s := Seed.(c := color), Pow2(maxDepth) - 1;
    GenerateSize(maxDepth, color, k, env);
    GenerateIndex(maxDepth, color, k, env, j);
    GenChildrenAt(root, s, k, color, env, j);
    left, right := GenAt(root, s, k, color, env, j + 1), GenAt(root, s, k, color, env, j + Pow2(maxDepth - e.d));
  }

  /** GenerateIndex with the record named by the caller. */
  lemma GenerateChildAt(maxDepth: int, color: Color, k: nat, env: Env, q: nat, e: Branch)
    requires maxDepth >= 0 && q <= 2 * (Pow2(maxDepth) - 1)
    requires e == GenAt(Seed.(c := color), Pow2(maxDepth) - 1, k, color, env, q)
    ensures q < |Generate(maxDepth, color, k, env)| && Generate(maxDepth, color, k, env)[q] == e
  {
    GenerateSize(maxDepth, color, k, env);
    GenerateIndex(maxDepth, color, k, env, q);
  }

  /** GenChildren with the right child's offset given by the record's level. */
  lemma GenChildrenAt(b: Branch, s: nat, k: nat, color: Color, env: Env, j: nat)
    requires Full(s) && j <= 2 * s
    ensures var e := GenAt(b, s, k, color, env, j);
      && b.d <= e.d <= b.d + Height(s)
      && (e.d < b.d + Height(s) ==>
            var t := Pow2(b.d + Height(s) - e.d);
            && j + t <= 2 * s
            && GenAt(b, s, k, color, env, j + 1) == Left(e, k + j, color, env)
            && GenAt(b, s, k, color, env, j + t) == Right(e, k + j, t - 1, color, env))
  {
    GenLevels(b, s, k, color, env, j);
    if SubSize(s, j) > 0 {
      GenChildren(b, s, k, color, env, j);
    }
  }

  /**
   * Worked examples: with maxDepth 0 only the seed is generated; with maxDepth 2
   * there are 7 records numbered in pre-order, so the depth-1 branches are 1 and
   * 4, branch 1 has children 2 and 3, and branch 4 has children 5 and 6.
   */
  lemma PreOrderExamples(color: Color, k: nat, env: Env)
    ensures |Generate(0, color, k, env)| == 1 && Generate(0, color, k, env)[0].parent == None
    ensures var r := Generate(2, color, k, env);
      && |r| == 7
      && r[0].parent == None && r[0].d == 0
      && r[1].parent == Some(0) && r[1].d == 1
      && r[2].parent == Some(1) && r[2].d == 2
      && r[3].parent == Some(1) && r[3].d == 2
      && r[4].parent == Some(0) && r[4].d == 1
      && r[5].parent == Some(4) && r[5].d == 2
      && r[6].parent == Some(4) && r[6].d == 2
  {
    var root := Seed.(c := color);
    GenerateSize(0, color, k, env);
    GenerateSize(2, color, k, env);
    assert SubSize(3, 1) == 1 && SubSize(3, 4) == 1;
    GenChildren(root, 3, k, color, env, 0);
    GenChildren(root, 3, k, color, env, 1);
    GenChildren(root, 3, k, color, env, 4);
    GenerateIndex(0, color, k, env, 0);
    forall j | 0 <= j < 7 ensures Generate(2, color, k, env)[j] == GenAt(root, 3, k, color, env, j) {
      GenerateIndex(2, color, k, env, j);
    }
  }
}
