# Random binary tree: a Dafny model

This project models the core of the Random Binary Tree page (`js/tree.js`). The
page grows a random binary tree of branch records and draws each record as an
SVG `line`. It redraws the tree on demand and highlights a branch's ancestors
while the mouse is over it.

- `wrappers.dfy` (module `Wrappers`): the `Option` type.
- `tree_data.dfy` (module `TreeData`):
  - the branch record `Branch`;
  - the drawing constants `Da`, `Dl` and `Ar`, the initial depth limit and colour, and the seed record;
  - what the page takes from outside, bundled as `Env`: the end point of a branch (`endPt`'s trigonometry), the stream of `Math.random()` draws, and the `rainbow.colorAt` palette;
  - the well-formedness invariant of a branch list that the ancestor walk relies on.
- `generator.dfy` (module `Generator`): the pure specification of the recursive generator `branch`.
  - `GenAt(b, s, k, …, j)` is record `j` of what `branch(b)` pushes when `k` draws were made before. `Gen` is the whole pushed sequence. `Generate` is the list one regeneration builds from the seed.
  - Lemmas prove the tree's shape: the pre-order split, the size, indices, parent links and depths, where the two children of a record sit, and the geometry of each child.
- `render.dfy` (module `Render`):
  - the `line` element (`Line`), its id `"id-" + i`, and its stroke width `maxDepth + 1 - d`;
  - the `Surface` class (the `svg` element), with the first paint `Create`, the data-join redraw `Update`, and the lookup-and-style step of the hover handler `StyleFirst`.
- `app.dfy` (module `App`): the `Session` class holds the page's mutable state: `branches`, `maxDepth`, `currentColor`, `useRainbow`, and a cursor `drawn` into the random stream.
  - `Grow` is `branch`.
  - `Regenerate` is `regenerate`. It calls `Rebuild` (`branches = []; branch(seed)`) and then `Paint` (`create()` or `update()`).
  - `Random` is one `Math.random()` call, and `RandomColor` is `randomColor`.
  - `HighlightParents` is the loop of the hover handler.
  - `Ancestors` and `Restroked` specify which records the hover handler walks and what it does to the lines.

Randomness is a parameter. The n-th `Math.random()` result is `Draw(env, n)`, and the session counts the draws it has used. A regeneration that starts after `k` draws uses draw `k + j` to build the left child of record `j`. It uses the draw after record `j`'s left subtree (`k + j + 2^(maxDepth - d_j) - 1`) to build the right child.

Records are numbered in pre-order, as the recursion in `branch` pushes them: the root, then the whole left subtree, then the whole right subtree. With `maxDepth = 2` the depth-1 records are 1 and 4; record 1's children are 2 and 3, and record 4's are 5 and 6. `Generator.PreOrderExamples` states these numbers.

## Model

| member | source | states |
|---|---|---|
| TreeData.Noise | js/tree.js:34 | The angle noise `ar*r - ar*0.5` lies in [-ar/2, ar/2) for every draw r in [0, 1). |
| TreeData.EndPt | js/tree.js:83-88 | The end point of a branch, given by a function of its origin, angle and length, since the sine and cosine are not modelled. It has no contract of its own: `Generator.ChildGeometry` states where children start from it. |
| Generator.Child | js/tree.js:35-44 | Builds a `newB` record: the given index and angle, origin at the parent's end point, length l*dl, depth d+1, the parent's index and the current colour. It has no contract of its own; `Generator.ChildGeometry` and `Generator.GenerateChildRecords` state its fields for generated records. |
| Generator.Left | js/tree.js:33-45 | Builds the left child: index i+1 and angle a - da + noise from draw k. It has no contract of its own; `Generator.GenChildren` places it and `Generator.ChildGeometry` bounds its angle. |
| Generator.Right | js/tree.js:47-59 | Builds the right child: the index after the left subtree's records and angle a + da + noise from the draw after the left subtree's. It has no contract of its own; `Generator.GenChildren` places it and `Generator.ChildGeometry` bounds its angle. |
| Generator.GenAt | js/tree.js:23-60 | Record j of what `branch(b)` pushes, by descending into the left or right subtree. It has no contract of its own; `Generator.GenEntry`, `Generator.GenDepth`, `Generator.GenSub` and `Generator.GenChildren` state its properties. |
| Generator.Gen | js/tree.js:23-60 | The whole list `branch(b)` pushes. It has no contract of its own; `Generator.GenSplit` proves it is the pre-order recursion. |
| Generator.Generate | js/tree.js:70-71 | The list one regeneration builds from the seed. It has no contract of its own; `Generator.GenerateShape`, `Generator.GenerateChildren` and `Generator.ChildGeometry` state its shape. |
| Generator.GenSplit | js/tree.js:23-60 | What `branch(b)` pushes is b alone at the depth limit. Otherwise it is b, then everything grown from the left child (draw k), then everything grown from the right child (draw k + size of the left subtree). |
| Generator.GenEntry | js/tree.js:26-43 | Every record of a generated subtree has index root index + position. Every record below the root has the generation's colour. Every record below the root points to an earlier record of the subtree exactly one level up. |
| Generator.GenDepth | js/tree.js:29-41 | A record's depth plus the height of its own subtrees is the root's depth plus the subtree height: depth and remaining levels go together. |
| Generator.GenLevels | js/tree.js:29-31 | A generated record is above the depth limit exactly when it has (non-empty) subtrees, which then hold 2^(levels left) - 1 records each. |
| Generator.GenSub | js/tree.js:23-60 | Pre-order contiguity: the records from j through the end of j's subtree are exactly what `branch` pushes for record j, starting from draw k + j. |
| Generator.GenChildren | js/tree.js:33-59 | A record above the limit has its left child right after it and its right child after its left subtree. Each is built from the record with the draw the recursion uses at that point. |
| Generator.GenOnlyChildren | js/tree.js:42-56 | The only records whose parent link names record j are those two children. A record at the depth limit has none. |
| Generator.GenParentIff | js/tree.js:33-59 | Record q is a child of record j if and only if j has subtrees and q is j + 1 or j + 1 + the subtree size. |
| Generator.GenerateSize | js/tree.js:70-71 | One regeneration pushes 2^(maxDepth+1) - 1 records, and the root's subtrees have height maxDepth. |
| Generator.GenerateShape | js/tree.js:16-71 | The regenerated list has 2^(maxDepth+1) - 1 records. It is well formed: index equals position, the seed is the only root at depth 0, and every other record's parent is earlier and one level up. It starts with the seed in the current colour, no record is deeper than maxDepth, and every record has the current colour. |
| Generator.GenerateChildren | js/tree.js:33-59 | In the regenerated list, record q (q > 0) has parent j if and only if d_j < maxDepth and q is j + 1 or j + 2^(maxDepth - d_j): a full binary tree in pre-order. |
| Generator.GenerateChildRecords | js/tree.js:33-59 | For d_j < maxDepth, record j + 1 is the left child built from record j with draw k + j. Record j + 2^(maxDepth - d_j) is the right child built with draw k + j + 2^(maxDepth - d_j) - 1. |
| Generator.ChildGeometry | js/tree.js:24-59 | Both children of record j start at endPt of record j and have length l_j * dl. The left angle is a_j - da + noise and the right angle a_j + da + noise, with the draws named above. When those draws lie in [0, 1), each child's angle deviates from a_j ∓ da by a value in [-ar/2, ar/2). |
| Generator.PreOrderExamples | js/tree.js:23-60 | With maxDepth 0 only the seed is pushed. With maxDepth 2 there are 7 records with the parent links and depths of pre-order numbering. |
| Render.Decimal | js/tree.js:123 | JavaScript's conversion of a non-negative index to a string, as in `'id-'+d.i`: at least one character, all decimal digits, and exactly one digit if and only if the number is below 10. |
| Render.ParseDecimal | js/tree.js:103 | `parseInt` of a string of decimal digits. It has no contract of its own; `Render.DecimalRoundTrip` states that it reads back what `Decimal` writes. |
| Render.DecimalRoundTrip | js/tree.js:103 | `parseInt` of the decimal form of a non-negative integer gives the integer back. |
| Render.ElementId | js/tree.js:123 | The id `'id-'+i` of the line for branch i. It has no contract of its own; `Render.ElementIdInjective` and `Render.DecimalRoundTrip` state what the lookup relies on. |
| Render.ElementIdInjective | js/tree.js:123 | Two branches have the same element id `'id-'+i` exactly when they have the same index. |
| Render.StrokeWidth | js/tree.js:122 | The stroke width `maxDepth + 1 - d` lies in [1, maxDepth + 1] for a branch no deeper than maxDepth. It is maxDepth + 1 at the root and 1 at the depth limit. |
| Render.SegmentOf | js/tree.js:93-96 | The endpoints `x1, y1, x2, y2` of a branch's line: its origin and its end point. It has no contract of its own; `Render.DrawnTreeConnected` states what the drawn segments make up. |
| Render.Drawn | js/tree.js:116-125 | The line the first paint appends for a branch. It has no contract of its own; `Render.Surface.Create` (through `Render.Appended`) states what the first paint leaves, and `Render.EnteredRestyled` that the line shows its branch. |
| Render.Entered | js/tree.js:136-139 | The line the enter phase of an update appends: stroke and handlers only. It has no contract of its own; `Render.Surface.Update` (through `Render.Redrawn` and `Render.Reconciled`) states what the update leaves. |
| Render.Restyled | js/tree.js:149-156 | A kept line after the update phase has set its endpoints, stroke, width and id from its branch. It has no contract of its own; `Render.Surface.Update` states the result and `Render.EnteredRestyled` relates it to the first paint. |
| Render.EnteredRestyled | js/tree.js:116-156 | A line made by the enter phase of `update()` and then given its attributes by the update phase is exactly the line `create()` draws for the same branch, and that line shows the branch. |
| Render.DrawnTreeConnected | js/tree.js:35-59 | In a regenerated tree, the line of every branch but the seed starts (x1, y1) where its parent's line ends (x2, y2): the drawn tree is connected. |
| Render.Surface.constructor | js/tree.js:110-113 | The `svg` element starts with no lines. |
| Render.FirstWithId | js/tree.js:103 | `d3.select('#…')` finds the first line with that id: no earlier line carries it, and None when no line does. |
| Render.Surface.Create | js/tree.js:109-126 | The enter phase of the first paint keeps the existing lines. It appends, for every branch beyond them, a new line with endpoints (x, y)–endPt, the stroke colour, the width, the id and both handlers. On an empty svg the lines then match the branch list one to one. |
| Render.Surface.Update | js/tree.js:129-157 | After the redraw there is exactly one line per branch, each showing its branch: endpoints, stroke, width, id and both handlers. Lines at surviving positions keep their element and inline style. Surplus lines are removed. New lines are fresh elements with no inline style. |
| Render.Surface.StyleFirst | js/tree.js:103 | Sets the inline stroke style of the first line with the given id and changes nothing else, so a valid surface stays valid. With no such line, nothing changes. |
| Render.LabelledLookup | js/tree.js:103 | In lines labelled from a well-formed branch list, looking up `'id-'+q` finds line q. |
| Render.ReconciledLabelled | js/tree.js:122-123 | A reconciled line set carries the branch ids, and its widths lie in [1, maxDepth + 1] when no branch is deeper than maxDepth. |
| App.Round | js/tree.js:80 | `Math.round` returns the integer within half a unit below or above, with halves rounded up. |
| App.RainbowIndex | js/tree.js:80 | The rainbow position `Math.round(r*100) + 1` lies in [1, 101] for every draw r in [0, 1). |
| App.Ancestors | js/tree.js:101-105 | The walk from record k starts at k and is never empty. |
| App.Restroked | js/tree.js:102-104 | The lines after the walk's `style('stroke', …)` calls. It keeps the number of lines; `App.RestrokedAt` states the rest. |
| App.AncestorWalk | js/tree.js:101-105 | The walk from record k has d_k + 1 steps and ends at the root, record 0. Step i is at depth d_k - i, and each next record is the previous one's parent, at a smaller index. |
| App.AncestorsDecrease | js/tree.js:101-105 | The walk's indices strictly decrease, so no line is visited twice. |
| App.WalkStep | js/tree.js:102-104 | One loop step: a record has a parent exactly when it is below the root. Moving to the parent keeps "visited, then the walk from here" equal to the walk from k. At the root the walk is complete. |
| App.RestrokedAt | js/tree.js:102-104 | After the walk, a line's inline style is the handler's colour if its position was visited, and otherwise unchanged. Nothing else about any line changes. |
| App.HighlightStep | js/tree.js:103 | Styling `'id-'+x` while walking restyles exactly line x of the labelled set. |
| App.HoverRoundTrip | js/tree.js:100-105 | Mouseout after mouseover on the same branch restores lines that had no inline style. |
| App.HoverShown | js/tree.js:100-104 | After the handler, a visited line shows green on mouseover and its own stroke colour on mouseout. Every other line shows what it showed before. |
| App.LabelledRestroked | js/tree.js:103 | Highlighting never changes line ids. |
| App.GrownList | js/tree.js:23-60 | When the two children built by `branch` are, in the current colour, the generator's left and right child, the list after growing b is the list before, then b, then the left subtree's records, then the right subtree's records: the generator's pre-order list for b. |
| App.Session.constructor | js/tree.js:9-20 | A page starts with no branches, depth limit 10, colour "#8e3496", rainbow mode off, no draws made, and an empty svg. |
| App.Session.Random | js/tree.js:34 | `Math.random()` returns the next draw of the stream and advances the cursor by one. |
| App.Session.RandomColor | js/tree.js:79-81 | Returns '#' + the rainbow colour at `Math.round(r*100) + 1` for the next draw r, using one draw. |
| App.Session.Grow | js/tree.js:23-60 | `branch(b)` appends exactly the generator's pre-order list for b in the current colour. It uses one draw per record below b. |
| App.Session.Regenerate | js/tree.js:63-77 | Re-picks the colour from one draw when rainbow mode is on. It replaces the branch list with `Generate` for the colour in effect and the draws that follow, and uses one more draw per record below the seed. It keeps the depth limit and the rainbow setting. A first paint keeps the existing lines and appends a fully drawn line per missing branch. A redraw leaves one line per branch showing it, keeps the element and inline style of the lines at shared positions, and makes the others fresh. After a redraw, or a first paint on an empty svg, the lines match the new list. |
| App.Session.Rebuild | js/tree.js:70-71 | `branches = []; branch(seed)` leaves exactly `Generate`'s list for the current colour and the draws from the cursor on, and uses 2^(maxDepth+1) - 2 draws, one per record below the seed. |
| App.Session.Paint | js/tree.js:72-76 | `create()` keeps the existing lines and appends a fully drawn line for each branch beyond them. `update()` leaves one line per branch showing it, keeps the element and inline style of the lines at shared positions, and makes the others fresh. After `update()`, or `create()` on an empty svg, the lines match the branch list. |
| App.Session.HighlightParents | js/tree.js:98-106 | The handler's loop visits exactly the walk from record k: d_k + 1 records, from k up to the root. It sets the inline stroke style of each visited record's line, green on mouseover and cleared on mouseout, and of no other line. The surface stays valid and the lines keep the branch ids, so the next hover or regeneration can follow. |

## Left out

- Trigonometry: `endPt`'s sine and cosine are not modelled. The end point is given by a function in `Env` of the origin, angle and length.
- Floating point: coordinates, angles, lengths and draws are mathematical reals. Rounding error, NaN and infinities are not modelled.
- Randomness: `Math.random()` is an infinite stream of reals (`Env.random`). That its values lie in [0, 1) is a hypothesis of the lemmas that need it, not a fact of the model.
- `rainbow.colorAt`, from the rainbowvis library, is a function in `Env` from integers to colour strings. The library's gradient is not modelled.
- D3 and jQuery machinery: selections, the animated `transition()`, and the `width`/`height` attributes of the svg are not modelled. Neither are the `'px'` suffix and the `parseInt` around the stroke width (an integer already), nor the update phase's animation over time. Only the resulting set of line elements is modelled.
- The page's user-interface handlers (`js/tree.js:159-190`) are not modelled: regenerate button, colour picker, rainbow checkbox, depth field. Neither is the initial `regenerate(true)` call. Their effect is captured by the session fields they assign (`currentColor`, `useRainbow`, `maxDepth`) and by calling `Regenerate`.
- `$('#color_picker').val(currentColor)` in `regenerate` updates the UI only, and is not modelled.
- App.Session.Regenerate: requires `maxDepth >= 0`. A negative or non-numeric depth (what `parseInt` of the depth field can produce) makes `branch` recurse without end, because `b.d === maxDepth` is never met.
- App.Session.Grow: requires `b.i == |branches|` (the index of a record is its position, as every caller passes) and `b.d <= maxDepth`.
- App.Session.Regenerate: states the tree's shape through `Generate`, and `Generator.GenerateShape` proves its size, well-formedness, depth bound and single colour.
- App.Session.HighlightParents: requires the surface to be valid, the branch list to be well formed and the lines to carry the branch ids. Validity and a well formed list hold after every `Regenerate` (`GenerateShape`). The ids hold after `Regenerate(false)`, and after `Regenerate(true)` on an svg with no lines (`Render.ReconciledLabelled`). After a first paint on an svg that already has lines, the old lines are kept and the ids need not match. All three still hold after the handler itself.
- Mouseout colour: in `highlightParents`, the inner `var color` shadows the outer parameter, so on mouseout the style is set to `undefined`. That removes the inline style. It is modelled as the style `None`, which lets the line's stroke attribute show again.
- `parseInt(d.i)` in the lookup is modelled as `ParseDecimal` of the decimal form, which gives `d.i` back (`Render.DecimalRoundTrip`).
- Aliasing: `branch` mutates the shared seed object (`b.c = currentColor`) and pushes that very object. The model copies the record with the new colour, so sharing between regenerations is not captured.
