# swag-ui layout engine and tile registries, in Dafny

This project models the integer core of swag-ui, a small Java UI toolkit. It covers:

- the tile record (centre position, size, weights, depth, alignment, per-axis fill mode) and its edges;
- the recursive `update` of the layout containers: `Layout`, `Frame`, `HorizontalList`, `VerticalList` (through `ListLayout`) and the older `FrameLayout`;
- the flattening of a layout tree (`getAncestors`);
- the two depth-ordered registries: the `TreeSet` of `Scene2D.update`, and the list that `graphics/TileShader` sorts on every insertion;
- the hover state machine and click dispatch of `Button`;
- the clamped channel arithmetic of `Colour` and the corner-wise arithmetic of `Gradient`.

## How the model is organised

- **Values.** A tile's layout fields are the datatype `Tiles.TileRec`. The tile tree is `Nodes.Node`: a leaf, or a container with a kind, a padding and its children. Java exceptions are `Nodes.Run`, which holds the state at the moment of the throw together with `Nodes.Failure`. Java's truncating `/` is `JavaInt.JDiv`.
- **Specification functions.** `Engine.Update` is the whole recursive update as a function of the tree. It dispatches on the container kind to its passes, which are defined in `ChildPasses`, `HorizontalListSpec`, `VerticalListSpec` and `FrameLayoutSpec`. The property lemmas about it live in `EngineFacts`.
- **Classes.** The Java objects whose fields change in place are classes:
  - `Tiles.Tile`, with chainable setters;
  - `Layouts.Layout`, which covers both `Layout` and `Frame` through the `isFrame` flag;
  - `Lists.ListLayout`, which covers both list orientations through the `horizontal` flag;
  - `FrameLayouts.FrameLayout`, `Scenes.Scene`, `Buttons.Button`;
  - `GraphicsTiles.Tile` and `GraphicsTiles.TileShader`.

  Every class method that updates children runs a loop from `ChildLoops`, and its postcondition equates the new state with the matching specification function.
- **Depth order.** The depth order is generic, in `DepthOrder`. `InsertBy` is one insertion into the `TreeSet`, whose comparator `2*(d1-d2)+1` never returns 0. `SortBy` is the result of inserting a whole sequence. The module proves `SortBy` sorted, a permutation and stable, and that any stable sort equals it, so it also stands for `List.sort` in the shader.

Nothing in the model is executed; every property below is proved by the verifier.

## Model

| member | source | states |
|---|---|---|
| Tiles.Tile.constructor | src/swagui/tiles/Tile.java:19-54 | a new tile is centred at the origin, 100 x 100, absolute fill, weights 1, angle 0, depth 50, visible |
| Tiles.Tile.Placed | src/swagui/tiles/Tile.java:64-67 | sets exactly x, y, width and height; every other field keeps its default |
| Tiles.Tile.SetAlignment | src/swagui/tiles/Tile.java:93-96 | changes only the alignment and returns the same object |
| Tiles.Tile.SetX | src/swagui/tiles/Tile.java:108-111 | changes only x and returns the same object |
| Tiles.Tile.SetY | src/swagui/tiles/Tile.java:117-120 | changes only y and returns the same object |
| Tiles.Tile.SetPosition | src/swagui/tiles/Tile.java:128-132 | changes only x and y and returns the same object |
| Tiles.Tile.SetFill | src/swagui/tiles/Tile.java:142-145 | sets the fill of both axes to the one mode, nothing else |
| Tiles.Tile.SetFills | src/swagui/layouts/Layout.java:31 | `setFill(h, v)` as the layouts call it: the two fills, nothing else |
| Tiles.Tile.SetWidth | src/swagui/tiles/Tile.java:157-160 | changes only the width |
| Tiles.Tile.SetHeight | src/swagui/tiles/Tile.java:166-169 | changes only the height |
| Tiles.Tile.SetSize | src/swagui/tiles/Tile.java:177-181 | changes only width and height |
| Tiles.Tile.SetHWeight | src/swagui/tiles/Tile.java:193-196 | changes only the horizontal weight |
| Tiles.Tile.SetVWeight | src/swagui/tiles/Tile.java:202-205 | changes only the vertical weight |
| Tiles.Tile.SetWeights | src/swagui/tiles/Tile.java:213-217 | changes only the two weights |
| Tiles.Tile.SetAngle | src/swagui/tiles/Tile.java:241-244 | changes only the angle |
| Tiles.Tile.SetDepth | src/swagui/tiles/Tile.java:254-257 | changes only the depth |
| Tiles.Tile.SetColour | src/swagui/tiles/Tile.java:267-270 | changes only the colour |
| Tiles.Tile.SetVisible | src/swagui/tiles/Tile.java:295-298 | changes only the visibility |
| Tiles.Tile.Update | src/swagui/tiles/Tile.java:321 | a plain tile's `update()` is a no-op: the method may modify nothing (it has no `modifies` clause), and its value and colour stay as they were |
| Tiles.TileEdges | src/swagui/tiles/Tile.java:301-318 | max minus min edge is twice the truncated half size, which equals the size exactly when it is even; a non-negative size keeps the centre between the edges, on both axes |
| Tiles.DefaultEdges | src/swagui/tiles/Tile.java:301-318 | a default tile spans -50..50 on both axes |
| Geometry.EdgeSpan | src/swagui/tiles/Tile.java:301-308 | the edge distance is 2*(size/2), the size when even and size-1 when a positive size is odd |
| Geometry.CentreBetweenEdges | src/swagui/tiles/Tile.java:301-308 | with a non-negative size, `getMinX <= x <= getMaxX` |
| Geometry.AlignmentIsColumnAndRow | src/swagui/layouts/Layout.java:131-178 | the nine alignments are exactly the pairs of a column group and a row group |
| Geometry.AlignH | src/swagui/layouts/Layout.java:131-150 | `alignTileHorz`: a left child's left edge is on the band's low edge, a right child's right edge on the high edge, a centred child at the truncated midpoint |
| Geometry.AlignV | src/swagui/layouts/Layout.java:159-178 | `alignTileVert`, the same with bottom, middle and top rows |
| Geometry.Midpoint | src/swagui/layouts/Layout.java:131-150 | `(lo+hi)/2` is within one of the true midpoint and exact for an even sum |
| Geometry.AlignedWithinBand | src/swagui/layouts/Layout.java:131-178 | a non-negative size that fits the band is aligned entirely inside it, on both axes |
| Geometry.InsetIsAlignH | src/swagui/layouts/FrameLayout.java:149-170 | the explicit left/centre/right formula is the alignment rule on the padded interior |
| Geometry.InsetIsAlignV | src/swagui/layouts/FrameLayout.java:175-196 | the same for bottom/middle/top |
| JavaInt.JDiv | src/swagui/layouts/HorizontalList.java:72 | Java integer division: the remainder is smaller than the divisor and has the dividend's sign |
| JavaInt.JDivNonNegative | src/swagui/layouts/HorizontalList.java:72 | for non-negative operands it agrees with floor division |
| JavaInt.JDivNegate | src/swagui/layouts/HorizontalList.java:108 | truncation is symmetric, so the halves of negative sizes mirror the positive ones |
| JavaInt.JDivExact | src/swagui/layouts/Layout.java:131-150 | dividing an exact multiple gives the factor back, whatever the signs |
| Reductions.Max | src/swagui/layouts/Frame.java:38-41 | `max().getAsInt()` of a non-empty stream: an upper bound that is attained |
| Reductions.Min | src/swagui/layouts/FrameLayout.java:94-106 | `min().getAsInt()` of a non-empty stream: a lower bound that is attained |
| Reductions.SumNonNegative | src/swagui/layouts/HorizontalList.java:60-63 | a sum of non-negative values is non-negative |
| ChildList.InsertAt | src/swagui/layouts/Layout.java:54-59 | `add(index, t)`: t at the index, the prefix and suffix kept in order, the multiset grows by t |
| ChildList.RemoveFirst | src/swagui/layouts/Layout.java:66-70 | `remove(t)`: an absent tile leaves the list unchanged; otherwise exactly the first occurrence is dropped and the rest keep their order |
| ChildList.FirstIndex | src/swagui/layouts/Layout.java:67 | the index of the first occurrence: it holds t and no earlier element is t |
| Nodes.RecsOnlyShapes | src/swagui/layouts/Frame.java:44-50 | passes that only set children's fields keep the tree's shape and size |
| Ancestry.ChildrenFirst | src/swagui/layouts/Layout.java:82-86 | `getAncestors` starts with the direct children, in order |
| Ancestry.AncestorMember | src/swagui/layouts/Layout.java:82-94 | a tile is an ancestor iff it is a direct child or an ancestor of a `Layout` child |
| Ancestry.NestedMember | src/swagui/layouts/Layout.java:88-92 | the flattened part holds exactly the ancestors of the `Layout` children |
| Ancestry.AncestorsSmaller | src/swagui/layouts/Layout.java:82-94 | every ancestor is a tree no larger than the children together |
| Ancestry.RootNotAncestor | src/swagui/layouts/Layout.java:82-94 | a layout is never among its own ancestors |
| Layouts.Layout.constructor | src/swagui/layouts/Layout.java:28-34 | the children in argument order, fill-parent on both axes, invisible, depth 1, padding 0 |
| Layouts.Layout.Frame | src/swagui/layouts/Frame.java:15-19 | the layout constructor, then visible at depth 2 |
| Layouts.Layout.AddTile | src/swagui/layouts/Layout.java:41-46 | children become old ++ [t] |
| Layouts.Layout.AddTileAt | src/swagui/layouts/Layout.java:54-59 | inserts at the index when 0 <= index <= size, otherwise throws IndexOutOfBounds and changes nothing |
| Layouts.Layout.RemoveTile | src/swagui/layouts/Layout.java:66-70 | removes the first occurrence only |
| Layouts.Layout.GetChildren | src/swagui/layouts/Layout.java:75-77 | returns the current children unchanged |
| Layouts.Layout.SetPadding | src/swagui/layouts/Layout.java:105-109 | stores exactly the padding, children unchanged |
| Layouts.Layout.Update | src/swagui/layouts/Layout.java:120-122 | the new tree (and exception) is exactly `Engine.Update` of the old one: children updated in order for a layout, width/height/position for a frame |
| Layouts.Layout.UpdateWidth | src/swagui/layouts/Frame.java:32-51 | the frame's width pass equals `Engine.FrameWidth` |
| Layouts.Layout.UpdateHeight | src/swagui/layouts/Frame.java:56-74 | the frame's height pass equals `Engine.FrameHeight` |
| Layouts.Layout.UpdatePosition | src/swagui/layouts/Frame.java:79-93 | the frame's position pass equals `Engine.FramePosition` |
| Engine.Update | src/swagui/layouts/Layout.java:120-122 | the update of any tile keeps the tree's shape; a plain tile is unchanged and never throws |
| Engine.UpdateAll | src/swagui/layouts/Layout.java:121 | `children.forEach(Tile::update)` keeps the number and shapes of the children |
| Engine.FrameWidth | src/swagui/layouts/Frame.java:32-51 | only the frame's width changes; on a throw its record is unchanged; without wrap, fill-parent children get width - 2p |
| Engine.FrameHeight | src/swagui/layouts/Frame.java:56-74 | only the height changes; children change only in their fields (never updated); it throws iff it wraps with no children |
| Engine.FramePosition | src/swagui/layouts/Frame.java:79-93 | never throws, keeps the frame's record and changes only the children's fields |
| Engine.HorizontalWidth | src/swagui/layouts/HorizontalList.java:33-74 | only the list's width changes; without wrap it is the weighted share |
| Engine.CrossHeight | src/swagui/layouts/HorizontalList.java:79-100 | only the list's height changes; without wrap, fill-parent children get height - 2p |
| Engine.VerticalHeight | src/swagui/layouts/VerticalList.java:33-74 | only the list's height changes; without wrap it is the weighted share |
| Engine.UpdateHorizontal | src/swagui/layouts/HorizontalList.java:22-28 | width, height, x, y in that order, each stopping the update on an exception; shapes kept |
| Engine.UpdateVertical | src/swagui/layouts/VerticalList.java:22-28 | height, width, y, x in that order; shapes kept |
| Engine.UpdateFrame | src/swagui/layouts/Frame.java:22-27 | width, height, position in that order; shapes kept |
| EngineFacts.UpdateAllStopsAtFirstFailure | src/swagui/layouts/Layout.java:121 | updating children in order succeeds iff every child's update does, and then each child is its update; otherwise some child k threw, those before it are updated, it is left as at its throw, the rest are untouched |
| EngineFacts.UpdateAllAfterThrow | src/swagui/layouts/Layout.java:121 | once a prefix has thrown, the later children are untouched |
| EngineFacts.UpdateAllStep | src/swagui/layouts/Layout.java:121 | after a prefix that did not throw, the next child is updated and its exception is the result's |
| EngineFacts.UnfoldUpdate | src/swagui/layouts/Frame.java:22-27 | each container kind runs its own class's update |
| EngineFacts.FixedFrameDoesNotRecurse | src/swagui/layouts/Frame.java:39 | a frame that does not wrap its width, and every frame layout, never updates its children: only their own fields change |
| EngineFacts.FrameAlignsChildren | src/swagui/layouts/Frame.java:79-93 | after a frame's update a centred child shares the frame's centre and a side-aligned child touches the padded edge, on both axes |
| EngineFacts.PositionAligns | src/swagui/layouts/Frame.java:84-91 | the position pass puts each child where its alignment asks inside the padded interior |
| EngineFacts.EmptyHorizontalThrows | src/swagui/layouts/HorizontalList.java:33-130 | an empty horizontal list always throws: NoSuchElement when its height wraps, DivisionByZero otherwise |
| EngineFacts.EmptyVerticalThrows | src/swagui/layouts/VerticalList.java:33-130 | an empty vertical list always throws: NoSuchElement when its width wraps, DivisionByZero otherwise |
| EngineFacts.WrappedRowIsExact | src/swagui/layouts/HorizontalList.java:40-49 | after an update, a width-wrapping row whose height does not wrap is exactly the sum of its children's widths plus (n-1) spacings and two paddings |
| EngineFacts.WrappedColumnIsExact | src/swagui/layouts/VerticalList.java:36-49 | the same for the height of a height-wrapping column whose width does not wrap |
| EngineFacts.SharedRowFitsAfterUpdate | src/swagui/layouts/HorizontalList.java:54-72 | a sharing row whose height does not wrap, with non-negative stretch and weights, some positive, updates without exception and its children, spacing and padding fit its width |
| EngineFacts.SharedColumnFitsAfterUpdate | src/swagui/layouts/VerticalList.java:54-72 | the same for the height of a column whose width does not wrap |
| EngineFacts.FixedHeightRowKeepsWidths | src/swagui/layouts/HorizontalList.java:79-100 | once a non-empty row's width pass succeeds and its height does not wrap, the update does not throw, keeps the row's width and leaves every child as wide as the width pass made it |
| EngineFacts.FixedWidthColumnKeepsHeights | src/swagui/layouts/VerticalList.java:79-100 | the mirror for a column whose width does not wrap: no exception, the same height, and the children's heights from the height pass |
| EngineFacts.RowUpdatesItsChildTwice | src/swagui/layouts/HorizontalList.java:40-90 | a row wrapping both axes takes its width from its lone child after one update, while the child ends as a second update leaves it |
| EngineFacts.FrameLayoutOfTwo | src/swagui/layouts/FrameLayout.java:81-170 | a wrapping frame layout at the origin holding two 10 x 10 leaves at x = a and x = c becomes c - a + 10 wide and re-centres both leaves at the origin |
| EngineFacts.WrappedBothAxesRowNotExact | src/swagui/layouts/HorizontalList.java:33-100 | a row with no spacing or padding, wrapping both axes around such a frame layout with a < c, updates without exception to c - a + 10 wide while its one child ends 10 wide, so the exact-width rule fails when the height also wraps |
| ChildPasses.FillWidths | src/swagui/layouts/Frame.java:47-49 | fill-parent children get exactly the given width, the others are unchanged |
| ChildPasses.FillHeights | src/swagui/layouts/Frame.java:70-72 | fill-parent children get exactly the given height, the others are unchanged |
| ChildPasses.FillIdempotent | src/swagui/layouts/Frame.java:44-50 | filling twice is filling once |
| ChildPasses.WrapToWidest | src/swagui/layouts/Frame.java:38-42 | width is the widest child plus 2p (bounding every child, attained by one); no children throws NoSuchElement with nothing changed |
| ChildPasses.WrapToTallest | src/swagui/layouts/Frame.java:62-65 | height is the tallest child plus 2p; no children throws NoSuchElement |
| ChildPasses.AlignXs | src/swagui/layouts/Frame.java:84-86 | only each child's x changes: left children touch lo, right children hi, centred ones the midpoint |
| ChildPasses.AlignYs | src/swagui/layouts/Frame.java:89-91 | only each child's y changes, by row |
| ChildPasses.InsetXs | src/swagui/layouts/FrameLayout.java:149-170 | only each child's x changes; centred children take the parent's x |
| ChildPasses.InsetYs | src/swagui/layouts/FrameLayout.java:175-196 | only each child's y changes; middle children take the parent's y |
| ChildPasses.InsetXsIsAlignXs | src/swagui/layouts/VerticalList.java:159-180 | the explicit cross-axis formula equals `alignTileHorz` on the padded edges |
| ChildPasses.InsetYsIsAlignYs | src/swagui/layouts/HorizontalList.java:159-180 | the explicit cross-axis formula equals `alignTileVert` on the padded edges |
| ChildLoops.UpdateEach | src/swagui/layouts/Layout.java:121 | the loop over the children equals `Engine.UpdateAll`, stopping at the first exception |
| ChildLoops.FillEachWidth | src/swagui/layouts/Frame.java:47-49 | the loop equals `FillWidths` |
| ChildLoops.FillEachHeight | src/swagui/layouts/Frame.java:70-72 | the loop equals `FillHeights` |
| ChildLoops.WidestOrFill | src/swagui/layouts/Frame.java:32-51 | equals `Engine.FrameWidth`, the width pass of a frame and the cross-axis width of a vertical list |
| ChildLoops.TallestOrFill | src/swagui/layouts/HorizontalList.java:79-100 | equals `Engine.CrossHeight` |
| ChildLoops.RowOrShare | src/swagui/layouts/HorizontalList.java:33-74 | equals `Engine.HorizontalWidth` |
| ChildLoops.ColumnOrShare | src/swagui/layouts/VerticalList.java:33-74 | equals `Engine.VerticalHeight` |
| ChildLoops.ShareEachWidth | src/swagui/layouts/HorizontalList.java:69-72 | the sharing loop equals `HorizontalListSpec.ShareWidth` |
| ChildLoops.ShareEachHeight | src/swagui/layouts/VerticalList.java:54-72 | the sharing loop equals `VerticalListSpec.ShareHeight` |
| ChildLoops.PlaceEachX | src/swagui/layouts/HorizontalList.java:132-153 | the cursor loop equals `HorizontalListSpec.PlaceXs` |
| ChildLoops.PlaceEachY | src/swagui/layouts/VerticalList.java:105-154 | the cursor loop equals `VerticalListSpec.PlaceYs` |
| ChildLoops.InsetEachX | src/swagui/layouts/FrameLayout.java:149-170 | the loop equals `InsetXs` |
| ChildLoops.InsetEachY | src/swagui/layouts/FrameLayout.java:175-196 | the loop equals `InsetYs` |
| ChildLoops.AlignEach | src/swagui/layouts/Frame.java:79-93 | the loop equals the frame's position pass |
| HorizontalListSpec.WrapWidth | src/swagui/layouts/HorizontalList.java:36-49 | width is the sum of child widths plus (n-1) spacing plus 2p; nothing else changes |
| HorizontalListSpec.ShareWidth | src/swagui/layouts/HorizontalList.java:54-72 | each fill-parent child gets `stretch*hWeight/totalWeight`, truncated; the others and the list are unchanged; it throws DivisionByZero iff some child fills and the weights total 0 |
| HorizontalListSpec.WidthsSplit | src/swagui/layouts/HorizontalList.java:54-63 | the total width is the fixed part plus the filled part |
| HorizontalListSpec.SharedRowFits | src/swagui/layouts/HorizontalList.java:66-72 | with non-negative stretch and weights totalling more than 0: no exception, the shares sum to at most the stretch, and less than one pixel per sharing child is lost; the row then fits its width |
| HorizontalListSpec.Excess | src/swagui/layouts/HorizontalList.java:117-130 | 0 when any child fills; otherwise the stretch divided by n, with no children a DivisionByZero |
| HorizontalListSpec.PlaceXs | src/swagui/layouts/HorizontalList.java:132-153 | only each child's x changes |
| HorizontalListSpec.XPass | src/swagui/layouts/HorizontalList.java:105-154 | the x pass throws iff there are no children, and otherwise changes only the children's x |
| HorizontalListSpec.YPass | src/swagui/layouts/HorizontalList.java:159-180 | only the children's y changes |
| HorizontalListSpec.CursorAdvance | src/swagui/layouts/HorizontalList.java:152 | the cursor advances by `w + excess + spacing` per child |
| HorizontalListSpec.PlacedInCell | src/swagui/layouts/HorizontalList.java:134-150 | with non-negative width and excess, each child lies within its cell `[cursor, cursor + w + excess]`; a left child starts at the cursor |
| HorizontalListSpec.CellsIncrease | src/swagui/layouts/HorizontalList.java:132-153 | with non-negative widths, excess and spacing, a later cell starts after an earlier cell ends |
| HorizontalListSpec.PlacedInOrder | src/swagui/layouts/HorizontalList.java:132-153 | children are placed left to right without overlap |
| HorizontalListSpec.EvenRowFits | src/swagui/layouts/HorizontalList.java:120-130 | with no filling child, the even split leaves the last cell within n pixels of the padded right edge and never past it |
| VerticalListSpec.WrapHeight | src/swagui/layouts/VerticalList.java:36-49 | height is the sum of child heights plus (n-1) spacing plus 2p |
| VerticalListSpec.ShareHeight | src/swagui/layouts/VerticalList.java:54-72 | each fill-parent child gets `stretch*vWeight/totalWeight`; a DivisionByZero iff some child fills and the weights total 0 |
| VerticalListSpec.HeightsSplit | src/swagui/layouts/VerticalList.java:54-63 | the total height is the fixed part plus the filled part |
| VerticalListSpec.SharedColumnFits | src/swagui/layouts/VerticalList.java:66-72 | the shares fit the stretch with less than one pixel lost per sharing child; the column fits its height |
| VerticalListSpec.Excess | src/swagui/layouts/VerticalList.java:117-130 | 0 when any child fills; otherwise the stretch divided by n, with no children a DivisionByZero |
| VerticalListSpec.PlaceYs | src/swagui/layouts/VerticalList.java:132-153 | only each child's y changes |
| VerticalListSpec.YPass | src/swagui/layouts/VerticalList.java:105-154 | throws iff there are no children; otherwise changes only the children's y |
| VerticalListSpec.XPass | src/swagui/layouts/VerticalList.java:159-180 | only the children's x changes |
| VerticalListSpec.CursorAdvance | src/swagui/layouts/VerticalList.java:152 | the cursor descends by `h + excess + spacing` per child |
| VerticalListSpec.PlacedInCell | src/swagui/layouts/VerticalList.java:134-150 | with non-negative height and excess, each child lies within its cell `[cursor - h - excess, cursor]`; a top child ends at the cursor |
| VerticalListSpec.CellsDecrease | src/swagui/layouts/VerticalList.java:132-153 | a later cell lies entirely below an earlier one |
| VerticalListSpec.PlacedInOrder | src/swagui/layouts/VerticalList.java:132-153 | children are placed top to bottom without overlap |
| VerticalListSpec.EvenColumnFits | src/swagui/layouts/VerticalList.java:120-130 | the even split leaves the last cell within n pixels of the padded bottom edge and never past it |
| ListShares.Shares | src/swagui/layouts/HorizontalList.java:69-72 | one share per weight |
| ListShares.SharesWithinStretch | src/swagui/layouts/HorizontalList.java:66-72 | shares of a non-negative stretch by non-negative weights summing to the total never exceed the stretch and lose fewer pixels than there are positive weights |
| ListShares.SharesScaled | src/swagui/layouts/HorizontalList.java:69-72 | scaled back by the total, the shares lie within (total - 1) per positive weight of stretch times the weights |
| ListShares.EvenSplit | src/swagui/layouts/HorizontalList.java:129 | n equal parts of a non-negative slack never exceed it and leave less than n over |
| Lists.ListLayout.Init | src/swagui/layouts/ListLayout.java:31-36 | the children in order, fill-parent on both axes, invisible, depth 1, padding and spacing 0 |
| Lists.ListLayout.HorizontalList | src/swagui/layouts/HorizontalList.java:18-20 | the new list is `Engine.Update` of the defaults with its children (the constructor ends with `update()`) |
| Lists.ListLayout.VerticalList | src/swagui/layouts/ListLayout.java:31-38 | the same for a vertical list |
| Lists.ListLayout.AddTile | src/swagui/layouts/ListLayout.java:45-49 | appends, then the list is the update of the new tree |
| Lists.ListLayout.AddTileAt | src/swagui/layouts/ListLayout.java:57-61 | inserts at the index, then updates; an index out of range throws IndexOutOfBounds and changes nothing |
| Lists.ListLayout.RemoveTile | src/swagui/layouts/ListLayout.java:68-72 | removes the first occurrence, then updates |
| Lists.ListLayout.GetChildren | src/swagui/layouts/ListLayout.java:77-79 | returns the current children unchanged |
| Lists.ListLayout.SetPadding | src/swagui/layouts/ListLayout.java:90-94 | stores exactly the padding, then updates |
| Lists.ListLayout.SetSpacing | src/swagui/layouts/ListLayout.java:105-109 | stores exactly the spacing, then updates |
| Lists.ListLayout.Update | src/swagui/layouts/HorizontalList.java:22-28 | the list's passes in its orientation's order give exactly `Engine.Update` |
| Lists.ListLayout.UpdateRowWidth | src/swagui/layouts/HorizontalList.java:33-74 | equals `Engine.HorizontalWidth` |
| Lists.ListLayout.UpdateRowHeight | src/swagui/layouts/HorizontalList.java:79-100 | equals `Engine.CrossHeight` |
| Lists.ListLayout.UpdateRowX | src/swagui/layouts/HorizontalList.java:105-154 | equals `HorizontalListSpec.XPass` |
| Lists.ListLayout.UpdateRowY | src/swagui/layouts/HorizontalList.java:159-180 | equals `HorizontalListSpec.YPass` |
| Lists.ListLayout.UpdateColumnHeight | src/swagui/layouts/VerticalList.java:33-74 | equals `Engine.VerticalHeight` |
| Lists.ListLayout.UpdateColumnWidth | src/swagui/layouts/VerticalList.java:79-100 | equals `Engine.FrameWidth`: the same pass as the frame's width |
| Lists.ListLayout.UpdateColumnY | src/swagui/layouts/VerticalList.java:105-154 | equals `VerticalListSpec.YPass` |
| Lists.ListLayout.UpdateColumnX | src/swagui/layouts/VerticalList.java:159-180 | equals `VerticalListSpec.XPass` |
| FrameLayoutSpec.BoundingWidth | src/swagui/layouts/FrameLayout.java:91-115 | only the frame layout's own width may change; it throws NoSuchElement exactly when it wraps its width and has no children, and then leaves the box as it was; a wrapping width leaves the children as they were (the span is `FrameLayoutSpec.WrapSpansWidth`); otherwise the fill-parent children get W - 2p (`ChildPasses.FillWidths`) and nothing else changes |
| FrameLayoutSpec.BoundingHeight | src/swagui/layouts/FrameLayout.java:120-144 | the same for the height pass: only the own height may change, NoSuchElement exactly for a wrapping height with no children, children kept when wrapping (span: `FrameLayoutSpec.WrapSpansHeight`), otherwise fill-parent children get H - 2p |
| FrameLayoutSpec.WrapSpansWidth | src/swagui/layouts/FrameLayout.java:94-106 | the wrapped width minus padding runs from the leftmost child's left edge to the rightmost child's right edge |
| FrameLayoutSpec.WrapSpansHeight | src/swagui/layouts/FrameLayout.java:123-135 | the wrapped height minus padding runs from the lowest bottom edge to the highest top edge |
| FrameLayoutSpec.Place | src/swagui/layouts/FrameLayout.java:149-196 | only the children's x and y change; centred children take the frame layout's centre |
| FrameLayoutSpec.Update | src/swagui/layouts/FrameLayout.java:81-86 | children change only in their fields; it throws (NoSuchElement) iff an axis wraps with no children |
| FrameLayoutSpec.LoneChildWrap | src/swagui/layouts/FrameLayout.java:94-135 | wrapping one even-sized child gives exactly its size plus padding |
| FrameLayoutSpec.PlacesLikeFrame | src/swagui/layouts/FrameLayout.java:149-196 | the frame layout's placement equals the frame's alignment on the padded interior |
| FrameLayouts.FrameLayout.Init | src/swagui/layouts/FrameLayout.java:27-32 | the children in order, fill-parent on both axes, invisible, depth 2, padding 0 |
| FrameLayouts.FrameLayout.Create | src/swagui/layouts/FrameLayout.java:27-34 | the new frame layout is `Engine.Update` of the defaults with its children |
| FrameLayouts.FrameLayout.AddTile | src/swagui/layouts/FrameLayout.java:41-45 | appends, then updates |
| FrameLayouts.FrameLayout.RemoveTile | src/swagui/layouts/FrameLayout.java:52-56 | removes the first occurrence, then updates |
| FrameLayouts.FrameLayout.GetChildren | src/swagui/layouts/FrameLayout.java:61-63 | returns the current children unchanged |
| FrameLayouts.FrameLayout.SetPadding | src/swagui/layouts/FrameLayout.java:74-78 | stores exactly the padding, then updates |
| FrameLayouts.FrameLayout.Update | src/swagui/layouts/FrameLayout.java:81-86 | width, height, x, y give exactly `Engine.Update` |
| FrameLayouts.FrameLayout.UpdateWidth | src/swagui/layouts/FrameLayout.java:91-115 | the new state and the exception equal `FrameLayoutSpec.BoundingWidth` of the old state: only the own width may change, the children are kept when wrapping, and otherwise fill-parent children get W - 2p |
| FrameLayouts.FrameLayout.UpdateHeight | src/swagui/layouts/FrameLayout.java:120-144 | the new state and the exception equal `FrameLayoutSpec.BoundingHeight` of the old state: only the own height may change, the children are kept when wrapping, and otherwise fill-parent children get H - 2p |
| FrameLayouts.FrameLayout.UpdateX | src/swagui/layouts/FrameLayout.java:149-170 | children's x set by `InsetXs` from the frame layout's record |
| FrameLayouts.FrameLayout.UpdateY | src/swagui/layouts/FrameLayout.java:175-196 | children's y set by `InsetYs` |
| DepthOrder.CompareNeverZero | src/swagui/tiles/Scene2D.java:26-27 | the comparator `2*(d1-d2)+1` is never 0 and is negative iff d1 < d2 |
| DepthOrder.PlacementByComparator | src/swagui/tiles/Scene2D.java:26-27 | a tree-set insertion lands after every element the comparator puts before it and before every other |
| DepthOrder.InsertByPlacement | src/swagui/tiles/Scene2D.java:26-27 | insertion into a sorted sequence lands after every element of depth <= its own and before every deeper one |
| DepthOrder.InsertBySorted | src/swagui/tiles/Scene2D.java:96 | insertion keeps the sequence sorted |
| DepthOrder.InsertByMultiset | src/swagui/tiles/Scene2D.java:96 | insertion adds exactly the new element: nothing is dropped as a duplicate |
| DepthOrder.InsertByWithKey | src/swagui/tiles/Scene2D.java:96 | among elements of one depth, the new one comes last |
| DepthOrder.SortBySorted | src/swagui/tiles/Scene2D.java:96 | inserting a sequence gives a sorted result |
| DepthOrder.SortByMultiset | src/swagui/tiles/Scene2D.java:96 | and a permutation of the input |
| DepthOrder.SortByWithKey | src/swagui/tiles/Scene2D.java:96 | and a stable one: each depth's elements keep their order |
| DepthOrder.SortByLength | src/swagui/tiles/Scene2D.java:96 | the length is kept |
| DepthOrder.SortedUnique | src/swagui/graphics/TileShader.java:123-124 | two sorted sequences with the same elements at every depth, in the same order, are equal |
| DepthOrder.StableSortIsSortBy | src/swagui/graphics/TileShader.java:123-124 | any stable depth sort, such as `List.sort`, equals the tree-set order |
| DepthOrder.SortBySortedIdentity | src/swagui/graphics/TileShader.java:123-124 | sorting a sorted sequence changes nothing |
| DepthOrder.SortedWithout | src/swagui/graphics/TileShader.java:130-132 | removing one element keeps a sequence sorted |
| DepthOrder.LastIsDeepest | src/swagui/tiles/Scene2D.java:26-27 | in a sorted sequence the last element is the deepest |
| Scenes.DrawOrderFacts | src/swagui/tiles/Scene2D.java:91-98 | the scene's tiles are sorted by depth, a permutation of `getAncestors`, stable per depth, and never include the root |
| Scenes.ReachedTilesDrawn | src/swagui/tiles/Scene2D.java:96 | every direct child and every ancestor of a layout child is in the scene's tiles |
| Scenes.AddAll | src/swagui/tiles/Scene2D.java:96 | `addAll` into the cleared set, one insertion per tile, gives `SortBy` of the ancestors |
| Scenes.Scene.constructor | src/swagui/tiles/Scene2D.java:30-36 | the root is a layout whose only child is the background frame at depth 0, visible; no tiles yet |
| Scenes.Scene.Init | src/swagui/tiles/Scene2D.java:39-58 | without an input handler it throws IllegalState and changes nothing; otherwise it resizes the background and updates |
| Scenes.Scene.Resize | src/swagui/tiles/Scene2D.java:49-57 | the root's first child (the background the constructor put there) takes the size; the root is then `Engine.Update` of that tree, and the tiles its draw order |
| Scenes.Scene.Update | src/swagui/tiles/Scene2D.java:91-98 | the previous tiles are discarded; the root becomes `Engine.Update` of itself; on success the tiles are the draw order of its ancestors |
| Buttons.CursorEvents | src/swagui/input/Button.java:114-127 | at most one event, one exactly when the hover state changes: an enter iff the cursor was not over; coordinates relative to the centre |
| Buttons.ClickEvents | src/swagui/input/Button.java:90-101 | an event iff the cursor is over; a left press gives the left-click event, any other the click event with its button and action; relative coordinates |
| Buttons.CursorIdempotent | src/swagui/input/Button.java:121-126 | a second update at the same position emits nothing |
| Buttons.CentreAndCornersOver | src/swagui/input/Button.java:117-118 | the hit test is inclusive: the centre and all four corners are over |
| Buttons.EnterLeaveAlternate | src/swagui/input/Button.java:121-126 | over any sequence of moves, enter and leave events alternate, starting with the one the initial state allows, and the final state follows from their count |
| Buttons.Button.constructor | src/swagui/input/Button.java:32-36 | a frame with its defaults, no children, not hovered, no events |
| Buttons.Button.Placed | src/swagui/input/Button.java:46-52 | the same frame at the given position and size |
| Buttons.Button.UpdateCursor | src/swagui/input/Button.java:114-127 | `mouseOver` becomes the hit test and the cursor events are appended to the log |
| Buttons.Button.OnMouseButton | src/swagui/input/Button.java:90-102 | the click events (if over) are appended; the hover state is unchanged |
| Buttons.Button.Update | src/swagui/input/Button.java:73-76 | the cursor update against the old position, then the frame's update |
| Buttons.Button.GetColour | src/swagui/input/Button.java:79-82 | darkened by 15 while hovered, otherwise the base corners (darkening by 0) |
| GraphicsTiles.Entries | src/swagui/graphics/TileShader.java:124 | each tile paired with its current depth, the sort key |
| GraphicsTiles.Items | src/swagui/graphics/TileShader.java:124 | the tiles of a sequence of entries, in order |
| GraphicsTiles.CurrentEntries | src/swagui/graphics/TileShader.java:124 | entries whose depths are current are rebuilt exactly from their tiles |
| GraphicsTiles.SortKeepsCurrent | src/swagui/graphics/TileShader.java:123-124 | sorting keeps every entry's depth current |
| GraphicsTiles.AddToSorted | src/swagui/graphics/TileShader.java:122-125 | appending to a sorted list and sorting stably inserts the new tile after every tile of depth <= its own and before every deeper one |
| GraphicsTiles.EntriesWithout | src/swagui/graphics/TileShader.java:130-132 | removing the k-th tile removes the k-th entry |
| GraphicsTiles.RemoveKeepsSorted | src/swagui/graphics/TileShader.java:130-132 | removing the first occurrence keeps the list sorted |
| GraphicsTiles.SortedRegistry | src/swagui/graphics/TileShader.java:122-125 | the sorted list's entries are sorted by depth and it is a permutation of the input |
| GraphicsTiles.ItemsMultiset | src/swagui/graphics/TileShader.java:123-124 | sorting neither adds nor drops a tile |
| GraphicsTiles.ItemsOfMultiset | src/swagui/graphics/TileShader.java:123-124 | entry sequences with the same multiset have the same multiset of tiles |
| GraphicsTiles.TileShader.constructor | src/swagui/graphics/TileShader.java:24 | the shader starts with no tiles |
| GraphicsTiles.TileShader.AddTile | src/swagui/graphics/TileShader.java:122-125 | the list is the stable depth sort of old ++ [t], sorted, with multiset old + {t} |
| GraphicsTiles.TileShader.RemoveTile | src/swagui/graphics/TileShader.java:130-132 | removes the first occurrence only, an absent tile changes nothing, and sortedness is kept |
| GraphicsTiles.Tile.constructor | src/swagui/graphics/Tile.java:18-24 | sets x, y, width and height, depth 0, angle 0, colour white, and registers the tile with the shader |
| GraphicsTiles.Tile.Delete | src/swagui/graphics/Tile.java:45-47 | removes the tile's first occurrence from the shader's list |
| GraphicsTiles.Tile.SetX | src/swagui/graphics/Tile.java:56-58 | changes only x |
| GraphicsTiles.Tile.SetY | src/swagui/graphics/Tile.java:67-69 | changes only y |
| GraphicsTiles.Tile.SetWidth | src/swagui/graphics/Tile.java:78-80 | changes only the width |
| GraphicsTiles.Tile.SetHeight | src/swagui/graphics/Tile.java:89-91 | changes only the height |
| GraphicsTiles.Tile.SetAngle | src/swagui/graphics/Tile.java:100-102 | changes only the angle |
| GraphicsTiles.Tile.SetDepth | src/swagui/graphics/Tile.java:111-113 | changes only the depth |
| GraphicsTiles.Tile.SetColour | src/swagui/graphics/Tile.java:122-124 | changes only the colour |
| GraphicsTiles.Tile.Edges | src/swagui/graphics/Tile.java:138-155 | edges are the centre -/+ the truncated half size; a non-negative size contains the centre |
| Colours.Clamp | src/swagui/graphics/Colour.java:25-30 | above 255 becomes 255, 0..255 is kept, negative values pass through |
| Colours.Rgb | src/swagui/graphics/Colour.java:39-41 | alpha is 255; displayable channels are kept |
| Colours.Rgba | src/swagui/graphics/Colour.java:51-53 | displayable channels are kept |
| Colours.Hex | src/swagui/graphics/Colour.java:60-62 | for 0..0xFFFFFF: R = hex/65536, G = (hex/256)%256, B = hex%256, A = 255, all displayable |
| Colours.HexThenPack | src/swagui/graphics/Colour.java:60-62 | unpacking a 24-bit value and packing it gives the value back |
| Colours.PackThenHex | src/swagui/graphics/Colour.java:60-62 | packing displayable channels and unpacking gives them back, opaque |
| Colours.WhiteAndBlack | src/swagui/graphics/Colour.java:10-13 | WHITE is (255,255,255,255) and BLACK (0,0,0,255) |
| Colours.Lighten | src/swagui/graphics/Colour.java:69-71 | alpha kept; R, G, B raised by the amount, capped at 255 |
| Colours.Darken | src/swagui/graphics/Colour.java:78-80 | alpha kept; a non-negative amount lowers R, G, B exactly, possibly below 0 |
| Colours.LightenUndoesDarken | src/swagui/graphics/Colour.java:69-80 | lightening undoes darkening by the same non-negative amount |
| Colours.DarkenUndoesLighten | src/swagui/graphics/Colour.java:69-80 | darkening undoes lightening that did not reach the cap |
| Colours.MixNone | src/swagui/graphics/Colour.java:88-94 | mixing 0% gives the colour itself |
| Colours.MixAll | src/swagui/graphics/Colour.java:88-94 | mixing 100% gives the other colour |
| Colours.MixInRange | src/swagui/graphics/Colour.java:88-94 | mixing displayable colours by 0..100% gives a displayable colour |
| Colours.MixChannelInRange | src/swagui/graphics/Colour.java:90-93 | one mixed channel of displayable values stays in 0..255 |
| Gradients.Horizontal | src/swagui/graphics/Gradient.java:33-35 | corners [l, l, r, r] |
| Gradients.Vertical | src/swagui/graphics/Gradient.java:43-45 | corners [bottom, top, top, bottom] |
| Gradients.PositiveDiagonal | src/swagui/graphics/Gradient.java:53-56 | corners [m, tr, m, bl] with m the even mix |
| Gradients.NegativeDiagonal | src/swagui/graphics/Gradient.java:64-67 | corners [br, m, tl, m] with m the even mix |
| Gradients.DiagonalsDisplayable | src/swagui/graphics/Gradient.java:53-67 | diagonal gradients of displayable colours are displayable |
| Gradients.Lighten | src/swagui/graphics/Gradient.java:74-81 | exactly four corners, each lightened |
| Gradients.Darken | src/swagui/graphics/Gradient.java:88-95 | exactly four corners, each darkened |
| Gradients.DarkenByZero | src/swagui/graphics/Gradient.java:88-95 | darkening by 0 keeps the first four corners |
| Gradients.LightenUndoesDarken | src/swagui/graphics/Gradient.java:74-95 | lightening undoes darkening, corner by corner |
| Gradients.Mix | src/swagui/graphics/Gradient.java:103-110 | four corners, corner i the mix of both corners i |
| Gradients.MixEnds | src/swagui/graphics/Gradient.java:103-110 | mixing 0% or 100% gives one of the two gradients' corners back |
| Gradients.MixHorizontal | src/swagui/graphics/Gradient.java:103-110 | mixing two horizontal gradients is the horizontal gradient of the mixed edge colours |

## Left out

- Rendering, shaders, textures, meshes, windowing and the GLFW input plumbing (`render`, `renderTile`, `loadMesh`, `loadTexture`, `Shader`, `Window`, `InputHandler`): these are GL and operating-system calls. Tiles are skipped at draw time when invisible, and that is not modelled either.
- The event registry (`EventHandler`): button events go to an append-only log (`Buttons.Button.events`) rather than to registered callbacks. The cursor position that `Button.update` reads from the input handler is a parameter. `Scene2D.init`'s check that the handler is an `InputHandler` is a boolean parameter. The resize callback it registers is the method `Scenes.Scene.Resize`.
- Floating point: `getTransform`, `Matrix4` and the `aspectRatio` field.
- The demo program (`Test.java`). The code has no concurrency, so none is modelled.
- Java's 32-bit wrap-around is not modelled; pixel sizes, weights, depths and channels are unbounded integers. This includes the subtraction in the depth comparator.
- `setScene`/`getScene` and the scene's `update` they trigger from `Layout.addTile`, `removeTile`, `setPadding` and `setScene`: the layouts are modelled without a back-reference to their scene. `Layout.setScene` is not modelled.
- `Scene2D`'s shader handling (`shader.init`, `render`, `destroy`), `getColour` and the colour `PICO_VOID`. The tile's initial colour `SEARBROOK` is not defined in this version of `Colour`, so `Tiles.Tile`'s constructor leaves the colour unspecified. Colours are not part of `TileRec`.
- Children are values, not object references. A child shared by two parents is therefore not expressible, and `removeTile` compares children by value instead of by identity. The Java code never shares children.
- The `TreeSet` is modelled by its insertion order (`DepthOrder.InsertBy`), not as a balanced tree.
- `Buttons.Button` is not a kind of tree node, because its update reads the cursor. A button placed inside a layout is therefore updated as a plain frame by `Engine.Update`.
- Scenes.Scene.Resize: resizes the root's first child, where the constructor puts the background (`Scenes.Resized` resizes `children[0]`). Scene2D keeps the background in a field of its own and resizes that tile wherever it is (Scene2D.java:49-55). The model's children are values without identity, so it differs from Scene2D once a caller reaches the root through `getRoot()` (Scene2D.java:79) and inserts a tile at index 0 (`addTile(t, 0)`, Layout.java:54-59) or removes the background (`removeTile`, Layout.java:66-70).
- Gradients.Lighten, Gradients.Darken, Gradients.Mix and Buttons.Button.GetColour require four corners. Java would throw an index error otherwise, and every factory makes four.
- Tiles.Tile.SetFills: the tile class keeps one fill per axis, as the layouts read it (`getHFill`, `getVFill`, `setFill(h, v)`). The tile source in this version has a single `fill`; `SetFill` sets both axes to it.
- `graphics/TileShader.INSTANCE`, a singleton, is passed to `GraphicsTiles.Tile`'s constructor and `Delete` as an explicit parameter.
- `HorizontalList` and `VerticalList` are one class, `Lists.ListLayout`, told apart by its `horizontal` flag. In the same way `Frame` is `Layouts.Layout` with `isFrame` set.
