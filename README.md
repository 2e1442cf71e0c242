# Collision broad phase, sprite animation and layer packing — a Dafny model

This project models the core of a small TypeScript 2D game engine:

- **The quadtree broad phase** (`quadtree.ts`). It is a recursive partition of a fixed rectangle into four quadrants. `getIndex` classifies an area against the midlines, with `-1` for an area that fits no single quadrant. `insert` pushes an entry, and a node over capacity splits and moves its entries down. `retrieve` descends into one quadrant and then appends the node's own entries.
- **The collider detection pass** (`colliderComponent.ts`). A process-wide registry holds every collider. `update` indexes the other eligible colliders into a fresh quadtree over the 770 by 578 screen, queries that tree with its own area, and reports each confirmed overlap to its handler. A collider is eligible when it is not the querier, is enabled, has an active owner, and has its flag accepted by the querier's mask.
- **The sprite animation state machine** (`spriteComponent.ts`). It walks the numbered frames `<name>1`, `<name>2`, … of a sprite sheet. It wraps back to the first frame and fires the end-of-animation callbacks once the next frame is missing. A wait counter and a frame skip pace the walk, and `updateComponents` computes the 20-number vertex layout of the current frame.
- **The layer component** (`layerComponent.ts`). `setup` builds the index pattern for 1000 quads. Each `display` packs every sprite's 20 vertex numbers into a shared store at offset `20·i`, builds the matching index list, and issues one draw call of `6·n` indices.

## Files

| file | contents |
|---|---|
| `geometry.dfy` | `Geometry` (rectangles), `Optional` (an `Option` type) and `Sequences` (distinctness lemmas) |
| `quadtree.dfy` | `Quadtree` |
| `collider.dfy` | `Colliders` |
| `sprite.dfy` | `Sprites` |
| `layer.dfy` | `Layers` |

## How the source maps to Dafny

**Quadtree nodes are values.** A node is `Node(level, bounds, items, kids)`, and each entry pairs a collider with the area it had when inserted. The constructor, `clear` and `split` become functions that return the new node. `insert` is a recursive method that keeps the source's `while` loop; this loop splices entries out of the node and inserts them into children. `Valid` is the shape invariant `insert` keeps:

- a node has zero or four children;
- only a node whose level is below `MaxLevels` has children;
- a node with children holds directly only entries classified `-1`;
- child `j` is one level deeper, covers quadrant `j`, and holds only entries classified `j`.

A second invariant, `Capacity`, states the splitting rule at every node: a childless node below the maximum depth holds at most 10 entries. `insert` requires and keeps both invariants.

**Colliders and sprites are classes.** Their fields are the ones the source keeps on the object, plus a few that stand for inputs or observations. A collider's `enabled`, `ownerActive`, `worldX` and `worldY` are what the framework would supply. A sprite's `fired` is a log of the callbacks fired so far. The module-level `colliders` array becomes the `Registry` class. `update` returns the sequence of `onCollision` arguments as its call log, plus (as a ghost) the tree it built.

**The sprite's animation step has a value form.** It is specified by the functions `NextFrame`, `MeshStep` and `Tick` on a value `Anim`. Each method is proved to move the object's state exactly as its function says. The end-of-animation callbacks are identifiers, and firing one appends it to the log `fired`.

**The layer is checked against specification functions.** `display` is modelled over a sequence of sprites. Each sprite gives whether it has a sprite sheet and its vertex store, if it has one. The packing loop writes into an `array<real>` and is proved against the specification functions `Pack` and `Indices`.

The remark at `colliderComponent.ts:102` says collisions are at least doubled. The code does not bear this out. A quadtree entry lives in exactly one node, so a retrieval holds each inserted entry at most once. When the registry holds each collider once, one `update` reports each other collider at most once (`Colliders.ColliderComponent.Update`, `Colliders.ConfirmedDistinct`). Seeing a pair twice can come from both colliders running their own pass, from a collider whose `setup` ran twice, or from several registry entries that stand for one object.

`retrieve` is not complete. A query that straddles a midline gets `-1`, so the children are never searched. The model therefore proves the partial guarantee: the query finds every overlapping entry when it never straddles a midline on the way down. It also exhibits a tree and a query for which an overlapping entry is missed, both on a hand-built tree (`Quadtree.StraddlingQueryMisses`) and on one built by eleven inserts (`Quadtree.InsertedTreeMisses`).

## Model

| member | source | states |
|---|---|---|
| Quadtree.New | client/src/components/quadtree.ts:22-27 | a new node has the given level and bounds, no direct colliders and no children |
| Quadtree.Clear | client/src/components/quadtree.ts:30-33 | `clear` keeps the node's level and bounds, drops its children and leaves it holding no entries |
| Quadtree.ClearEmpties | client/src/components/quadtree.ts:30-33 | `clear` keeps level and bounds and drops colliders and children: the result equals a fresh node, holds nothing and is valid |
| Quadtree.Split | client/src/components/quadtree.ts:36-75 | `split` keeps the node's level, bounds and own entries, and gives it four empty childless children one level deeper, child `j` over quadrant `j` |
| Quadtree.SplitShape | client/src/components/quadtree.ts:36-75 | `split` yields exactly four empty children one level deeper over the quadrants in the order bottom-left, top-left, bottom-right, top-right; it keeps the node's own entries, level and bounds; `split` twice equals `split` once; a childless node below the maximum depth with only `-1` entries is valid after the split |
| Quadtree.QuadrantsHalve | client/src/components/quadtree.ts:39-74 | every child's bounds are half the parent's width and height, placed at the parent's bottom-left, top-left, bottom-right and top-right corners |
| Quadtree.QuadrantsTile | client/src/components/quadtree.ts:39-74 | a point lies in the parent's bounds exactly when it lies in one of the four quadrants |
| Quadtree.GetIndex | client/src/components/quadtree.ts:77-102 | the result is in -1..3; k ≥ 0 means the area lies strictly inside both half-planes of quadrant k and of no earlier quadrant; -1 means it fits no quadrant |
| Quadtree.ClassifiedFitsQuadrant | client/src/components/quadtree.ts:77-102 | an area inside the node's bounds that is classified k lies inside the bounds of the child pushed at position k |
| Quadtree.MidlineIsAmbiguous | client/src/components/quadtree.ts:84-101 | an area touching or crossing either midline is classified -1 |
| Quadtree.ClassificationUnique | client/src/components/quadtree.ts:88-98 | a well-formed area fits at most one quadrant, so the order of the tests does not matter |
| Quadtree.SeparatedQuadrants | client/src/components/quadtree.ts:84-98 | areas classified into different quadrants are separated by a midline and do not intersect |
| Quadtree.Insert | client/src/components/quadtree.ts:104-133 | `insert` keeps the tree valid, its level and its bounds; it keeps the splitting rule at every node of the tree (`Capacity`: a childless node below the maximum depth holds at most 10 entries), so every node its recursion reaches splits once it overflows; the multiset of entries anywhere in the tree grows by exactly the inserted one; a node gains children only if it had them or overflowed below the maximum depth; a node with children keeps four; a childless node below the maximum depth that the new entry takes past 10 entries splits into four children, after which it holds directly only entries classified -1; a childless node that stays within 10 entries, or is at the maximum depth, just appends |
| Quadtree.Overflow | client/src/components/quadtree.ts:113-131 | on a node that the new entry takes past 10 entries below the maximum depth, the storing path gives a valid node with four children that keeps the splitting rule, has the same level and bounds, and holds exactly one more entry, the new one |
| Quadtree.Redistribute | client/src/components/quadtree.ts:116-131 | the redistribution loop terminates; on exit every entry left in the node is classified -1; the four children stay well-shaped and keep the splitting rule; the node's entries and its children's contents together form the same multiset |
| Quadtree.MoveEntry | client/src/components/quadtree.ts:125-127 | one splice removes entry i from the node's list (the others keep their order) and inserts it into child `index`, preserving the children's shape, their splitting rule and the combined multiset |
| Quadtree.LevelsBounded | client/src/components/quadtree.ts:116-119 | in a valid tree rooted at depth at most 5, no node is deeper than 5 |
| Quadtree.Retrieve | client/src/components/quadtree.ts:135-145 | the retrieval is a sub-multiset of the tree's contents, so an entry inserted once is retrieved at most once |
| Quadtree.RetrieveEndsWithItems | client/src/components/quadtree.ts:135-145 | the retrieval ends with the node's own entries, and is exactly them when the query fits no quadrant or the node has no children |
| Quadtree.RetrieveFromSelected | client/src/components/quadtree.ts:136-142 | every retrieved entry is held by the node itself or by the child the query's classification selects |
| Quadtree.RetrieveFindsOverlaps | client/src/components/quadtree.ts:135-145 | partial completeness: for a query that never straddles a midline on its way down, every stored entry overlapping it is retrieved |
| Quadtree.LeafDescends | client/src/components/quadtree.ts:138-142 | a node without children returns all its contents |
| Quadtree.StraddlingQueryMisses | client/src/components/quadtree.ts:136-142 | a valid (hand-built) tree and a query straddling the root's vertical midline for which a stored, overlapping entry is not retrieved |
| Quadtree.InsertedTreeMisses | client/src/components/quadtree.ts:104-142 | eleven inserts of one entry into a fresh root overflow it, so it splits; the result is a valid level-0 tree with four children that holds the entry, and a query that overlaps the entry but straddles the root's vertical midline does not retrieve it |
| Geometry.FromOrigin | client/src/components/quadtree.ts:45-50 | a rectangle built from origin, width and height has those minima and extents |
| Colliders.WorldBounds | client/src/components/colliderComponent.ts:76-81 | the pass indexes the screen rectangle from (0, 0) to (770, 578) |
| Colliders.Registry.constructor | client/src/components/colliderComponent.ts:17 | the registry starts empty |
| Colliders.ColliderComponent.constructor | client/src/components/colliderComponent.ts:40-41 | a new collider has no handler and is active |
| Colliders.ColliderComponent.Create | client/src/components/colliderComponent.ts:46-50 | `create` copies the flag, the mask (as the 32 bits `&` acts on) and the size |
| Colliders.ColliderComponent.Setup | client/src/components/colliderComponent.ts:57-62 | `setup` appends this collider to the registry exactly once and changes nothing else in it; it sets the handler only when a non-empty handler name is given |
| Colliders.ColliderComponent.Area | client/src/components/colliderComponent.ts:124-132 | the area's origin is the world position and its extents are the size |
| Colliders.ColliderComponent.Update | client/src/components/colliderComponent.ts:70-118 | with no handler there are no calls and an empty tree; otherwise the tree is a valid level-0 tree over the screen holding exactly the eligible registry members; the calls are the narrow phase over the retrieval; every call names an eligible, overlapping, active registry member; with a repetition-free registry no collider is reported twice; with a query that never straddles a midline every eligible, overlapping, active member is reported |
| Colliders.ColliderComponent.IndexOthers | client/src/components/colliderComponent.ts:76-98 | the `forEach` build loop yields a valid level-0 tree over the screen whose contents are the multiset of eligible registry members with their areas; up to capacity they sit in the root in registry order |
| Colliders.AddEntry | client/src/components/colliderComponent.ts:97 | one insertion adds the entry to the built tree's contents and keeps its shape and its splitting rule |
| Colliders.NarrowPhase | client/src/components/colliderComponent.ts:104-113 | the candidate loop reports, in order, exactly the candidates that overlap the area and are active |
| Colliders.InsertedMember | client/src/components/colliderComponent.ts:86-98 | an entry is inserted only for a registry member that is not the querier, is enabled, has an active owner and whose flag the querier's mask accepts, and only with that member's area |
| Colliders.InsertedComplete | client/src/components/colliderComponent.ts:86-98 | every such registry member is inserted with its area |
| Colliders.InsertedDistinct | client/src/components/colliderComponent.ts:86-98 | a repetition-free registry gives entries for distinct colliders |
| Colliders.CandidatesDistinct | client/src/components/colliderComponent.ts:104 | any sub-multiset of those entries, such as the retrieval, names each collider at most once |
| Colliders.ConfirmedMember | client/src/components/colliderComponent.ts:109-111 | a reported collider comes from a candidate that overlaps the area and is active |
| Colliders.ConfirmedComplete | client/src/components/colliderComponent.ts:109-111 | every candidate that overlaps the area and is active is reported |
| Colliders.ConfirmedDistinct | client/src/components/colliderComponent.ts:105-113 | candidates for distinct colliders give reports without repetition |
| Colliders.ReportedSound | client/src/components/colliderComponent.ts:104-112 | every reported collider is an eligible registry member that overlaps the querier's area and is active |
| Colliders.ReportedComplete | client/src/components/colliderComponent.ts:104-112 | when the query never straddles a midline, every eligible, overlapping, active registry member is reported |
| Colliders.MaskExcludes | client/src/components/colliderComponent.ts:93-95 | a candidate whose flag shares no bit with the querier's mask (flag 1 against mask 2, say) has no entry in the querier's tree and is never reported to it, whatever the candidate's own mask is |
| Colliders.Int32BitsPeriodic | client/src/components/colliderComponent.ts:93 | masks that agree modulo 2^32 accept the same flags, and flags that agree modulo 2^32 are accepted by the same masks |
| Sprites.DecimalString | client/src/components/spriteComponent.ts:133 | the rendering of a frame number is a non-empty string of digits with no leading zero |
| Sprites.DecimalRoundTrip | client/src/components/spriteComponent.ts:133 | reading the rendered digits back gives the number |
| Sprites.FrameNamesDistinct | client/src/components/spriteComponent.ts:133 | different frame numbers give different frame names |
| Sprites.NextFrame | client/src/components/spriteComponent.ts:132-148 | a frame name present in the sheet is shown and the counter advances by exactly one; an absent name at frame 1 shows the base name and stays at frame 1; an absent name at a later frame wraps (signalled as ended) to what frame 1 gives: frame 1's name and counter 2 if present, otherwise the base name and counter 1, so the retry cannot wrap again; the counter stays at least 1; the name shown is in the sheet or is the base name |
| Sprites.PlaysInOrder | client/src/components/spriteComponent.ts:132-137 | with frames 1..k in the sheet, an animation at frame j shows frames j..k in order |
| Sprites.CycleWraps | client/src/components/spriteComponent.ts:138-147 | after the last frame the animation wraps: it shows frame 1, moves to frame 2 and ends the cycle |
| Sprites.MeshStep | client/src/components/spriteComponent.ts:118-126 | the chosen name (the next frame's for an animated sprite, the sprite's own otherwise) sets the displayed entry to its sheet entry and the size to that entry's source size when the sheet has it, and leaves both as they were when it does not; an animated sprite's counter, wait and fired callbacks move as `NextFrame` says (the wait restarts and every callback fires on a wrap); a non-animated sprite keeps its counters and callbacks |
| Sprites.MissingNameStillMovesFrame | client/src/components/spriteComponent.ts:119-123 | for any animated sprite past frame 1 whose current frame, frame 1 and base name are all missing from the sheet, the displayed entry and size stay as they were while the counter has moved back to 1, the wait has restarted and every callback has fired |
| Sprites.StaticSpriteFrozen | client/src/components/spriteComponent.ts:92 | a sprite that is not animated never changes its animation state |
| Sprites.WaitOnlyCountsDown | client/src/components/spriteComponent.ts:93-94 | while the wait counter is positive, a tick only decrements it by one |
| Sprites.AdvancesOnlyWhenDue | client/src/components/spriteComponent.ts:92-97 | frame, callbacks and entry change only on a due frame of an animated sprite that finished waiting; callbacks fire only on a wrap, which restarts the wait |
| Sprites.Tick | client/src/components/spriteComponent.ts:91-98 | the frame counter stays at least 1 |
| Sprites.VertexLayout | client/src/components/spriteComponent.ts:157-172 | 20 numbers: four `x, y, z, u, v` corners in the order (xMin, yMin), (xMax, yMin), (xMax, yMax), (xMin, yMax), with xMax = x + frame.w, yMin = y − frame.h, uMax = uv.x + uv.w and vMax = uv.y + uv.h |
| Sprites.SpriteComponent.constructor | client/src/components/spriteComponent.ts:26 | a new sprite has no callbacks registered |
| Sprites.SpriteComponent.Create | client/src/components/spriteComponent.ts:41-50 | the defaults are '(unknown)' for a missing or empty name, not animated, frame skip 1 and wait 0; the animation restarts at frame 1 with a full wait |
| Sprites.SpriteComponent.OnAnimationEnded | client/src/components/spriteComponent.ts:26 | registering a callback appends it to the list |
| Sprites.SpriteComponent.Setup | client/src/components/spriteComponent.ts:53-85 | attaches the sheet, allocates a zeroed 20-number vertex store and chooses the first entry as `updateMesh` does |
| Sprites.SpriteComponent.FindNextFrameName | client/src/components/spriteComponent.ts:132-148 | the returned name and the new frame counter are those of `NextFrame`; on a wrap the wait restarts and every registered callback fires once, in registration order |
| Sprites.SpriteComponent.UpdateMesh | client/src/components/spriteComponent.ts:118-126 | moves the animation state exactly as `MeshStep` |
| Sprites.SpriteComponent.Update | client/src/components/spriteComponent.ts:91-101 | moves the animation state exactly as `Tick`, then writes the vertex layout of the current entry, failing without writing when no entry has been chosen |
| Sprites.SpriteComponent.UpdateComponents | client/src/components/spriteComponent.ts:154-178 | writes the vertex layout into the store at offset 0, or fails without writing when there is no entry |
| Layers.QuadIndices | client/src/components/layerComponent.ts:34 | the six indices of a quad lie in k..k+3, and the two triangles share the edge (k+2, k) |
| Layers.QuadCorners | client/src/components/layerComponent.ts:34 | the two triangles together use all four corners k..k+3 |
| Layers.Uint16Identity | client/src/components/layerComponent.ts:36 | the `Uint16Array` conversion leaves values below 65536 alone |
| Layers.SetupStores | client/src/components/layerComponent.ts:21-44 | a zeroed store of 20000 numbers, and 6000 indices whose i-th block of six is 4i, 4i+1, 4i+2, 4i+2, 4i+3, 4i; all indices are below 4000 |
| Layers.Display | client/src/components/layerComponent.ts:50-116 | an empty layer returns before packing; a layer whose first sprite has no sheet draws nothing; otherwise a copy that does not fit is a range error, and with none the draw uses the packed store, the 16-bit image of the index list and the count 6n |
| Layers.PackSprites | client/src/components/layerComponent.ts:87-98 | the packing loop leaves the store `Pack` specifies, the index list `Indices` specifies and the loop variable's final value times six |
| Layers.Set | client/src/components/layerComponent.ts:94 | a typed-array copy succeeds exactly when the source fits at the offset, writing just those slots; otherwise it leaves the target untouched |
| Layers.Pack | client/src/components/layerComponent.ts:87-96 | the vertex store always has 20n slots |
| Layers.Overwrite | client/src/components/layerComponent.ts:94 | the copy replaces exactly the slots from the offset on by the source and keeps the rest |
| Layers.PackStep | client/src/components/layerComponent.ts:90-96 | one iteration skips a sprite without vertices and copies a sprite's vertices to offset 20i or fails |
| Layers.PackStaysFailed | client/src/components/layerComponent.ts:94 | the first range error ends the packing |
| Layers.PackFailsIff | client/src/components/layerComponent.ts:94 | packing fails exactly when some sprite's vertices run past the end of the store |
| Layers.PackSlots | client/src/components/layerComponent.ts:87-96 | with every vertex store at most 20 long, slot m of sprite i holds that sprite's m-th number, and 0 for a sprite without vertices or beyond its length |
| Layers.SlotsDisjoint | client/src/components/layerComponent.ts:93-94 | slot m of sprite j falls in sprite i's range 20i..20i+19 exactly when j = i |
| Layers.IndicesBlocks | client/src/components/layerComponent.ts:90-96 | the r-th block of six indices draws the r-th sprite with vertices, referencing only its own vertices 4i..4i+3; sprites without vertices add no indices |
| Layers.IndicesInRange | client/src/components/layerComponent.ts:90-96 | every index addresses one of the 4n packed vertices |
| Layers.IndicesPrefix | client/src/components/layerComponent.ts:90-96 | the loop only appends: the index list after the first i sprites begins the list after any later count |
| Layers.CountMatchesIff | client/src/components/layerComponent.ts:90-110 | the draw count 6n equals the index-list length exactly when every sprite has vertices, and is never smaller |
| Layers.FullLayerUsesSetupPattern | client/src/components/layerComponent.ts:32-35 | when every sprite has vertices, the index list is the prefix of the pattern `setup` builds |
| Layers.IndicesFitUint16 | client/src/components/layerComponent.ts:98 | up to 16384 sprites the 16-bit conversion leaves the indices alone |
| Layers.IndexWraps | client/src/components/layerComponent.ts:98 | when sprite 16384 has vertices, the 16-bit conversion changes the index list, because that sprite's first index 65536 becomes 0 |

## Left out

- All WebGL calls are foreign GPU I/O and are not modelled: buffer creation, binding and upload, `drawElements`, and the sheet's `bind` and `unbind`. The same holds for the empty `SpriteComponent.display` and the commented-out code.
- The component framework is left out: `getComponent`, `findComponent`, `listSprites` with its walk over the owner's children, and the `worldPosition` lookup. Their results are inputs. A collider's world position is a pair of fields. A sprite's position is a parameter of `Update`. A layer's sprite list is the argument of `Display`, reduced to whether each sprite has a sheet and its vertex store.
- `rectangle.ts` is not part of this model. A rectangle is `Rect(xMin, xMax, yMin, yMax)` over reals, built from origin, width and height. `intersectsWith` is assumed to be strict overlap on both axes.
- What an `onCollision` handler does is not modelled. Only the sequence of its arguments is recorded.
- The quadtree is modelled on values, not on objects updated in place. Aliasing between nodes is therefore not captured; the source creates every node fresh, so it has none. An entry also keeps the area its collider had when inserted, while the source reads `collider.area` again at every classification. The two agree because no position changes during a pass.
- Coordinates, sizes and vertex numbers are reals. `Float32Array` rounding is not modelled.
- `Colliders.ColliderComponent.Create` keeps only the 32 bits of the flag and the mask that JavaScript's `&` reads. The source keeps the number and reduces it at each `&`, which is equivalent for integers. Non-integer flags and masks are not modelled.
- `console.error` in `updateMesh` is logging and is not modelled. The branch itself is modelled.
- `Timing` contributes only its frame number.
- `frameSkip` and `animWait` are integers in the model. The source accepts any number there, and a fractional frame skip (where `frame % 0.5` is 0) is not modelled.
- `Sprites.SpriteComponent.Update`: when no sheet entry has been chosen, the source throws on `descr.frame`. The model reports this as `ok == false` and leaves the store untouched.
- `Layers.Display`: a layer with more than 1000 sprites overruns the buffers `setup` allocated, and what the GPU API then does is not modelled. The packed data and the draw count are modelled for any number of sprites.
