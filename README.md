# Mirror reflection simulator: a Dafny model of its core

The simulator shows a 2D scene of mirrors, objects, light rays and viewers.
The scene is described as plain records. A loader turns those records into
entities of an entity-component store (bitECS). Each frame, two systems move
and bounce the mirrors, and a small geometry kernel computes where, along a
mirror, light from an object reaches a viewer.

This project models that core and proves what it promises:

- `wrappers.dfy` (module `Wrappers`): `Option`, for JavaScript's `undefined` and `null`.
- `color_codec.dfy` (module `ColorCodec`): the 20-cell colour buffer.
  - `Stored` is what `setColor` leaves in the buffer.
  - `Decode` is what `getColor` reads back.
  - Lemmas give the exact round trip, truncation at 19 code units, and the `"black"` default.
- `ecs.dfy` (module `Ecs`): the store, as a class `World` with one row of component values per entity handle.
  - `AddEntity` is the handle counter.
  - Setter methods modify one component (one or two fields) of one row.
  - `SetColor` and `GetColor` are the bounded loops of `setColor` and `getColor`.
  - `Mirrors` is the mirror query.
- `scene.dfy` (module `Scene`): the scene records and `initializeSceneFromDSL`.
  - The loader is four loops; each one spawns entities and updates the id map in place.
  - Each loop is proved against `LoadedRows` (the rows the items get) and `Assign` (the id map they build).
  - Lemmas about those two give the key set of the map, "last duplicate wins", increasing fresh handles and the loading defaults.
- `systems.dfy` (module `Systems`): the movement and boundary systems.
  - Each is a loop over the mirror query that updates rows in place.
  - Each is proved against a per-entity step (`Moved`, `Bounced`).
  - Lemmas give the bounds, what is left unchanged, and idempotence when the screen is wider than 200.
- `geometry.dfy` (module `Geometry`): `reflectAcrossMirror`, `getIntersection` and `calculateReflectionPoint` over reals.
  - The angle enters as `c = cos θ`, `s = sin θ`.
  - Properties that need a real angle assume `c*c + s*s == 1`.

Where the documentation and the code disagree, the model follows the code:

- `src/dsl.ts:5` declares one `viewer`, but the loader iterates `scene.viewers`, each with an id. The model has a sequence of viewers with ids.
- The comment at `src/dsl.ts:13` says `angleDegrees` is in radians. The loader converts it from degrees (`MirrorRow`).
- The movement system has no guard on `dt`: the update runs for every `dt`, including 0 and negative values, as `src/systems.ts:13-15` does not check it.
- The boundary system's right-hand limit is the constant 200, not the mirror's own width. `screenHeight` is not used.

## Model

| member | source | states |
|---|---|---|
| ColorCodec.ColorToUse | src/scene.ts:8-9 | the string written is never empty, because color-or-black replaces both undefined and "" |
| ColorCodec.OrElse | src/scene.ts:9 | JavaScript's `or` default on an optional string: a given non-empty string wins and is returned unchanged; a missing or empty one gives the fallback; the result is empty exactly when both are (also the ray's `color \|\| 'yellow'` at src/scene.ts:136) |
| ColorCodec.Zeros | src/scene.ts:74 | n cells, every one 0; `Blank`, the buffer of a fresh entity, is `Zeros(20)` |
| ColorCodec.Terminator | src/scene.ts:14 | the index `Math.min(length, 19)`: never past the string or the buffer, and either the string's length or 19 |
| ColorCodec.Stored | src/scene.ts:10-14 | what setColor leaves: still 20 cells, with 0 at the terminator index; StoredCells gives every cell |
| ColorCodec.Decode | src/scene.ts:18-26 | the string read is a prefix of the buffer, contains no 0, and is followed by a 0 cell unless it is the whole buffer |
| ColorCodec.DecodeUnique | src/scene.ts:18-26 | that characterisation is unique: any zero-free prefix followed by a 0 or the end is what getColor returns |
| ColorCodec.DecodeZeroFree | src/scene.ts:19-25 | a buffer without 0 cells reads back whole |
| ColorCodec.StoredCells | src/scene.ts:10-14 | setColor writes the first min(length of s, 19) code units of s, puts 0 at that index and leaves every later cell as it was |
| ColorCodec.ReadBack | src/scene.ts:7-26 | reading back after writing s gives what reading s's first min(length of s, 19) code units gives, whatever the buffer held before |
| ColorCodec.ColorRoundTrip | src/scene.ts:7-26 | a colour of 1 to 19 code units with no 0 reads back exactly |
| ColorCodec.ColorTruncated | src/scene.ts:10-14 | a colour of 19 or more code units, with no 0 among its first 19, reads back as those 19; cell 19 is always 0 afterwards |
| ColorCodec.ColorDefault | src/scene.ts:8-9 | an undefined or empty colour is written, and read back, as "black" |
| Ecs.Mirrors | src/systems.ts:6 | the mirror query holds exactly the handles tagged Mirror, each once, in increasing order |
| Ecs.World.MirrorQuery | src/systems.ts:11 | definition, with no contract of its own: `mirrorQuery(world)` (also at src/systems.ts:23) is `Mirrors` of the world's current rows, so the Ecs.Mirrors row is what it promises |
| Ecs.World.constructor | src/App.tsx:82 | a new world has no entities |
| Ecs.World.AddEntity | src/scene.ts:74 | addEntity returns the next counter value and appends `ZeroRow`: every field 0, the colour buffer `Blank` and no tags; older rows stay as they were |
| Ecs.World.AddMirrorTag | src/scene.ts:80 | only entity e changes, and only its Mirror tag, which becomes set |
| Ecs.World.AddViewerTag | src/scene.ts:146 | only entity e changes, and only its Viewer tag, which becomes set |
| Ecs.World.SetPosition | src/scene.ts:86-87 | only entity e's Position.x and Position.y change, to the given values |
| Ecs.World.SetVelocity | src/scene.ts:89-90 | only entity e's Velocity.x and Velocity.y change, to the given values |
| Ecs.World.SetAngle | src/scene.ts:88 | only entity e's Angle changes, to the given value |
| Ecs.World.SetSize | src/scene.ts:92-93 | only entity e's Size changes, to the given width and height |
| Ecs.World.SetColor | src/scene.ts:7-15 | only entity e's colour buffer changes; it becomes Stored(old buffer, color-or-black); other entities' buffers stay as they were |
| Ecs.World.GetColor | src/scene.ts:18-26 | the loop with early break returns Decode of entity e's buffer: at most 20 code units, none of them 0 |
| Ecs.WriteColor | src/scene.ts:8-14 | the write loop and the terminator store give exactly Stored(cells, color-or-black) |
| Geometry.Reflect | src/utils/rayUtils.ts:3-20 | at angle 0 (c = 1, s = 0) the reflection is (x, 2·origin.y − y) |
| Geometry.ReflectMatrix | src/utils/rayUtils.ts:3-20 | rotate, negate y, rotate back is the affine map origin + M(p − origin), M = [[cos 2θ, sin 2θ], [sin 2θ, −cos 2θ]] |
| Geometry.DoubleAngleUnit | src/utils/rayUtils.ts:8-17 | proof helper for ReflectInvolution, ReflectPreservesDistance and ReflectPreservesOnLine: for a genuine angle, (cos 2θ, sin 2θ) is again a unit vector |
| Geometry.ReflectInvolution | src/utils/rayUtils.ts:3-20 | reflecting twice across the same mirror gives back the point |
| Geometry.ReflectFixesAlong | src/utils/rayUtils.ts:8-17 | every point origin + t(c, s) of the mirror line is fixed |
| Geometry.OnMirrorLineIsAlong | src/utils/rayUtils.ts:8-17 | a point on the mirror line is origin + t(c, s) for t its projection on (c, s) |
| Geometry.ReflectFixedPoints | src/utils/rayUtils.ts:3-20 | a point is fixed if and only if it lies on the mirror line |
| Geometry.ReflectPreservesDistance | src/utils/rayUtils.ts:4-17 | the squared distance to the mirror origin is kept |
| Geometry.MirrorImageSystem | src/utils/rayUtils.ts:3-20 | the geometric mirror-image conditions written as a linear system in the displacement |
| Geometry.ReflectDisplacement | src/utils/rayUtils.ts:3-20 | the reflection moves p by 2k(s, −c), with k the signed distance of p from the mirror line |
| Geometry.ReflectIsMirrorImage | src/utils/rayUtils.ts:3-20 | q is the computed reflection of p if and only if the midpoint of p and q is on the mirror line and q − p is perpendicular to it |
| Geometry.ReflectPreservesOnLine | src/utils/rayUtils.ts:3-20 | collinear points stay collinear after reflection |
| Geometry.CrossOfMatrix | src/utils/rayUtils.ts:16-17 | proof helper for ReflectPreservesOnLine: the reflection's linear part scales cross products by −(C² + S²) |
| Geometry.Det | src/utils/rayUtils.ts:23-31 | the determinant is the cross product of the directions B − A and D − C |
| Geometry.SolvesLine | src/utils/rayUtils.ts:34-35 | proof helper for Intersection: Cramer's quotients satisfy the line equation whose numerators they solve |
| Geometry.Intersection | src/utils/rayUtils.ts:22-38 | null exactly when det == 0, so always when A == B or C == D; otherwise the point lies on line AB and on line CD |
| Geometry.IntersectionUnique | src/utils/rayUtils.ts:22-38 | when a point is returned, it is the only point on both lines |
| Geometry.ReflectionPoint | src/utils/rayUtils.ts:40-59 | with mirrorWidth 0 the result is always null |
| Geometry.WidthOrDefault | src/utils/rayUtils.ts:45 | definition, with no contract of its own: the default parameter `mirrorWidth = 200`; ReflectionPointOnMirror states the result for the width it picks |
| Geometry.CrossScaled | src/utils/rayUtils.ts:53-56 | proof helper for IntersectionAlong: scaling the mirror direction by the width scales the cross product by the width |
| Geometry.ZeroProduct | src/utils/rayUtils.ts:32 | proof helper for IntersectionAlong: with a non-zero width, the scaled determinant is zero exactly when the unscaled one is |
| Geometry.IntersectionAlong | src/utils/rayUtils.ts:53-58 | intersecting with mirrorPos → mirrorPos + w(c, s) for any w ≠ 0 is null exactly when the line is parallel to (c, s); otherwise the point is on both lines |
| Geometry.ReflectionPointOnMirror | src/utils/rayUtils.ts:40-59 | for a non-zero width (200 by default): null exactly when object → virtual viewer is parallel to the mirror; otherwise the point is on the mirror's line and on that line |
| Geometry.ReflectedRayMeetsViewer | src/utils/rayUtils.ts:40-59 | the reflection point lies on the line from the object's virtual image to the viewer: the reflected ray reaches the viewer |
| Geometry.OppositeSidesHaveNoReflectionPoint | src/utils/rayUtils.ts:40-59 | object (300,100), horizontal mirror at (400,300), viewer (300,500): the virtual viewer equals the object and the result is null |
| Geometry.HorizontalMirrorVerticalPath | src/utils/rayUtils.ts:40-59 | object and viewer on one vertical line over a horizontal mirror: the reflection point is the foot of that line on the mirror |
| Scene.MirrorItems | src/scene.ts:73 | definition, with no contract of its own: the mirror loop's visiting order, one item per mirror; ItemsLayout and LoadedRowsAt state where each item sits and which row it gets |
| Scene.ObjectItems | src/scene.ts:99 | definition, with no contract of its own: the object loop's visiting order, one item per object; ItemsLayout and LoadedRowsAt state where each item sits and which row it gets |
| Scene.RayItems | src/scene.ts:119 | definition, with no contract of its own: the ray loop's visiting order, one item per ray; ItemsLayout and LoadedRowsAt state where each item sits and which row it gets |
| Scene.ViewerItems | src/scene.ts:140 | definition, with no contract of its own: the viewer loop's visiting order, one item per viewer; ItemsLayout and LoadedRowsAt state where each item sits and which row it gets |
| Scene.Items | src/scene.ts:73-156 | the loader's whole visiting order: mirrors, then objects, rays and viewers, one item per record |
| Scene.ItemsLayout | src/scene.ts:73-156 | each kind takes up its own stretch of that order, one stretch after another |
| Scene.SceneIds | src/scene.ts:75-142 | definition, with no contract of its own: the ids of every mirror, object, ray and viewer; LoadedIds proves that it is the key set of the returned map |
| Scene.Assign | src/scene.ts:70-142 | definition, with no contract of its own: the map after `entityMap.set(id, entity)` for the first n items visited; AssignStep, AssignKeys, AssignNames and AssignLastWins state what it holds |
| Scene.AssignStep | src/scene.ts:75 | `entityMap.set(id, base + k)` turns the map of the first k items into the map of the first k + 1 |
| Scene.AssignKeys | src/scene.ts:69-158 | the id map's keys are exactly the ids of the items visited |
| Scene.AssignNames | src/scene.ts:69-158 | every id maps to a handle of this load, and that handle's item has that id |
| Scene.AssignLastWins | src/scene.ts:69-158 | among items with the same id, the last one visited is the one whose handle the map keeps |
| Scene.ItemIdsInScene | src/scene.ts:73-156 | every item visited carries an id of the scene |
| Scene.SceneIdsInItems | src/scene.ts:73-156 | every id of the scene belongs to some item visited |
| Scene.LoadedIds | src/scene.ts:69-158 | the key set of the returned map is exactly the ids of the mirrors, objects, rays and viewers |
| Scene.LoadedIdRow | src/scene.ts:69-158 | each id maps to a new handle, created for an item with that id and holding that item's row |
| Scene.RayWidth | src/scene.ts:131 | ray width, or 2 when 0 or missing: never 0; a given non-zero width is kept |
| Scene.RayLength | src/scene.ts:132-135 | definition, with no contract of its own: the ray's length, `sqrt` of the sum of the squared coordinate differences; `sqrt` is a parameter, so nothing more is proved about it |
| Scene.MirrorRow | src/scene.ts:86-95 | definition, with no contract of its own: the row a mirror gets; LoadedDefaults and LoadedTags state its defaults |
| Scene.ObjectRow | src/scene.ts:109-115 | definition, with no contract of its own: the row an object gets; LoadedDefaults and LoadedTags state its defaults |
| Scene.RayRow | src/scene.ts:129-136 | definition, with no contract of its own: the row a ray gets; RayWidth, LoadedDefaults and LoadedTags state its defaults |
| Scene.ViewerRow | src/scene.ts:151-155 | definition, with no contract of its own: the row a viewer gets; LoadedDefaults and LoadedTags state its defaults |
| Scene.Loaded | src/scene.ts:73-156 | definition, with no contract of its own: the row of an item, by kind |
| Scene.LoadedRows | src/scene.ts:69-158 | the rows the first n items visited get, one per item; LoadedRowsAt gives each entry |
| Scene.LoadedRowsAt | src/scene.ts:69-158 | entity base + k holds the row of the k-th item visited |
| Scene.LoadedDefaults | src/scene.ts:86-155 | the defaults below hold for every item, and an item's own non-empty colour is the one stored |
| Scene.LoadedTags | src/scene.ts:80 | of the new entities, exactly the first mirror count carry the Mirror tag and exactly the last viewer count the Viewer tag |
| Scene.SpawnMirror | src/scene.ts:73-96 | one new entity, appended after all others, holding the mirror's row |
| Scene.SpawnObject | src/scene.ts:99-116 | one new entity, appended after all others, holding the object's row |
| Scene.SpawnRay | src/scene.ts:119-137 | one new entity, appended after all others, holding the ray's row |
| Scene.SpawnViewer | src/scene.ts:140-156 | one new entity, appended after all others, holding the viewer's row |
| Scene.ProgressDone | src/scene.ts:158 | once all items are visited, the invariant gives the final rows and the final map |
| Scene.LoadMirror | src/scene.ts:74-95 | one pass of the mirror loop extends the loading invariant from k items to k + 1 |
| Scene.LoadObject | src/scene.ts:100-115 | one pass of the object loop extends the loading invariant from k items to k + 1 |
| Scene.LoadRay | src/scene.ts:120-136 | one pass of the ray loop extends the loading invariant from k items to k + 1 |
| Scene.LoadViewer | src/scene.ts:141-155 | one pass of the viewer loop extends the loading invariant from k items to k + 1 |
| Scene.LoadMirrors | src/scene.ts:73-96 | the mirror loop carries the loading invariant across the mirrors' stretch of the visiting order |
| Scene.LoadObjects | src/scene.ts:99-116 | the object loop carries the loading invariant across the objects' stretch |
| Scene.LoadRays | src/scene.ts:119-137 | the ray loop carries the loading invariant across the rays' stretch |
| Scene.LoadViewers | src/scene.ts:140-156 | the viewer loop carries the loading invariant across the viewers' stretch |
| Scene.LoadRaysAndViewers | src/scene.ts:118-156 | the ray loop and then the viewer loop carry the invariant from the start of the rays to the last item |
| Scene.LoadScene | src/scene.ts:72-156 | the four loops, one after another, carry the invariant over every item: the rows and the map are those of all items |
| Scene.InitializeSceneFromDsl | src/scene.ts:69-158 | see below |
| Systems.Moved | src/systems.ts:13-14 | definition, with no contract of its own: a mirror after one movement step; MovementKeepsVelocities states its effect |
| Systems.Bounced | src/systems.ts:26-32 | definition, with no contract of its own: a mirror after the boundary check; BouncedCases, BoundaryBounds and BouncedIdempotent state its properties |
| Systems.MovementStep | src/systems.ts:11-15 | definition, with no contract of its own: the whole state after movement, with mirrors Moved and all others as they were; MovementSystem is proved against it |
| Systems.BoundaryStep | src/systems.ts:23-33 | definition, with no contract of its own: the whole state after the boundary check, with mirrors Bounced and all others as they were; BoundarySystem is proved against it |
| Systems.Abs | src/systems.ts:28 | Math.abs: non-negative and equal to v or −v |
| Systems.SeenStep | src/systems.ts:12 | in a strictly increasing query, the handle at step i has not been visited before, and step i adds exactly that handle to the visited set |
| Systems.SeenAll | src/systems.ts:11-12 | after the loop over the query, exactly the mirrors have been visited |
| Systems.MovementSystem | src/systems.ts:9-18 | each mirror's row becomes Moved (position += velocity · dt); every other entity is unchanged |
| Systems.BoundarySystem | src/systems.ts:21-36 | each mirror's row becomes Bounced; every other entity is unchanged |
| Systems.MovementKeepsVelocities | src/systems.ts:12-15 | movement changes only x and y, only of mirrors, and by exactly vx·dt and vy·dt |
| Systems.QueryUnchanged | src/systems.ts:6 | any update that keeps every entity's Mirror tag keeps the mirror query; MovementKeepsQuery and BoundaryKeepsQuery apply it to the two systems |
| Systems.MovementKeepsQuery | src/systems.ts:11-15 | after the movement system the mirror query is the same as before |
| Systems.BoundaryKeepsQuery | src/systems.ts:23-33 | after the boundary system the mirror query is the same as before |
| Systems.MirrorsSameTags | src/systems.ts:6 | two states whose rows carry the same Mirror tags have the same mirror handles below n (`Mirrors(rows, n)`) |
| Systems.BouncedCases | src/systems.ts:26-32 | only x and vx are written; the three branches match the ones in the source |
| Systems.BoundaryBounds | src/systems.ts:26-32 | if screenWidth >= 200, every mirror ends with 0 <= x <= screenWidth − 200 |
| Systems.BouncedIdempotent | src/systems.ts:26-32 | if screenWidth > 200, bouncing an already-bounced mirror changes nothing |
| Systems.BoundaryIdempotent | src/systems.ts:21-35 | if screenWidth > 200, two runs of the boundary system give the state after one |
| Systems.BoundaryNotIdempotentAt200 | src/systems.ts:26-32 | at screenWidth == 200 a mirror at x = 5 with vx = 1 gets vx = −1 and then vx = 1 again, so the side condition is needed |

`Scene.LoadedDefaults` states these defaults:

- Mirrors get velocity (0, 0) and angle `angleDegrees · π / 180`.
- A ray is placed at `from`, with width `width || 2`.
- A viewer without a size is 20 × 20.
- A ray without a colour reads back as "yellow".
- Any item with a non-empty colour, a ray included, reads back as what its own first `min(length, 19)` code units read as.
- Any other item without a colour reads back as "black".
- Only mirrors are tagged Mirror, and only viewers are tagged Viewer.

`Scene.InitializeSceneFromDsl` states what a whole load does:

- Entities already in the world keep their rows.
- One fresh entity is appended per item, in the order mirrors, objects, rays, viewers, with handles increasing along it.
- Each new entity holds its item's row.
- The returned map is `Assign` of the items from the old counter value.

## Left out

- Floating point: positions, angles and velocities are f32 columns in the store. The model uses exact reals, with no rounding. The exact `det === 0` floating-point test becomes exact comparison with 0.
- `Math.cos` and `Math.sin` are not modelled. The geometry takes `c = cos θ` and `s = sin θ` as inputs. `Math.PI` is the constant 3.141592653589793.
- `Math.sqrt` is a parameter `sqrt` of the loader, used in the ray length (`RayLength`). `Math.pow(x, 2)` is `x * x`.
- Colour characters and ids are UTF-16 code units (0 to 0xFFFF), JavaScript's string elements; ids are compared as such sequences. `src/components.ts` does not declare the `Color`, `Size` and `Viewer` components, so the buffer's element type is unknown. The model assumes every code unit fits in a cell.
- bitECS is not source code that can be modelled, so it is given its observable effect:
  - `addEntity` is a counter whose new entity starts with every field 0 and no tags. Entity recycling and the `maxEntities: 1000` capacity are not modelled.
  - The counter belongs to each `World`, so a new world starts again at handle 0. bitECS draws handles from a counter shared by all worlds, so after `src/App.tsx:80-84` rebuilds the world, its handles continue from the old count. No proved property depends on this: `InitializeSceneFromDsl` holds for a world of any size.
  - `addComponent` of a data component (Position, Velocity, Angle, Size, Color) changes nothing the model can see, and is left out.
  - A query returns the tagged handles in increasing order. Nothing here depends on the order, because the handles are distinct and each is updated on its own.
- Store layout: the store is one row per entity, not one typed-array column per field. Colour buffers are values inside the row. Sharing between typed-array views is therefore not modelled. Every update still changes only its entity's row, and only the named fields.
- Scene records: `label`, `style` and `isPulsing` are carried or dropped because the loader never reads them. An object's `type` and a viewer's `type` are kept as datatypes but have no effect.
- `initialScene` (`src/scene.ts:29-66`) is sample data and is not modelled.
- `src/App.tsx` is not part of this model: the rendering, the animation loop and the React state. `createReflectionSystem` and `createEmitSystem` are imported there but not defined in `src/systems.ts`, so there is nothing to model.
- `src/components/SceneConfigModal.tsx` is not part of this model. It is a configuration UI.
- The systems are closures that return the world they were given. Here they are methods that modify the world in place.
