/**
 * Scene descriptions (the records of src/dsl.ts, as src/scene.ts reads them)
 * and `initializeSceneFromDSL`, which turns one into entities of the store.
 *
 * The loader walks the mirrors, then the objects, then the rays, then the
 * viewers; each item gets the next handle of the counter, its id is recorded
 * in the id map (a later item with the same id overwrites an earlier one) and
 * its component columns are set, with a few defaults.
 */
module Scene {
  import opened Wrappers
  import opened ColorCodec
  import opened Geometry
  import opened Ecs

  /** Math.PI */
  const Pi: real := 3.141592653589793

  /** Width of a ray when it has none, or has width 0 (`ray.width || 2`). */
  const DefaultRayWidth: real := 2.0

  /** Width and height of a viewer without a size. */
  const DefaultViewerSize: real := 20.0

  datatype Size = Size(width: real, height: real)

  datatype Mirror = Mirror(id: JsString, position: Point, angleDegrees: real,
                           color: Option<JsString>, size: Option<Size>)

  datatype ObjectKind = Triangle | VirtualTriangle

  datatype SceneObject = SceneObject(id: JsString, kind: ObjectKind, position: Point,
                                     color: Option<JsString>, size: Option<Size>, isPulsing: Option<bool>)

  datatype Ray = Ray(id: JsString, from: Point, to: Point, color: Option<JsString>, width: Option<real>)

  datatype ViewerKind = Original | Virtual

  datatype Viewer = Viewer(id: JsString, kind: ViewerKind, position: Point,
                           color: Option<JsString>, size: Option<Size>)

  /** The scene as the loader reads it: a list of viewers, each with an id. */
  datatype SceneGraph = SceneGraph(mirrors: seq<Mirror>, objects: seq<SceneObject>,
                                   rays: seq<Ray>, viewers: seq<Viewer>)

  /** One item of the scene, tagged with its kind. */
  datatype Item = MirrorItem(mirror: Mirror) | ObjectItem(obj: SceneObject)
                | RayItem(ray: Ray) | ViewerItem(viewer: Viewer)
  {
    function Id(): JsString {
      match this
      case MirrorItem(m) => m.id
      case ObjectItem(o) => o.id
      case RayItem(r) => r.id
      case ViewerItem(v) => v.id
    }
  }

  /** The mirror loop's visiting order: one item per mirror, in order. */
  function MirrorItems(ms: seq<Mirror>): seq<Item> {
    seq(|ms|, i requires 0 <= i < |ms| => MirrorItem(ms[i]))
  }

  /** The object loop's visiting order: one item per object, in order. */
  function ObjectItems(os: seq<SceneObject>): seq<Item> {
    seq(|os|, i requires 0 <= i < |os| => ObjectItem(os[i]))
  }

  /** The ray loop's visiting order: one item per ray, in order. */
  function RayItems(rs: seq<Ray>): seq<Item> {
    seq(|rs|, i requires 0 <= i < |rs| => RayItem(rs[i]))
  }

  /** The viewer loop's visiting order: one item per viewer, in order. */
  function ViewerItems(vs: seq<Viewer>): seq<Item> {
    seq(|vs|, i requires 0 <= i < |vs| => ViewerItem(vs[i]))
  }

  /** The items in the order the loader visits them: mirrors, objects, rays, viewers. */
  function Items(scene: SceneGraph): (items: seq<Item>)
    ensures |items| == |scene.mirrors| + |scene.objects| + |scene.rays| + |scene.viewers|
  {
    MirrorItems(scene.mirrors) + ObjectItems(scene.objects) + RayItems(scene.rays) + ViewerItems(scene.viewers)
  }

  /** Every id that occurs in the scene. */
  function SceneIds(scene: SceneGraph): set<JsString> {
    (set m | m in scene.mirrors :: m.id) + (set o | o in scene.objects :: o.id)
    + (set r | r in scene.rays :: r.id) + (set v | v in scene.viewers :: v.id)
  }

  /**
   * The id map after `entityMap.set(item.id, base + k)` has run for the
   * first n items k in order: later items overwrite earlier ones with the
   * same id.
   */
  function Assign(items: seq<Item>, base: nat, n: nat): (m: map<JsString, nat>)
    requires n <= |items|
  {
    if n == 0 then map[] else Assign(items, base, n - 1)[items[n - 1].Id() := base + n - 1]
  }

  /** Recording item k under its id extends the map of the items before it. */
  lemma AssignStep(items: seq<Item>, base: nat, k: nat, id: JsString, entity: nat)
    requires k < |items| && items[k].Id() == id && entity == base + k
    ensures Assign(items, base, k)[id := entity] == Assign(items, base, k + 1)
  {
  }

  /** The keys of the id map are exactly the ids of the items visited. */
  lemma {:induction false} AssignKeys(items: seq<Item>, base: nat, n: nat)
    requires n <= |items|
    ensures Assign(items, base, n).Keys == set k | 0 <= k < n :: items[k].Id()
  {
    if n > 0 {
      AssignKeys(items, base, n - 1);
      assert (set k | 0 <= k < n :: items[k].Id())
          == (set k | 0 <= k < n - 1 :: items[k].Id()) + {items[n - 1].Id()};
    }
  }

  /** Each id is mapped to a handle issued in this load, and that handle's item has that id. */
  lemma {:induction false} AssignNames(items: seq<Item>, base: nat, n: nat, id: JsString)
    requires n <= |items| && id in Assign(items, base, n)
    ensures base <= Assign(items, base, n)[id] < base + n
    ensures items[Assign(items, base, n)[id] - base].Id() == id
  {
    if items[n - 1].Id() != id {
      AssignNames(items, base, n - 1, id);
    }
  }

  /** The last item with a given id is the one whose handle the map keeps. */
  lemma {:induction false} AssignLastWins(items: seq<Item>, base: nat, n: nat, k: nat)
    requires k < n <= |items|
    requires forall j :: k < j < n ==> items[j].Id() != items[k].Id()
    ensures items[k].Id() in Assign(items, base, n)
    ensures Assign(items, base, n)[items[k].Id()] == base + k
  {
    if k < n - 1 {
      AssignLastWins(items, base, n - 1, k);
    }
  }

  /** Every item the loader visits carries an id of the scene. */
  lemma ItemIdsInScene(scene: SceneGraph)
    ensures forall k :: 0 <= k < |Items(scene)| ==> Items(scene)[k].Id() in SceneIds(scene)
  {
    var items := Items(scene);
    var m, o, r := |scene.mirrors|, |scene.objects|, |scene.rays|;
    forall k | 0 <= k < |items| ensures items[k].Id() in SceneIds(scene) {
      if k < m {
        MirrorItemAt(scene, k);
        assert scene.mirrors[k] in scene.mirrors;
      } else if k < m + o {
        ObjectItemAt(scene, k - m);
        assert scene.objects[k - m] in scene.objects;
      } else if k < m + o + r {
        RayItemAt(scene, k - m - o);
        assert scene.rays[k - m - o] in scene.rays;
      } else {
        ViewerItemAt(scene, k - m - o - r);
        assert scene.viewers[k - m - o - r] in scene.viewers;
      }
    }
  }

  /** Every id of the scene is the id of some item the loader visits. */
  lemma SceneIdsInItems(scene: SceneGraph, id: JsString)
    requires id in SceneIds(scene)
    ensures exists k :: 0 <= k < |Items(scene)| && Items(scene)[k].Id() == id
  {
    var m, o, r := |scene.mirrors|, |scene.objects|, |scene.rays|;
    if id in (set x | x in scene.mirrors :: x.id) {
      var i :| 0 <= i < m && scene.mirrors[i].id == id;
      MirrorItemAt(scene, i);
    } else if id in (set x | x in scene.objects :: x.id) {
      var i :| 0 <= i < o && scene.objects[i].id == id;
      ObjectItemAt(scene, i);
    } else if id in (set x | x in scene.rays :: x.id) {
      var i :| 0 <= i < r && scene.rays[i].id == id;
      RayItemAt(scene, i);
    } else {
      var i :| 0 <= i < |scene.viewers| && scene.viewers[i].id == id;
      ViewerItemAt(scene, i);
    }
  }

  /** The id map names exactly the mirrors, objects, rays and viewers of the scene. */
  lemma LoadedIds(scene: SceneGraph, base: nat)
    ensures Assign(Items(scene), base, |Items(scene)|).Keys == SceneIds(scene)
  {
    var items := Items(scene);
    AssignKeys(items, base, |items|);
    ItemIdsInScene(scene);
    forall id | id in SceneIds(scene) ensures id in Assign(items, base, |items|).Keys {
      SceneIdsInItems(scene, id);
    }
  }

  /**
   * After a load from a world with rows0, each id of the map names one of the
   * new entities, that entity was created for an item with that id, and it
   * holds that item's row.
   */
  lemma LoadedIdRow(items: seq<Item>, base: nat, sqrt: real -> real, id: JsString)
    requires id in Assign(items, base, |items|)
    ensures base <= Assign(items, base, |items|)[id] < base + |items|
    ensures items[Assign(items, base, |items|)[id] - base].Id() == id
    ensures LoadedRows(items, |items|, sqrt)[Assign(items, base, |items|)[id] - base]
            == Loaded(items[Assign(items, base, |items|)[id] - base], sqrt)
  {
    var e := Assign(items, base, |items|)[id];
    AssignNames(items, base, |items|, id);
    LoadedRowsAt(items, |items|, sqrt, e - base);
  }

  /** The width column of a ray: `ray.width || 2`. */
  function RayWidth(width: Option<real>): (w: real)
    ensures w != 0.0
    ensures width.Some? && width.value != 0.0 ==> w == width.value
  {
    if width.Some? && width.value != 0.0 then width.value else DefaultRayWidth
  }

  /** Math.pow(dx, 2) + Math.pow(dy, 2) */
  function SquaredLength(dx: real, dy: real): real { dx * dx + dy * dy }

  /** The height column of a ray: the length of from -> to, sqrt((to.x - from.x)^2 + (to.y - from.y)^2). */
  function RayLength(ray: Ray, sqrt: real -> real): real {
    sqrt(SquaredLength(ray.to.x - ray.from.x, ray.to.y - ray.from.y))
  }

  /** The row a mirror gets: Velocity (0, 0), Angle in radians, Size only when given, colour `color || 'black'`. */
  function MirrorRow(m: Mirror): Row {
    Row(m.position.x, m.position.y, 0.0, 0.0, m.angleDegrees * Pi / 180.0,
        if m.size.Some? then m.size.value.width else 0.0,
        if m.size.Some? then m.size.value.height else 0.0,
        Stored(Blank, ColorToUse(m.color)), true, false)
  }

  /** The row an object gets: Position, Size only when given, colour `color || 'black'`. */
  function ObjectRow(o: SceneObject): Row {
    Row(o.position.x, o.position.y, 0.0, 0.0, 0.0,
        if o.size.Some? then o.size.value.width else 0.0,
        if o.size.Some? then o.size.value.height else 0.0,
        Stored(Blank, ColorToUse(o.color)), false, false)
  }

  /** The row a ray gets: Position `from`, width `width || 2`, height its length, colour `color || 'yellow'`. */
  function RayRow(r: Ray, sqrt: real -> real): Row {
    Row(r.from.x, r.from.y, 0.0, 0.0, 0.0, RayWidth(r.width), RayLength(r, sqrt),
        Stored(Blank, ColorToUse(Some(OrElse(r.color, Yellow)))), false, false)
  }

  /** The row a viewer gets: Size 20 x 20 when it has none, colour `color || 'black'`. */
  function ViewerRow(v: Viewer): Row {
    Row(v.position.x, v.position.y, 0.0, 0.0, 0.0,
        if v.size.Some? then v.size.value.width else DefaultViewerSize,
        if v.size.Some? then v.size.value.height else DefaultViewerSize,
        Stored(Blank, ColorToUse(v.color)), false, true)
  }

  /**
   * The row an item gets when it is loaded into a fresh entity (every column 0).
   * `sqrt` stands for Math.sqrt in the length of a ray.
   */
  function Loaded(item: Item, sqrt: real -> real): Row {
    match item
    case MirrorItem(m) => MirrorRow(m)
    case ObjectItem(o) => ObjectRow(o)
    case RayItem(r) => RayRow(r, sqrt)
    case ViewerItem(v) => ViewerRow(v)
  }

  /** The body of the mirror loop, without the id-map update: a new entity with the mirror's row. */
  method SpawnMirror(world: World, mirror: Mirror) returns (entity: nat)
    requires world.Valid()
    modifies world
    ensures world.Valid() && entity == |old(world.rows)| && world.rows == old(world.rows) + [MirrorRow(mirror)]
  {
    entity := world.AddEntity();
    world.AddMirrorTag(entity);
    world.SetPosition(entity, mirror.position.x, mirror.position.y);
    world.SetAngle(entity, mirror.angleDegrees * Pi / 180.0);
    world.SetVelocity(entity, 0.0, 0.0);
    if mirror.size.Some? {
      world.SetSize(entity, mirror.size.value.width, mirror.size.value.height);
    }
    world.SetColor(entity, mirror.color);
  }

  /** The body of the object loop, without the id-map update: a new entity with the object's row. */
  method SpawnObject(world: World, obj: SceneObject) returns (entity: nat)
    requires world.Valid()
    modifies world
    ensures world.Valid() && entity == |old(world.rows)| && world.rows == old(world.rows) + [ObjectRow(obj)]
  {
    entity := world.AddEntity();
    world.SetPosition(entity, obj.position.x, obj.position.y);
    if obj.size.Some? {
      world.SetSize(entity, obj.size.value.width, obj.size.value.height);
    }
    world.SetColor(entity, obj.color);
  }

  /** The body of the ray loop, without the id-map update: a new entity with the ray's row. */
  method SpawnRay(world: World, ray: Ray, sqrt: real -> real) returns (entity: nat)
    requires world.Valid()
    modifies world
    ensures world.Valid() && entity == |old(world.rows)| && world.rows == old(world.rows) + [RayRow(ray, sqrt)]
  {
    entity := world.AddEntity();
    world.SetPosition(entity, ray.from.x, ray.from.y);
    world.SetSize(entity, RayWidth(ray.width), RayLength(ray, sqrt));
    world.SetColor(entity, Some(OrElse(ray.color, Yellow)));
  }

  /** The body of the viewer loop, without the id-map update: a new entity with the viewer's row. */
  method SpawnViewer(world: World, viewer: Viewer) returns (entity: nat)
    requires world.Valid()
    modifies world
    ensures world.Valid() && entity == |old(world.rows)| && world.rows == old(world.rows) + [ViewerRow(viewer)]
  {
    entity := world.AddEntity();
    world.AddViewerTag(entity);
    world.SetPosition(entity, viewer.position.x, viewer.position.y);
    world.SetSize(entity, if viewer.size.Some? then viewer.size.value.width else DefaultViewerSize,
                  if viewer.size.Some? then viewer.size.value.height else DefaultViewerSize);
    world.SetColor(entity, viewer.color);
  }

  /** The rows the first n items get, in order. */
  function LoadedRows(items: seq<Item>, n: nat, sqrt: real -> real): (rows: seq<Row>)
    requires n <= |items|
    ensures |rows| == n
  {
    if n == 0 then [] else LoadedRows(items, n - 1, sqrt) + [Loaded(items[n - 1], sqrt)]
  }

  /** Appending the row of item k to the rows of the items before it. */
  lemma RowsStep(rows0: seq<Row>, items: seq<Item>, k: nat, sqrt: real -> real, row: Row)
    requires k < |items| && Loaded(items[k], sqrt) == row
    ensures (rows0 + LoadedRows(items, k, sqrt)) + [row] == rows0 + LoadedRows(items, k + 1, sqrt)
  {
  }

  /** Entry k of LoadedRows is the row item k gets. */
  lemma {:induction false} LoadedRowsAt(items: seq<Item>, n: nat, sqrt: real -> real, k: nat)
    requires k < n <= |items|
    ensures LoadedRows(items, n, sqrt)[k] == Loaded(items[k], sqrt)
  {
    if k < n - 1 {
      LoadedRowsAt(items, n - 1, sqrt, k);
    }
  }

  /**
   * The defaults of the loader: mirrors stand still with their angle turned
   * into radians, a ray sits at its start with width `width || 2`, a viewer
   * without a size is 20 x 20, a ray without a colour reads back as
   * "yellow", any other item without one as "black"; only mirrors get the
   * Mirror tag and only viewers the Viewer tag.
   */
  lemma LoadedDefaults(item: Item, sqrt: real -> real)
    ensures var r := Loaded(item, sqrt);
            |r.color| == Width
            && (r.mirror <==> item.MirrorItem?) && (r.viewer <==> item.ViewerItem?)
            && (item.MirrorItem? ==> r.vx == 0.0 && r.vy == 0.0 && r.angle == item.mirror.angleDegrees * Pi / 180.0)
            && (item.RayItem? ==> r.x == item.ray.from.x && r.y == item.ray.from.y
                                  && (item.ray.width.Some? && item.ray.width.value != 0.0 ==> r.width == item.ray.width.value)
                                  && (item.ray.width.None? || item.ray.width.value == 0.0 ==> r.width == 2.0))
            && (item.RayItem? && (item.ray.color.None? || item.ray.color.value == []) ==> Decode(r.color) == Yellow)
            && (item.ViewerItem? && item.viewer.size.None? ==> r.width == 20.0 && r.height == 20.0)
            && (!item.RayItem? && (ItemColor(item).None? || ItemColor(item).value == []) ==> Decode(r.color) == Black)
            && (ItemColor(item).Some? && ItemColor(item).value != [] ==>
                  Decode(r.color) == Decode(ItemColor(item).value[..Terminator(ItemColor(item).value)]))
  {
    var c := ItemColor(item);
    if item.RayItem? {
      var ray := item.ray;
      StoredCells(Blank, ColorToUse(Some(OrElse(ray.color, Yellow))));
      ReadBack(Blank, ColorToUse(Some(OrElse(ray.color, Yellow))));
      if ray.color.None? || ray.color.value == [] {
        ColorRoundTrip(Blank, Yellow);
      }
    } else {
      StoredCells(Blank, ColorToUse(c));
      ReadBack(Blank, ColorToUse(c));
      if c.None? || c.value == [] {
        ColorDefault(Blank, c);
      }
    }
  }

  /** The colour field of an item. */
  function ItemColor(item: Item): Option<JsString> {
    match item
    case MirrorItem(m) => m.color
    case ObjectItem(o) => o.color
    case RayItem(r) => r.color
    case ViewerItem(v) => v.color
  }

  /** Mirror i is item i. */
  lemma MirrorItemAt(scene: SceneGraph, i: nat)
    requires i < |scene.mirrors|
    ensures Items(scene)[i] == MirrorItem(scene.mirrors[i])
  {
  }

  /** Object i comes after the mirrors. */
  lemma ObjectItemAt(scene: SceneGraph, i: nat)
    requires i < |scene.objects|
    ensures Items(scene)[|scene.mirrors| + i] == ObjectItem(scene.objects[i])
  {
  }

  /** Ray i comes after the mirrors and the objects. */
  lemma RayItemAt(scene: SceneGraph, i: nat)
    requires i < |scene.rays|
    ensures Items(scene)[|scene.mirrors| + |scene.objects| + i] == RayItem(scene.rays[i])
  {
  }

  /** Viewer i comes last. */
  lemma ViewerItemAt(scene: SceneGraph, i: nat)
    requires i < |scene.viewers|
    ensures Items(scene)[|scene.mirrors| + |scene.objects| + |scene.rays| + i] == ViewerItem(scene.viewers[i])
  {
  }

  /** Of the entities a load creates, the first |mirrors| carry the Mirror tag and the last |viewers| the Viewer tag. */
  lemma LoadedTags(scene: SceneGraph, sqrt: real -> real, k: nat)
    requires k < |Items(scene)|
    ensures var r := LoadedRows(Items(scene), |Items(scene)|, sqrt)[k];
            (r.mirror <==> k < |scene.mirrors|)
            && (r.viewer <==> k >= |scene.mirrors| + |scene.objects| + |scene.rays|)
  {
    var m, o, r := |scene.mirrors|, |scene.objects|, |scene.rays|;
    LoadedRowsAt(Items(scene), |Items(scene)|, sqrt, k);
    LoadedDefaults(Items(scene)[k], sqrt);
    if k < m {
      MirrorItemAt(scene, k);
    } else if k < m + o {
      ObjectItemAt(scene, k - m);
    } else if k < m + o + r {
      RayItemAt(scene, k - m - o);
    } else {
      ViewerItemAt(scene, k - m - o - r);
    }
  }

  /**
   * What holds after the loader has visited the first n items: they went, in
   * order, into the entities base .. base + n - 1 of a world whose rows were
   * rows0 before, and the id map holds their ids.
   */
  ghost predicate Progress(rows: seq<Row>, items: seq<Item>, rows0: seq<Row>, base: nat, n: nat,
                           entityMap: map<JsString, nat>, sqrt: real -> real)
  {
    n <= |items| && base == |rows0|
    && rows == rows0 + LoadedRows(items, n, sqrt)
    && entityMap == Assign(items, base, n)
  }

  /** What Progress says once every item has been visited. */
  lemma ProgressDone(rows: seq<Row>, items: seq<Item>, rows0: seq<Row>, base: nat, n: nat,
                     entityMap: map<JsString, nat>, sqrt: real -> real)
    requires Progress(rows, items, rows0, base, n, entityMap, sqrt) && n == |items|
    ensures rows == rows0 + LoadedRows(items, |items|, sqrt)
    ensures entityMap == Assign(items, base, |items|)
  {
  }

  /** One pass of the mirror loop: item k is this mirror. */
  method LoadMirror(world: World, mirror: Mirror, sqrt: real -> real, entityMap0: map<JsString, nat>,
                    ghost items: seq<Item>, ghost rows0: seq<Row>, ghost base: nat, ghost k: nat)
    returns (entityMap: map<JsString, nat>)
    requires world.Valid() && Progress(world.rows, items, rows0, base, k, entityMap0, sqrt)
    requires k < |items| && items[k] == MirrorItem(mirror)
    modifies world
    ensures world.Valid() && Progress(world.rows, items, rows0, base, k + 1, entityMap, sqrt)
  {
    var entity := SpawnMirror(world, mirror);
    assert entity == base + k;
    RowsStep(rows0, items, k, sqrt, MirrorRow(mirror));
    AssignStep(items, base, k, mirror.id, entity);
    entityMap := entityMap0[mirror.id := entity];
  }

  /** One pass of the object loop: item k is this object. */
  method LoadObject(world: World, obj: SceneObject, sqrt: real -> real, entityMap0: map<JsString, nat>,
                    ghost items: seq<Item>, ghost rows0: seq<Row>, ghost base: nat, ghost k: nat)
    returns (entityMap: map<JsString, nat>)
    requires world.Valid() && Progress(world.rows, items, rows0, base, k, entityMap0, sqrt)
    requires k < |items| && items[k] == ObjectItem(obj)
    modifies world
    ensures world.Valid() && Progress(world.rows, items, rows0, base, k + 1, entityMap, sqrt)
  {
    var entity := SpawnObject(world, obj);
    assert entity == base + k;
    RowsStep(rows0, items, k, sqrt, ObjectRow(obj));
    AssignStep(items, base, k, obj.id, entity);
    entityMap := entityMap0[obj.id := entity];
  }

  /** One pass of the ray loop: item k is this ray. */
  method LoadRay(world: World, ray: Ray, sqrt: real -> real, entityMap0: map<JsString, nat>,
                 ghost items: seq<Item>, ghost rows0: seq<Row>, ghost base: nat, ghost k: nat)
    returns (entityMap: map<JsString, nat>)
    requires world.Valid() && Progress(world.rows, items, rows0, base, k, entityMap0, sqrt)
    requires k < |items| && items[k] == RayItem(ray)
    modifies world
    ensures world.Valid() && Progress(world.rows, items, rows0, base, k + 1, entityMap, sqrt)
  {
    var entity := SpawnRay(world, ray, sqrt);
    assert entity == base + k;
    RowsStep(rows0, items, k, sqrt, RayRow(ray, sqrt));
    AssignStep(items, base, k, ray.id, entity);
    entityMap := entityMap0[ray.id := entity];
  }

  /** One pass of the viewer loop: item k is this viewer. */
  method LoadViewer(world: World, viewer: Viewer, sqrt: real -> real, entityMap0: map<JsString, nat>,
                    ghost items: seq<Item>, ghost rows0: seq<Row>, ghost base: nat, ghost k: nat)
    returns (entityMap: map<JsString, nat>)
    requires world.Valid() && Progress(world.rows, items, rows0, base, k, entityMap0, sqrt)
    requires k < |items| && items[k] == ViewerItem(viewer)
    modifies world
    ensures world.Valid() && Progress(world.rows, items, rows0, base, k + 1, entityMap, sqrt)
  {
    var entity := SpawnViewer(world, viewer);
    assert entity == base + k;
    RowsStep(rows0, items, k, sqrt, ViewerRow(viewer));
    AssignStep(items, base, k, viewer.id, entity);
    entityMap := entityMap0[viewer.id := entity];
  }

  /** The mirror loop: a new entity for each mirror, in order; the mirrors are items start, start + 1, ... */
  method LoadMirrors(world: World, mirrors: seq<Mirror>, sqrt: real -> real, entityMap0: map<JsString, nat>,
                   ghost items: seq<Item>, ghost rows0: seq<Row>, ghost base: nat, ghost start: nat, ghost stop: nat)
    returns (entityMap: map<JsString, nat>)
    requires world.Valid() && Progress(world.rows, items, rows0, base, start, entityMap0, sqrt)
    requires stop == start + |mirrors| <= |items|
    requires items[start..stop] == MirrorItems(mirrors)
    modifies world
    ensures world.Valid() && Progress(world.rows, items, rows0, base, stop, entityMap, sqrt)
  {
    entityMap := entityMap0;
    var i := 0;
    ghost var k := start;
    while i < |mirrors|
      invariant i <= |mirrors| && k == start + i
      invariant world.Valid() && Progress(world.rows, items, rows0, base, k, entityMap, sqrt)
    {
      assert items[k] == MirrorItem(mirrors[i]) by {
        assert items[start..stop][i] == items[k];
      }
      entityMap := LoadMirror(world, mirrors[i], sqrt, entityMap, items, rows0, base, k);
      i, k := i + 1, k + 1;
    }
  }

  /** The object loop. */
  method LoadObjects(world: World, objects: seq<SceneObject>, sqrt: real -> real, entityMap0: map<JsString, nat>,
                   ghost items: seq<Item>, ghost rows0: seq<Row>, ghost base: nat, ghost start: nat, ghost stop: nat)
    returns (entityMap: map<JsString, nat>)
    requires world.Valid() && Progress(world.rows, items, rows0, base, start, entityMap0, sqrt)
    requires stop == start + |objects| <= |items|
    requires items[start..stop] == ObjectItems(objects)
    modifies world
    ensures world.Valid() && Progress(world.rows, items, rows0, base, stop, entityMap, sqrt)
  {
    entityMap := entityMap0;
    var i := 0;
    ghost var k := start;
    while i < |objects|
      invariant i <= |objects| && k == start + i
      invariant world.Valid() && Progress(world.rows, items, rows0, base, k, entityMap, sqrt)
    {
      assert items[k] == ObjectItem(objects[i]) by {
        assert items[start..stop][i] == items[k];
      }
      entityMap := LoadObject(world, objects[i], sqrt, entityMap, items, rows0, base, k);
      i, k := i + 1, k + 1;
    }
  }

  /** The ray loop. */
  method LoadRays(world: World, rays: seq<Ray>, sqrt: real -> real, entityMap0: map<JsString, nat>,
                ghost items: seq<Item>, ghost rows0: seq<Row>, ghost base: nat, ghost start: nat, ghost stop: nat)
    returns (entityMap: map<JsString, nat>)
    requires world.Valid() && Progress(world.rows, items, rows0, base, start, entityMap0, sqrt)
    requires stop == start + |rays| <= |items|
    requires items[start..stop] == RayItems(rays)
    modifies world
    ensures world.Valid() && Progress(world.rows, items, rows0, base, stop, entityMap, sqrt)
  {
    entityMap := entityMap0;
    var i := 0;
    ghost var k := start;
    while i < |rays|
      invariant i <= |rays| && k == start + i
      invariant world.Valid() && Progress(world.rows, items, rows0, base, k, entityMap, sqrt)
    {
      assert items[k] == RayItem(rays[i]) by {
        assert items[start..stop][i] == items[k];
      }
      entityMap := LoadRay(world, rays[i], sqrt, entityMap, items, rows0, base, k);
      i, k := i + 1, k + 1;
    }
  }

  /** The viewer loop. */
  method LoadViewers(world: World, viewers: seq<Viewer>, sqrt: real -> real, entityMap0: map<JsString, nat>,
                   ghost items: seq<Item>, ghost rows0: seq<Row>, ghost base: nat, ghost start: nat, ghost stop: nat)
    returns (entityMap: map<JsString, nat>)
    requires world.Valid() && Progress(world.rows, items, rows0, base, start, entityMap0, sqrt)
    requires stop == start + |viewers| <= |items|
    requires items[start..stop] == ViewerItems(viewers)
    modifies world
    ensures world.Valid() && Progress(world.rows, items, rows0, base, stop, entityMap, sqrt)
  {
    entityMap := entityMap0;
    var i := 0;
    ghost var k := start;
    while i < |viewers|
      invariant i <= |viewers| && k == start + i
      invariant world.Valid() && Progress(world.rows, items, rows0, base, k, entityMap, sqrt)
    {
      assert items[k] == ViewerItem(viewers[i]) by {
        assert items[start..stop][i] == items[k];
      }
      entityMap := LoadViewer(world, viewers[i], sqrt, entityMap, items, rows0, base, k);
      i, k := i + 1, k + 1;
    }
  }

  /** The ray loop and then the viewer loop, which close the visiting order. */
  method LoadRaysAndViewers(world: World, rays: seq<Ray>, viewers: seq<Viewer>, sqrt: real -> real,
                            entityMap0: map<JsString, nat>, ghost items: seq<Item>, ghost rows0: seq<Row>,
                            ghost base: nat, ghost start: nat)
    returns (entityMap: map<JsString, nat>)
    requires world.Valid() && Progress(world.rows, items, rows0, base, start, entityMap0, sqrt)
    requires start + |rays| <= |items|
    requires items[start..start + |rays|] == RayItems(rays)
    requires items[start + |rays|..|items|] == ViewerItems(viewers)
    modifies world
    ensures world.Valid() && Progress(world.rows, items, rows0, base, |items|, entityMap, sqrt)
  {
    ghost var mid := start + |rays|;
    entityMap := LoadRays(world, rays, sqrt, entityMap0, items, rows0, base, start, mid);
    entityMap := LoadViewers(world, viewers, sqrt, entityMap, items, rows0, base, mid, |items|);
  }

  /** The items of each kind form one stretch of the order the loader visits them in. */
  lemma ItemsLayout(scene: SceneGraph)
    ensures var items, m, o, r := Items(scene), |scene.mirrors|, |scene.objects|, |scene.rays|;
            items[0..m] == MirrorItems(scene.mirrors)
            && items[m..m + o] == ObjectItems(scene.objects)
            && items[m + o..m + o + r] == RayItems(scene.rays)
            && items[m + o + r..|items|] == ViewerItems(scene.viewers)
  {
    Stretches(MirrorItems(scene.mirrors), ObjectItems(scene.objects), RayItems(scene.rays), ViewerItems(scene.viewers));
  }

  /** Each part of a four-part concatenation is the slice at its offset. */
  lemma Stretches<T>(a: seq<T>, b: seq<T>, c: seq<T>, d: seq<T>)
    ensures var s := a + b + c + d;
            s[0..|a|] == a
            && s[|a|..|a| + |b|] == b
            && s[|a| + |b|..|a| + |b| + |c|] == c
            && s[|a| + |b| + |c|..|s|] == d
  {
    var s := a + b + c + d;
    assert s[0..|a|] == a;
    assert s[|a|..|a| + |b|] == b;
    assert s[|a| + |b|..|a| + |b| + |c|] == c;
    assert s[|a| + |b| + |c|..|s|] == d;
  }

  /**
   * The four loops of initializeSceneFromDSL, over the loader's visiting
   * order `items`: each kind's loop takes up the stretch of `items` that
   * holds that kind, and together they visit every item once.
   */
  method LoadScene(world: World, scene: SceneGraph, sqrt: real -> real, ghost items: seq<Item>, ghost rows0: seq<Row>)
    returns (entityMap: map<JsString, nat>)
    requires world.Valid() && world.rows == rows0
    requires var m, o, r := |scene.mirrors|, |scene.objects|, |scene.rays|;
             m + o + r <= |items|
             && items[0..m] == MirrorItems(scene.mirrors)
             && items[m..m + o] == ObjectItems(scene.objects)
             && items[m + o..m + o + r] == RayItems(scene.rays)
             && items[m + o + r..|items|] == ViewerItems(scene.viewers)
    modifies world
    ensures world.Valid() && Progress(world.rows, items, rows0, |rows0|, |items|, entityMap, sqrt)
  {
    ghost var m, o, r := |scene.mirrors|, |scene.objects|, |scene.rays|;
    entityMap := LoadMirrors(world, scene.mirrors, sqrt, map[], items, rows0, |rows0|, 0, m);
    entityMap := LoadObjects(world, scene.objects, sqrt, entityMap, items, rows0, |rows0|, m, m + o);
    entityMap := LoadRaysAndViewers(world, scene.rays, scene.viewers, sqrt, entityMap, items, rows0, |rows0|, m + o);
  }

  /**
   * initializeSceneFromDSL: one new entity per item, in the order mirrors,
   * objects, rays, viewers, each with the row its kind gets (so entities
   * already in the world keep their rows); mirrors get the Mirror tag and
   * viewers the Viewer tag; the returned id map sends each id to the entity
   * of the last item with that id.  `sqrt` stands for Math.sqrt.
   */
  method InitializeSceneFromDsl(world: World, scene: SceneGraph, sqrt: real -> real)
    returns (entityMap: map<JsString, nat>)
    requires world.Valid()
    modifies world
    ensures world.Valid()
    ensures world.rows == old(world.rows) + LoadedRows(Items(scene), |Items(scene)|, sqrt)
    ensures entityMap == Assign(Items(scene), |old(world.rows)|, |Items(scene)|)
  {
    ghost var items := Items(scene);
    ItemsLayout(scene);
    entityMap := LoadScene(world, scene, sqrt, items, world.rows);
    ProgressDone(world.rows, items, old(world.rows), |old(world.rows)|, |items|, entityMap, sqrt);
  }
}
