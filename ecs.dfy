/**
 * The entity-component store used by the simulator (bitECS with the
 * components of src/components.ts): entities are integer handles handed out
 * by a counter, every component field holds one value per handle, and a tag
 * component (Mirror, Viewer) is a membership flag per handle.  The store is
 * kept as one row per handle: entity e's Position.x is rows[e].x, and so on.
 * The colour component holds one 20-cell buffer per entity; `setColor` and
 * `getColor` of src/scene.ts are the methods that write and read it.
 */
module Ecs {
  import opened Wrappers
  import opened ColorCodec

  /** One entity's values across all component fields, with its two tags. */
  datatype Row = Row(x: real, y: real, vx: real, vy: real, angle: real,
                     width: real, height: real, color: seq<CodeUnit>,
                     mirror: bool, viewer: bool)

  /** The row of a freshly added entity: typed-array fields start at 0, no tags. */
  const ZeroRow: Row := Row(0.0, 0.0, 0.0, 0.0, 0.0, 0.0, 0.0, Blank, false, false)

  /**
   * The handles below n that carry the Mirror tag, in increasing order: what
   * a query on the tag returns when tags are only ever added, each right
   * after its entity was created.
   */
  function Mirrors(rows: seq<Row>, n: nat): (es: seq<nat>)
    requires n <= |rows|
    ensures forall i :: 0 <= i < |es| ==> es[i] < n && rows[es[i]].mirror
    ensures forall i, j :: 0 <= i < j < |es| ==> es[i] < es[j]
    ensures forall e :: 0 <= e < n && rows[e].mirror ==> e in es
  {
    if n == 0 then [] else Mirrors(rows, n - 1) + (if rows[n - 1].mirror then [n - 1] else [])
  }

  class World {
    /** rows[e] holds the component values of entity e; |rows| is the counter. */
    var rows: seq<Row>

    /** Every colour buffer has Width cells. */
    ghost predicate Valid()
      reads this
    {
      forall e :: 0 <= e < |rows| ==> |rows[e].color| == Width
    }

    /** mirrorQuery(world): the entities with the Mirror tag. */
    function MirrorQuery(): (es: seq<nat>)
      reads this
    {
      Mirrors(rows, |rows|)
    }

    /** createWorld: no entities yet. */
    constructor ()
      ensures Valid() && rows == []
    {
      rows := [];
    }

    /** addEntity: the next handle of the counter, with every field at 0 and no tags. */
    method AddEntity() returns (e: nat)
      requires Valid()
      modifies this
      ensures Valid() && e == |old(rows)| && rows == old(rows) + [ZeroRow]
    {
      e := |rows|;
      rows := rows + [ZeroRow];
    }

    /** addComponent(world, Mirror, e): tagging twice is the same as tagging once. */
    method AddMirrorTag(e: nat)
      requires Valid() && e < |rows|
      modifies this
      ensures Valid() && rows == old(rows)[e := old(rows[e]).(mirror := true)]
    {
      rows := rows[e := rows[e].(mirror := true)];
    }

    /** addComponent(world, Viewer, e) */
    method AddViewerTag(e: nat)
      requires Valid() && e < |rows|
      modifies this
      ensures Valid() && rows == old(rows)[e := old(rows[e]).(viewer := true)]
    {
      rows := rows[e := rows[e].(viewer := true)];
    }

    /** `Position.x[e] = x; Position.y[e] = y` */
    method SetPosition(e: nat, x: real, y: real)
      requires Valid() && e < |rows|
      modifies this
      ensures Valid() && rows == old(rows)[e := old(rows[e]).(x := x, y := y)]
    {
      rows := rows[e := rows[e].(x := x, y := y)];
    }

    /** `Velocity.x[e] = vx; Velocity.y[e] = vy` */
    method SetVelocity(e: nat, vx: real, vy: real)
      requires Valid() && e < |rows|
      modifies this
      ensures Valid() && rows == old(rows)[e := old(rows[e]).(vx := vx, vy := vy)]
    {
      rows := rows[e := rows[e].(vx := vx, vy := vy)];
    }

    /** `Angle.value[e] = a` */
    method SetAngle(e: nat, a: real)
      requires Valid() && e < |rows|
      modifies this
      ensures Valid() && rows == old(rows)[e := old(rows[e]).(angle := a)]
    {
      rows := rows[e := rows[e].(angle := a)];
    }

    /** `Size.width[e] = w; Size.height[e] = h` */
    method SetSize(e: nat, w: real, h: real)
      requires Valid() && e < |rows|
      modifies this
      ensures Valid() && rows == old(rows)[e := old(rows[e]).(width := w, height := h)]
    {
      rows := rows[e := rows[e].(width := w, height := h)];
    }

    /**
     * setColor: write `color || 'black'` into entity e's buffer, at most 20
     * cells, then put the terminator at min(length, 19).  Nothing else changes.
     */
    method SetColor(e: nat, color: Option<JsString>)
      requires Valid() && e < |rows|
      modifies this
      ensures Valid() && rows == old(rows)[e := old(rows[e]).(color := Stored(old(rows[e].color), ColorToUse(color)))]
    {
      var buffer := WriteColor(rows[e].color, color);
      rows := rows[e := rows[e].(color := buffer)];
    }

    /** getColor: the code units of entity e's buffer up to its first 0 (or all 20). */
    method GetColor(e: nat) returns (color: JsString)
      requires Valid() && e < |rows|
      ensures color == Decode(rows[e].color)
      ensures |color| <= Width && 0 !in color
    {
      color := [];
      var buffer := rows[e].color;
      for i := 0 to Width
        invariant color == buffer[..i] && 0 !in color
      {
        var code := buffer[i];
        if code == 0 {
          break;
        }
        color := color + [code];
      }
      DecodeUnique(buffer, color);
    }
  }

  /**
   * The loop of setColor on one buffer: the first min(|s|, 20) code units of
   * s = `color || 'black'` go into the cells, then a 0 at min(|s|, 19).
   */
  method WriteColor(cells: seq<CodeUnit>, color: Option<JsString>) returns (buffer: seq<CodeUnit>)
    requires |cells| == Width
    ensures buffer == Stored(cells, ColorToUse(color))
  {
    var colorToUse := ColorToUse(color);
    buffer := cells;
    var i := 0;
    while i < |colorToUse| && i < Width
      invariant 0 <= i <= Width && i <= |colorToUse| && |buffer| == Width
      invariant forall j :: 0 <= j < i ==> buffer[j] == colorToUse[j]
      invariant forall j :: i <= j < Width ==> buffer[j] == cells[j]
    {
      buffer := buffer[i := colorToUse[i]];
      i := i + 1;
    }
    var n := Min(|colorToUse|, Width - 1);
    buffer := buffer[n := 0];
    assert buffer == Stored(cells, colorToUse) by {
      var r := Stored(cells, colorToUse);
      assert |r| == Width;
      forall j | 0 <= j < Width ensures buffer[j] == r[j] {
        if j < n {
          assert r[j] == colorToUse[j];
        } else if j > n {
          assert r[j] == cells[j];
        }
      }
    }
  }
}
