/**
 * The colour encoding of src/scene.ts: a colour string is kept in a fixed
 * buffer of 20 numeric cells per entity, one UTF-16 code unit per cell, and
 * its logical end is marked by a cell holding 0.
 *
 * This module gives the buffer contents after `setColor` (Stored) and what
 * `getColor` reads back (Decode), and proves the round trip; the loops
 * themselves are methods of Ecs.World.
 */
module ColorCodec {
  import opened Wrappers

  /** A UTF-16 code unit, what `charCodeAt` returns and `String.fromCharCode` takes back. */
  type CodeUnit = n: int | 0 <= n < 0x1_0000

  /** A JavaScript string: a sequence of UTF-16 code units. */
  type JsString = seq<CodeUnit>

  /** Number of cells of an entity's colour buffer. */
  const Width: nat := 20

  /** "black", the colour given to an entity without one. */
  const Black: JsString := [0x62, 0x6C, 0x61, 0x63, 0x6B]

  /** "yellow", the loader's default for rays. */
  const Yellow: JsString := [0x79, 0x65, 0x6C, 0x6C, 0x6F, 0x77]

  /** n cells holding 0. */
  function Zeros(n: nat): seq<CodeUnit> {
    seq(n, _ => 0)
  }

  /** The buffer of a freshly allocated entity. */
  const Blank: seq<CodeUnit> := Zeros(Width)

  function Min(a: int, b: int): int { if a <= b then a else b }

  /** `color || fallback`: both undefined and "" are falsy and give the fallback. */
  function OrElse(color: Option<JsString>, fallback: JsString): (r: JsString)
    ensures r == fallback || (color.Some? && r == color.value)
    ensures color.Some? && color.value != [] ==> r == color.value
    ensures color.None? || color.value == [] ==> r == fallback
    ensures r != [] <==> fallback != [] || (color.Some? && color.value != [])
  {
    if color.Some? && color.value != [] then color.value else fallback
  }

  /** The string setColor actually writes: `color || 'black'`. */
  function ColorToUse(color: Option<JsString>): (s: JsString)
    ensures s != []
  {
    OrElse(color, Black)
  }

  /** Index of the terminator setColor writes for s. */
  function Terminator(s: JsString): (n: nat)
    ensures n <= |s| && n < Width
    ensures n == |s| || n == Width - 1
  {
    Min(|s|, Width - 1)
  }

  /**
   * The buffer after setColor(s) on a buffer holding cells: the first
   * Terminator(s) code units of s, then 0, then the old cells.
   */
  function Stored(cells: seq<CodeUnit>, s: JsString): (r: seq<CodeUnit>)
    requires |cells| == Width
    ensures |r| == Width && r[Terminator(s)] == 0
  {
    var n := Terminator(s);
    s[..n] + [0] + cells[n + 1..]
  }

  /**
   * What getColor reads from a buffer: the longest prefix free of 0s, that
   * is, everything before the first 0 (or the whole buffer if it has none).
   */
  function Decode(cells: seq<CodeUnit>): (s: JsString)
    ensures |s| <= |cells| && s == cells[..|s|]
    ensures 0 !in s
    ensures |s| < |cells| ==> cells[|s|] == 0
  {
    if cells == [] || cells[0] == 0 then []
    else [cells[0]] + Decode(cells[1..])
  }

  /** Decode is the only zero-free prefix that is followed by a 0 or by the end of the buffer. */
  lemma {:induction false} DecodeUnique(cells: seq<CodeUnit>, t: JsString)
    requires |t| <= |cells| && t == cells[..|t|] && 0 !in t
    requires |t| == |cells| || cells[|t|] == 0
    ensures Decode(cells) == t
  {
    if t != [] {
      assert cells[0] == t[0];
      assert t[1..] == cells[1..][..|t| - 1];
      DecodeUnique(cells[1..], t[1..]);
    }
  }

  /** A string without 0s decodes to itself. */
  lemma DecodeZeroFree(t: JsString)
    requires 0 !in t
    ensures Decode(t) == t
  {
    DecodeUnique(t, t);
  }

  /** setColor writes the cells up to the terminator and leaves the cells after it alone. */
  lemma StoredCells(cells: seq<CodeUnit>, s: JsString)
    requires |cells| == Width
    ensures var r := Stored(cells, s); var n := Terminator(s);
            |r| == Width && r[..n] == s[..n] && r[n] == 0 && r[n + 1..] == cells[n + 1..]
  {
  }

  /** Reading back after setColor(s) gives what Decode gives on the first 19 code units of s. */
  lemma ReadBack(cells: seq<CodeUnit>, s: JsString)
    requires |cells| == Width
    ensures Decode(Stored(cells, s)) == Decode(s[..Terminator(s)])
  {
    var n := Terminator(s);
    var p := s[..n];
    var r := Stored(cells, s);
    var t := Decode(p);
    assert r[..n] == p;
    assert r[..|t|] == p[..|t|];
    if |t| < n {
      assert r[|t|] == p[|t|];
    } else {
      assert r[|t|] == 0;
    }
    DecodeUnique(r, t);
  }

  /** A colour of 1 to 19 code units without 0s reads back exactly. */
  lemma ColorRoundTrip(cells: seq<CodeUnit>, s: JsString)
    requires |cells| == Width
    requires 1 <= |s| <= Width - 1 && 0 !in s
    ensures Decode(Stored(cells, ColorToUse(Some(s)))) == s
  {
    assert ColorToUse(Some(s)) == s;
    ReadBack(cells, s);
    assert s[..Terminator(s)] == s;
    DecodeZeroFree(s);
  }

  /**
   * A colour of 19 or more code units, with no 0 among its first 19, reads
   * back as those 19: cell 19 always ends up 0.
   */
  lemma ColorTruncated(cells: seq<CodeUnit>, s: JsString)
    requires |cells| == Width
    requires |s| >= Width - 1 && 0 !in s[..Width - 1]
    ensures Decode(Stored(cells, ColorToUse(Some(s)))) == s[..Width - 1]
    ensures Stored(cells, ColorToUse(Some(s)))[Width - 1] == 0
  {
    assert ColorToUse(Some(s)) == s;
    ReadBack(cells, s);
    DecodeZeroFree(s[..Width - 1]);
  }

  /** An undefined or empty colour is stored, and read back, as "black". */
  lemma ColorDefault(cells: seq<CodeUnit>, color: Option<JsString>)
    requires |cells| == Width
    requires color.None? || color.value == []
    ensures ColorToUse(color) == Black
    ensures Decode(Stored(cells, ColorToUse(color))) == Black
  {
    ColorRoundTrip(cells, Black);
  }
}
