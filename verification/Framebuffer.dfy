/** The screen: a plain framebuffer, one that also flags the tiles that changed, and the copy a front end
    keeps by pulling flagged tiles. */
module Framebuffer {
  import opened BitOps
  import opened DvcMachine

  const TILE: nat := 16

  /** A screen of `width * height` pixels in row-major order. */
  datatype Frame = Frame(width: nat, height: nat, pixels: seq<int>)

  const BLANK := Frame(0, 0, [])

  ghost predicate FrameOk(f: Frame) {
    |f.pixels| == f.height * f.width
  }

  /** Where column `x` of row `y` is kept, with `w` columns in a row. */
  function At(w: nat, x: nat, y: nat): nat {
    y * w + x
  }

  // ---- index arithmetic ----

  function Repeat<T>(n: nat, v: T): (r: seq<T>)
    ensures |r| == n && forall i :: 0 <= i < n ==> r[i] == v
  {
    seq(n, _ => v)
  }

  lemma AtInRange(w: nat, h: nat, x: nat, y: nat)
    requires x < w && y < h
    ensures At(w, x, y) < h * w
  {
    assert (y + 1) * w <= h * w;
  }

  lemma AtInjective(w: nat, x: nat, y: nat, x': nat, y': nat)
    requires x < w && x' < w
    ensures At(w, x, y) == At(w, x', y') <==> x == x' && y == y'
  {
    if y < y' {
      assert (y + 1) * w <= y' * w;
    } else if y' < y {
      assert (y' + 1) * w <= y * w;
    }
  }

  /** The places of a row that lie in a span are those of the columns in it. */
  lemma AtSpan(w: nat, x: nat, y: nat, n: nat, x': nat, y': nat)
    requires x + n <= w && x' < w
    ensures At(w, x, y) <= At(w, x', y') < At(w, x, y) + n <==> y' == y && x <= x' < x + n
  {
    if y' > y {
      assert (y + 1) * w <= y' * w;
    } else if y' < y {
      assert (y' + 1) * w <= y * w;
    }
  }

  lemma Column(i: nat, w: nat, h: nat)
    requires i < h * w
    ensures w > 0 && i % w < w && i / w < h && At(w, i % w, i / w) == i
  {
    assert w > 0;
    assert i == (i / w) * w + i % w;
    if i / w >= h {
      MulMono(h, i / w, w);
    }
  }

  /** The column and row of the pixel kept at place `i`. */
  ghost function PlaceOf(i: nat, w: nat, h: nat): (p: (nat, nat))
    requires i < h * w
    ensures p.0 < w && p.1 < h && At(w, p.0, p.1) == i
  {
    Column(i, w, h);
    (i % w, i / w)
  }

  /** Two screens that agree at every column of every row are the same. */
  lemma SamePixels(w: nat, h: nat, p: seq<int>, q: seq<int>)
    requires |p| == |q| == h * w
    requires forall x: nat, y: nat {:trigger At(w, x, y)} :: x < w && y < h && At(w, x, y) < |p| ==>
      p[At(w, x, y)] == q[At(w, x, y)]
    ensures p == q
  {
    forall i | 0 <= i < |p|
      ensures p[i] == q[i]
    {
      Column(i, w, h);
    }
  }

  // ---- drawing ----

  /** The part of the screen a tile of `len` columns at (x, y) covers. */
  predicate Covers(h: nat, x: int, y: int, len: nat, a: int, b: int) {
    y <= b < h && b < y + TILE && x <= a < x + len
  }

  function Resize(f: Frame, w: nat, h: nat): Frame {
    if w == f.width && h == f.height then f else Frame(w, h, Repeat(h * w, 0))
  }

  /** The screen with a tile's rows of `len` pixels copied to (x, y), cut off at the edges. */
  function Blit(f: Frame, tile: seq<int>, x: int, y: int, len: nat): (g: Frame)
    requires |tile| == TILE_PIXELS && len <= TILE
    ensures |g.pixels| == |f.pixels|
  {
    f.(pixels := seq(|f.pixels|, i requires 0 <= i < |f.pixels| =>
      if f.width > 0 && Covers(f.height, x, y, len, i % f.width, i / f.width)
      then tile[(i / f.width - y) * TILE + (i % f.width - x)] else f.pixels[i]))
  }

  lemma BlitAt(f: Frame, tile: seq<int>, x: int, y: int, len: nat, a: nat, b: nat)
    requires FrameOk(f) && |tile| == TILE_PIXELS && len <= TILE && a < f.width && b < f.height
    ensures At(f.width, a, b) < |f.pixels|
    ensures Blit(f, tile, x, y, len).pixels[At(f.width, a, b)] ==
      if Covers(f.height, x, y, len, a, b) then tile[(b - y) * TILE + (a - x)] else f.pixels[At(f.width, a, b)]
  {
    AtInRange(f.width, f.height, a, b);
    var i := At(f.width, a, b);
    Column(i, f.width, f.height);
    AtInjective(f.width, a, b, i % f.width, i / f.width);
  }

  lemma BlitEverywhere(f: Frame, tile: seq<int>, x: int, y: int, len: nat)
    requires FrameOk(f) && |tile| == TILE_PIXELS && len <= TILE
    ensures Blitted(f, Blit(f, tile, x, y, len).pixels, tile, x, y, len)
  {
    forall a: nat, b: nat | a < f.width && b < f.height
      ensures At(f.width, a, b) < |f.pixels|
      ensures Blit(f, tile, x, y, len).pixels[At(f.width, a, b)] ==
        if Covers(f.height, x, y, len, a, b) then tile[(b - y) * TILE + (a - x)] else f.pixels[At(f.width, a, b)]
    {
      BlitAt(f, tile, x, y, len, a, b);
    }
  }

  ghost predicate Blitted(f: Frame, g: seq<int>, tile: seq<int>, x: int, y: int, len: nat)
    requires |tile| == TILE_PIXELS && len <= TILE
  {
    && |g| == |f.pixels|
    && forall a: nat, b: nat {:trigger At(f.width, a, b)} :: a < f.width && b < f.height ==>
      && At(f.width, a, b) < |g|
      && g[At(f.width, a, b)] ==
        if Covers(f.height, x, y, len, a, b) then tile[(b - y) * TILE + (a - x)] else f.pixels[At(f.width, a, b)]
  }

  /** Part way through a blit: the rows above `row`, and in it the columns left of `col`, are done. */
  ghost predicate Partly(f: Frame, g: seq<int>, p: seq<int>, row: int, col: int) {
    && |p| == |g| == |f.pixels|
    && forall a: nat, b: nat {:trigger At(f.width, a, b)} :: a < f.width && b < f.height ==>
      && At(f.width, a, b) < |p|
      && p[At(f.width, a, b)] ==
        if b < row || (b == row && a < col) then g[At(f.width, a, b)] else f.pixels[At(f.width, a, b)]
  }

  /** Finishing a row, or skipping one, only leaves places the blit does not cover. */
  lemma NextRow(f: Frame, g: seq<int>, p: seq<int>, tile: seq<int>, x: int, y: int, len: nat, row: int, col: int)
    requires |tile| == TILE_PIXELS && len <= TILE && Blitted(f, g, tile, x, y, len)
    requires Partly(f, g, p, row, col)
    requires !(0 <= row < f.height) || row < y || row >= y + TILE || col >= x + len
    ensures Partly(f, g, p, row + 1, x)
  {
  }

  lemma NextColumn(f: Frame, g: seq<int>, p: seq<int>, row: nat, col: int, v: int)
    requires Partly(f, g, p, row, col) && row < f.height
    requires 0 <= col < f.width ==> At(f.width, col, row) < |g| && g[At(f.width, col, row)] == v
    ensures !(0 <= col < f.width) ==> Partly(f, g, p, row, col + 1)
    ensures 0 <= col < f.width && At(f.width, col, row) < |p| ==>
      && p[At(f.width, col, row)] == f.pixels[At(f.width, col, row)]
      && Partly(f, g, p[At(f.width, col, row) := v], row, col + 1)
  {
    if 0 <= col < f.width {
      var i := At(f.width, col, row);
      assert i < |p|;
      forall a: nat, b: nat | a < f.width && b < f.height
        ensures At(f.width, a, b) == i <==> a == col && b == row
      {
        AtInjective(f.width, a, b, col, row);
      }
    }
  }

  lemma PartlyDone(f: Frame, g: seq<int>, p: seq<int>, tile: seq<int>, x: int, y: int, len: nat, row: int)
    requires FrameOk(f) && |tile| == TILE_PIXELS && len <= TILE && Blitted(f, g, tile, x, y, len)
    requires Partly(f, g, p, row, x) && (row >= y + TILE || row >= f.height)
    ensures p == g
  {
    SamePixels(f.width, f.height, p, g);
  }

  class PlainFramebuffer {
    var width: nat
    var height: nat
    var pixels: seq<int>

    ghost function Screen(): Frame
      reads this
    {
      Frame(width, height, pixels)
    }

    constructor ()
      ensures Screen() == BLANK
    {
      width, height, pixels := 0, 0, [];
    }

    method SetDimensions(w: nat, h: nat)
      requires FrameOk(Screen())
      modifies this
      ensures FrameOk(Screen()) && Screen() == Resize(old(Screen()), w, h)
    {
      if w == width && h == height {
        return;
      }
      width, height := w, h;
      pixels := Repeat(h * w, 0);
    }

    method Paste(tile: seq<int>, x: int, y: int, len: nat)
      requires FrameOk(Screen()) && |tile| == TILE_PIXELS && len <= TILE
      modifies this`pixels
      ensures FrameOk(Screen()) && Screen() == Blit(old(Screen()), tile, x, y, len)
    {
      ghost var f := Screen();
      ghost var g := Blit(f, tile, x, y, len).pixels;
      BlitEverywhere(f, tile, x, y, len);
      if pixels == [] {
        return;
      }
      var rows := if y + 16 > height then height - y else 16;
      var r := 0;
      while r < rows
        invariant 0 <= r <= 16 && Partly(f, g, pixels, y + r, x)
      {
        if 0 <= y + r < height {
          PasteRow(tile, x, y, len, r, f, g);
        }
        NextRow(f, g, pixels, tile, x, y, len, y + r, if 0 <= y + r < height then x + len else x);
        r := r + 1;
      }
      PartlyDone(f, g, pixels, tile, x, y, len, y + r);
    }

    method PasteRow(tile: seq<int>, x: int, y: int, len: nat, r: nat, ghost f: Frame, ghost g: seq<int>)
      requires |tile| == TILE_PIXELS && len <= TILE && r < 16 && width == f.width && height == f.height
      requires 0 <= y + r < height
      requires Blitted(f, g, tile, x, y, len) && Partly(f, g, pixels, y + r, x)
      modifies this`pixels
      ensures Partly(f, g, pixels, y + r, x + len)
    {
      var c := 0;
      while c < len
        invariant 0 <= c <= len && Partly(f, g, pixels, y + r, x + c)
      {
        if 0 <= x + c < width {
          assert Covers(height, x, y, len, x + c, y + r);
          NextColumn(f, g, pixels, y + r, x + c, tile[r * 16 + c]);
          pixels := pixels[At(width, x + c, y + r) := tile[r * 16 + c]];
        } else {
          NextColumn(f, g, pixels, y + r, x + c, 0);
        }
        c := c + 1;
      }
    }
  }

  // ---- change tracking ----

  /** A screen with a flag for each 16 by 16 tile. */
  datatype Tracked = Tracked(frame: Frame, tilesX: nat, tilesY: nat, dirty: seq<bool>)

  const UNTOUCHED := Tracked(BLANK, 0, 0, [])

  function Tiles(n: nat): nat {
    (n + TILE - 1) / TILE
  }

  ghost predicate TrackedOk(t: Tracked) {
    && FrameOk(t.frame)
    && t.tilesX == Tiles(t.frame.width) && t.tilesY == Tiles(t.frame.height)
    && |t.dirty| == t.tilesY * t.tilesX
  }

  lemma TileInRange(t: Tracked, a: nat, b: nat)
    requires TrackedOk(t) && a < t.frame.width && b < t.frame.height
    ensures a / TILE < t.tilesX && b / TILE < t.tilesY
    ensures At(t.tilesX, a / TILE, b / TILE) < |t.dirty|
  {
    AtInRange(t.tilesX, t.tilesY, a / TILE, b / TILE);
  }

  /** Whether the tile that holds a pixel is flagged. */
  ghost predicate Flagged(t: Tracked, a: nat, b: nat)
    requires TrackedOk(t) && a < t.frame.width && b < t.frame.height
  {
    TileInRange(t, a, b);
    t.dirty[At(t.tilesX, a / TILE, b / TILE)]
  }

  function TrackResize(t: Tracked, w: nat, h: nat): Tracked {
    if w == t.frame.width && h == t.frame.height then t
    else Tracked(Resize(t.frame, w, h), Tiles(w), Tiles(h), Repeat(Tiles(h) * Tiles(w), true))
  }

  lemma ResizeOk(t: Tracked, w: nat, h: nat)
    requires TrackedOk(t)
    ensures TrackedOk(TrackResize(t, w, h))
  {
  }

  /** Integer division the way the source does it, towards zero. */
  function TileOf(x: int): int {
    if x >= 0 then x / TILE else -((-x) / TILE)
  }

  function FlagTile(t: Tracked, tx: int, ty: int): (dirty: seq<bool>)
    requires TrackedOk(t)
    ensures |dirty| == |t.dirty|
  {
    if 0 <= tx < t.tilesX && 0 <= ty < t.tilesY then
      AtInRange(t.tilesX, t.tilesY, tx, ty);
      t.dirty[At(t.tilesX, tx, ty) := true]
    else t.dirty
  }

  function TrackBlit(t: Tracked, tile: seq<int>, x: int, y: int, len: nat): Tracked
    requires TrackedOk(t) && |tile| == TILE_PIXELS && len <= TILE
  {
    var g := Blit(t.frame, tile, x, y, len);
    if g == t.frame then t else t.(frame := g, dirty := FlagTile(t, TileOf(x), TileOf(y)))
  }

  class TrackingFramebuffer {
    var width: nat
    var height: nat
    var pixels: seq<int>
    var tilesX: nat
    var tilesY: nat
    var dirty: seq<bool>

    ghost function Screen(): Tracked
      reads this
    {
      Tracked(Frame(width, height, pixels), tilesX, tilesY, dirty)
    }

    ghost predicate Valid()
      reads this
    {
      TrackedOk(Screen())
    }

    constructor ()
      ensures Valid() && Screen() == UNTOUCHED
    {
      width, height, pixels, tilesX, tilesY, dirty := 0, 0, [], 0, 0, [];
    }

    method SetDimensions(w: nat, h: nat)
      requires Valid()
      modifies this
      ensures Valid() && Screen() == TrackResize(old(Screen()), w, h)
    {
      hide Repeat;
      if w == width && h == height {
        return;
      }
      width, height := w, h;
      pixels := Repeat(h * w, 0);
      tilesX := (w + TILE - 1) / TILE;
      tilesY := (h + TILE - 1) / TILE;
      dirty := Repeat(tilesY * tilesX, true);
      ResizeOk(old(Screen()), w, h);
    }

    /** Copies only the pixels that differ, and flags the tile only if one did. */
    method Paste(tile: seq<int>, x: int, y: int, len: nat)
      requires Valid() && |tile| == TILE_PIXELS && len <= TILE
      modifies this`pixels, this`dirty
      ensures Valid() && Screen() == TrackBlit(old(Screen()), tile, x, y, len)
    {
      ghost var f := Screen().frame;
      ghost var g := Blit(f, tile, x, y, len).pixels;
      BlitEverywhere(f, tile, x, y, len);
      if pixels == [] {
        return;
      }
      var rows := if y + 16 > height then height - y else 16;
      var changed := false;
      var r := 0;
      while r < rows
        invariant 0 <= r <= 16 && Partly(f, g, pixels, y + r, x) && dirty == old(dirty)
        invariant changed == (pixels != f.pixels)
      {
        if 0 <= y + r < height {
          changed := PasteRow(tile, x, y, len, r, changed, f, g);
        }
        NextRow(f, g, pixels, tile, x, y, len, y + r, if 0 <= y + r < height then x + len else x);
        r := r + 1;
      }
      PartlyDone(f, g, pixels, tile, x, y, len, y + r);
      if changed {
        Flag(TileOf(x), TileOf(y));
      }
    }

    method ClearDirty()
      requires Valid()
      modifies this`dirty
      ensures Valid() && Screen() == old(Screen()).(dirty := Repeat(|old(dirty)|, false))
    {
      dirty := Repeat(|dirty|, false);
    }

    method Flag(tx: int, ty: int)
      requires Valid()
      modifies this`dirty
      ensures Valid()
      ensures var t := old(Screen()); Screen() == t.(dirty := FlagTile(t, tx, ty))
    {
      if 0 <= tx < tilesX && 0 <= ty < tilesY {
        AtInRange(tilesX, tilesY, tx, ty);
        dirty := dirty[At(tilesX, tx, ty) := true];
      }
    }

    method PasteRow(tile: seq<int>, x: int, y: int, len: nat, r: nat, before: bool, ghost f: Frame, ghost g: seq<int>)
      returns (changed: bool)
      requires |tile| == TILE_PIXELS && len <= TILE && r < 16 && width == f.width && height == f.height
      requires 0 <= y + r < height && before == (pixels != f.pixels)
      requires Blitted(f, g, tile, x, y, len) && Partly(f, g, pixels, y + r, x)
      modifies this`pixels
      ensures Partly(f, g, pixels, y + r, x + len) && changed == (pixels != f.pixels)
    {
      changed := before;
      var c := 0;
      while c < len
        invariant 0 <= c <= len && Partly(f, g, pixels, y + r, x + c)
        invariant changed == (pixels != f.pixels)
      {
        if 0 <= x + c < width {
          assert Covers(height, x, y, len, x + c, y + r);
          var i, v := At(width, x + c, y + r), tile[r * 16 + c];
          NextColumn(f, g, pixels, y + r, x + c, v);
          if pixels[i] != v {
            StaysChanged(f.pixels, pixels, i, v);
            pixels := pixels[i := v];
            changed := true;
          } else {
            assert pixels[i := v] == pixels;
          }
        } else {
          NextColumn(f, g, pixels, y + r, x + c, 0);
        }
        c := c + 1;
      }
    }
  }

  lemma StaysChanged(before: seq<int>, now: seq<int>, i: nat, v: int)
    requires |before| == |now| && i < |now| && now[i] == before[i] != v
    ensures now[i := v] != before
  {
    assert now[i := v][i] == v;
  }

  // ---- the front end's copy ----

  datatype Rect = Rect(x: int, y: int, w: int, h: int)

  predicate Inside(r: Rect, a: int, b: int) {
    r.x <= a < r.x + r.w && r.y <= b < r.y + r.h
  }

  ghost predicate Covered(rects: seq<Rect>, a: int, b: int) {
    exists k :: 0 <= k < |rects| && Inside(rects[k], a, b)
  }

  /** Every pixel where the copy differs from the screen lies in a flagged tile. A copy of another size is
      replaced whole, so nothing is asked of it. */
  ghost predicate Agrees(t: Tracked, copy: seq<int>)
    requires TrackedOk(t)
  {
    |copy| == |t.frame.pixels| ==>
      forall a: nat, b: nat {:trigger At(t.frame.width, a, b)} :: a < t.frame.width && b < t.frame.height ==>
        var i := At(t.frame.width, a, b);
        i < |copy| && (copy[i] != t.frame.pixels[i] ==> Flagged(t, a, b))
  }

  lemma AllFlagged(t: Tracked, a: nat, b: nat)
    requires TrackedOk(t) && t.dirty == Repeat(|t.dirty|, true) && a < t.frame.width && b < t.frame.height
    ensures At(t.frame.width, a, b) < |t.frame.pixels| && Flagged(t, a, b)
  {
    AtInRange(t.frame.width, t.frame.height, a, b);
    TileInRange(t, a, b);
  }

  lemma ResizeAgrees(t: Tracked, copy: seq<int>, w: nat, h: nat)
    requires TrackedOk(t) && Agrees(t, copy)
    ensures TrackedOk(TrackResize(t, w, h)) && Agrees(TrackResize(t, w, h), copy)
  {
    var r := TrackResize(t, w, h);
    ResizeOk(t, w, h);
    if r != t {
      forall a: nat, b: nat | a < w && b < h
        ensures At(w, a, b) < |r.frame.pixels| && Flagged(r, a, b)
      {
        AllFlagged(r, a, b);
      }
    }
  }

  lemma BlitAgreesAt(t: Tracked, copy: seq<int>, tile: seq<int>, x: nat, y: nat, a: nat, b: nat)
    requires TrackedOk(t) && |tile| == TILE_PIXELS && x % TILE == 0 && y % TILE == 0
    requires a < t.frame.width && b < t.frame.height && At(t.frame.width, a, b) < |copy| == |t.frame.pixels|
    requires copy[At(t.frame.width, a, b)] != t.frame.pixels[At(t.frame.width, a, b)] ==> Flagged(t, a, b)
    requires TrackedOk(TrackBlit(t, tile, x, y, TILE))
    ensures var r := TrackBlit(t, tile, x, y, TILE);
      copy[At(t.frame.width, a, b)] != r.frame.pixels[At(t.frame.width, a, b)] ==> Flagged(r, a, b)
  {
    TileInRange(t, a, b);
    BlitAt(t.frame, tile, x, y, TILE, a, b);
    if Covers(t.frame.height, x, y, TILE, a, b) {
      assert a / TILE == x / TILE && b / TILE == y / TILE;
    }
  }

  lemma BlitAgrees(t: Tracked, copy: seq<int>, tile: seq<int>, x: nat, y: nat)
    requires TrackedOk(t) && Agrees(t, copy) && |tile| == TILE_PIXELS && x % TILE == 0 && y % TILE == 0
    ensures TrackedOk(TrackBlit(t, tile, x, y, TILE)) && Agrees(TrackBlit(t, tile, x, y, TILE), copy)
  {
    var r := TrackBlit(t, tile, x, y, TILE);
    var w, h := t.frame.width, t.frame.height;
    if |copy| == |t.frame.pixels| {
      forall a: nat, b: nat | a < w && b < h
        ensures At(w, a, b) < |copy|
        ensures copy[At(w, a, b)] != r.frame.pixels[At(w, a, b)] ==> Flagged(r, a, b)
      {
        AtInRange(w, h, a, b);
        BlitAgreesAt(t, copy, tile, x, y, a, b);
      }
    }
  }
}
