/** The seam between the decoder and a front end: pulling the tiles that changed since the last pull. */
module Console {
  import opened BitOps
  import opened DvcMachine
  import opened DvcRuns
  import opened Framebuffer

  // ---- what a pull does to the copy ----

  function AllClear(t: Tracked): Tracked {
    t.(dirty := Repeat(|t.dirty|, false))
  }

  /** Whether the pixel kept at place `i` lies in a flagged tile. */
  ghost predicate FlaggedAt(t: Tracked, i: nat)
    requires TrackedOk(t) && i < |t.frame.pixels|
  {
    var p := PlaceOf(i, t.frame.width, t.frame.height);
    Flagged(t, p.0, p.1)
  }

  lemma FlaggedPlace(t: Tracked, a: nat, b: nat)
    requires TrackedOk(t) && a < t.frame.width && b < t.frame.height
    ensures At(t.frame.width, a, b) < |t.frame.pixels|
    ensures FlaggedAt(t, At(t.frame.width, a, b)) == Flagged(t, a, b)
  {
    AtInRange(t.frame.width, t.frame.height, a, b);
    var p := PlaceOf(At(t.frame.width, a, b), t.frame.width, t.frame.height);
    AtInjective(t.frame.width, a, b, p.0, p.1);
  }

  /** The copy after a pull: replaced whole when its size is wrong, else patched where tiles are flagged. */
  ghost function Pulled(t: Tracked, copy: seq<int>): (r: seq<int>)
    requires TrackedOk(t)
    ensures |r| == |t.frame.pixels|
  {
    if |copy| != |t.frame.pixels| then t.frame.pixels
    else seq(|copy|, i requires 0 <= i < |copy| => if FlaggedAt(t, i) then t.frame.pixels[i] else copy[i])
  }

  lemma PulledAt(t: Tracked, copy: seq<int>, a: nat, b: nat)
    requires TrackedOk(t) && |copy| == |t.frame.pixels| && a < t.frame.width && b < t.frame.height
    ensures At(t.frame.width, a, b) < |copy|
    ensures var i := At(t.frame.width, a, b);
      Pulled(t, copy)[i] == if Flagged(t, a, b) then t.frame.pixels[i] else copy[i]
  {
    FlaggedPlace(t, a, b);
  }

  /** A copy whose stale pixels are all in flagged tiles is brought up to date by one pull. */
  lemma PullRefreshes(t: Tracked, copy: seq<int>)
    requires TrackedOk(t) && Agrees(t, copy)
    ensures Pulled(t, copy) == t.frame.pixels
    ensures TrackedOk(AllClear(t)) && Agrees(AllClear(t), Pulled(t, copy))
  {
    var w, h, p := t.frame.width, t.frame.height, t.frame.pixels;
    if |copy| == |p| {
      forall a: nat, b: nat | a < w && b < h
        ensures At(w, a, b) < |p| && Pulled(t, copy)[At(w, a, b)] == p[At(w, a, b)]
      {
        PulledAt(t, copy, a, b);
      }
      SamePixels(w, h, Pulled(t, copy), p);
    }
    forall a: nat, b: nat | a < w && b < h
      ensures At(w, a, b) < |p|
    {
      AtInRange(w, h, a, b);
    }
  }

  // ---- runs of drawing and pulling ----

  /** The screen, flags and copy of a front end that draws decoder events and pulls now and then. */
  datatype Front = Front(screen: Tracked, copy: seq<int>)

  datatype Op = Draw(event: Event) | Pull

  predicate Drawn(ops: seq<Op>) {
    forall i :: 0 <= i < |ops| && ops[i].Draw? ==> Drawable(ops[i].event)
  }

  function PlainDraw(f: Frame, e: Event): Frame
    requires Drawable(e)
  {
    match e
    case Paste(block, x, y) => Blit(f, block, x, y, 16)
    case Dimensions(w, h) => Resize(f, w, h)
    case _ => f
  }

  function TrackDraw(t: Tracked, e: Event): Tracked
    requires TrackedOk(t) && Drawable(e)
  {
    match e
    case Paste(block, x, y) => TrackBlit(t, block, x, y, 16)
    case Dimensions(w, h) => TrackResize(t, w, h)
    case _ => t
  }

  lemma TrackDrawKeeps(t: Tracked, copy: seq<int>, e: Event)
    requires TrackedOk(t) && Agrees(t, copy) && Drawable(e)
    ensures TrackedOk(TrackDraw(t, e)) && Agrees(TrackDraw(t, e), copy)
    ensures TrackDraw(t, e).frame == PlainDraw(t.frame, e)
  {
    match e
    case Paste(block, x, y) => BlitAgrees(t, copy, block, x, y);
    case Dimensions(w, h) => ResizeAgrees(t, copy, w, h);
    case _ =>
  }

  ghost predicate FrontOk(f: Front) {
    TrackedOk(f.screen) && Agrees(f.screen, f.copy)
  }

  /** Pulling from an empty screen does nothing. */
  ghost function Apply(f: Front, op: Op): Front
    requires FrontOk(f) && (op.Draw? ==> Drawable(op.event))
  {
    match op
    case Draw(e) => f.(screen := TrackDraw(f.screen, e))
    case Pull => if f.screen.frame.pixels == [] then f else Front(AllClear(f.screen), Pulled(f.screen, f.copy))
  }

  lemma ApplyKeeps(f: Front, op: Op)
    requires FrontOk(f) && (op.Draw? ==> Drawable(op.event))
    ensures FrontOk(Apply(f, op))
    ensures Apply(f, op).screen.frame == if op.Draw? then PlainDraw(f.screen.frame, op.event) else f.screen.frame
  {
    match op
    case Draw(e) => TrackDrawKeeps(f.screen, f.copy, e);
    case Pull => PullRefreshes(f.screen, f.copy);
  }

  ghost function Play(f: Front, ops: seq<Op>): (r: Front)
    requires FrontOk(f) && Drawn(ops)
    ensures FrontOk(r)
  {
    if ops == [] then f
    else
      var last := |ops| - 1;
      var p := Play(f, ops[..last]);
      ApplyKeeps(p, ops[last]);
      Apply(p, ops[last])
  }

  /** The plain framebuffer drawn from the same events. */
  function PlainPlay(f: Frame, ops: seq<Op>): Frame
    requires Drawn(ops)
  {
    if ops == [] then f
    else
      var last := |ops| - 1;
      var p := PlainPlay(f, ops[..last]);
      if ops[last].Draw? then PlainDraw(p, ops[last].event) else p
  }

  lemma {:induction false} TrackerMatchesPlain(f: Front, ops: seq<Op>)
    requires FrontOk(f) && Drawn(ops)
    ensures Play(f, ops).screen.frame == PlainPlay(f.screen.frame, ops)
  {
    if ops != [] {
      var last := |ops| - 1;
      TrackerMatchesPlain(f, ops[..last]);
      ApplyKeeps(Play(f, ops[..last]), ops[last]);
    }
  }

  const START := Front(UNTOUCHED, [])

  /** However drawing, resizing and pulling are interleaved, a pull leaves the copy equal to the screen a plain
      framebuffer would show, with no tile flagged. */
  lemma PullShowsTheScreen(ops: seq<Op>)
    requires Drawn(ops)
    ensures FrontOk(START)
    ensures Drawn(ops + [Pull])
    ensures var r, plain := Play(START, ops + [Pull]), PlainPlay(BLANK, ops);
      && r.screen.frame == plain
      && (plain.pixels != [] ==> r.copy == plain.pixels && forall k :: 0 <= k < |r.screen.dirty| ==> !r.screen.dirty[k])
  {
    assert FrontOk(START);
    var all := ops + [Pull];
    assert all[..|all| - 1] == ops;
    TrackerMatchesPlain(START, ops);
    var p := Play(START, ops);
    ApplyKeeps(p, Pull);
    PullRefreshes(p.screen, p.copy);
  }

  function Draws(log: seq<Event>): seq<Op> {
    seq(|log|, i requires 0 <= i < |log| => Draw(log[i]))
  }

  /** From bytes to pixels: after any bytes, the copy pulled from the decoder's screen is what a plain
      framebuffer draws from the same decoder's events. */
  lemma DecodedScreen(bytes: seq<byte>)
    ensures var ops := (InitialRests(); Draws(Run(INITIAL, bytes).log));
      && Drawn(ops) && Drawn(ops + [Pull]) && FrontOk(START)
      && var plain := PlainPlay(BLANK, ops).pixels;
         plain != [] ==> Play(START, ops + [Pull]).copy == plain
  {
    EveryRun(bytes);
    InitialRests();
    PullShowsTheScreen(Draws(Run(INITIAL, bytes).log));
  }

  // ---- scanning the flags ----

  /** The scan of row `ty` has dealt with its first `lim` tiles and with every row above. */
  predicate Behind(ty: nat, lim: nat, a: nat, b: nat) {
    b / TILE < ty || (b / TILE == ty && a / TILE < lim)
  }

  ghost predicate Copied(t: Tracked, before: seq<int>, p: seq<int>, ty: nat, lim: nat)
    requires TrackedOk(t)
  {
    && |p| == |before| == |t.frame.pixels|
    && forall a: nat, b: nat {:trigger At(t.frame.width, a, b)} :: a < t.frame.width && b < t.frame.height ==>
      var i := At(t.frame.width, a, b);
      i < |p| && p[i] == if Behind(ty, lim, a, b) && Flagged(t, a, b) then t.frame.pixels[i] else before[i]
  }

  predicate OnScreen(f: Frame, r: Rect) {
    0 <= r.x && 0 < r.w && r.x + r.w <= f.width && 0 <= r.y && 0 < r.h && r.y + r.h <= f.height
  }

  ghost predicate Disjoint(rects: seq<Rect>) {
    forall j, k, a, b :: 0 <= j < k < |rects| ==> !(Inside(rects[j], a, b) && Inside(rects[k], a, b))
  }

  /** The rectangles lie on the screen, do not overlap, and cover exactly the flagged tiles dealt with. */
  ghost predicate Listed(t: Tracked, rects: seq<Rect>, ty: nat, lim: nat)
    requires TrackedOk(t)
  {
    && (forall k :: 0 <= k < |rects| ==> OnScreen(t.frame, rects[k]))
    && Disjoint(rects)
    && forall a: nat, b: nat :: a < t.frame.width && b < t.frame.height ==>
        (Covered(rects, a, b) <==> Behind(ty, lim, a, b) && Flagged(t, a, b))
  }

  ghost predicate FlagAt(t: Tracked, tx: nat, ty: nat)
    requires TrackedOk(t)
  {
    tx < t.tilesX && ty < t.tilesY && At(t.tilesX, tx, ty) < |t.dirty| && t.dirty[At(t.tilesX, tx, ty)]
  }

  lemma FlaggedIsFlagAt(t: Tracked, a: nat, b: nat)
    requires TrackedOk(t) && a < t.frame.width && b < t.frame.height
    ensures Flagged(t, a, b) == FlagAt(t, a / TILE, b / TILE)
  {
    TileInRange(t, a, b);
  }

  /** Passing over a tile that is not flagged. */
  lemma SkipTile(t: Tracked, before: seq<int>, p: seq<int>, rects: seq<Rect>, ty: nat, tx: nat)
    requires TrackedOk(t) && Copied(t, before, p, ty, tx) && Listed(t, rects, ty, tx) && !FlagAt(t, tx, ty)
    ensures Copied(t, before, p, ty, tx + 1) && Listed(t, rects, ty, tx + 1)
  {
    forall a: nat, b: nat | a < t.frame.width && b < t.frame.height
      ensures (Behind(ty, tx + 1, a, b) && Flagged(t, a, b)) == (Behind(ty, tx, a, b) && Flagged(t, a, b))
    {
      FlaggedIsFlagAt(t, a, b);
    }
  }

  lemma NextTileRow(t: Tracked, before: seq<int>, p: seq<int>, rects: seq<Rect>, ty: nat, lim: nat)
    requires TrackedOk(t) && Copied(t, before, p, ty, lim) && Listed(t, rects, ty, lim) && lim >= t.tilesX
    ensures Copied(t, before, p, ty + 1, 0) && Listed(t, rects, ty + 1, 0)
  {
    forall a: nat, b: nat | a < t.frame.width && b < t.frame.height
      ensures Behind(ty, lim, a, b) == Behind(ty + 1, 0, a, b)
    {
      TileInRange(t, a, b);
    }
  }

  /** The part of a run of tiles that is on the screen. */
  function RunRect(f: Frame, tx0: nat, tx1: nat, ty: nat): Rect
    requires tx0 <= tx1
  {
    var x, y, w := tx0 * TILE, ty * TILE, (tx1 - tx0) * TILE;
    Rect(x, y, if x + w > f.width then f.width - x else w, if y + TILE > f.height then f.height - y else TILE)
  }

  lemma RunRectMeaning(t: Tracked, tx0: nat, tx1: nat, ty: nat)
    requires TrackedOk(t) && tx0 < tx1 <= t.tilesX && ty < t.tilesY
    ensures OnScreen(t.frame, RunRect(t.frame, tx0, tx1, ty))
    ensures forall a: nat, b: nat :: a < t.frame.width && b < t.frame.height ==>
      (Inside(RunRect(t.frame, tx0, tx1, ty), a, b) <==> b / TILE == ty && tx0 <= a / TILE < tx1)
  {
  }

  /** The copy after the rows of a rectangle have been taken over from the screen. */
  ghost predicate Patched(f: Frame, p: seq<int>, q: seq<int>, r: Rect) {
    && |q| == |p| == |f.pixels|
    && forall a: nat, b: nat {:trigger At(f.width, a, b)} :: a < f.width && b < f.height ==>
      var i := At(f.width, a, b);
      i < |q| && q[i] == if Inside(r, a, b) then f.pixels[i] else p[i]
  }

  lemma PatchRow(f: Frame, p: seq<int>, q: seq<int>, r: Rect, y: nat)
    requires FrameOk(f) && 0 <= r.x && 0 < r.w && r.x + r.w <= f.width
    requires r.y <= y < f.height && Patched(f, p, q, r.(h := y - r.y))
    ensures var off := At(f.width, r.x, y);
      off + r.w <= |q| && Patched(f, p, q[..off] + f.pixels[off..off + r.w] + q[off + r.w..], r.(h := y - r.y + 1))
  {
    var off := At(f.width, r.x, y);
    AtInRange(f.width, f.height, r.x + r.w - 1, y);
    var n := q[..off] + f.pixels[off..off + r.w] + q[off + r.w..];
    assert |n| == |q|;
    forall a: nat, b: nat | a < f.width && b < f.height
      ensures var i := At(f.width, a, b);
        i < |n| && n[i] == if Inside(r.(h := y - r.y + 1), a, b) then f.pixels[i] else p[i]
    {
      AtSpan(f.width, r.x, y, r.w, a, b);
    }
  }

  /** Taking a run of flagged tiles over brings the scan to the end of the run. */
  lemma RunTaken(t: Tracked, before: seq<int>, p: seq<int>, q: seq<int>, rects: seq<Rect>, ty: nat, tx0: nat, tx1: nat)
    requires TrackedOk(t) && tx0 < tx1 <= t.tilesX && ty < t.tilesY
    requires forall k :: tx0 <= k < tx1 ==> FlagAt(t, k, ty)
    requires Copied(t, before, p, ty, tx0) && Listed(t, rects, ty, tx0)
    requires Patched(t.frame, p, q, RunRect(t.frame, tx0, tx1, ty))
    ensures Copied(t, before, q, ty, tx1) && Listed(t, rects + [RunRect(t.frame, tx0, tx1, ty)], ty, tx1)
  {
    var r := RunRect(t.frame, tx0, tx1, ty);
    RunRectMeaning(t, tx0, tx1, ty);
    forall a: nat, b: nat | a < t.frame.width && b < t.frame.height
      ensures (Behind(ty, tx1, a, b) && Flagged(t, a, b)) ==
        (Inside(r, a, b) || (Behind(ty, tx0, a, b) && Flagged(t, a, b)))
    {
      FlaggedIsFlagAt(t, a, b);
    }
    RunListed(t, rects, r, ty, tx0, tx1);
  }

  lemma RunListed(t: Tracked, rects: seq<Rect>, r: Rect, ty: nat, tx0: nat, tx1: nat)
    requires TrackedOk(t) && Listed(t, rects, ty, tx0) && OnScreen(t.frame, r)
    requires forall a: nat, b: nat :: a < t.frame.width && b < t.frame.height ==>
      (Inside(r, a, b) ==> !Behind(ty, tx0, a, b))
    requires forall a: nat, b: nat :: a < t.frame.width && b < t.frame.height ==>
      ((Behind(ty, tx1, a, b) && Flagged(t, a, b)) ==
        (Inside(r, a, b) || (Behind(ty, tx0, a, b) && Flagged(t, a, b))))
    ensures Listed(t, rects + [r], ty, tx1)
  {
    var all := rects + [r];
    forall a: nat, b: nat | a < t.frame.width && b < t.frame.height
      ensures Covered(all, a, b) <==> Covered(rects, a, b) || Inside(r, a, b)
    {
      if Covered(rects, a, b) {
        var k :| 0 <= k < |rects| && Inside(rects[k], a, b);
        assert Inside(all[k], a, b);
      }
      if Inside(r, a, b) {
        assert Inside(all[|rects|], a, b);
      }
    }
    forall j, k, a, b | 0 <= j < k < |all| && Inside(all[j], a, b) && Inside(all[k], a, b)
      ensures false
    {
      assert Inside(rects[j], a, b);
      if k == |rects| {
        assert OnScreen(t.frame, rects[j]);
        var a': nat, b': nat := a, b;
        assert Covered(rects, a', b');
      }
    }
  }

  lemma NothingListed(t: Tracked, copy: seq<int>)
    requires TrackedOk(t) && |copy| == |t.frame.pixels|
    ensures Copied(t, copy, copy, 0, 0) && Listed(t, [], 0, 0)
  {
    forall a: nat, b: nat | a < t.frame.width && b < t.frame.height
      ensures At(t.frame.width, a, b) < |copy|
    {
      AtInRange(t.frame.width, t.frame.height, a, b);
    }
  }

  /** What the rectangles reported by a pull promise. */
  ghost predicate Reports(t: Tracked, rects: seq<Rect>, whole: bool)
    requires TrackedOk(t)
  {
    && (forall k :: 0 <= k < |rects| ==> OnScreen(t.frame, rects[k]))
    && Disjoint(rects)
    && forall a: nat, b: nat :: a < t.frame.width && b < t.frame.height ==>
        (Covered(rects, a, b) <==> whole || Flagged(t, a, b))
  }

  ghost predicate AnyFlag(t: Tracked) {
    exists k :: 0 <= k < |t.dirty| && t.dirty[k]
  }

  /** A finished scan: the copy is patched and the rectangles are the flagged tiles. */
  lemma ScanDone(t: Tracked, copy: seq<int>, p: seq<int>, rects: seq<Rect>)
    requires TrackedOk(t) && Copied(t, copy, p, t.tilesY, 0) && Listed(t, rects, t.tilesY, 0)
    ensures p == Pulled(t, copy) && Reports(t, rects, false)
    ensures rects != [] <==> AnyFlag(t)
  {
    var w, h := t.frame.width, t.frame.height;
    forall a: nat, b: nat | a < w && b < h
      ensures Behind(t.tilesY, 0, a, b) && At(w, a, b) < |p| && p[At(w, a, b)] == Pulled(t, copy)[At(w, a, b)]
    {
      TileInRange(t, a, b);
      PulledAt(t, copy, a, b);
    }
    SamePixels(w, h, p, Pulled(t, copy));
    ListedAny(t, rects);
  }

  /** A flag belongs to a tile with a pixel on the screen. */
  lemma FlagHasPixel(t: Tracked, k: nat) returns (a: nat, b: nat)
    requires TrackedOk(t) && k < |t.dirty| && t.dirty[k]
    ensures a < t.frame.width && b < t.frame.height && Flagged(t, a, b)
  {
    var q := PlaceOf(k, t.tilesX, t.tilesY);
    a, b := q.0 * TILE, q.1 * TILE;
    assert a / TILE == q.0 && b / TILE == q.1;
  }

  lemma AllBehind(t: Tracked, a: nat, b: nat)
    requires TrackedOk(t) && a < t.frame.width && b < t.frame.height
    ensures Behind(t.tilesY, 0, a, b)
  {
    TileInRange(t, a, b);
  }

  /** Something is listed exactly when something is flagged. */
  lemma ListedAny(t: Tracked, rects: seq<Rect>)
    requires TrackedOk(t) && Listed(t, rects, t.tilesY, 0)
    ensures rects != [] <==> AnyFlag(t)
  {
    hide Flagged, Behind;
    if rects != [] {
      var r := rects[0];
      assert OnScreen(t.frame, r) && Inside(r, r.x, r.y);
      var a: nat, b: nat := r.x, r.y;
      assert Covered(rects, a, b);
      FlaggedIsFlagAt(t, a, b);
    }
    if AnyFlag(t) {
      var k :| 0 <= k < |t.dirty| && t.dirty[k];
      var a, b := FlagHasPixel(t, k);
      AllBehind(t, a, b);
      assert Covered(rects, a, b);
    }
  }

  lemma WholeScreen(t: Tracked)
    requires TrackedOk(t) && t.frame.pixels != []
    ensures Reports(t, [Rect(0, 0, t.frame.width, t.frame.height)], true)
  {
    var r := Rect(0, 0, t.frame.width, t.frame.height);
    Column(0, t.frame.width, t.frame.height);
    forall a: nat, b: nat | a < t.frame.width && b < t.frame.height
      ensures Covered([r], a, b)
    {
      assert Inside([r][0], a, b);
    }
  }

  class ConsoleCore {
    const fb: TrackingFramebuffer

    constructor (fb: TrackingFramebuffer)
      ensures this.fb == fb
    {
      this.fb := fb;
    }

    /** Takes the rows of a rectangle over from the screen. */
    method CopyRows(copy: seq<int>, rect: Rect) returns (copy': seq<int>)
      requires fb.Valid() && |copy| == |fb.pixels| && OnScreen(fb.Screen().frame, rect)
      ensures Patched(fb.Screen().frame, copy, copy', rect)
    {
      ghost var f := fb.Screen().frame;
      NothingListed(fb.Screen(), copy);
      copy' := copy;
      var r := 0;
      while r < rect.h
        invariant 0 <= r <= rect.h && Patched(f, copy, copy', rect.(h := r))
      {
        var off := At(fb.width, rect.x, rect.y + r);
        PatchRow(f, copy, copy', rect, rect.y + r);
        copy' := copy'[..off] + fb.pixels[off..off + rect.w] + copy'[off + rect.w..];
        r := r + 1;
      }
    }

    /** Copies a run of tiles, and reports the part of it that is on the screen. */
    method EmitRun(copy: seq<int>, rects: seq<Rect>, tx0: nat, tx1: nat, ty: nat)
      returns (copy': seq<int>, rects': seq<Rect>)
      requires fb.Valid() && |copy| == |fb.pixels|
      requires tx0 < tx1 <= fb.tilesX && ty < fb.tilesY
      ensures var r := RunRect(fb.Screen().frame, tx0, tx1, ty);
        rects' == rects + [r] && Patched(fb.Screen().frame, copy, copy', r)
    {
      RunRectMeaning(fb.Screen(), tx0, tx1, ty);
      var x, y := tx0 * 16, ty * 16;
      var rw, rh := (tx1 - tx0) * 16, 16;
      if x + rw > fb.width {
        rw := fb.width - x;
      }
      if y + rh > fb.height {
        rh := fb.height - y;
      }
      copy' := CopyRows(copy, Rect(x, y, rw, rh));
      rects' := rects + [Rect(x, y, rw, rh)];
    }

    /** Scans one row of tiles, merging neighbouring flagged tiles into one rectangle. */
    method ScanRow(ghost before: seq<int>, copy: seq<int>, rects: seq<Rect>, ty: nat)
      returns (copy': seq<int>, rects': seq<Rect>)
      requires fb.Valid() && ty < fb.tilesY
      requires Copied(fb.Screen(), before, copy, ty, 0) && Listed(fb.Screen(), rects, ty, 0)
      ensures Copied(fb.Screen(), before, copy', ty + 1, 0) && Listed(fb.Screen(), rects', ty + 1, 0)
    {
      ghost var t := fb.Screen();
      copy', rects' := copy, rects;
      var runStart := -1;
      var tx := 0;
      while tx <= fb.tilesX
        invariant 0 <= tx <= fb.tilesX + 1 && -1 <= runStart < tx
        invariant tx == fb.tilesX + 1 ==> runStart < 0
        invariant var lim := if runStart < 0 then tx else runStart;
          Copied(t, before, copy', ty, lim) && Listed(t, rects', ty, lim)
        invariant runStart >= 0 ==> forall k :: runStart <= k < tx ==> FlagAt(t, k, ty)
      {
        if tx < fb.tilesX {
          AtInRange(fb.tilesX, fb.tilesY, tx, ty);
        }
        var d := tx < fb.tilesX && fb.dirty[At(fb.tilesX, tx, ty)];
        assert d == FlagAt(t, tx, ty);
        if d && runStart < 0 {
          runStart := tx;
        }
        if !d && runStart >= 0 {
          ghost var p, rs := copy', rects';
          copy', rects' := EmitRun(copy', rects', runStart, tx, ty);
          RunTaken(t, before, p, copy', rs, ty, runStart, tx);
          runStart := -1;
        }
        if !d {
          SkipTile(t, before, copy', rects', ty, tx);
        }
        tx := tx + 1;
      }
      NextTileRow(t, before, copy', rects', ty, tx);
    }

    /** Brings the caller's copy up to date. The caller's size and rectangles are passed in because an empty
        screen leaves them alone. */
    method Pull(copy: seq<int>, w: nat, h: nat, rects: seq<Rect>)
      returns (changed: bool, copy': seq<int>, w': nat, h': nat, rects': seq<Rect>)
      requires fb.Valid()
      modifies fb
      ensures var t := old(fb.Screen());
        && fb.Valid()
        && (t.frame.pixels == [] ==>
              fb.Screen() == t && !changed && copy' == copy && w' == w && h' == h && rects' == rects)
        && (t.frame.pixels != [] ==>
              && fb.Screen() == AllClear(t) && copy' == Pulled(t, copy)
              && w' == t.frame.width && h' == t.frame.height
              && Reports(t, rects', |copy| != |t.frame.pixels|)
              && changed == (|copy| != |t.frame.pixels| || AnyFlag(t)))
    {
      ghost var t := fb.Screen();
      if fb.pixels == [] {
        return false, copy, w, h, rects;
      }
      w', h' := fb.width, fb.height;
      if |copy| != |fb.pixels| {
        WholeScreen(t);
        copy' := fb.pixels;
        rects' := [Rect(0, 0, fb.width, fb.height)];
        fb.ClearDirty();
        return true, copy', w', h', rects';
      }
      copy', rects' := copy, [];
      NothingListed(t, copy);
      var ty := 0;
      while ty < fb.tilesY
        invariant 0 <= ty <= fb.tilesY && fb.Screen() == t
        invariant Copied(t, copy, copy', ty, 0) && Listed(t, rects', ty, 0)
      {
        copy', rects' := ScanRow(copy, copy', rects', ty);
        ty := ty + 1;
      }
      ScanDone(t, copy, copy', rects');
      fb.ClearDirty();
      changed := rects' != [];
    }
  }
}
