/** The video decoder as a function on values: one step per state, run until the pending bits are too few
    for the current state. */
module DvcMachine {
  import opened BitOps
  import opened DvcBits
  import opened DvcPalette

  /** What the decoder tells the layer that draws, in order. */
  datatype Event =
    | Paste(block: seq<int>, x: int, y: int)
    | Dimensions(width: int, height: int)
    | VideoStatus(width: int, height: int)
    | ShowText(text: string)
    | Status(field: int, text: string)
    | Print(text: string)
    | Firmware(command: int)
    | Repaint
    | RefreshScreen
    | ChangeKey

  /** The 16 by 16 tile being filled. */
  datatype Tile = Tile(block: seq<int>, count: nat, colour: int)

  datatype Place = Place(lastX: nat, lastY: nat, newX: nat, newY: nat, sizeX: nat, sizeY: nat, clipped: int)

  datatype Hue = Hue(red: nat, green: nat, blue: nat, colour: nat)

  datatype Command = Command(params: map<int, int>, count: nat, last: int, channel: int, text: string)

  datatype Screen = Screen(screenX: int, screenY: int, scaleX: int, scaleY: int, video: bool, seized: bool,
                           framerate: int)

  datatype Clock = Clock(fatal: int, bytes: int, timeout: int)

  datatype Machine = Machine(
    state: int, next: int, window: Window, palette: Palette, next131: int, tile: Tile, place: Place, hue: Hue,
    command: Command, screen: Screen, clock: Clock, inhibit: bool, log: seq<Event>)

  const TILE_PIXELS: nat := 256

  const INITIAL := Machine(
    0, 0, EMPTY, FRESH, 35, Tile(seq(256, _ => 0), 0, 0), Place(0, 0, 0, 0, 0, 0, 0), Hue(0, 0, 0, 0),
    Command(map[], 0, 0, 0, ""), Screen(1, 1, 1, 1, true, false, 30), Clock(0, 0, 0), false, [])

  // ---- the transition tables ----

  /** How many bits each state reads. */
  function Need(s: int): (n: nat)
    ensures n <= 8
  {
    match s
    case 0 | 27 | 33 | 34 | 35 | 37 => 0
    case 6 => 2
    case 7 | 12 | 13 | 20 | 29 => 3
    case 8 | 9 | 32 | 41 | 42 | 47 => 4
    case 17 | 21 | 26 | 30 | 39 | 40 => 7
    case 14 | 24 | 44 | 45 => 8
    case _ => 1
  }

  /** The next state when the field read is zero. */
  function NextOnZero(s: int): int {
    match s
    case 1 => 2 case 2 => 31 case 3 => 2 case 4 => 2 case 5 => 10 case 6 => 10 case 7 => 10 case 8 => 10
    case 9 => 41 case 10 => 2 case 11 => 33 case 12 => 2 case 13 => 2 case 14 => 2 case 15 => 16 case 16 => 19
    case 17 => 39 case 18 => 22 case 19 => 20 case 22 => 34 case 23 => 25 case 24 => 46 case 25 => 26
    case 26 => 40 case 28 => 29 case 31 => 36 case 32 => 10 case 33 => 2 case 35 => 35 case 36 => 8
    case 37 => 37 case 38 => 38 case 40 => 47 case 41 => 42 case 42 => 10 case 43 => 43 case 44 => 45
    case 45 => 45
    case _ => 1
  }

  /** The next state when the field read is not zero, before entry 31 is ever patched. */
  function NextOnOne(s: int): int {
    match s
    case 1 => 15 case 2 => 3 case 3 => 11 case 4 => 11 case 5 => 10 case 6 => 10 case 7 => 10 case 8 => 10
    case 9 => 41 case 10 => 11 case 11 => 12 case 12 => 2 case 13 => 2 case 14 => 2 case 15 => 17 case 16 => 18
    case 17 => 39 case 18 => 23 case 19 => 21 case 22 => 28 case 23 => 24 case 24 => 46 case 25 => 27
    case 26 => 40 case 28 => 30 case 31 => 35 case 32 => 10 case 33 => 2 case 35 => 35 case 36 => 9
    case 37 => 37 case 38 => 38 case 40 => 47 case 41 => 42 case 42 => 10 case 43 => 0 case 44 => 45
    case 45 => 45 case 46 => 24
    case _ => 1
  }

  // ---- colours ----

  /** A 12-bit colour with each 4-bit channel doubled to 8 bits. */
  function Remap(i: int): int
    requires i >= 0
  {
    i / 256 % 16 * 256 * 4352 + i / 16 % 16 * 16 * 272 + i % 16 * 17
  }

  // ---- painting ----

  /** The tile buffer has its fixed size, and the clipped part lies inside it. */
  predicate Sized(m: Machine) {
    |m.tile.block| == TILE_PIXELS && 0 <= m.place.clipped < TILE_PIXELS
  }

  predicate ColoursInRange(es: seq<Entry>) {
    forall i :: 0 <= i < |es| ==> 0 <= es[i].colour < 4096
  }

  /** Adds one pixel of the current colour, or gives up when the tile is full. */
  function Dot(m: Machine): Machine
    requires Sized(m)
  {
    var t := m.tile;
    if t.count >= TILE_PIXELS then m.(next := 38)
    else m.(tile := Tile(t.block[t.count := t.colour], t.count + 1, t.colour))
  }

  /** Adds `n` pixels of the current colour, or as many as fit before giving up. */
  function Dots(m: Machine, n: nat): Machine
    requires Sized(m)
    decreases n
  {
    if n == 0 then m
    else if m.tile.count >= TILE_PIXELS then m.(next := 38)
    else Dots(Dot(m), n - 1)
  }

  /** Pastes the tile at up to `n` places in a row, stopping at the right edge. */
  function PasteRow(m: Machine, n: nat, x: int, y: int): Machine
    decreases n
  {
    if n == 0 then m
    else
      var p := if m.screen.video then m.(log := m.log + [Paste(m.tile.block, x, y)]) else m;
      var q := p.(place := p.place.(lastX := p.place.lastX + 1));
      if q.place.lastX >= q.place.sizeX then q else PasteRow(q, n - 1, x + 16, y)
  }

  /** The tile with everything from pixel `from` on in the background colour. */
  function Clip(block: seq<int>, from: nat): (r: seq<int>)
    requires from <= |block|
    ensures |r| == |block|
  {
    block[..from] + seq(|block| - from, _ => Remap(0))
  }

  /** Blits the tile `n` times along the current row. */
  function NextBlock(m: Machine, n: nat): Machine
    requires Sized(m)
  {
    var t, p := m.tile, m.place;
    var clip := t.count != 0 && p.clipped > 0 && p.lastY == p.sizeY;
    var block := if clip then Clip(t.block, p.clipped) else t.block;
    PasteRow(m.(tile := Tile(block, 0, t.colour), next := 1), n, p.lastX * 16, p.lastY * 16)
  }

  // ---- one step ----

  function Fetch(m: Machine): Machine
    requires Need(m.state) <= |m.window.bits|
  {
    var w := Take(m.window, Need(m.state));
    var next := if w.code == 0 then NextOnZero(m.state) else if m.state == 31 then m.next131 else NextOnOne(m.state);
    m.(window := w, next := next)
  }

  function WithCode(m: Machine, code: nat): Machine {
    m.(window := m.window.(code := code))
  }

  /** Looks a colour up by its rank and paints it. */
  function ActIndex(m: Machine): Machine
    requires Sized(m)
    requires ColoursInRange(m.palette.entries)
  {
    var s, c := m.state, m.window.code;
    var code := if |m.palette.entries| == 1 then 0 else if s == 4 then 0 else if s == 3 then 1
                else if c != 0 then c + 1 else 0;
    var (palette, colour) := Find(m.palette, code);
    var p := WithCode(m, code).(palette := palette, next131 := palette.patch);
    if colour == -1 then p.(next := 38) else Dot(p.(tile := p.tile.(colour := Remap(colour))))
  }

  /** Adds the colour made of the three channels to the palette and paints it. */
  function ActColour(m: Machine): Machine
    requires Sized(m)
  {
    var colour := Or(Or(m.hue.red, m.hue.green), m.window.code);
    var (palette, hit) := Touch(m.palette, colour);
    var p := m.(hue := m.hue.(blue := m.window.code, colour := colour), palette := palette, next131 := palette.patch);
    if hit then p.(next := 38) else Dot(p.(tile := p.tile.(colour := Remap(colour))))
  }

  /** Drops the bits up to the next byte boundary. */
  function Align(m: Machine): Machine {
    m.(window := Take(m.window, |m.window.bits| % 8))
  }

  function ActTimeout(m: Machine): Machine {
    var k := m.clock;
    Align(if k.timeout == k.bytes - 1 then m.(next := 38) else m)
    .(clock := k.(timeout := k.bytes), log := m.log + [Repaint])
  }

  function ActParameter(m: Machine): Machine {
    var c := m.command;
    m.(command := c.(params := if c.count != 0 then c.params[c.count - 1 := c.last] else c.params,
                     count := c.count + 1, last := m.window.code))
  }

  function FirstParameter(c: Command): int {
    if c.count != 0 && 0 in c.params then c.params[0] else 0
  }

  function CommandEvents(command: int): seq<Event> {
    match command
    case 6 => [ShowText("Video suspended"), Status(2, "Video_suspended")]
    case 7 => [Firmware(7)]
    case 8 => [Firmware(8)]
    case 9 => [ChangeKey]
    case 10 => [ShowText("Session Acquired by another user.")]
    case _ => []
  }

  function CommandEffect(m: Machine): Machine {
    match m.command.last
    case 1 => m.(next := 37)
    case 2 => m.(next := 44)
    case 3 => m.(screen := m.screen.(framerate := FirstParameter(m.command)))
    case 6 => m.(screen := m.screen.(screenX := 640, screenY := 100))
    case 9 => Align(m)
    case 10 => m.(screen := m.screen.(seized := true))
    case _ => m
  }

  function ActCommand(m: Machine): Machine {
    if m.window.code != 0 then m
    else
      var r := CommandEffect(m);
      r.(command := r.command.(count := 0), log := m.log + CommandEvents(m.command.last))
  }

  function TextEvents(c: Command): seq<Event> {
    match c.channel
    case 1 => [Status(3, c.text)]
    case 2 => [Status(4, c.text)]
    case 3 => [Print(c.text)]
    case 4 => [ShowText(c.text)]
    case _ => []
  }

  function ActText(m: Machine): Machine
    requires m.window.code < 256
  {
    var c := m.command;
    if m.window.code != 0 then m.(command := c.(text := c.text + [m.window.code as char]))
    else m.(log := m.log + TextEvents(c), next := 1)
  }

  function ActReset(m: Machine): Machine {
    m.(palette := Reset(m.palette), tile := m.tile.(count := 0), place := m.place.(lastX := 0, lastY := 0),
       hue := m.hue.(red := 0, green := 0, blue := 0), clock := m.clock.(fatal := 0, timeout := -1),
       command := m.command.(count := 0))
  }

  function FatalEvents(fatal: int): seq<Event> {
    (if fatal == 11680 then [RefreshScreen] else []) +
    (if fatal + 1 == 120000 then [RefreshScreen] else []) +
    (if fatal + 1 == 12000000 then [RefreshScreen] else [])
  }

  function ActFatal(m: Machine): Machine {
    var f := m.clock.fatal;
    m.(clock := m.clock.(fatal := if f + 1 != 12000000 then f + 1 else 41), log := m.log + FatalEvents(f))
  }

  function ModeEvents(width: int, height: int): seq<Event> {
    if width != 0 && height != 0 then [Dimensions(width, height), VideoStatus(width, height)]
    else [ShowText("No Video"), Status(2, "No Video")]
  }

  function ActMode(m: Machine): Machine {
    var code, p := m.window.code, m.place;
    var w, h := p.sizeX * 16, p.sizeY * 16 + code;
    var video := w != 0 && h != 0;
    m.(place := p.(lastX := 0, lastY := 0, clipped := if code > 0 then 256 - 16 * code else 0),
       tile := m.tile.(count := 0), palette := Reset(m.palette),
       screen := m.screen.(screenX := if video then w else 640, screenY := if video then h else 100,
                           scaleX := 1, scaleY := 1, video := video),
       log := m.log + ModeEvents(w, h))
  }

  function ActHunt(m: Machine): Machine {
    if m.next == m.state then m
    else m.(window := Window([], 0, m.window.code), clock := m.clock.(bytes := 0))
  }

  /** What the states that move about the screen do. */
  function ActPlace(m: Machine): Machine
    requires Moves(m.state)
  {
    var s, code, p := m.state, m.window.code, m.place;
    match s
    case 17 => m.(place := p.(newX := if code > p.sizeX then 0 else code))
    case 26 => m.(place := p.(newX := code))
    case 39 =>
      var y := code % 128;
      m.(place := p.(newY := y, lastX := p.newX, lastY := if y > p.sizeY then 0 else y), log := m.log + [Repaint])
    case 20 =>
      var c := p.lastX + code + 1;
      var x := c % 128;
      WithCode(m, c).(place := p.(lastX := if x > p.sizeX then 0 else x))
    case 21 =>
      var x := code % 128;
      m.(place := p.(lastX := if x > p.sizeX then 0 else x))
    case _ => m.(place := p.(sizeX := p.newX, sizeY := code))
  }

  /** The states that add pixels to the tile. */
  predicate Paints(s: int) {
    3 <= s <= 8 || 12 <= s <= 14 || s == 32 || s == 33 || s == 42
  }

  predicate Blits(s: int) {
    s == 34 || s == 29 || s == 30
  }

  predicate Moves(s: int) {
    s in {17, 26, 39, 20, 21, 40}
  }

  function ActPaint(m: Machine): Machine
    requires Sized(m) && ColoursInRange(m.palette.entries) && Paints(m.state)
  {
    var code := m.window.code;
    match m.state
    case 12 => if code == 7 then m.(next := 14) else if code == 6 then m.(next := 13)
               else Dots(WithCode(m, code + 2), code + 2)
    case 13 => Dots(WithCode(m, code + 8), code + 8)
    case 14 => Dots(m, code)
    case 33 => Dot(m)
    case 8 => ActColour(m.(hue := m.hue.(red := code * 256, green := code * 16)))
    case 42 => ActColour(m)
    case _ => ActIndex(m)
  }

  function ActBlit(m: Machine): Machine
    requires Sized(m) && Blits(m.state)
  {
    var code := m.window.code;
    match m.state
    case 34 => NextBlock(m, 1)
    case 29 => NextBlock(WithCode(m, code + 2), code + 2)
    case _ => NextBlock(m, code)
  }

  function ActControl(m: Machine): Machine
    requires m.state == 45 ==> m.window.code < 256
  {
    var code := m.window.code;
    match m.state
    case 35 => m.(next := m.palette.pixcode)
    case 9 => m.(hue := m.hue.(red := code * 256))
    case 41 => m.(hue := m.hue.(green := code * 16))
    case 27 => ActTimeout(m)
    case 24 => ActParameter(m)
    case 46 => ActCommand(m)
    case 44 => m.(command := m.command.(channel := code, text := ""))
    case 45 => ActText(m)
    case 0 => ActReset(m)
    case 38 => ActFatal(m)
    case 47 => ActMode(m)
    case 43 => ActHunt(m)
    case _ => m
  }

  /** The action of the current state, once its field has been read. State 37 has none: it leaves the loop. */
  function Act(m: Machine): Machine
    requires Sized(m) && ColoursInRange(m.palette.entries)
    requires m.state == 45 ==> m.window.code < 256
  {
    if Paints(m.state) then ActPaint(m)
    else if Blits(m.state) then ActBlit(m)
    else if Moves(m.state) then ActPlace(m)
    else ActControl(m)
  }

  /** A full tile is blitted, and colours it did not use are dropped. */
  function Flush(m: Machine): Machine
    requires Sized(m)
  {
    if m.next == 2 && m.tile.count == TILE_PIXELS then
      var p := NextBlock(m, 1);
      var palette := Pruned(p.palette);
      p.(palette := palette, next131 := palette.patch)
    else m
  }

  // ---- what holds between steps ----

  /** The states that fill a tile. */
  predicate Painting(s: int) {
    2 <= s <= 14 || s == 31 || s == 32 || s == 33 || s == 35 || s == 36 || s == 41 || s == 42
  }

  /** The states in which the tile may be full. */
  predicate MayBeFull(s: int) {
    10 <= s <= 14 || s == 33 || s == 38 || s == 43 || s == 0
  }

  predicate CountOk(s: int, count: nat) {
    && count <= TILE_PIXELS
    && (count > 0 ==> Painting(s) || s == 38 || s == 43 || s == 0)
    && (count == TILE_PIXELS ==> MayBeFull(s))
  }

  /** The pending bits end in at least `zeros` zero bits. */
  ghost predicate EndsInZeros(w: Window) {
    forall i :: 0 <= i < |w.bits| && |w.bits| - w.zeros <= i ==> !w.bits[i]
  }

  /** How many bits can be pending in each state. */
  predicate Bounded(s: int, n: nat) {
    n <= 7 || n <= Need(s) + 7 || ((s == 38 || s == 43) && n <= 15) || (s == 0 && n == 8)
  }

  /** Every blit is of a whole tile at a multiple of 16, and every resolution is a real one. */
  predicate Drawable(e: Event) {
    && (e.Paste? ==> |e.block| == TILE_PIXELS && e.x >= 0 && e.y >= 0 && e.x % 16 == 0 && e.y % 16 == 0)
    && (e.Dimensions? ==> e.width > 0 && e.height > 0)
  }

  ghost predicate LogDrawable(log: seq<Event>) {
    forall i :: 0 <= i < |log| ==> Drawable(log[i])
  }

  /** What holds of the data in every state. */
  ghost predicate Sound(m: Machine) {
    && Sized(m)
    && WellFormed(m.palette) && ColoursInRange(m.palette.entries)
    && m.next131 == m.palette.patch
    && m.hue.red % 256 == 0 && m.hue.red < 4096
    && m.hue.green % 16 == 0 && m.hue.green < 256
    && LogDrawable(m.log)
  }

  ghost predicate Inv(m: Machine) {
    && Sound(m)
    && 0 <= m.state < 48
    && CountOk(m.state, m.tile.count)
    && Bounded(m.state, |m.window.bits|)
    && (m.state == 43 ==> m.window.zeros > ZERO_RUN)
    && (m.state != 43 ==> EndsInZeros(m.window))
  }

  // ---- every action keeps it ----

  /** A field has been read and the tables consulted, but the state has not acted yet. */
  ghost predicate Fetched(f: Machine) {
    && Sound(f)
    && 0 <= f.state < 48 && f.state != 37
    && CountOk(f.state, f.tile.count)
    && (Need(f.state) > 0 ==> f.window.code < Pow2(Need(f.state)))
    && f.next == if f.window.code == 0 then NextOnZero(f.state)
                 else if f.state == 31 then f.next131 else NextOnOne(f.state)
  }

  predicate IsTail(tail: seq<bool>, bits: seq<bool>) {
    |tail| <= |bits| && tail == bits[|bits| - |tail|..]
  }

  lemma TailOfItself(bits: seq<bool>)
    ensures IsTail(bits, bits)
  {
  }

  /** What an action may do to the control state. */
  ghost predicate ActOk(f: Machine, a: Machine) {
    && Sound(a)
    && a.state == f.state && a.inhibit == f.inhibit && 0 <= a.next < 48
    && (a.next == f.state ==> f.state == 38 || f.state == 43 || f.state == 45)
    && (Need(f.state) == 0 ==> Need(a.next) > 0)
    && (a.next == 43 || a.next == 0 ==> f.state == 43)
    && (f.state == 38 ==> a.next == 38) && (f.state == 0 ==> a.next == 1)
    && (f.state == 1 ==> a.tile.count == 0)
    && (CountOk(a.next, a.tile.count) || (a.next == 2 && a.tile.count == TILE_PIXELS))
    && (f.state != 43 ==> a.window.zeros == f.window.zeros && IsTail(a.window.bits, f.window.bits))
    && (f.state == 43 ==>
          || (a.next == 43 && f.window.code == 0 && a.window == f.window)
          || (a.next == 0 && f.window.code != 0 && a.window == Window([], 0, f.window.code)))
  }

  lemma {:induction false} DotsResult(m: Machine, n: nat)
    requires Sized(m) && m.tile.count <= TILE_PIXELS
    ensures var r, total := Dots(m, n), m.tile.count + n;
      && r == m.(tile := r.tile, next := if total > TILE_PIXELS then 38 else m.next)
      && |r.tile.block| == TILE_PIXELS
      && r.tile.count == if total > TILE_PIXELS then TILE_PIXELS else total
    decreases n
  {
    if n > 0 && m.tile.count < TILE_PIXELS {
      DotsResult(Dot(m), n - 1);
    }
  }

  lemma {:induction false} PasteRowResult(m: Machine, n: nat, x: int, y: int)
    requires Sized(m) && LogDrawable(m.log)
    requires x >= 0 && y >= 0 && x % 16 == 0 && y % 16 == 0
    ensures var r := PasteRow(m, n, x, y);
      && r == m.(place := m.place.(lastX := r.place.lastX), log := r.log)
      && LogDrawable(r.log)
    decreases n
  {
    if n > 0 {
      var p := if m.screen.video then m.(log := m.log + [Paste(m.tile.block, x, y)]) else m;
      var q := p.(place := p.place.(lastX := p.place.lastX + 1));
      assert LogDrawable(q.log);
      if q.place.lastX < q.place.sizeX {
        PasteRowResult(q, n - 1, x + 16, y);
      }
    }
  }

  lemma NextBlockResult(m: Machine, n: nat)
    requires Sized(m) && LogDrawable(m.log)
    ensures var r := NextBlock(m, n);
      && r == m.(place := m.place.(lastX := r.place.lastX), log := r.log,
                 tile := Tile(r.tile.block, 0, m.tile.colour), next := 1)
      && |r.tile.block| == TILE_PIXELS
      && LogDrawable(r.log)
  {
    var t, p := m.tile, m.place;
    var clip := t.count != 0 && p.clipped > 0 && p.lastY == p.sizeY;
    var block := if clip then Clip(t.block, p.clipped) else t.block;
    PasteRowResult(m.(tile := Tile(block, 0, t.colour), next := 1), n, p.lastX * 16, p.lastY * 16);
  }

  lemma FindColours(p: Palette, rank: int)
    requires ColoursInRange(p.entries)
    ensures ColoursInRange(Find(p, rank).0.entries)
    ensures Find(p, rank).1 == -1 <==> !(0 <= rank < |p.entries|)
    ensures -1 <= Find(p, rank).1 < 4096
  {
  }

  lemma TouchColours(p: Palette, colour: int)
    requires ColoursInRange(p.entries) && 0 <= colour < 4096
    ensures ColoursInRange(Touch(p, colour).0.entries)
  {
  }

  lemma {:induction false} KeptColours(es: seq<Entry>)
    requires ColoursInRange(es)
    ensures ColoursInRange(Kept(es))
  {
    if es != [] {
      KeptColours(es[1..]);
    }
  }

  lemma DotOk(f: Machine, p: Machine)
    requires Fetched(f) && Sound(p) && f.tile.count == p.tile.count && f.state == p.state && f.inhibit == p.inhibit
    requires p.window.bits == f.window.bits && p.window.zeros == f.window.zeros
    requires 3 <= f.state <= 8 || f.state == 32 || f.state == 33 || f.state == 42
    requires p.next == f.next
    ensures ActOk(f, Dot(p))
  {
    TailOfItself(f.window.bits);
  }

  lemma GiveUpOk(f: Machine, p: Machine)
    requires Fetched(f) && Sound(p) && f.tile.count == p.tile.count && f.state == p.state && f.inhibit == p.inhibit
    requires p.window.bits == f.window.bits && p.window.zeros == f.window.zeros
    requires Need(f.state) > 0 && f.state != 43 && f.state != 0
    ensures ActOk(f, p.(next := 38))
  {
    TailOfItself(f.window.bits);
  }

  lemma ActIndexOk(f: Machine)
    requires Fetched(f) && (3 <= f.state <= 7 || f.state == 32)
    ensures ActOk(f, ActIndex(f))
  {
    var s, c := f.state, f.window.code;
    var code := if |f.palette.entries| == 1 then 0 else if s == 4 then 0 else if s == 3 then 1
                else if c != 0 then c + 1 else 0;
    FindWellFormed(f.palette, code);
    FindColours(f.palette, code);
    var (palette, colour) := Find(f.palette, code);
    var p := WithCode(f, code).(palette := palette, next131 := palette.patch);
    assert Sound(p);
    if colour == -1 {
      GiveUpOk(f, p);
    } else {
      DotOk(f, p.(tile := p.tile.(colour := Remap(colour))));
    }
  }

  lemma ActColourOk(f: Machine, g: Machine)
    requires Fetched(f) && (f.state == 42 || f.state == 8)
    requires Sound(g) && f.tile == g.tile && f.state == g.state && f.inhibit == g.inhibit
    requires f.window == g.window && f.next == g.next
    ensures ActOk(f, ActColour(g))
  {
    hide Or, Touch, WellFormed, Dot, ColoursInRange, LogDrawable;
    Pow2Values();
    var colour := Or(Or(g.hue.red, g.hue.green), g.window.code);
    ChannelsDisjoint(g.hue.red, g.hue.green, g.window.code);
    TouchWellFormed(g.palette, colour);
    TouchColours(g.palette, colour);
    var (palette, hit) := Touch(g.palette, colour);
    var p := g.(hue := g.hue.(blue := g.window.code, colour := colour), palette := palette, next131 := palette.patch);
    DotOk(f, p.(tile := p.tile.(colour := Remap(colour))));
  }

  /** The three channels share no bit, so or-ing them adds them up. */
  lemma ChannelsDisjoint(red: nat, green: nat, blue: nat)
    requires red % 256 == 0 && red < 4096 && green % 16 == 0 && green < 256 && blue < 16
    ensures Or(Or(red, green), blue) == red + green + blue < 4096
  {
    var r, g := red / 256, green / 16;
    assert r < 16 && g < 16 && red == 256 * r && green == 16 * g;
    OrNibbles(r, green, 8);
    OrNibbles(16 * r + g, blue, 4);
  }

  lemma OrNibbles(high: nat, low: nat, n: nat)
    requires (n == 4 && low < 16) || (n == 8 && low < 256)
    ensures n == 4 ==> Or(16 * high, low) == 16 * high + low
    ensures n == 8 ==> Or(256 * high, low) == 256 * high + low
  {
    Pow2Values();
    ShlIsMul(high, n);
    OrDisjoint(low, high, n);
  }

  lemma DotsOk(f: Machine, p: Machine, n: nat)
    requires Fetched(f) && 12 <= f.state <= 14 && p == WithCode(f, p.window.code)
    ensures ActOk(f, Dots(p, n))
  {
    DotsResult(p, n);
    TailOfItself(f.window.bits);
  }

  lemma BlitOk(f: Machine, p: Machine, n: nat)
    requires Fetched(f) && (f.state == 34 || f.state == 29 || f.state == 30) && p == WithCode(f, p.window.code)
    ensures ActOk(f, NextBlock(p, n))
  {
    NextBlockResult(p, n);
    TailOfItself(f.window.bits);
  }

  lemma AlignTail(w: Window)
    ensures IsTail(Take(w, |w.bits| % 8).bits, w.bits)
    ensures Take(w, |w.bits| % 8).zeros == w.zeros
    ensures |Take(w, |w.bits| % 8).bits| % 8 == 0
  {
  }

  lemma ActTimeoutOk(f: Machine)
    requires Fetched(f) && f.state == 27
    ensures ActOk(f, ActTimeout(f))
  {
    AlignTail(f.window);
  }

  lemma QuietEvents(command: int, fatal: int)
    ensures LogDrawable(CommandEvents(command)) && LogDrawable(FatalEvents(fatal))
  {
  }

  lemma LogExtend(log: seq<Event>, events: seq<Event>)
    requires LogDrawable(log) && LogDrawable(events)
    ensures LogDrawable(log + events)
  {
  }

  lemma CommandEffectShape(f: Machine)
    ensures var r := CommandEffect(f);
      && r == f.(next := r.next, screen := r.screen, window := r.window)
      && (r.next == f.next || r.next == 37 || r.next == 44)
      && r.window.zeros == f.window.zeros && IsTail(r.window.bits, f.window.bits)
  {
    AlignTail(f.window);
    TailOfItself(f.window.bits);
  }

  lemma QuietOk(f: Machine, a: Machine)
    requires Fetched(f) && f.state == 46
    requires a == f.(next := a.next, screen := a.screen, window := a.window, command := a.command, log := a.log)
    requires a.next == 1 || a.next == 24 || a.next == 37 || a.next == 44
    requires a.window.zeros == f.window.zeros && IsTail(a.window.bits, f.window.bits) && LogDrawable(a.log)
    ensures ActOk(f, a)
  {
    assert f.tile.count == 0;
  }

  lemma ActCommandOk(f: Machine)
    requires Fetched(f) && f.state == 46
    ensures ActOk(f, ActCommand(f))
  {
    hide CommandEffect, CommandEvents, LogDrawable;
    CommandEffectShape(f);
    QuietEvents(f.command.last, 0);
    LogExtend(f.log, CommandEvents(f.command.last));
    QuietOk(f, ActCommand(f));
  }

  lemma ActTextOk(f: Machine)
    requires Fetched(f) && f.state == 45
    ensures ActOk(f, ActText(f))
  {
    Pow2Values();
    TailOfItself(f.window.bits);
  }

  lemma ActPlaceOk(f: Machine)
    requires Fetched(f) && Moves(f.state)
    ensures ActOk(f, ActPlace(f))
  {
    hide WellFormed, ColoursInRange;
    TailOfItself(f.window.bits);
  }

  lemma ActModeOk(f: Machine)
    requires Fetched(f) && f.state == 47
    ensures ActOk(f, ActMode(f))
  {
    Pow2Values();
    TailOfItself(f.window.bits);
    var events := ModeEvents(f.place.sizeX * 16, f.place.sizeY * 16 + f.window.code);
    assert LogDrawable(events);
    LogExtend(f.log, events);
    assert Sound(ActMode(f));
  }

  /** States that do no more than follow the tables. */
  predicate Idle(s: int) {
    s in {1, 2, 10, 11, 15, 16, 18, 19, 22, 23, 25, 28, 31, 36}
  }

  lemma IdleOk(f: Machine)
    requires Fetched(f) && Idle(f.state)
    ensures ActOk(f, f)
  {
    TailOfItself(f.window.bits);
    if Painting(f.state) {
      assert f.next in {2, 31, 3, 11, 33, 12, 36, 8, 9} || f.next == f.next131;
    } else {
      assert f.tile.count == 0;
    }
  }

  lemma SmallOk(f: Machine)
    requires Fetched(f) && f.state in {9, 41, 24, 35, 44}
    ensures ActOk(f, ActControl(f))
  {
    Pow2Values();
    TailOfItself(f.window.bits);
  }

  lemma ResyncOk(f: Machine)
    requires Fetched(f) && (f.state == 0 || f.state == 43)
    ensures ActOk(f, ActControl(f))
  {
    TailOfItself(f.window.bits);
  }

  lemma ActFatalOk(f: Machine)
    requires Fetched(f) && f.state == 38
    ensures ActOk(f, ActFatal(f))
  {
    TailOfItself(f.window.bits);
    QuietEvents(0, f.clock.fatal);
    LogExtend(f.log, FatalEvents(f.clock.fatal));
  }

  lemma ActPaintOk(f: Machine)
    requires Fetched(f) && Paints(f.state)
    ensures ActOk(f, ActPaint(f))
  {
    var code := f.window.code;
    match f.state
    case 12 =>
      DotsOk(f, WithCode(f, code + 2), code + 2);
      RunLengthOk(f);
    case 13 => DotsOk(f, WithCode(f, code + 8), code + 8);
    case 14 => DotsOk(f, f, code);
    case 33 => DotOk(f, f);
    case 8 =>
      Pow2Values();
      ActColourOk(f, f.(hue := f.hue.(red := code * 256, green := code * 16)));
    case 42 => ActColourOk(f, f);
    case _ => ActIndexOk(f);
  }

  lemma RunLengthOk(f: Machine)
    requires Fetched(f) && f.state == 12
    ensures ActOk(f, f.(next := 13)) && ActOk(f, f.(next := 14))
  {
    TailOfItself(f.window.bits);
  }

  lemma ActBlitOk(f: Machine)
    requires Fetched(f) && Blits(f.state)
    ensures ActOk(f, ActBlit(f))
  {
    var code := f.window.code;
    BlitOk(f, f, 1);
    BlitOk(f, WithCode(f, code + 2), code + 2);
    BlitOk(f, f, code);
  }

  lemma ActControlOk(f: Machine)
    requires Fetched(f) && !Paints(f.state) && !Blits(f.state) && !Moves(f.state)
    requires f.state == 45 ==> f.window.code < 256
    ensures ActOk(f, ActControl(f))
  {
    match f.state
    case 27 => ActTimeoutOk(f);
    case 46 => ActCommandOk(f);
    case 45 => ActTextOk(f);
    case 47 => ActModeOk(f);
    case 38 => ActFatalOk(f);
    case 9 | 41 | 24 | 35 | 44 => SmallOk(f);
    case 0 | 43 => ResyncOk(f);
    case _ =>
      IdleOk(f);
      assert ActControl(f) == f;
  }

  lemma TextCode(f: Machine)
    requires Fetched(f) && f.state == 45
    ensures f.window.code < 256
  {
    Pow2Values();
  }

  /** Every action keeps the data sound and moves to a state that allows the pixels counted so far. */
  lemma ActKeeps(f: Machine)
    requires Fetched(f)
    ensures f.state == 45 ==> f.window.code < 256
    ensures ActOk(f, Act(f))
  {
    if f.state == 45 {
      TextCode(f);
    }
    if Paints(f.state) {
      ActPaintOk(f);
    } else if Blits(f.state) {
      ActBlitOk(f);
    } else if Moves(f.state) {
      ActPlaceOk(f);
    } else {
      ActControlOk(f);
    }
  }
}
