/** The decoder as an object: every method changes the fields exactly as the functions on values say. */
module DvcDecoder {
  import opened BitOps
  import opened DvcBits
  import opened DvcPalette
  import opened DvcMachine
  import opened DvcRuns

  class Decoder {
    const bits: BitReader
    const cache: DvcCache
    const block: array<int>
    const remap: array<int>
    const nextOnOne: array<int>

    var pixelCount: nat
    var lastColour: int
    var place: Place
    var hue: Hue
    var command: Command
    var screen: Screen
    var clock: Clock
    var inhibit: bool
    /** The calls of the drawing layer and of the session, in order. */
    var log: seq<Event>

    ghost function Footprint(): set<object> {
      {this, bits, cache, cache.color, cache.usage, cache.flag, block, nextOnOne}
    }

    /** The buffers are distinct and have their fixed sizes, and the constant tables are filled in. */
    ghost predicate Layout()
      reads remap
    {
      && block.Length == TILE_PIXELS && remap.Length == 4096 && nextOnOne.Length == 48
      && Apart(block) && Apart(nextOnOne) && block != nextOnOne
      && Constant(block) && Constant(nextOnOne)
      && Constant(cache.color) && Constant(cache.usage) && Constant(cache.flag)
      && forall i :: 0 <= i < 4096 ==> remap[i] == Remap(i)
    }

    ghost predicate Apart(a: array<int>) {
      a != cache.color && a != cache.usage && a != cache.flag
    }

    ghost predicate Constant(a: array<int>) {
      a != remap && a != bits.reversal && a != bits.left && a != bits.right
    }

    ghost predicate Valid()
      reads Footprint(), remap, bits.reversal, bits.left, bits.right
    {
      && Layout()
      && bits.Valid() && bits.count <= 16
      && cache.Valid()
      && (forall i :: 0 <= i < 48 && i != 31 ==> nextOnOne[i] == NextOnOne(i))
      && 0 <= place.clipped < TILE_PIXELS
      && pixelCount <= TILE_PIXELS
      && ColoursInRange(cache.recency)
    }

    ghost function Model(): Machine
      requires nextOnOne.Length == 48
      reads Footprint()
    {
      Machine(bits.state, bits.next, bits.Pending(), cache.Model(), nextOnOne[31],
              Tile(block[..], pixelCount, lastColour), place, hue, command, screen, clock, inhibit, log)
    }

    constructor ()
      ensures Valid() && Model() == INITIAL
      ensures fresh(bits) && fresh(cache) && fresh(cache.color) && fresh(cache.usage) && fresh(cache.flag)
      ensures fresh(block) && fresh(nextOnOne)
    {
      hide Ranked, ToBits, Remap;
      bits := new BitReader();
      cache := new DvcCache();
      block := new int[256](_ => 0);
      remap := new int[4096];
      nextOnOne := new int[48];
      pixelCount, lastColour := 0, 0;
      place, hue, command := Place(0, 0, 0, 0, 0, 0, 0), Hue(0, 0, 0, 0), Command(map[], 0, 0, 0, "");
      screen, clock := Screen(1, 1, 1, 1, true, false, 30), Clock(0, 0, 0);
      inhibit := false;
      log := [];
      new;
      FillTables();
      assert block[..] == INITIAL.tile.block;
      assert bits.Pending() == EMPTY && cache.Model() == FRESH && nextOnOne[31] == 35;
    }

    method FillTables()
      requires remap.Length == 4096 && nextOnOne.Length == 48 && remap != nextOnOne
      modifies remap, nextOnOne
      ensures forall i :: 0 <= i < 4096 ==> remap[i] == Remap(i)
      ensures forall i :: 0 <= i < 48 ==> nextOnOne[i] == NextOnOne(i)
    {
      for i := 0 to 4096
        invariant forall j :: 0 <= j < i ==> remap[j] == Remap(j)
      {
        remap[i] := Remap(i);
      }
      for i := 0 to 48
        invariant forall j :: 0 <= j < 4096 ==> remap[j] == Remap(j)
        invariant forall j :: 0 <= j < i ==> nextOnOne[j] == NextOnOne(j)
      {
        nextOnOne[i] := NextOnOne(i);
      }
    }

    /** Keeps the table entry that dispatches palette indices in step with the cache. */
    method SyncNext()
      requires Valid()
      modifies nextOnOne
      ensures Valid() && Model() == old(Model()).(next131 := cache.next131)
    {
      nextOnOne[31] := cache.next131;
    }

    method PutPixel()
      requires Valid()
      modifies this`pixelCount, bits`next, block
      ensures Valid() && Model() == Dot(old(Model()))
    {
      if pixelCount >= 256 {
        bits.next := 38;
        return;
      }
      block[pixelCount] := lastColour;
      pixelCount := pixelCount + 1;
    }

    method EmitRun(count: nat)
      requires Valid()
      modifies this`pixelCount, bits`next, block
      ensures Valid() && Model() == Dots(old(Model()), count)
    {
      var i := 0;
      while i < count
        invariant 0 <= i <= count && Valid()
        invariant Dots(Model(), count - i) == Dots(old(Model()), count)
      {
        if pixelCount >= 256 {
          bits.next := 38;
          return;
        }
        PutPixel();
        i := i + 1;
      }
    }

    method TouchColour(c: int) returns (hit: bool)
      requires Valid() && 0 <= c < 4096
      modifies cache, cache.color, cache.usage, cache.flag, nextOnOne
      ensures Valid()
      ensures var (p, h) := Touch(old(cache.Model()), c);
        hit == h && Model() == old(Model()).(palette := p, next131 := p.patch)
    {
      TouchColours(cache.Model(), c);
      hit := cache.Lru(c);
      assert block[..] == old(block[..]);
      SyncNext();
    }

    method RankColour(rank: int) returns (c: int)
      requires Valid()
      modifies cache, cache.usage, cache.flag, nextOnOne
      ensures Valid() && -1 <= c < 4096
      ensures var (p, d) := Find(old(cache.Model()), rank);
        c == d && Model() == old(Model()).(palette := p, next131 := p.patch)
    {
      FindColours(cache.Model(), rank);
      c := cache.Rank(rank);
      assert block[..] == old(block[..]);
      SyncNext();
    }

    method GiveUp()
      requires Valid()
      modifies bits`next
      ensures Valid() && Model() == old(Model()).(next := 38)
    {
      bits.next := 38;
    }

    method SetCode(code: nat)
      requires Valid()
      modifies bits`code
      ensures Valid() && Model() == WithCode(old(Model()), code)
    {
      bits.code := code;
    }

    method PaintColour(c: int)
      requires Valid() && 0 <= c < 4096
      modifies this`pixelCount, this`lastColour, bits`next, block
      ensures Valid()
      ensures var m := old(Model()); Model() == Dot(m.(tile := m.tile.(colour := Remap(c))))
    {
      lastColour := remap[c];
      PutPixel();
    }

    method SetHue(h: Hue)
      requires Valid()
      modifies this`hue
      ensures Valid() && Model() == old(Model()).(hue := h)
    {
      hue := h;
    }

    /** Looks a colour up by its rank and paints it. */
    method IndexState()
      requires Valid() && (3 <= bits.state <= 7 || bits.state == 32)
      modifies this`pixelCount, this`lastColour, bits`next, bits`code, cache, cache.usage, cache.flag, block, nextOnOne
      ensures Valid() && Model() == ActIndex(old(Model()))
    {
      var code := bits.code;
      assert cache.active == |Model().palette.entries|;
      if cache.active == 1 {
        code := 0;
      } else if bits.state == 4 {
        code := 0;
      } else if bits.state == 3 {
        code := 1;
      } else if code != 0 {
        code := code + 1;
      }
      SetCode(code);
      var c := RankColour(code);
      if c == -1 {
        GiveUp();
      } else {
        PaintColour(c);
      }
    }

    /** Adds the colour made of the three channels to the palette and paints it. */
    method ColourState()
      requires Valid() && bits.code < 16
      requires hue.red % 256 == 0 && hue.red < 4096 && hue.green % 16 == 0 && hue.green < 256
      modifies this`pixelCount, this`lastColour, this`hue, bits`next
      modifies cache, cache.color, cache.usage, cache.flag, block, nextOnOne
      ensures Valid() && Model() == ActColour(old(Model()))
    {
      ChannelsDisjoint(hue.red, hue.green, bits.code);
      var colour := Or(Or(hue.red, hue.green), bits.code);
      SetHue(hue.(blue := bits.code, colour := colour));
      var hit := TouchColour(colour);
      if hit {
        GiveUp();
      } else {
        PaintColour(colour);
      }
    }

    method PaintState()
      requires Valid() && Fetched(Model()) && Paints(bits.state)
      modifies this`pixelCount, this`lastColour, this`hue, bits`next, bits`code
      modifies cache, cache.color, cache.usage, cache.flag, block, nextOnOne
      ensures Valid() && Model() == ActPaint(old(Model()))
    {
      hide BitReader.Valid, DvcCache.Valid;
      Pow2Values();
      if 12 <= bits.state <= 14 {
        RunState();
      } else if bits.state == 33 {
        PutPixel();
      } else if bits.state == 8 {
        SetHue(hue.(red := bits.code * 256, green := bits.code * 16));
        ColourState();
      } else if bits.state == 42 {
        ColourState();
      } else {
        IndexState();
      }
    }

    /** Repeats the last colour. */
    method RunState()
      requires Valid() && 12 <= bits.state <= 14
      modifies this`pixelCount, bits`next, bits`code, block
      ensures Valid() && Model() == ActPaint(old(Model()))
    {
      var code := bits.code;
      if bits.state == 14 {
        EmitRun(code);
      } else if bits.state == 13 {
        SetCode(code + 8);
        EmitRun(code + 8);
      } else if code == 7 {
        SetNext(14);
      } else if code == 6 {
        SetNext(13);
      } else {
        SetCode(code + 2);
        EmitRun(code + 2);
      }
    }

    method SetNext(next: int)
      requires Valid()
      modifies bits`next
      ensures Valid() && Model() == old(Model()).(next := next)
    {
      bits.next := next;
    }

    method Tell(events: seq<Event>)
      requires Valid()
      modifies this`log
      ensures Valid() && Model() == old(Model()).(log := old(Model()).log + events)
    {
      log := log + events;
    }

    method SetPlace(p: Place)
      requires Valid() && 0 <= p.clipped < TILE_PIXELS
      modifies this`place
      ensures Valid() && Model() == old(Model()).(place := p)
    {
      place := p;
    }

    /** Blanks the part of the tile that hangs below the screen. */
    method BlankFrom(from: nat)
      requires Valid() && from < TILE_PIXELS
      modifies block
      ensures Valid()
      ensures var m := old(Model()); Model() == m.(tile := m.tile.(block := Clip(m.tile.block, from)))
    {
      var fill := remap[0];
      var i := from;
      while i < 256
        invariant from <= i <= 256
        invariant forall j :: 0 <= j < 256 ==> block[j] == if from <= j < i then Remap(0) else old(block[j])
      {
        block[i] := fill;
        i := i + 1;
      }
      assert block[..] == Clip(old(block[..]), from);
    }

    /** Starts the next tile. */
    method StartTile()
      requires Valid()
      modifies this`pixelCount, bits`next
      ensures Valid()
      ensures var m := old(Model()); Model() == m.(tile := m.tile.(count := 0), next := 1)
    {
      pixelCount := 0;
      bits.next := 1;
    }

    method PasteOnce(x: int, y: int)
      requires Valid()
      modifies this`place, this`log
      ensures Valid() && screen == old(screen)
      ensures var m := old(Model());
        Model() == m.(log := if m.screen.video then m.log + [Paste(m.tile.block, x, y)] else m.log,
                      place := m.place.(lastX := m.place.lastX + 1))
    {
      if screen.video {
        Tell([Paste(block[..], x, y)]);
      }
      SetPlace(place.(lastX := place.lastX + 1));
    }

    method PasteTiles(count: nat, x0: int, y: int)
      requires Valid()
      modifies this`place, this`log
      ensures Valid() && Model() == PasteRow(old(Model()), count, x0, y)
    {
      var x, left := x0, count;
      while left != 0
        invariant Valid()
        invariant PasteRow(Model(), left, x, y) == PasteRow(old(Model()), count, x0, y)
        decreases left
      {
        PasteOnce(x, y);
        x := x + 16;
        if place.lastX >= place.sizeX {
          break;
        }
        left := left - 1;
      }
    }

    /** Blits the tile `count` times along the row, after blanking what hangs below the screen. */
    method NextBlock(count: nat)
      requires Valid()
      modifies this`pixelCount, this`place, this`log, bits`next, block
      ensures Valid() && Model() == DvcMachine.NextBlock(old(Model()), count)
    {
      if pixelCount != 0 && place.clipped > 0 && place.lastY == place.sizeY {
        BlankFrom(place.clipped);
      }
      StartTile();
      PasteTiles(count, place.lastX * 16, place.lastY * 16);
    }

    method BlitState()
      requires Valid() && Blits(bits.state)
      modifies this`pixelCount, this`place, this`log, bits`next, bits`code, block
      ensures Valid() && Model() == ActBlit(old(Model()))
    {
      if bits.state == 34 {
        NextBlock(1);
      } else if bits.state == 29 {
        SetCode(bits.code + 2);
        NextBlock(bits.code);
      } else {
        NextBlock(bits.code);
      }
    }

    method PlaceState()
      requires Valid() && Moves(bits.state)
      modifies this`place, this`log, bits`code
      ensures Valid() && Model() == ActPlace(old(Model()))
    {
      hide BitReader.Valid, DvcCache.Valid;
      var code := bits.code;
      if bits.state == 17 {
        SetPlace(place.(newX := if code > place.sizeX then 0 else code));
      } else if bits.state == 26 {
        SetPlace(place.(newX := code));
      } else if bits.state == 39 {
        var y := code % 128;
        SetPlace(place.(newY := y, lastX := place.newX, lastY := if y > place.sizeY then 0 else y));
        Tell([Repaint]);
      } else if bits.state == 20 {
        var c := place.lastX + code + 1;
        SetCode(c);
        SetPlace(place.(lastX := if c % 128 > place.sizeX then 0 else c % 128));
      } else if bits.state == 21 {
        SetPlace(place.(lastX := if code % 128 > place.sizeX then 0 else code % 128));
      } else {
        SetPlace(place.(sizeX := place.newX, sizeY := code));
      }
    }

    method SetCommand(c: Command)
      requires Valid()
      modifies this`command
      ensures Valid() && Model() == old(Model()).(command := c)
    {
      command := c;
    }

    method SetScreen(s: Screen)
      requires Valid()
      modifies this`screen
      ensures Valid() && Model() == old(Model()).(screen := s)
    {
      screen := s;
    }

    method SetClock(c: Clock)
      requires Valid()
      modifies this`clock
      ensures Valid() && Model() == old(Model()).(clock := c)
    {
      clock := c;
    }

    method ClearTile()
      requires Valid()
      modifies this`pixelCount
      ensures Valid() && Model() == old(Model()).(tile := old(Model()).tile.(count := 0))
    {
      pixelCount := 0;
    }

    method ClearCache()
      requires Valid()
      modifies cache
      ensures Valid() && Model() == old(Model()).(palette := Reset(old(Model()).palette))
    {
      cache.Clear();
    }

    /** Drops the bits up to the next byte boundary. */
    method AlignBits()
      requires Valid()
      modifies bits`acc, bits`count, bits`code
      ensures Valid() && Model() == Align(old(Model()))
    {
      if bits.count % 8 != 0 {
        bits.GetBits(bits.count % 8);
      }
    }

    method TimeoutState()
      requires Valid() && bits.state == 27
      modifies this`clock, this`log, bits`next, bits`acc, bits`count, bits`code
      ensures Valid() && Model() == ActTimeout(old(Model()))
    {
      if clock.timeout == clock.bytes - 1 {
        GiveUp();
      }
      AlignBits();
      SetClock(clock.(timeout := clock.bytes));
      Tell([Repaint]);
    }

    method CommandState()
      requires Valid() && bits.state == 46
      modifies this`command, this`screen, this`log, bits`next, bits`acc, bits`count, bits`code
      ensures Valid() && Model() == ActCommand(old(Model()))
    {
      if bits.code != 0 {
        return;
      }
      var last := command.last;
      if last == 1 {
        SetNext(37);
      } else if last == 2 {
        SetNext(44);
      } else if last == 3 {
        SetScreen(screen.(framerate := FirstParameter(command)));
      } else if last == 6 {
        SetScreen(screen.(screenX := 640, screenY := 100));
      } else if last == 9 {
        AlignBits();
      } else if last == 10 {
        SetScreen(screen.(seized := true));
      }
      SetCommand(command.(count := 0));
      Tell(CommandEvents(last));
    }

    method ResetState()
      requires Valid() && bits.state == 0
      modifies this`place, this`hue, this`command, this`clock, this`pixelCount, cache
      ensures Valid() && Model() == ActReset(old(Model()))
    {
      ClearCache();
      ClearTile();
      SetPlace(place.(lastX := 0, lastY := 0));
      SetHue(hue.(red := 0, green := 0, blue := 0));
      SetClock(clock.(fatal := 0, timeout := -1));
      SetCommand(command.(count := 0));
    }

    method FatalState()
      requires Valid() && bits.state == 38
      modifies this`clock, this`log
      ensures Valid() && Model() == ActFatal(old(Model()))
    {
      var f := clock.fatal;
      SetClock(clock.(fatal := if f + 1 != 12000000 then f + 1 else 41));
      Tell(FatalEvents(f));
    }

    method ModeState()
      requires Valid() && bits.state == 47 && bits.code < 16
      modifies this`place, this`screen, this`log, this`pixelCount, cache
      ensures Valid() && Model() == ActMode(old(Model()))
    {
      hide BitReader.Valid, DvcCache.Valid, ModeEvents;
      var code := bits.code;
      var w, h := place.sizeX * 16, place.sizeY * 16 + code;
      var on := w != 0 && h != 0;
      SetScreen(Screen(if on then w else 640, if on then h else 100, 1, 1, on, screen.seized, screen.framerate));
      Rewind(if code > 0 then 256 - 16 * code else 0);
      Tell(ModeEvents(w, h));
    }

    /** Back to the top left corner with an empty tile and no colours. */
    method Rewind(clipped: int)
      requires Valid() && 0 <= clipped < TILE_PIXELS
      modifies this`place, this`pixelCount, cache
      ensures Valid()
      ensures var m := old(Model());
        Model() == m.(place := m.place.(lastX := 0, lastY := 0, clipped := clipped), tile := m.tile.(count := 0),
                      palette := Reset(m.palette))
    {
      SetPlace(place.(lastX := 0, lastY := 0, clipped := clipped));
      ClearTile();
      ClearCache();
    }

    method HuntState()
      requires Valid() && bits.state == 43
      modifies this`clock, bits`acc, bits`count, bits`zeroCount
      ensures Valid() && Model() == ActHunt(old(Model()))
    {
      if bits.next == bits.state {
        return;
      }
      bits.acc, bits.count, bits.zeroCount := 0, 0, 0;
      clock := clock.(bytes := 0);
    }

    method ControlState()
      requires Valid() && Fetched(Model())
      requires !Paints(bits.state) && !Blits(bits.state) && !Moves(bits.state)
      modifies this, bits`next, bits`acc, bits`count, bits`code, bits`zeroCount, cache
      ensures Valid() && Model() == ActControl(old(Model()))
    {
      Pow2Values();
      var code := bits.code;
      match bits.state
      case 35 => SetNext(cache.pixcode);
      case 9 => SetHue(hue.(red := code * 256));
      case 41 => SetHue(hue.(green := code * 16));
      case 27 => TimeoutState();
      case 24 =>
        SetCommand(command.(
          params := if command.count != 0 then command.params[command.count - 1 := command.last] else command.params,
          count := command.count + 1, last := code));
      case 46 => CommandState();
      case 44 => SetCommand(command.(channel := code, text := ""));
      case 45 => TextState();
      case 0 => ResetState();
      case 38 => FatalState();
      case 47 => ModeState();
      case 43 => HuntState();
      case _ =>
    }

    method TextState()
      requires Valid() && bits.state == 45 && bits.code < 256
      modifies this`command, this`log, bits`next
      ensures Valid() && Model() == ActText(old(Model()))
    {
      if bits.code != 0 {
        SetCommand(command.(text := command.text + [bits.code as char]));
        return;
      }
      Tell(TextEvents(command));
      SetNext(1);
    }

    method Act()
      requires Valid() && Fetched(Model())
      modifies Footprint()
      ensures Valid() && Fetched(old(Model()))
      ensures ActOk(old(Model()), Model()) && Model() == DvcMachine.Act(old(Model()))
    {
      ActKeeps(Model());
      if Paints(bits.state) {
        PaintState();
      } else if Blits(bits.state) {
        BlitState();
      } else if Moves(bits.state) {
        PlaceState();
      } else {
        ControlState();
      }
    }

    method PruneCache()
      requires Valid()
      modifies cache, cache.color, cache.usage, cache.flag, nextOnOne
      ensures Valid()
      ensures var p := Pruned(old(cache.Model())); Model() == old(Model()).(palette := p, next131 := p.patch)
    {
      KeptColours(cache.recency);
      cache.Prune();
      assert block[..] == old(block[..]);
      SyncNext();
    }

    /** Blits a tile that has just become full, and forgets the colours it did not use. */
    method FlushTile()
      requires Valid()
      modifies Footprint()
      ensures Valid() && Model() == Flush(old(Model()))
    {
      if bits.next == 2 && pixelCount == 256 {
        NextBlock(1);
        PruneCache();
      }
    }

    /** Reads the state's field and looks the next state up. */
    method FetchField()
      requires Valid() && CanStep(Model())
      modifies bits`acc, bits`count, bits`code, bits`next
      ensures Valid() && Model() == Fetch(old(Model()))
    {
      bits.GetBits(Need(bits.state));
      bits.next := if bits.code == 0 then NextOnZero(bits.state)
                   else if 0 <= bits.state < 48 then nextOnOne[bits.state] else NextOnOne(bits.state);
    }

    method NextState()
      requires Valid()
      modifies bits`state
      ensures Valid() && Model() == old(Model()).(state := old(bits.next))
    {
      bits.state := bits.next;
    }

    /** One turn of the loop: 0 to go on, anything else to leave it. */
    method Turn() returns (n: int)
      requires Valid() && Inv(Model()) && CanStep(Model())
      modifies Footprint()
      ensures Valid() && (Model(), n) == Step(old(Model()))
    {
      FetchOk(Model());
      FetchField();
      if bits.state == 37 {
        return 1;
      }
      Act();
      FlushTile();
      if bits.state == bits.next && bits.state != 45 && bits.state != 38 && bits.state != 43 {
        return 6;
      }
      NextState();
      return 0;
    }

    /** Runs the state machine over one more byte. */
    method ProcessBits(c: byte) returns (n: int)
      requires Valid() && Rest(Model())
      modifies Footprint()
      ensures Valid() && Rest(old(Model())) && Inv(Begin(old(Model()), c))
      ensures (Model(), n) == Drain(Begin(old(Model()), c))
    {
      ghost var m0 := Model();
      BeginKeeps(m0, c);
      BeginByte(c);
      n := 0;
      while n == 0
        invariant Valid() && n == 0 && Inv(Model())
        invariant Drain(Model()) == Drain(Begin(m0, c))
        decreases Measure(Model())
      {
        if Need(bits.state) > bits.count {
          break;
        }
        StepKeeps(Model());
        n := Turn();
        if n != 0 {
          break;
        }
      }
    }

    method BeginByte(c: byte)
      requires Valid() && Rest(Model())
      modifies bits`acc, bits`count, bits`zeroCount, bits`state, bits`next, this`clock
      ensures Valid() && Model() == Begin(old(Model()), c)
    {
      var hunt := bits.AddBits(c);
      clock := clock.(bytes := clock.bytes + 1);
    }

    /** Bits that made no sense: wait for the next reset marker. */
    method Resync()
      requires Valid()
      modifies this`clock, this`log, bits`state, bits`next
      ensures Valid()
      ensures var m := old(Model());
        Model() == m.(state := 38, next := 38, clock := m.clock.(fatal := 0), log := m.log + [RefreshScreen])
    {
      bits.state := 38;
      SetNext(38);
      SetClock(clock.(fatal := 0));
      Tell([RefreshScreen]);
    }

    /** One decrypted byte; the decoder never leaves video mode. */
    method ProcessDvc(c: byte) returns (stay: bool)
      requires Valid() && Rest(Model())
      modifies Footprint()
      ensures Valid() && stay && Rest(old(Model())) && Rest(Model())
      ensures Model() == ProcessByte(old(Model()), c)
    {
      ProcessByteKeeps(Model(), c);
      if !inhibit {
        var n := ProcessBits(c);
        if n != 0 {
          Resync();
        }
      }
      return true;
    }
  }
}
