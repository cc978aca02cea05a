/** Whole runs of the video decoder: every byte is finished with, whatever state it arrives in, and the
    reset marker brings any decoder back to the same place. */
module DvcRuns {
  import opened BitOps
  import opened DvcBits
  import opened DvcPalette
  import opened DvcMachine

  predicate CanStep(m: Machine) {
    Need(m.state) <= |m.window.bits|
  }

  lemma FetchOk(m: Machine)
    requires Inv(m) && CanStep(m)
    ensures var f := Fetch(m);
      && Sound(f) && f.state == m.state && f.tile == m.tile && f.inhibit == m.inhibit && f.log == m.log
      && (m.state != 37 ==> Fetched(f))
      && f.window.bits == m.window.bits[Need(m.state)..] && f.window.zeros == m.window.zeros
  {
    MsbBound(m.window.bits[..Need(m.state)]);
  }

  /** One turn of the loop. The second result is what the loop leaves with: 0 to go on, 1 from state 37, and
      6 if a state were to follow itself. */
  ghost function Step(m: Machine): (Machine, int)
    requires Inv(m) && CanStep(m)
  {
    FetchOk(m);
    var f := Fetch(m);
    if m.state == 37 then (f, 1)
    else
      ActKeeps(f);
      var a := Flush(Act(f));
      if a.state == a.next && a.state != 45 && a.state != 38 && a.state != 43 then (a, 6)
      else (a.(state := a.next), 0)
  }

  /** Bits still to be read, doubled, plus one when the state reads none. */
  function Measure(m: Machine): nat {
    2 * |m.window.bits| + if Need(m.state) == 0 then 1 else 0
  }

  lemma FlushKeeps(f: Machine, a: Machine)
    requires Fetched(f) && ActOk(f, a)
    ensures ActOk(f, Flush(a)) && CountOk(Flush(a).next, Flush(a).tile.count)
    ensures Flush(a).window == a.window
  {
    if a.next == 2 && a.tile.count == TILE_PIXELS {
      NextBlockResult(a, 1);
      PruneWellFormed(a.palette);
      KeptColours(a.palette.entries);
    }
  }

  /** One step from a good state: the loop never sees a state follow itself, leaves only through state 37,
      and otherwise lands in a good state with less to do. */
  lemma StepKeeps(m: Machine)
    requires Inv(m) && CanStep(m)
    ensures var (r, n) := Step(m);
      && n == (if m.state == 37 then 1 else 0)
      && Sound(r) && r.tile.count <= TILE_PIXELS && r.inhibit == m.inhibit
      && (n == 0 ==> Inv(r) && Measure(r) < Measure(m))
      && (n == 1 ==> |r.window.bits| <= 7 && EndsInZeros(r.window))
      && (m.state != 43 ==> r.window.zeros == m.window.zeros && (n == 0 ==> r.state != 43))
  {
    FetchOk(m);
    var f := Fetch(m);
    if m.state != 37 {
      ActKeeps(f);
      FlushKeeps(f, Act(f));
      StepWindow(m, f, Flush(Act(f)));
    }
  }

  /** The step's effect on the pending bits. */
  lemma StepWindow(m: Machine, f: Machine, a: Machine)
    requires Inv(m) && CanStep(m) && m.state != 37 && Fetched(f) && ActOk(f, a) && f.state == m.state
    requires f.window.bits == m.window.bits[Need(m.state)..] && f.window.zeros == m.window.zeros
    ensures Bounded(a.next, |a.window.bits|)
    ensures 2 * |a.window.bits| + (if Need(a.next) == 0 then 1 else 0) < Measure(m)
    ensures a.next == 43 ==> a.window.zeros > ZERO_RUN
    ensures a.next != 43 ==> EndsInZeros(a.window)
  {
    assert |a.window.bits| <= |f.window.bits|;
    if m.state != 43 {
      var b, k := m.window.bits, |m.window.bits| - |a.window.bits|;
      assert forall i :: 0 <= i < |a.window.bits| ==> a.window.bits[i] == b[i + k];
    }
  }

  // ---- a whole byte ----

  /** Steps until the pending bits are too few for the state, or state 37 is reached. */
  ghost function Drain(m: Machine): (Machine, int)
    requires Inv(m)
    decreases Measure(m)
  {
    if !CanStep(m) then (m, 0)
    else
      StepKeeps(m);
      var (r, n) := Step(m);
      if n != 0 then (r, n) else Drain(r)
  }

  /** Between bytes: the pending bits do not make up the next field. */
  ghost predicate Rest(m: Machine) {
    && Inv(m)
    && (!CanStep(m) || (m.state == 38 && |m.window.bits| <= 7) || (m.state == 0 && m.window.bits == []))
  }

  function Begin(m: Machine, c: byte): Machine {
    var (w, hunt) := AddByte(m.window, c);
    var s, x := if hunt then HUNT else m.state, if hunt then HUNT else m.next;
    m.(window := w, state := s, next := x, clock := m.clock.(bytes := m.clock.bytes + 1))
  }

  lemma BeginKeeps(m: Machine, c: byte)
    requires Rest(m)
    ensures Inv(Begin(m, c))
  {
    hide ToBits, LeadingZeros, TrailingZeros, WellFormed, ColoursInRange, LogDrawable;
    ByteBitsZero(c);
    LeadingZerosMeaning(ByteBits(c));
    TrailingZerosMeaning(ByteBits(c));
    var w := AddByte(m.window, c).0;
    var n := |m.window.bits|;
    assert forall i :: n <= i < n + 8 ==> w.bits[i] == ByteBits(c)[i - n];
  }

  lemma {:induction false} DrainKeeps(m: Machine)
    requires Inv(m)
    ensures var (r, n) := Drain(m);
      && r.inhibit == m.inhibit && Sound(r) && r.tile.count <= TILE_PIXELS
      && (n == 0 || n == 1)
      && (n == 0 ==> Inv(r) && !CanStep(r))
      && (n == 1 ==> |r.window.bits| <= 7 && EndsInZeros(r.window))
      && (m.state != 43 ==> r.window.zeros == m.window.zeros && (n == 0 ==> r.state != 43))
    decreases Measure(m)
  {
    if CanStep(m) {
      StepKeeps(m);
      var (r, n) := Step(m);
      if n == 0 {
        DrainKeeps(r);
      }
    }
  }

  /** One byte, and the recovery when the loop left through state 37. */
  ghost function ProcessByte(m: Machine, c: byte): Machine
    requires Rest(m)
  {
    if m.inhibit then m
    else
      BeginKeeps(m, c);
      var (r, n) := Drain(Begin(m, c));
      if n == 0 then r
      else r.(state := 38, next := 38, clock := r.clock.(fatal := 0), log := r.log + [RefreshScreen])
  }

  lemma ProcessByteKeeps(m: Machine, c: byte)
    requires Rest(m)
    ensures Rest(ProcessByte(m, c)) && ProcessByte(m, c).inhibit == m.inhibit
    ensures |ProcessByte(m, c).window.bits| <= 7
  {
    if !m.inhibit {
      BeginKeeps(m, c);
      DrainKeeps(Begin(m, c));
      var (r, n) := Drain(Begin(m, c));
      LogExtend(r.log, [RefreshScreen]);
    }
  }

  ghost function Run(m: Machine, bytes: seq<byte>): (r: Machine)
    requires Rest(m)
    ensures Rest(r) && r.inhibit == m.inhibit
    decreases |bytes|
  {
    if bytes == [] then m
    else
      ProcessByteKeeps(m, bytes[0]);
      Run(ProcessByte(m, bytes[0]), bytes[1..])
  }

  lemma InitialRests()
    ensures Rest(INITIAL)
  {
  }

  lemma {:induction false} RunConcat(m: Machine, a: seq<byte>, b: seq<byte>)
    requires Rest(m)
    ensures Run(m, a + b) == Run(Run(m, a), b)
    decreases |a|
  {
    hide ProcessByte, Rest;
    if a == [] {
      assert a + b == b;
    } else {
      ProcessByteKeeps(m, a[0]);
      assert (a + b)[1..] == a[1..] + b;
      RunConcat(ProcessByte(m, a[0]), a[1..], b);
    }
  }

  /** Whatever bytes arrive, decoding them ends, with at most 7 bits left over, at most 256 pixels counted and
      none counted outside the states that paint; the tables' patched entry matches the palette; and every
      blit is a whole aligned tile. */
  lemma EveryRun(bytes: seq<byte>)
    ensures var r := (InitialRests(); Run(INITIAL, bytes));
      && |r.window.bits| <= 7
      && r.tile.count <= 256
      && (r.tile.count > 0 ==> Painting(r.state) || r.state in {38, 43, 0})
      && (r.tile.count == 256 ==> MayBeFull(r.state))
      && r.next131 == r.palette.patch
      && WellFormed(r.palette)
      && (forall i :: 0 <= i < |r.log| ==> Drawable(r.log[i]))
  {
    InitialRests();
  }

  // ---- resynchronisation ----

  predicate AllZero(bits: seq<bool>) {
    forall i :: 0 <= i < |bits| ==> !bits[i]
  }

  /** One step while looking for the end of a zero run. */
  lemma HuntStep(m: Machine)
    requires Inv(m) && m.state == 43 && m.window.bits != []
    ensures var (r, n) := Step(m);
      && n == 0
      && (m.window.bits[0] ==> r.state == 0 && r.window == Window([], 0, 1) && r.clock.bytes == 0)
      && (!m.window.bits[0] ==>
            r.state == 43 && r.window.bits == m.window.bits[1..] && r.window.zeros == m.window.zeros)
  {
    FetchOk(m);
    var b := m.window.bits[..1];
    assert b[..0] == [] && Msb(b) == Bit(m.window.bits[0]);
    StepKeeps(m);
  }

  lemma {:induction false} HuntThroughZeros(m: Machine)
    requires Inv(m) && m.state == 43 && AllZero(m.window.bits)
    ensures var (r, n) := Drain(m);
      n == 0 && r.state == 43 && r.window.bits == [] && r.window.zeros == m.window.zeros
    decreases |m.window.bits|
  {
    if m.window.bits != [] {
      HuntStep(m);
      StepKeeps(m);
      HuntThroughZeros(Step(m).0);
    }
  }

  /** The state every decoder is in after a reset marker. */
  predicate Synchronised(m: Machine) {
    && m.state == 1 && m.window.bits == [] && m.window.zeros == 0
    && m.palette.entries == [] && m.tile.count == 0
    && m.place.lastX == 0 && m.place.lastY == 0
    && m.hue.red == 0 && m.hue.green == 0 && m.hue.blue == 0
    && m.command.count == 0
    && m.clock == Clock(0, 0, -1)
  }

  lemma ResetStep(m: Machine)
    requires Inv(m) && m.state == 0 && m.window.bits == [] && m.window.zeros == 0 && m.clock.bytes == 0
    ensures var (r, n) := Drain(m); n == 0 && Synchronised(r)
  {
    FetchOk(m);
    StepKeeps(m);
    var (r, n) := Step(m);
    assert r.state == 1;
  }

  lemma {:induction false} HuntToOne(m: Machine)
    requires Inv(m) && m.state == 43 && !AllZero(m.window.bits)
    ensures var (r, n) := Drain(m); n == 0 && Synchronised(r)
    decreases |m.window.bits|
  {
    HuntStep(m);
    StepKeeps(m);
    if m.window.bits[0] {
      ResetStep(Step(m).0);
    } else {
      assert !AllZero(m.window.bits[1..]) by {
        var i :| 0 <= i < |m.window.bits| && m.window.bits[i];
        assert m.window.bits[1..][i - 1];
      }
      HuntToOne(Step(m).0);
    }
  }

  /** A zero byte lengthens the zero run by eight; once it passes thirty bits nothing half-read is left. */
  lemma ZeroByte(m: Machine)
    requires Rest(m) && !m.inhibit
    ensures var r := ProcessByte(m, 0);
      r.window.zeros == m.window.zeros + 8 && (r.window.zeros > ZERO_RUN ==> r.state == 43 && r.window.bits == [])
  {
    BeginKeeps(m, 0);
    ByteBitsZero(0);
    var b := Begin(m, 0);
    if b.state == 43 {
      assert AllZero(m.window.bits);
      assert AllZero(b.window.bits);
      HuntThroughZeros(b);
    } else {
      DrainKeeps(b);
    }
  }

  lemma OneByte(m: Machine, c: byte)
    requires Rest(m) && !m.inhibit && m.state == 43 && m.window.bits == [] && c != 0
    ensures Synchronised(ProcessByte(m, c))
  {
    BeginKeeps(m, c);
    ByteBitsZero(c);
    var b := Begin(m, c);
    assert b.window.bits == ByteBits(c);
    assert !AllZero(b.window.bits) by {
      LeadingZerosMeaning(ByteBits(c));
    }
    HuntToOne(b);
  }

  lemma {:induction false} ZeroByteRun(m: Machine, n: nat)
    requires Rest(m) && !m.inhibit
    ensures var r := Run(m, ZeroBytes(n));
      && r.window.zeros == m.window.zeros + 8 * n
      && (n > 0 && r.window.zeros > ZERO_RUN ==> r.state == 43 && r.window.bits == [])
    decreases n
  {
    hide ProcessByte, Rest;
    if n > 0 {
      RunConcat(m, ZeroBytes(n - 1), [0]);
      assert ZeroBytes(n) == ZeroBytes(n - 1) + [0];
      ZeroByteRun(m, n - 1);
      var p := Run(m, ZeroBytes(n - 1));
      ZeroByte(p);
      RunOne(p, 0);
    }
  }

  lemma RunOne(m: Machine, c: byte)
    requires Rest(m)
    ensures Run(m, [c]) == ProcessByte(m, c)
  {
    ProcessByteKeeps(m, c);
    assert [c][1..] == [];
  }

  /** Self-synchronisation: after any bytes at all, four or more zero bytes and any byte that is not zero
      bring the decoder to the same state. */
  lemma SelfSynchronising(bytes: seq<byte>, n: nat, c: byte)
    requires n >= 4 && c != 0
    ensures (InitialRests(); Synchronised(Run(INITIAL, bytes + ZeroBytes(n) + [c])))
  {
    InitialRests();
    var m := Run(INITIAL, bytes);
    var z := Run(m, ZeroBytes(n));
    RunConcat(INITIAL, bytes, ZeroBytes(n));
    RunConcat(INITIAL, bytes + ZeroBytes(n), [c]);
    ZeroByteRun(m, n);
    OneByte(z, c);
    RunOne(z, c);
  }

  // ---- the key change ----

  /** `log'` adds events to `log`, none of them a key change. */
  ghost predicate Quiet(log: seq<Event>, log': seq<Event>) {
    && |log| <= |log'| && log'[..|log|] == log
    && forall i :: |log| <= i < |log'| ==> log'[i] != ChangeKey
  }

  lemma QuietAppend(log: seq<Event>, events: seq<Event>)
    requires ChangeKey !in events
    ensures Quiet(log, log + events)
  {
    assert forall i :: 0 <= i < |events| ==> events[i] != ChangeKey;
  }

  lemma QuietTrans(a: seq<Event>, b: seq<Event>, c: seq<Event>)
    requires Quiet(a, b) && Quiet(b, c)
    ensures Quiet(a, c)
  {
    assert c[..|a|] == b[..|a|];
  }

  lemma {:induction false} PasteRowQuiet(m: Machine, n: nat, x: int, y: int)
    ensures Quiet(m.log, PasteRow(m, n, x, y).log)
    decreases n
  {
    if n > 0 {
      var p := if m.screen.video then m.(log := m.log + [Paste(m.tile.block, x, y)]) else m;
      var q := p.(place := p.place.(lastX := p.place.lastX + 1));
      if q.place.lastX < q.place.sizeX {
        PasteRowQuiet(q, n - 1, x + 16, y);
      }
    }
  }

  lemma NextBlockQuiet(m: Machine, n: nat)
    requires Sized(m)
    ensures Quiet(m.log, NextBlock(m, n).log)
  {
    var t, p := m.tile, m.place;
    var clip := t.count != 0 && p.clipped > 0 && p.lastY == p.sizeY;
    var block := if clip then Clip(t.block, p.clipped) else t.block;
    PasteRowQuiet(m.(tile := Tile(block, 0, t.colour), next := 1), n, p.lastX * 16, p.lastY * 16);
  }

  /** The step that obeys firmware command 9. */
  ghost predicate Rekeys(m: Machine)
    requires CanStep(m)
  {
    m.state == 46 && Fetch(m).window.code == 0 && m.command.last == 9
  }

  lemma ActPaintSilent(f: Machine)
    requires Fetched(f) && Paints(f.state)
    ensures ActPaint(f).log == f.log
  {
    hide Dots, Or, Remap;
    var code := f.window.code;
    if 12 <= f.state <= 14 {
      DotsResult(WithCode(f, code + 2), code + 2);
      DotsResult(WithCode(f, code + 8), code + 8);
      DotsResult(f, code);
    }
  }

  lemma ActBlitQuiet(f: Machine)
    requires Fetched(f) && Blits(f.state)
    ensures Quiet(f.log, ActBlit(f).log)
  {
    var code := f.window.code;
    NextBlockQuiet(f, 1);
    NextBlockQuiet(WithCode(f, code + 2), code + 2);
    NextBlockQuiet(f, code);
  }

  function ControlEvents(f: Machine): seq<Event> {
    match f.state
    case 27 => [Repaint]
    case 38 => FatalEvents(f.clock.fatal)
    case 45 => if f.window.code == 0 then TextEvents(f.command) else []
    case 46 => if f.window.code == 0 then CommandEvents(f.command.last) else []
    case 47 => ModeEvents(f.place.sizeX * 16, f.place.sizeY * 16 + f.window.code)
    case _ => []
  }

  lemma ActControlLog(f: Machine)
    requires f.state == 45 ==> f.window.code < 256
    ensures ActControl(f).log == f.log + ControlEvents(f)
  {
    assert f.log + [] == f.log;
  }

  lemma ActQuiet(f: Machine)
    requires Fetched(f) && !(f.state == 46 && f.window.code == 0 && f.command.last == 9)
    requires f.state == 45 ==> f.window.code < 256
    ensures Quiet(f.log, Act(f).log)
  {
    if Paints(f.state) {
      ActPaintSilent(f);
    } else if Blits(f.state) {
      ActBlitQuiet(f);
    } else if Moves(f.state) {
      QuietAppend(f.log, [Repaint]);
    } else {
      ActControlLog(f);
      QuietAppend(f.log, ControlEvents(f));
    }
  }

  lemma FlushQuiet(a: Machine)
    requires Sized(a)
    ensures Quiet(a.log, Flush(a).log)
  {
    NextBlockQuiet(a, 1);
  }

  lemma RekeyStep(f: Machine)
    requires Fetched(f) && f.state == 46 && f.window.code == 0 && f.command.last == 9 && |f.window.bits| <= 7
    ensures var a := Act(f); a.log == f.log + [ChangeKey] && a.window.bits == [] && a.next == 1
  {
  }

  /** A key change happens only between the bits of one byte and the next: the step that asks for it leaves
      nothing pending, so it is the last step of its byte. */
  lemma RekeyAligned(m: Machine)
    requires Inv(m) && CanStep(m)
    ensures var (r, n) := Step(m);
      if Rekeys(m) then
        r.log == m.log + [ChangeKey] && n == 0 && r.window.bits == [] && r.state == 1
      else Quiet(m.log, r.log)
  {
    FetchOk(m);
    var f := Fetch(m);
    if m.state == 37 {
      QuietAppend(m.log, []);
      assert m.log + [] == m.log;
    } else {
      ActKeeps(f);
      if Rekeys(m) {
        RekeyStep(f);
      } else {
        ActQuiet(f);
        FlushQuiet(Act(f));
        QuietTrans(f.log, Act(f).log, Flush(Act(f)).log);
      }
    }
  }

  /** `log'` adds events to `log`, of which only the last may be a key change. */
  ghost predicate QuietButLast(log: seq<Event>, log': seq<Event>) {
    |log'| > 0 && log'[|log'| - 1] == ChangeKey && Quiet(log, log'[..|log'| - 1])
  }

  lemma QuietThenLast(a: seq<Event>, b: seq<Event>, c: seq<Event>)
    requires Quiet(a, b) && QuietButLast(b, c)
    ensures QuietButLast(a, c)
  {
    QuietTrans(a, b, c[..|c| - 1]);
  }

  lemma {:induction false} DrainRekeys(m: Machine)
    requires Inv(m)
    ensures var (r, n) := Drain(m);
      Quiet(m.log, r.log) || (n == 0 && r.window.bits == [] && QuietButLast(m.log, r.log))
    decreases Measure(m)
  {
    QuietAppend(m.log, []);
    assert m.log + [] == m.log;
    if CanStep(m) {
      StepKeeps(m);
      RekeyAligned(m);
      var (r, n) := Step(m);
      if Rekeys(m) {
        assert !CanStep(r) && Drain(r) == (r, 0);
        assert r.log[..|m.log|] == m.log;
      } else if n == 0 {
        DrainRekeys(r);
        var d := Drain(r).0;
        if Quiet(r.log, d.log) {
          QuietTrans(m.log, r.log, d.log);
        } else {
          QuietThenLast(m.log, r.log, d.log);
        }
      }
    }
  }

  /** A byte changes the key at most once, and then as its last event and with every one of its bits used up:
      all later bits come from bytes that arrive under the new key. */
  lemma ByteRekeys(m: Machine, c: byte)
    requires Rest(m)
    ensures var r := ProcessByte(m, c);
      Quiet(m.log, r.log) || (r.window.bits == [] && QuietButLast(m.log, r.log))
  {
    QuietAppend(m.log, []);
    assert m.log + [] == m.log;
    if !m.inhibit {
      BeginKeeps(m, c);
      DrainRekeys(Begin(m, c));
      var (r, n) := Drain(Begin(m, c));
      if n != 0 {
        QuietAppend(r.log, [RefreshScreen]);
        DrainKeeps(Begin(m, c));
        QuietTrans(m.log, r.log, r.log + [RefreshScreen]);
      }
    }
  }
}
