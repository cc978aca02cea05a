/** The remote console session: the trigger that starts video, decryption byte by byte, the key changes the video
    stream itself asks for, and the encrypted outbound stream. */
module RemoteSession {
  import opened BitOps
  import opened DvcBits
  import opened DvcDecoder
  import opened DvcMachine
  import DvcPalette
  import opened DvcRuns
  import opened Framing
  import opened Hash
  import opened Options
  import opened Rc4
  import opened Seqs

  const ESC: byte := 0x1B
  const BRACKET: byte := 0x5B
  const ENCRYPTED: byte := 0x52
  const CLEAR: byte := 0x72

  /** The command that names the key, with four spaces where the key's number goes. */
  const ANNOUNCEMENT: seq<byte> := [0xFF, 0xC0, 32, 32, 32, 32]

  // ---- keys ----

  /** The session key, the key derived from it, and where the cipher is. */
  datatype Key = Key(pre: seq<byte>, derived: seq<byte>, cipher: Cipher)

  predicate KeyOk(k: Option<Key>) {
    k.Some? ==> |k.value.cipher.box| == 256
  }

  function Seeded(md5: Alg, seed: seq<byte>): (k: Key)
    ensures |k.cipher.box| == 256
  {
    var d := Digest(md5, seed + ZeroBytes(16));
    Key(seed, d, Keyed(d))
  }

  /** The next key is the digest of the session key and the current one. */
  function Changed(md5: Alg, k: Option<Key>): (r: Option<Key>)
    requires KeyOk(k)
    ensures KeyOk(r) && (r.Some? <==> k.Some?)
  {
    if k.None? then None
    else
      var d := Digest(md5, k.value.pre + k.value.derived);
      Some(Key(k.value.pre, d, Keyed(d)))
  }

  /** One byte through a cipher, if there is one. It works in both directions. */
  function Through(k: Option<Key>, c: byte): (r: (Option<Key>, byte))
    requires KeyOk(k)
    ensures KeyOk(r.0) && (r.0.Some? <==> k.Some?)
  {
    if k.None? then (k, c)
    else
      var (next, v) := Next(k.value.cipher);
      (Some(k.value.(cipher := next)), Xor(c, v))
  }

  // ---- receiving ----

  /** The receiving side: how much of the trigger has been seen, whether video has started and is encrypted, both
      keys, and the decoder. */
  datatype Link = Link(esc: nat, video: bool, secure: bool, inbound: Option<Key>, outbound: Option<Key>,
                       decoder: Machine, raw: seq<byte>)

  ghost predicate LinkOk(s: Link) {
    KeyOk(s.inbound) && KeyOk(s.outbound) && Rest(s.decoder)
  }

  /** Looking for ESC [ R or ESC [ r. */
  function Watch(s: Link, c: byte): Link {
    if c == ESC then s.(esc := 1)
    else if s.esc == 1 && c == BRACKET then s.(esc := 2)
    else if s.esc == 2 && c == ENCRYPTED then s.(video := true, secure := true)
    else if s.esc == 2 && c == CLEAR then s.(video := true, secure := false)
    else s.(esc := 0)
  }

  /** Whether processing a byte ended in a request to change the keys. */
  predicate Asked(log: seq<Event>, log': seq<Event>) {
    |log'| > |log| && log'[|log'| - 1] == ChangeKey
  }

  ghost function Rekeyed(md5: Alg, s: Link): (r: Link)
    requires LinkOk(s)
    ensures LinkOk(r)
  {
    s.(inbound := Changed(md5, s.inbound), outbound := Changed(md5, s.outbound))
  }

  /** A decrypted video byte goes to the decoder; a key change it asks for concerns both directions. */
  ghost function Decode(md5: Alg, s: Link, c: byte): (r: Link)
    requires LinkOk(s)
    ensures LinkOk(r)
  {
    ProcessByteKeeps(s.decoder, c);
    var m := ProcessByte(s.decoder, c);
    var t := s.(decoder := m, raw := s.raw + [c]);
    if Asked(s.decoder.log, m.log) then Rekeyed(md5, t) else t
  }

  ghost function FeedByte(md5: Alg, s: Link, c: byte): (r: Link)
    requires LinkOk(s)
    ensures LinkOk(r)
  {
    if !s.video then Watch(s, c)
    else if s.secure then
      var (k, p) := Through(s.inbound, c);
      Decode(md5, s.(inbound := k), p)
    else Decode(md5, s, c)
  }

  ghost function Fed(md5: Alg, s: Link, data: seq<byte>): (r: Link)
    requires LinkOk(s)
    ensures LinkOk(r)
    decreases |data|
  {
    if data == [] then s else Fed(md5, FeedByte(md5, s, data[0]), data[1..])
  }

  /** How the bytes are cut into reads makes no difference. */
  lemma {:induction false} FedInPieces(md5: Alg, s: Link, a: seq<byte>, b: seq<byte>)
    requires LinkOk(s)
    ensures Fed(md5, s, a + b) == Fed(md5, Fed(md5, s, a), b)
    decreases |a|
  {
    hide FeedByte, LinkOk;
    if a == [] {
      AppendNil(b);
    } else {
      assert (a + b)[1..] == a[1..] + b;
      FedInPieces(md5, FeedByte(md5, s, a[0]), a[1..], b);
    }
  }

  // ---- the trigger ----

  predicate TriggerAt(s: seq<byte>, i: nat) {
    i + 2 < |s| && s[i] == ESC && s[i + 1] == BRACKET && (s[i + 2] == ENCRYPTED || s[i + 2] == CLEAR)
  }

  predicate NoTrigger(s: seq<byte>) {
    forall i: nat :: i < |s| ==> !TriggerAt(s, i)
  }

  /** How much of a trigger the bytes end with. */
  function EscOf(s: seq<byte>): nat {
    var n := |s|;
    if n >= 1 && s[n - 1] == ESC then 1 else if n >= 2 && s[n - 2] == ESC && s[n - 1] == BRACKET then 2 else 0
  }

  lemma FedOne(md5: Alg, s: Link, c: byte)
    requires LinkOk(s)
    ensures Fed(md5, s, [c]) == FeedByte(md5, s, c)
  {
    assert [c][1..] == [];
  }

  lemma WatchStep(s: Link, a: seq<byte>, c: byte)
    requires NoTrigger(a + [c])
    ensures NoTrigger(a) && Watch(s.(esc := EscOf(a)), c) == s.(esc := EscOf(a + [c]))
  {
    var n, b := |a|, a + [c];
    assert forall i: nat :: TriggerAt(a, i) ==> TriggerAt(b, i);
    if n >= 2 {
      assert !TriggerAt(b, n - 2) && b[n - 2] == a[n - 2] && b[n - 1] == a[n - 1] && b[n] == c;
    }
  }

  /** Before the trigger the state says exactly what the bytes so far end with. */
  lemma {:induction false} WatchesSuffix(md5: Alg, s: Link, a: seq<byte>)
    requires LinkOk(s) && !s.video && s.esc == 0 && NoTrigger(a)
    ensures Fed(md5, s, a) == s.(esc := EscOf(a))
    decreases |a|
  {
    hide Fed, Decode, Watch, EscOf, NoTrigger, Rest;
    if a != [] {
      var n := |a| - 1;
      assert a == a[..n] + [a[n]];
      WatchStep(s, a[..n], a[n]);
      WatchesSuffix(md5, s, a[..n]);
      FedInPieces(md5, s, a[..n], [a[n]]);
      FedOne(md5, Fed(md5, s, a[..n]), a[n]);
    } else {
      WatchesNothing(md5, s);
    }
  }

  lemma WatchesNothing(md5: Alg, s: Link)
    requires LinkOk(s)
    ensures Fed(md5, s, []) == s && EscOf([]) == 0
  {
  }

  /** Video starts at the first ESC [ R or ESC [ r, wherever it is and however it is cut into reads; the last letter
      says whether it is encrypted, and every later byte is video. */
  lemma VideoStartsAtTrigger(md5: Alg, s: Link, a: seq<byte>, c: byte, b: seq<byte>)
    requires LinkOk(s) && !s.video && s.esc == 0
    requires NoTrigger(a + [ESC, BRACKET]) && (c == ENCRYPTED || c == CLEAR)
    ensures Fed(md5, s, a + [ESC, BRACKET, c] + b) == Fed(md5, s.(esc := 2, video := true, secure := c == ENCRYPTED), b)
  {
    var head := a + [ESC, BRACKET];
    WatchesSuffix(md5, s, head);
    FedInPieces(md5, s, head, [c]);
    FedOne(md5, Fed(md5, s, head), c);
    assert head + [c] == a + [ESC, BRACKET, c];
    FedInPieces(md5, s, head + [c], b);
  }

  lemma NoTriggerNoVideo(md5: Alg, s: Link, a: seq<byte>)
    requires LinkOk(s) && !s.video && s.esc == 0 && NoTrigger(a)
    ensures !Fed(md5, s, a).video
  {
    WatchesSuffix(md5, s, a);
  }

  // ---- the two ends ----

  /** What the other end sends for some video: it encrypts byte by byte, and changes its key after the byte that asks
      for it. */
  ghost function Served(md5: Alg, k: Option<Key>, m: Machine, plain: seq<byte>): seq<byte>
    requires KeyOk(k) && Rest(m)
    decreases |plain|
  {
    if plain == [] then []
    else
      ProcessByteKeeps(m, plain[0]);
      var (k', c) := Through(k, plain[0]);
      var m' := ProcessByte(m, plain[0]);
      [c] + Served(md5, if Asked(m.log, m'.log) then Changed(md5, k') else k', m', plain[1..])
  }

  lemma ThroughTwice(k: Option<Key>, c: byte)
    requires KeyOk(k)
    ensures Through(k, Through(k, c).1) == (Through(k, c).0, c)
  {
    if k.Some? {
      XorCancel(c, Next(k.value.cipher).1);
    }
  }

  /** However often the video changes the key, both ends stay in step: the decoder gets exactly the bytes that were
      meant for it, every one decrypted under the key it was encrypted with. */
  lemma {:induction false} StaysInStep(md5: Alg, s: Link, plain: seq<byte>)
    requires LinkOk(s) && s.video && s.secure
    ensures var r := Fed(md5, s, Served(md5, s.inbound, s.decoder, plain));
      r.decoder == Run(s.decoder, plain) && r.raw == s.raw + plain && r.video && r.secure
    decreases |plain|
  {
    hide ProcessByte, Rest, Through, Changed;
    if plain == [] {
      AppendNil(s.raw);
    } else {
      ProcessByteKeeps(s.decoder, plain[0]);
      ThroughTwice(s.inbound, plain[0]);
      var sent := Served(md5, s.inbound, s.decoder, plain);
      var t := FeedByte(md5, s, sent[0]);
      assert sent[1..] == Served(md5, t.inbound, t.decoder, plain[1..]);
      StaysInStep(md5, t, plain[1..]);
      Assoc(s.raw, [plain[0]], plain[1..]);
      assert [plain[0]] + plain[1..] == plain;
    }
  }

  /** A request to change the keys is always the last thing a byte does, and it leaves no bit undecoded; so `Asked`
      misses none, and no bit decrypted under the old key is ever joined with one decrypted under the new. */
  lemma AskedMeans(m: Machine, c: byte)
    requires Rest(m)
    ensures var r := (ProcessByteKeeps(m, c); ProcessByte(m, c));
      && |m.log| <= |r.log| && r.log[..|m.log|] == m.log
      && (Asked(m.log, r.log) <==> ChangeKey in r.log[|m.log|..])
      && (Asked(m.log, r.log) ==> r.window.bits == [] && ChangeKey !in r.log[|m.log|..|r.log| - 1])
  {
    ByteRekeys(m, c);
    var r := ProcessByte(m, c);
    if Quiet(m.log, r.log) {
      assert forall i :: 0 <= i < |r.log| - |m.log| ==> r.log[|m.log|..][i] == r.log[|m.log| + i];
    } else {
      var l := r.log[..|r.log| - 1];
      assert r.log[..|m.log|] == l[..|m.log|];
      assert r.log[|m.log|..][|r.log| - 1 - |m.log|] == ChangeKey;
      assert forall i :: |m.log| <= i < |l| ==> r.log[i] == l[i];
    }
  }

  // ---- sending ----

  /** What goes out for one packet. The first one announces the key: its first two bytes and the key's number, which
      takes the place of the next four, are in the clear. */
  function Packet(k: Key, announce: bool, index: nat, s: seq<byte>): (r: (Key, seq<byte>))
    requires |k.cipher.box| == 256 && (announce ==> |s| >= 6)
    ensures |r.0.cipher.box| == 256
  {
    var clear := if announce then s[..2] + BigBytes(index, 4) else [];
    var body := s[|clear|..];
    (k.(cipher := After(k.cipher, |body|)), clear + Crypt(k.cipher, body))
  }

  function Packets(k: Key, announce: bool, index: nat, ss: seq<seq<byte>>): seq<byte>
    requires |k.cipher.box| == 256 && (announce ==> ss == [] || |ss[0]| >= 6)
    decreases |ss|
  {
    if ss == [] then []
    else
      var (k', out) := Packet(k, announce, index, ss[0]);
      out + Packets(k', false, index, ss[1..])
  }

  lemma {:induction false} LaterPackets(k: Key, index: nat, ss: seq<seq<byte>>)
    requires |k.cipher.box| == 256
    ensures Packets(k, false, index, ss) == Crypt(k.cipher, Joined(ss))
    decreases |ss|
  {
    hide Crypt, After;
    if ss == [] {
      assert |Crypt(k.cipher, [])| == 0;
    } else {
      assert ss[0][0..] == ss[0];
      AppendNil(Crypt(k.cipher, ss[0]));
      LaterPackets(Packet(k, false, index, ss[0]).0, index, ss[1..]);
      CryptSplit(k.cipher, ss[0], Joined(ss[1..]));
    }
  }

  /** After the six bytes that announce the key, all packets together are one stream under one keystream: the other
      end needs no packet boundaries to decrypt them. */
  lemma OneKeystream(k: Key, index: nat, ss: seq<seq<byte>>)
    requires |k.cipher.box| == 256 && ss != [] && |ss[0]| >= 6
    ensures var out := Packets(k, true, index, ss);
      && |out| == |Joined(ss)| && |out| >= 6
      && out[..6] == ss[0][..2] + BigBytes(index, 4)
      && Crypt(k.cipher, out[6..]) == Joined(ss)[6..]
  {
    hide Crypt, After;
    var head, body, more := ss[0][..2] + BigBytes(index, 4), ss[0][6..], Joined(ss[1..]);
    LaterPackets(Packet(k, true, index, ss[0]).0, index, ss[1..]);
    CryptSplit(k.cipher, body, more);
    CryptTwice(k.cipher, body + more);
    var out := Packets(k, true, index, ss);
    assert out == head + (Crypt(k.cipher, body) + Crypt(After(k.cipher, |body|), more));
    assert out[6..] == Crypt(k.cipher, body + more);
    assert Joined(ss)[6..] == body + more;
  }

  // ---- the outbound stream across key changes ----

  /** What the client does to the outbound direction. */
  datatype Outgoing = Say(packet: seq<byte>) | NewKey

  /** The stream as it leaves: its bytes, and the points at which the key changes. Packet boundaries leave no trace. */
  datatype Mark = Octet(value: byte) | Switch

  function Octets(s: seq<byte>): (r: seq<Mark>)
    ensures |r| == |s|
  {
    seq(|s|, i requires 0 <= i < |s| => Octet(s[i]))
  }

  /** Only the first packet is announced, and it is long enough for that. */
  predicate Announceable(announce: bool, ops: seq<Outgoing>) {
    announce && ops != [] ==>
      if ops[0].Say? then |ops[0].packet| >= 6 else Announceable(announce, ops[1..])
  }

  function Renewed(md5: Alg, k: Key): (r: Key)
    requires |k.cipher.box| == 256
    ensures |r.cipher.box| == 256 && Changed(md5, Some(k)) == Some(r)
  {
    Changed(md5, Some(k)).value
  }

  function Leaving(md5: Alg, k: Key, announce: bool, index: nat, ops: seq<Outgoing>): seq<Mark>
    requires |k.cipher.box| == 256 && Announceable(announce, ops)
    decreases |ops|
  {
    if ops == [] then []
    else
      match ops[0]
      case Say(packet) =>
        var (k', out) := Packet(k, announce, index, packet);
        Octets(out) + Leaving(md5, k', false, index, ops[1..])
      case NewKey => [Switch] + Leaving(md5, Renewed(md5, k), announce, index, ops[1..])
  }

  /** The other end: it takes the first `skip` bytes as they are, decrypts the rest one by one, and changes its key
      where the client did. */
  function Heard(md5: Alg, k: Key, skip: nat, marks: seq<Mark>): seq<byte>
    requires |k.cipher.box| == 256
    decreases |marks|
  {
    if marks == [] then []
    else
      match marks[0]
      case Switch => Heard(md5, Renewed(md5, k), skip, marks[1..])
      case Octet(c) =>
        if skip > 0 then [c] + Heard(md5, k, skip - 1, marks[1..])
        else
          var (k', p) := Through(Some(k), c);
          [p] + Heard(md5, k'.value, 0, marks[1..])
  }

  /** What was said, with the key's number where the announcement puts it. */
  function Said(announce: bool, index: nat, ops: seq<Outgoing>): seq<byte>
    requires Announceable(announce, ops)
    decreases |ops|
  {
    if ops == [] then []
    else
      match ops[0]
      case Say(packet) =>
        (if announce then packet[..2] + BigBytes(index, 4) + packet[6..] else packet) + Said(false, index, ops[1..])
      case NewKey => Said(announce, index, ops[1..])
  }

  lemma OctetsFirst(s: seq<byte>, rest: seq<Mark>)
    requires s != []
    ensures Octets(s) + rest == [Octet(s[0])] + (Octets(s[1..]) + rest)
  {
  }

  lemma OctetsAppend(a: seq<byte>, b: seq<byte>, rest: seq<Mark>)
    ensures Octets(a + b) + rest == Octets(a) + (Octets(b) + rest)
  {
  }

  /** Bytes in the clear are heard as they are. */
  lemma {:induction false} HearsClear(md5: Alg, k: Key, s: seq<byte>, rest: seq<Mark>)
    requires |k.cipher.box| == 256
    ensures Heard(md5, k, |s|, Octets(s) + rest) == s + Heard(md5, k, 0, rest)
    decreases |s|
  {
    hide Through, Changed;
    if s == [] {
      AppendNil(rest);
      AppendNil(Heard(md5, k, 0, rest));
    } else {
      OctetsFirst(s, rest);
      HearsClear(md5, k, s[1..], rest);
      Assoc([s[0]], s[1..], Heard(md5, k, 0, rest));
    }
  }

  lemma CryptFirst(c: Cipher, s: seq<byte>)
    requires |c.box| == 256 && s != []
    ensures Crypt(c, s)[0] == Xor(s[0], Next(c).1)
    ensures Crypt(c, s)[1..] == Crypt(Next(c).0, s[1..])
  {
    hide Next, Xor;
    assert Keystream(c, |s|) == [Next(c).1] + Keystream(Next(c).0, |s| - 1);
  }

  lemma HearsOne(md5: Alg, k: Key, c: byte, rest: seq<Mark>)
    requires |k.cipher.box| == 256
    ensures var (next, v) := Next(k.cipher);
      Heard(md5, k, 0, [Octet(Xor(c, v))] + rest) == [c] + Heard(md5, k.(cipher := next), 0, rest)
  {
    hide Next, Xor;
    var (next, v) := Next(k.cipher);
    XorCancel(c, v);
    assert ([Octet(Xor(c, v))] + rest)[1..] == rest;
  }

  /** Encrypted bytes are heard as what was encrypted, and leave the other end where the client is. */
  lemma {:induction false} HearsSecret(md5: Alg, k: Key, s: seq<byte>, rest: seq<Mark>)
    requires |k.cipher.box| == 256
    ensures Heard(md5, k, 0, Octets(Crypt(k.cipher, s)) + rest) ==
      s + Heard(md5, k.(cipher := After(k.cipher, |s|)), 0, rest)
    decreases |s|
  {
    hide Next, Xor, Crypt, Heard;
    if s == [] {
      AppendNil(rest);
      AppendNil(Heard(md5, k, 0, rest));
    } else {
      var out := Crypt(k.cipher, s);
      CryptFirst(k.cipher, s);
      OctetsFirst(out, rest);
      HearsOne(md5, k, s[0], Octets(out[1..]) + rest);
      var next := k.(cipher := Next(k.cipher).0);
      HearsSecret(md5, next, s[1..], rest);
      Assoc([s[0]], s[1..], Heard(md5, k.(cipher := After(k.cipher, |s|)), 0, rest));
    }
  }

  lemma HearsPacket(md5: Alg, k: Key, announce: bool, index: nat, s: seq<byte>, rest: seq<Mark>)
    requires |k.cipher.box| == 256 && (announce ==> |s| >= 6)
    ensures var (k', out) := Packet(k, announce, index, s);
      Heard(md5, k, if announce then 6 else 0, Octets(out) + rest) ==
        (if announce then s[..2] + BigBytes(index, 4) + s[6..] else s) + Heard(md5, k', 0, rest)
  {
    hide Heard, Crypt, After;
    if announce {
      var clear, body := s[..2] + BigBytes(index, 4), s[6..];
      OctetsAppend(clear, Crypt(k.cipher, body), rest);
      HearsClear(md5, k, clear, Octets(Crypt(k.cipher, body)) + rest);
      HearsSecret(md5, k, body, rest);
      Assoc(clear, body, Heard(md5, Packet(k, announce, index, s).0, 0, rest));
    } else {
      assert s[0..] == s;
      AppendNil(Crypt(k.cipher, s));
      HearsSecret(md5, k, s, rest);
    }
  }

  /** However packets and key changes follow each other, an end that changes its key at the same points of the stream
      hears exactly what was said, and needs no packet boundaries for it. */
  lemma {:induction false} OutboundStaysInStep(md5: Alg, k: Key, announce: bool, index: nat, ops: seq<Outgoing>)
    requires |k.cipher.box| == 256 && Announceable(announce, ops)
    ensures Heard(md5, k, if announce then 6 else 0, Leaving(md5, k, announce, index, ops)) ==
      Said(announce, index, ops)
    decreases |ops|
  {
    hide Packet, Octets, Changed;
    if ops != [] {
      match ops[0]
      case Say(packet) =>
        var k' := Packet(k, announce, index, packet).0;
        HearsPacket(md5, k, announce, index, packet, Leaving(md5, k', false, index, ops[1..]));
        OutboundStaysInStep(md5, k', false, index, ops[1..]);
      case NewKey =>
        var rest := Leaving(md5, Renewed(md5, k), announce, index, ops[1..]);
        assert ([Switch] + rest)[1..] == rest;
        OutboundStaysInStep(md5, Renewed(md5, k), announce, index, ops[1..]);
    }
  }

  // ---- the session as it runs ----

  class Session {
    const md5: Alg
    const decoder: Decoder
    var decrypter: RC4?
    var encrypter: RC4?
    var esc: nat
    var video: bool
    var secure: bool
    var raw: seq<byte>
    var encrypting: bool
    var announcing: bool
    var keyIndex: nat
    var connected: bool
    var sent: seq<byte>

    ghost predicate Valid()
      reads this, decoder.Footprint(), decoder.remap, decoder.bits.reversal, decoder.bits.left, decoder.bits.right
      reads Boxes()
    {
      && AlgOk(md5) && DigestSize(md5) == 16
      && Apart()
      && decoder.Valid() && Rest(decoder.Model())
      && (decrypter != null ==> decrypter.Valid())
      && (encrypter != null ==> encrypter.Valid())
    }

    ghost function Boxes(): set<object>
      reads this
    {
      (if decrypter == null then {} else {decrypter, decrypter.box}) +
      (if encrypter == null then {} else {encrypter, encrypter.box})
    }

    /** The ciphers are two, and share nothing with the decoder. */
    ghost predicate Apart()
      reads this
    {
      && (decrypter != null ==> decrypter.box.Length == 256)
      && (encrypter != null ==> encrypter.box.Length == 256)
      && (decrypter != null && encrypter != null ==> decrypter != encrypter && decrypter.box != encrypter.box)
      && Boxes() !! decoder.Footprint() && this !in Boxes() && this !in decoder.Footprint()
      && decoder.remap !in Boxes() && decoder.bits.reversal !in Boxes()
      && decoder.bits.left !in Boxes() && decoder.bits.right !in Boxes()
      && decoder.nextOnOne.Length == 48
    }

    static ghost function KeyOf(r: RC4?): Option<Key>
      reads r, if r == null then {} else {r.box}
    {
      if r == null then None else Some(Key(r.pre, r.key, r.Model()))
    }

    ghost function Model(): Link
      requires decoder.nextOnOne.Length == 48
      reads this, decoder.Footprint(), Boxes()
    {
      Link(esc, video, secure, KeyOf(decrypter), KeyOf(encrypter), decoder.Model(), raw)
    }

    constructor (md5: Alg)
      requires AlgOk(md5) && DigestSize(md5) == 16
      ensures Valid() && Model() == Link(0, false, false, None, None, INITIAL, []) && this.md5 == md5
      ensures !connected && !encrypting && !announcing && sent == []
      ensures fresh(decoder.Footprint())
    {
      hide BitReader.Valid, DvcPalette.DvcCache.Valid;
      this.md5 := md5;
      decoder := new Decoder();
      decrypter, encrypter := null, null;
      esc, video, secure, raw := 0, false, false, [];
      encrypting, announcing, keyIndex, connected, sent := false, false, 0, false, [];
      InitialRests();
    }

    method ChangeOutbound()
      requires Valid()
      modifies Boxes()
      ensures Valid() && Model() == old(Model()).(outbound := Changed(md5, old(Model()).outbound))
    {
      hide Decoder.Valid, Decoder.Model, RC4.Valid, Rest;
      if encrypter != null {
        encrypter.UpdateKey(md5);
      }
    }

    method ChangeInbound()
      requires Valid()
      modifies Boxes()
      ensures Valid() && Model() == old(Model()).(inbound := Changed(md5, old(Model()).inbound))
    {
      hide Decoder.Valid, Decoder.Model, RC4.Valid, Rest;
      if decrypter != null {
        decrypter.UpdateKey(md5);
      }
    }

    /** Both directions take their next keys. */
    method ChangeKey()
      requires Valid()
      modifies Boxes()
      ensures Valid() && LinkOk(old(Model())) && Model() == Rekeyed(md5, old(Model()))
    {
      hide Decoder.Valid, Decoder.Model, Rest, Changed, KeyOf;
      LinkIsOk();
      ChangeOutbound();
      ChangeInbound();
    }

    lemma LinkIsOk()
      requires Valid()
      ensures LinkOk(Model())
    {
      hide Decoder.Valid, Rest;
    }

    // ---- receiving ----

    /** Up to the trigger. */
    method WatchFor(c: byte)
      requires Valid()
      modifies this`esc, this`video, this`secure
      ensures Valid() && Model() == Watch(old(Model()), c)
    {
      hide Decoder.Valid, Decoder.Model, RC4.Valid, Rest, KeyOf;
      if c == ESC {
        esc := 1;
      } else if esc == 1 && c == BRACKET {
        esc := 2;
      } else if esc == 2 && c == ENCRYPTED {
        video, secure := true, true;
      } else if esc == 2 && c == CLEAR {
        video, secure := true, false;
      } else {
        esc := 0;
      }
    }

    method Decrypt(c: byte) returns (p: byte)
      requires Valid()
      modifies Boxes()
      ensures Valid() && KeyOk(old(Model()).inbound)
      ensures var (k, v) := Through(old(Model()).inbound, c);
        p == v && Model() == old(Model()).(inbound := k)
    {
      hide Decoder.Valid, Decoder.Model, RC4.Valid, Rest, Next, Xor;
      p := c;
      if decrypter != null {
        var k := decrypter.RandomValue();
        p := Xor(c, k);
      }
    }

    /** The decoder, before any key change it asks for. */
    method ProcessVideo(c: byte) returns (asked: bool)
      requires Valid()
      modifies this`raw, this`video, decoder.Footprint()
      ensures Valid() && Rest(old(decoder.Model()))
      ensures var m := ProcessByte(old(decoder.Model()), c);
        && asked == Asked(old(decoder.Model()).log, m.log)
        && Model() == old(Model()).(video := true, decoder := m, raw := old(raw) + [c])
    {
      hide BitReader.Valid, DvcPalette.DvcCache.Valid, RC4.Valid, Rest, ProcessByte;
      var n := |decoder.log|;
      raw := raw + [c];
      video := decoder.ProcessDvc(c);
      asked := |decoder.log| > n && decoder.log[|decoder.log| - 1] == Event.ChangeKey;
    }

    method DecodeByte(c: byte)
      requires Valid() && video
      modifies this`raw, this`video, decoder.Footprint(), Boxes()
      ensures Valid() && LinkOk(old(Model())) && Model() == Decode(md5, old(Model()), c)
    {
      hide Decoder.Valid, Decoder.Model, RC4.Valid, Rest, ProcessByte, Rekeyed;
      LinkIsOk();
      var asked := ProcessVideo(c);
      if asked {
        ChangeKey();
      }
    }

    method FeedOne(c: byte)
      requires Valid()
      modifies this`esc, this`video, this`secure, this`raw, decoder.Footprint(), Boxes()
      ensures Valid() && LinkOk(old(Model())) && Model() == FeedByte(md5, old(Model()), c)
      ensures decrypter == old(decrypter) && encrypter == old(encrypter)
    {
      hide Decoder.Valid, Decoder.Model, RC4.Valid, Rest, Decode, Through, Watch, KeyOf;
      LinkIsOk();
      if video {
        var p := c;
        if secure {
          p := Decrypt(c);
        }
        DecodeByte(p);
      } else {
        WatchFor(c);
      }
    }

    /** Whatever one read returned. */
    method Feed(data: seq<byte>)
      requires Valid()
      modifies this`esc, this`video, this`secure, this`raw, decoder.Footprint(), Boxes()
      ensures Valid() && LinkOk(old(Model())) && Model() == Fed(md5, old(Model()), data)
      ensures Boxes() == old(Boxes())
    {
      hide Decoder.Valid, Decoder.Model, RC4.Valid, Rest, FeedByte, KeyOf;
      LinkIsOk();
      ghost var due := Fed(md5, Model(), data);
      var k := 0;
      assert data[0..] == data;
      while k < |data|
        invariant 0 <= k <= |data| && Valid() && LinkOk(Model()) && Fed(md5, Model(), data[k..]) == due
        invariant Boxes() == old(Boxes())
      {
        assert data[k..][1..] == data[k + 1..];
        FeedOne(data[k]);
        LinkIsOk();
        k := k + 1;
      }
    }

    // ---- sending ----

    /** A cipher that is not in use here yet. */
    ghost predicate Unused(r: RC4)
      reads this, r
    {
      && r !in Boxes() && r.box !in Boxes() && r !in decoder.Footprint() && r.box !in decoder.Footprint()
      && {r, r.box} !! {decoder.remap, decoder.bits.reversal, decoder.bits.left, decoder.bits.right}
      && r.box.Length == 256
    }

    static method NewCipher(md5: Alg, key: seq<byte>) returns (r: RC4)
      requires AlgOk(md5) && DigestSize(md5) == 16
      ensures fresh(r) && fresh(r.box) && r.Valid() && r.box.Length == 256 && KeyOf(r) == Some(Seeded(md5, key))
    {
      r := new RC4.FromSeed(md5, key);
    }

    method UseDecrypter(r: RC4)
      requires Valid() && r.Valid() && Unused(r)
      modifies this`decrypter
      ensures Valid() && Model() == old(Model()).(inbound := KeyOf(r)) && decrypter == r
    {
      hide Decoder.Valid, Decoder.Model, Rest, RC4.Valid;
      decrypter := r;
    }

    method UseEncrypter(r: RC4)
      requires Valid() && r.Valid() && Unused(r)
      modifies this`encrypter
      ensures Valid() && Model() == old(Model()).(outbound := KeyOf(r)) && encrypter == r
    {
      hide Decoder.Valid, Decoder.Model, Rest, RC4.Valid;
      encrypter := r;
    }

    method SetupDecryption(key: seq<byte>)
      requires Valid()
      modifies this`decrypter
      ensures Valid() && Model() == old(Model()).(inbound := Some(Seeded(md5, key)))
      ensures fresh(Boxes() - old(Boxes()))
    {
      hide Decoder.Valid, Decoder.Model, Rest, RC4.Valid, KeyOf, Seeded;
      var r := NewCipher(md5, key);
      UseDecrypter(r);
    }

    /** The outbound direction has a keystream of its own. */
    method SetupEncryption(key: seq<byte>, index: nat)
      requires Valid()
      modifies this`encrypter, this`keyIndex
      ensures Valid() && Model() == old(Model()).(outbound := Some(Seeded(md5, key))) && keyIndex == index
      ensures fresh(Boxes() - old(Boxes()))
    {
      hide Decoder.Valid, Decoder.Model, Rest, RC4.Valid, KeyOf, Seeded;
      var r := NewCipher(md5, key);
      keyIndex := index;
      UseEncrypter(r);
    }

    method Encrypt(body: seq<byte>) returns (out: seq<byte>)
      requires Valid() && encrypter != null
      modifies Boxes()
      ensures Valid() && KeyOk(old(Model()).outbound) && old(Model()).outbound.Some?
      ensures var k := old(Model()).outbound.value;
        && out == Crypt(k.cipher, body)
        && Model() == old(Model()).(outbound := Some(k.(cipher := After(k.cipher, |body|))))
    {
      hide Decoder.Valid, Decoder.Model, Rest, RC4.Valid, Crypt, After, Next;
      ghost var k := KeyOf(encrypter).value;
      out := EncryptAll(encrypter, body);
    }

    /** The loop over the bytes of a packet. */
    static method EncryptAll(cipher: RC4, body: seq<byte>) returns (out: seq<byte>)
      requires cipher.Valid()
      modifies cipher`i, cipher`j, cipher.box
      ensures cipher.Valid() && cipher.Model() == After(old(cipher.Model()), |body|)
      ensures out == Crypt(old(cipher.Model()), body)
    {
      hide Next, Keystream, CipherOk, Xor;
      ghost var c := cipher.Model();
      out := [];
      for i := 0 to |body|
        invariant cipher.Valid() && cipher.Model() == After(c, i) && |out| == i
        invariant forall m :: 0 <= m < i ==> out[m] == Crypt(c, body)[m]
      {
        var v := cipher.RandomValue();
        KeystreamAt(c, i, |body|);
        out := out + [Xor(body[i], v)];
      }
    }

    /** A packet under the outbound keystream, with the announcement in front of the first. */
    method TransmitSecret(s: seq<byte>)
      requires Valid() && encrypter != null && (announcing ==> |s| >= 6)
      modifies this`announcing, this`sent, Boxes()
      ensures Valid() && KeyOk(old(Model()).outbound) && old(Model()).outbound.Some? && !announcing
      ensures var (k, out) := Packet(old(Model()).outbound.value, old(announcing), keyIndex, s);
        sent == old(sent) + Delivered(out) && Model() == old(Model()).(outbound := Some(k))
    {
      hide Decoder.Valid, Decoder.Model, Rest, RC4.Valid, Crypt, After, BigBytes;
      var clear := Announce(s);
      var body := Encrypt(s[|clear|..]);
      Emit(clear + body);
    }

    /** The bytes of a packet that go out in the clear. */
    method Announce(s: seq<byte>) returns (clear: seq<byte>)
      requires Valid() && (announcing ==> |s| >= 6)
      modifies this`announcing
      ensures Valid() && Model() == old(Model()) && !announcing
      ensures clear == if old(announcing) then s[..2] + BigBytes(keyIndex, 4) else []
    {
      hide Decoder.Valid, Decoder.Model, Rest, RC4.Valid, BigBytes;
      clear := [];
      if announcing {
        clear := Announcement(s, keyIndex);
        announcing := false;
      }
    }

    /** What gets out: without a connection, nothing does. */
    function Delivered(out: seq<byte>): seq<byte>
      reads this`connected
    {
      if connected then out else []
    }

    method Emit(out: seq<byte>)
      requires Valid()
      modifies this`sent
      ensures Valid() && Model() == old(Model()) && sent == old(sent) + Delivered(out)
    {
      hide Decoder.Valid, Decoder.Model, Rest, RC4.Valid;
      sent := sent + Delivered(out);
    }

    /** Nothing is encrypted until the session has been connected with a key. A packet that goes nowhere still uses up
        its keystream and the announcement. */
    method Transmit(s: seq<byte>)
      requires Valid() && (announcing && encrypting && encrypter != null ==> s == [] || |s| >= 6)
      modifies this`announcing, this`sent, Boxes()
      ensures Valid()
      ensures s == [] || !encrypting || encrypter == null ==>
        sent == old(sent) + Delivered(s) && announcing == old(announcing) && Model() == old(Model())
      ensures s != [] && encrypting && encrypter != null ==>
        && KeyOk(old(Model()).outbound) && old(Model()).outbound.Some? && !announcing
        && var (k, out) := Packet(old(Model()).outbound.value, old(announcing), keyIndex, s);
           sent == old(sent) + Delivered(out) && Model() == old(Model()).(outbound := Some(k))
    {
      hide Decoder.Valid, Decoder.Model, Rest, RC4.Valid, KeyOf;
      if s == [] {
        AppendNil(sent);
      } else if encrypting && encrypter != null {
        TransmitSecret(s);
      } else {
        Emit(s);
      }
    }

    /** What every attempt to connect does first: with a key to decrypt with, the next packet will be announced and
        encrypted, also when there is a connection already. */
    method Arm()
      requires Valid()
      modifies this`encrypting, this`announcing
      ensures Valid() && Model() == old(Model())
      ensures encrypting == (old(encrypting) || decrypter != null)
      ensures announcing == (old(announcing) || decrypter != null)
    {
      hide Decoder.Valid, Decoder.Model, Rest, RC4.Valid;
      if decrypter != null {
        encrypting, announcing := true, true;
      }
    }

    function Token(login: seq<byte>): seq<byte>
      reads this`decrypter
    {
      if decrypter != null then ANNOUNCEMENT + login else login
    }

    /** Connects if the host can be reached and there is no connection yet, and then sends the login token: announced
        when there is a key to decrypt with, and encrypted when there is one to encrypt with as well. */
    method Connect(login: seq<byte>, reachable: bool) returns (ok: bool)
      requires Valid()
      requires !connected && reachable && decrypter == null && announcing && encrypting && encrypter != null ==>
        login == [] || |login| >= 6
      modifies this`encrypting, this`announcing, this`connected, this`sent, Boxes()
      ensures Valid() && ok == connected == (old(connected) || reachable)
      ensures encrypting == (old(encrypting) || decrypter != null)
      ensures var token, announce := Token(login), old(announcing) || decrypter != null;
        if old(connected) || !reachable then
          sent == old(sent) && announcing == announce && Model() == old(Model())
        else if token == [] || !encrypting || encrypter == null then
          sent == old(sent) + token && announcing == announce && Model() == old(Model())
        else
          && KeyOk(old(Model()).outbound) && old(Model()).outbound.Some? && !announcing
          && var (k, out) := Packet(old(Model()).outbound.value, announce, keyIndex, token);
             sent == old(sent) + out && Model() == old(Model()).(outbound := Some(k))
    {
      hide Decoder.Valid, Decoder.Model, Rest, RC4.Valid, KeyOf, Packet;
      Arm();
      if connected {
        return true;
      }
      if !reachable {
        return false;
      }
      GoOnline();
      Transmit(Token(login));
      return true;
    }

    method GoOnline()
      requires Valid()
      modifies this`connected
      ensures Valid() && Model() == old(Model()) && connected
    {
      hide Decoder.Valid, Decoder.Model, Rest, RC4.Valid;
      connected := true;
    }

    /** Without a connection the video is not decrypted; keys and keystreams stay as they are. */
    method Disconnect()
      requires Valid()
      modifies this`connected, this`secure
      ensures Valid() && !connected
      ensures Model() == if old(connected) then old(Model()).(secure := false) else old(Model())
    {
      hide Decoder.Valid, Decoder.Model, Rest, RC4.Valid;
      if connected {
        connected, secure := false, false;
      }
    }
  }

  /** The first six bytes of the first packet. */
  method Announcement(s: seq<byte>, index: nat) returns (r: seq<byte>)
    requires |s| >= 6
    ensures r == s[..2] + BigBytes(index, 4)
  {
    FourBytes(index);
    r := [s[0], s[1], index / 0x100_0000 % 256, index / 0x1_0000 % 256, index / 256 % 256, index % 256];
  }

  lemma FourBytes(n: nat)
    ensures BigBytes(n, 4) == [n / 0x100_0000 % 256, n / 0x1_0000 % 256, n / 256 % 256, n % 256]
  {
    assert BigBytes(n / 0x100_0000, 1) == BigBytes(n / 0x100_0000 / 256, 0) + [n / 0x100_0000 % 256];
    assert BigBytes(n / 0x1_0000, 2) == BigBytes(n / 0x1_0000 / 256, 1) + [n / 0x1_0000 % 256];
    assert BigBytes(n / 256, 3) == BigBytes(n / 256 / 256, 2) + [n / 256 % 256];
    assert n / 0x1_0000 / 256 == n / 0x100_0000 && n / 256 / 256 == n / 0x1_0000;
  }
}
