/** The TLS 1.0 record layer for a stream cipher suite: MAC, then encrypt with a keystream that never stops. */
module Record {
  import opened BitOps
  import opened Hash
  import opened Hmac
  import opened Options
  import opened Rc4

  const CHANGE_CIPHER_SPEC: byte := 20
  const ALERT: byte := 21
  const HANDSHAKE: byte := 22
  const APPLICATION_DATA: byte := 23

  const HEADER_LENGTH: nat := 5
  const MAX_PLAINTEXT: nat := 16384
  const MAX_CIPHERTEXT: nat := 18432
  const KEY_LENGTH: nat := 16

  type word16 = x: int | 0 <= x < 0x1_0000

  predicate ValidContentType(t: byte) {
    t == CHANGE_CIPHER_SPEC || t == ALERT || t == HANDSHAKE || t == APPLICATION_DATA
  }

  // ---- headers ----

  datatype RecordHeader = RecordHeader(contentType: byte, version: word16, length: nat)

  function HeaderBytes(t: byte, version: word16, len: nat): (r: seq<byte>)
    ensures |r| == HEADER_LENGTH
  {
    [t, version / 256, version % 256, len / 256 % 256, len % 256]
  }

  function ParseHeader(s: seq<byte>): Option<RecordHeader> {
    if |s| < HEADER_LENGTH then None
    else
      var len := (s[3] as int) * 256 + s[4];
      if len <= MAX_CIPHERTEXT then Some(RecordHeader(s[0], (s[1] as int) * 256 + s[2], len)) else None
  }

  lemma HeaderRoundTrip(t: byte, version: word16, len: nat, rest: seq<byte>)
    requires len <= MAX_CIPHERTEXT
    ensures ParseHeader(HeaderBytes(t, version, len) + rest) == Some(RecordHeader(t, version, len))
  {
    var s := HeaderBytes(t, version, len) + rest;
    assert s[0] == t && s[1] == version / 256 && s[2] == version % 256 && s[3] == len / 256 && s[4] == len % 256;
  }

  // ---- one direction of a connection ----

  /** The state shared by the writer of one direction and the reader at the other end: the cipher as it was
      keyed, and how much of its keystream has been used. */
  datatype Direction = Direction(active: bool, macKey: seq<byte>, start: Cipher, used: nat, number: nat)

  predicate DirectionOk(d: Direction) {
    |d.start.box| == 256
  }

  /** Before any cipher is on. */
  function NoKeys(): (d: Direction)
    ensures DirectionOk(d) && !d.active && d.number == 0
  {
    Direction(false, [], Keyed([]), 0, 0)
  }

  /** Combines data with the keystream from the current position on. */
  function CryptHere(d: Direction, data: seq<byte>): (r: seq<byte>)
    requires DirectionOk(d)
    ensures |r| == |data|
  {
    Crypt(After(d.start, d.used), data)
  }

  /** What the MAC covers: the implicit record number, the type, the version, the plaintext length and the
      plaintext. */
  function MacInput(number: nat, t: byte, version: word16, data: seq<byte>): seq<byte> {
    MacHeader(number, t, version, |data|) + data
  }

  function MacHeader(number: nat, t: byte, version: word16, len: nat): (r: seq<byte>)
    ensures |r| == 13
  {
    BigBytes(number, 8) + [t, version / 256, version % 256, len / 256 % 256, len % 256]
  }

  function RecordMac(h: Alg, d: Direction, t: byte, version: word16, data: seq<byte>): seq<byte> {
    Mac(h, d.macKey, MacInput(d.number, t, version, data))
  }

  function Advance(d: Direction, n: nat): Direction
  {
    d.(used := d.used + n, number := d.number + 1)
  }

  /** A fragment as it travels: in the clear, or with its MAC under the keystream. */
  function Seal(h: Alg, d: Direction, t: byte, version: word16, data: seq<byte>): (Direction, seq<byte>)
    requires DirectionOk(d)
  {
    if !d.active then (d.(number := d.number + 1), data)
    else
      var plain := data + RecordMac(h, d, t, version, data);
      (Advance(d, |plain|), CryptHere(d, plain))
  }

  /** A whole record, or nothing when the data is too long for one. */
  function ProtectOf(h: Alg, d: Direction, t: byte, version: word16, data: seq<byte>): Option<(Direction, seq<byte>)>
    requires DirectionOk(d)
  {
    if |data| > MAX_PLAINTEXT then None
    else
      var (d', fragment) := Seal(h, d, t, version, data);
      Some((d', HeaderBytes(t, version, |fragment|) + fragment))
  }

  /** The plaintext of a record body. A refused record may still have used up keystream. */
  function UnprotectOf(h: Alg, d: Direction, t: byte, version: word16, body: seq<byte>): (Direction, Option<seq<byte>>)
    requires DirectionOk(d)
  {
    if |body| > MAX_CIPHERTEXT then (d, None)
    else if !d.active then
      if |body| > MAX_PLAINTEXT then (d, None) else (d.(number := d.number + 1), Some(body))
    else if |body| < DigestSize(h) then (d, None)
    else
      var buf := CryptHere(d, body);
      var n := |body| - DigestSize(h);
      var used := d.(used := d.used + |body|);
      if n > MAX_PLAINTEXT then (used, None)
      else if RecordMac(h, d, t, version, buf[..n]) != buf[n..] then (used, None)
      else (Advance(d, |body|), Some(buf[..n]))
  }

  // ---- what one end seals, the other opens ----

  lemma RecordMacLength(h: Alg, d: Direction, t: byte, version: word16, data: seq<byte>)
    requires AlgOk(h)
    ensures |RecordMac(h, d, t, version, data)| == DigestSize(h)
  {
    MacLength(h, d.macKey, MacInput(d.number, t, version, data));
  }

  /** A reader in step with the writer recovers the data and stays in step. */
  lemma OpensWhatWasSealed(h: Alg, d: Direction, t: byte, version: word16, data: seq<byte>)
    requires AlgOk(h) && DirectionOk(d) && |data| <= MAX_PLAINTEXT && DigestSize(h) <= 2048
    ensures var (d', body) := Seal(h, d, t, version, data);
      && UnprotectOf(h, d, t, version, body) == (d', Some(data))
      && |body| <= MAX_CIPHERTEXT && DirectionOk(d')
  {
    if d.active {
      var mac := RecordMac(h, d, t, version, data);
      RecordMacLength(h, d, t, version, data);
      var plain := data + mac;
      CryptTwice(After(d.start, d.used), plain);
      assert plain[..|data|] == data && plain[|data|..] == mac;
    }
  }

  /** The only body a reader accepts as some plaintext is the one the writer makes from it. */
  lemma AcceptsOnlyTheSealed(h: Alg, d: Direction, t: byte, version: word16, body: seq<byte>)
    requires AlgOk(h) && DirectionOk(d)
    ensures var (d', data) := UnprotectOf(h, d, t, version, body);
      data.Some? ==> |data.value| <= MAX_PLAINTEXT && Seal(h, d, t, version, data.value) == (d', body)
  {
    if d.active && DigestSize(h) <= |body| <= MAX_CIPHERTEXT {
      var buf, n := CryptHere(d, body), |body| - DigestSize(h);
      CryptTwice(After(d.start, d.used), body);
      assert buf[..n] + buf[n..] == buf;
    }
  }

  // ---- runs ----

  datatype Message = Message(contentType: byte, data: seq<byte>)

  predicate Sendable(ms: seq<Message>) {
    forall i :: 0 <= i < |ms| ==> |ms[i].data| <= MAX_PLAINTEXT
  }

  /** The bodies of the records that carry a list of messages. */
  function SealAll(h: Alg, d: Direction, version: word16, ms: seq<Message>): (Direction, seq<seq<byte>>)
    requires DirectionOk(d)
    decreases |ms|
  {
    if ms == [] then (d, [])
    else
      var (d', body) := Seal(h, d, ms[0].contentType, version, ms[0].data);
      var (d'', bodies) := SealAll(h, d', version, ms[1..]);
      (d'', [body] + bodies)
  }

  /** The plaintexts a reader gets, stopping at the first record it refuses. */
  function OpenAll(h: Alg, d: Direction, version: word16, types: seq<byte>, bodies: seq<seq<byte>>)
    : (Direction, seq<seq<byte>>)
    requires DirectionOk(d) && |types| == |bodies|
    decreases |bodies|
  {
    if bodies == [] then (d, [])
    else
      var (d', data) := UnprotectOf(h, d, types[0], version, bodies[0]);
      if data.None? then (d', [])
      else
        var (d'', rest) := OpenAll(h, d', version, types[1..], bodies[1..]);
        (d'', [data.value] + rest)
  }

  function Types(ms: seq<Message>): (r: seq<byte>)
    ensures |r| == |ms|
  {
    seq(|ms|, i requires 0 <= i < |ms| => ms[i].contentType)
  }

  function Datas(ms: seq<Message>): (r: seq<seq<byte>>)
    ensures |r| == |ms|
  {
    seq(|ms|, i requires 0 <= i < |ms| => ms[i].data)
  }

  /** How much keystream a list of messages takes. */
  function StreamUsed(h: Alg, ms: seq<Message>): nat {
    if ms == [] then 0 else |ms[0].data| + DigestSize(h) + StreamUsed(h, ms[1..])
  }

  lemma SealCounts(h: Alg, d: Direction, t: byte, version: word16, data: seq<byte>)
    requires AlgOk(h) && DirectionOk(d)
    ensures var d' := Seal(h, d, t, version, data).0;
      && DirectionOk(d') && d'.active == d.active && d'.number == d.number + 1
      && d'.used == if d.active then d.used + |data| + DigestSize(h) else d.used
  {
    if d.active {
      RecordMacLength(h, d, t, version, data);
    }
  }

  /** Both ends count the records, and use keystream for every fragment and MAC. */
  lemma {:induction false} RunCounts(h: Alg, d: Direction, version: word16, ms: seq<Message>)
    requires AlgOk(h) && DirectionOk(d)
    ensures var w := SealAll(h, d, version, ms).0;
      && DirectionOk(w) && w.start == d.start && w.number == d.number + |ms|
      && w.used == if d.active then d.used + StreamUsed(h, ms) else d.used
    decreases |ms|
  {
    if ms != [] {
      var m := ms[0];
      SealCounts(h, d, m.contentType, version, m.data);
      RunCounts(h, Seal(h, d, m.contentType, version, m.data).0, version, ms[1..]);
    }
  }

  lemma OpenFirst(h: Alg, d: Direction, version: word16, t: byte, types: seq<byte>, data: seq<byte>,
                                     bodies: seq<seq<byte>>)
    requires AlgOk(h) && DigestSize(h) <= 2048 && DirectionOk(d) && |data| <= MAX_PLAINTEXT && |types| == |bodies|
    ensures var (d', body) := Seal(h, d, t, version, data);
      && DirectionOk(d')
      && var (d'', rest) := OpenAll(h, d', version, types, bodies);
         OpenAll(h, d, version, [t] + types, [body] + bodies) == (d'', [data] + rest)
  {
    OpensWhatWasSealed(h, d, t, version, data);
    var body := Seal(h, d, t, version, data).1;
    assert ([t] + types)[1..] == types && ([body] + bodies)[1..] == bodies;
  }

  /** Any number of messages: the reader accepts every record, gets the data back, and ends in the writer's
      state. */
  lemma {:induction false} RunInStep(h: Alg, d: Direction, version: word16, ms: seq<Message>)
    requires AlgOk(h) && DigestSize(h) <= 2048 && DirectionOk(d) && Sendable(ms)
    ensures var (w, bodies) := SealAll(h, d, version, ms);
      |bodies| == |ms| && OpenAll(h, d, version, Types(ms), bodies) == (w, Datas(ms))
    decreases |ms|
  {
    if ms != [] {
      var m := ms[0];
      var d' := Seal(h, d, m.contentType, version, m.data).0;
      SealCounts(h, d, m.contentType, version, m.data);
      RunInStep(h, d', version, ms[1..]);
      var bodies := SealAll(h, d', version, ms[1..]).1;
      OpenFirst(h, d, version, m.contentType, Types(ms[1..]), m.data, bodies);
      assert Types(ms) == [m.contentType] + Types(ms[1..]);
      assert Datas(ms) == [m.data] + Datas(ms[1..]);
    }
  }
}
