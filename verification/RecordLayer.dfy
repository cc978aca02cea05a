/** The record layer as objects: each direction owns a MAC and a cipher that live as long as its keys. */
module RecordLayer {
  import opened BitOps
  import opened Hash
  import opened Hmac
  import opened Options
  import opened Rc4
  import opened Record
  import opened Seqs

  /** One direction: the MAC object, the cipher once there is one, and the record number. */
  class Side {
    const h: Alg
    const mac: HMAC
    var rc4: RC4?
    var active: bool
    var number: nat
    /** The cipher as it was keyed, how far it has gone, and the key of the MAC. */
    ghost var start: Cipher
    ghost var used: nat
    ghost var macKey: seq<byte>
    ghost var repr: set<object>

    ghost predicate Valid()
      reads this, repr
    {
      && this in repr && mac in repr && mac.inner in repr && mac.inner.buffer in repr
      && (rc4 != null ==> rc4 in repr && rc4.box in repr)
      && AlgOk(h) && mac.h == h && mac.Valid() && mac.message == [] && mac.key == macKey
      && DirectionOk(Model())
      && (active ==> rc4 != null)
      && (rc4 != null ==> rc4.Valid() && rc4.box != mac.inner.buffer && rc4.Model() == After(start, used))
    }

    ghost function Model(): Direction
      reads this
    {
      Direction(active, macKey, start, used, number)
    }

    constructor (h: Alg)
      requires AlgOk(h)
      ensures Valid() && this in repr && this.h == h && Model() == NoKeys() && fresh(repr)
    {
      this.h := h;
      mac := new HMAC(h, []);
      rc4, active, number := null, false, 0;
      start, used, macKey := Keyed([]), 0, [];
      new;
      repr := {this, mac, mac.inner, mac.inner.buffer};
    }

    /** Switches to new keys: the record number and the keystream start again. */
    method Enable(macKey: seq<byte>, encKey: seq<byte>)
      requires Valid()
      modifies repr
      ensures Valid() && fresh(repr - old(repr))
      ensures Model() == Direction(true, macKey, Keyed(encKey), 0, 0)
    {
      hide RC4.Valid, Schedule;
      mac.Init(macKey);
      rc4 := new RC4.Raw(encKey);
      start, used, this.macKey := Keyed(encKey), 0, macKey;
      assert After(start, 0) == start;
      number, active := 0, true;
      repr := repr + {rc4, rc4.box};
    }

    method ComputeMac(t: byte, version: word16, data: seq<byte>) returns (r: seq<byte>)
      requires Valid()
      modifies mac, mac.inner, mac.inner.buffer
      ensures Valid() && Model() == old(Model())
      ensures r == RecordMac(h, Model(), t, version, data)
    {
      hide HMAC.Valid, RC4.Valid, Mac;
      var header := BigBytes(number, 8) + [t, version / 256, version % 256, |data| / 256 % 256, |data| % 256];
      AppendNil(header);
      mac.Update(header);
      if |data| != 0 {
        mac.Update(data);
      }
      AppendNil(header);
      r := mac.Finish();
    }

    /** Runs a buffer through the cipher. */
    method CryptBuffer(buf: seq<byte>) returns (out: seq<byte>)
      requires Valid() && rc4 != null
      modifies this`used, rc4, rc4.box
      ensures Valid() && Model() == old(Model()).(used := old(used) + |buf|)
      ensures out == CryptHere(old(Model()), buf)
    {
      hide HMAC.Valid, After, Crypt, CipherOk;
      var work := new byte[|buf|](i requires 0 <= i < |buf| => buf[i]);
      assert work[..] == buf;
      rc4.CryptInPlace(work);
      AfterSplit(start, used, |buf|);
      used := used + |buf|;
      out := work[..];
    }

    method Count()
      requires Valid()
      modifies this`number
      ensures Valid() && Model() == old(Model()).(number := old(number) + 1)
    {
      number := number + 1;
    }

    method SealFragment(t: byte, version: word16, data: seq<byte>) returns (fragment: seq<byte>)
      requires Valid()
      modifies repr
      ensures Valid() && repr == old(repr)
      ensures (Model(), fragment) == Seal(h, old(Model()), t, version, data)
    {
      hide HMAC.Valid, RC4.Valid, CryptHere;
      if active {
        var m := ComputeMac(t, version, data);
        fragment := CryptBuffer(data + m);
      } else {
        fragment := data;
      }
      Count();
    }

    /** Decrypts a body and checks its MAC; only a good one is counted. */
    method OpenSealed(t: byte, version: word16, body: seq<byte>) returns (data: Option<seq<byte>>)
      requires Valid() && active && DigestSize(h) <= |body| <= MAX_CIPHERTEXT
      modifies repr
      ensures Valid() && repr == old(repr)
      ensures (Model(), data) == UnprotectOf(h, old(Model()), t, version, body)
    {
      hide HMAC.Valid, RC4.Valid, Mac, MacInput, CryptHere;
      var buf := CryptBuffer(body);
      var n := |buf| - DigestSize(h);
      if n > MAX_PLAINTEXT {
        return None;
      }
      var want := ComputeMac(t, version, buf[..n]);
      RecordMacLength(h, Model(), t, version, buf[..n]);
      var equal := CtEqual(want, buf[n..]);
      if !equal {
        return None;
      }
      Count();
      return Some(buf[..n]);
    }

    method OpenFragment(t: byte, version: word16, body: seq<byte>) returns (data: Option<seq<byte>>)
      requires Valid()
      modifies repr
      ensures Valid() && repr == old(repr)
      ensures (Model(), data) == UnprotectOf(h, old(Model()), t, version, body)
    {
      if |body| > MAX_CIPHERTEXT {
        return None;
      }
      if !active {
        if |body| > MAX_PLAINTEXT {
          return None;
        }
        Count();
        return Some(body);
      }
      if |body| < DigestSize(h) {
        return None;
      }
      data := OpenSealed(t, version, body);
    }
  }

  /** Whether two strings of the same length are equal, or-ing all differences together. */
  method CtEqual(a: seq<byte>, b: seq<byte>) returns (equal: bool)
    requires |a| == |b|
    ensures equal <==> a == b
  {
    hide Xor, Or;
    var diff := 0;
    var i := 0;
    while i < |a|
      invariant 0 <= i <= |a| && 0 <= diff
      invariant diff == 0 <==> a[..i] == b[..i]
    {
      XorZero(a[i], b[i]);
      OrZero(diff, Xor(a[i], b[i]));
      diff := Or(diff, Xor(a[i], b[i]));
      assert a[..i + 1] == a[..i] + [a[i]] && b[..i + 1] == b[..i] + [b[i]];
      i := i + 1;
    }
    assert a[..|a|] == a && b[..|b|] == b;
    equal := diff == 0;
  }

  lemma {:induction false} XorBitsZero(x: nat, y: nat, n: nat)
    requires x < Pow2(n) && y < Pow2(n)
    ensures XorBits(x, y, n) == 0 <==> x == y
  {
    if n > 0 {
      XorBitsZero(x / 2, y / 2, n - 1);
    }
  }

  lemma XorZero(x: byte, y: byte)
    ensures Xor(x, y) == 0 <==> x == y
  {
    Pow2Values();
    XorBitsZero(x, y, 8);
  }

  lemma {:induction false} OrZero(x: nat, y: nat)
    ensures Or(x, y) == 0 <==> x == 0 && y == 0
    decreases x + y
  {
    if x != 0 && y != 0 {
      OrZero(x / 2, y / 2);
    }
  }

  class RecordLayer {
    const version: word16
    const write: Side
    const read: Side

    ghost predicate Valid()
      reads write, write.repr, read, read.repr
    {
      && write.Valid() && read.Valid()
      && write.h == read.h
      && write.repr !! read.repr
      && this !in write.repr && this !in read.repr
    }

    constructor (h: Alg, version: word16)
      requires AlgOk(h)
      ensures Valid() && this.version == version && write.h == read.h == h
      ensures write in write.repr && read in read.repr && write.repr !! read.repr
      ensures write.Model() == NoKeys() && read.Model() == NoKeys()
      ensures fresh(write.repr) && fresh(read.repr)
    {
      hide Side.Valid, NoKeys;
      this.version := version;
      write := new Side(h);
      read := new Side(h);
    }

    method EnableWriteCipher(macKey: seq<byte>, encKey: seq<byte>)
      requires Valid()
      modifies write.repr
      ensures Valid() && fresh(write.repr - old(write.repr))
      ensures write.Model() == Direction(true, macKey, Keyed(encKey), 0, 0) && read.Model() == old(read.Model())
      ensures read.repr == old(read.repr)
    {
      write.Enable(macKey, encKey);
    }

    method EnableReadCipher(macKey: seq<byte>, encKey: seq<byte>)
      requires Valid()
      modifies read.repr
      ensures Valid() && fresh(read.repr - old(read.repr))
      ensures read.Model() == Direction(true, macKey, Keyed(encKey), 0, 0) && write.Model() == old(write.Model())
      ensures write.repr == old(write.repr)
    {
      read.Enable(macKey, encKey);
    }

    /** A whole record: the header and the sealed fragment. Data that is too long is refused. */
    method Protect(t: byte, data: seq<byte>) returns (record: Option<seq<byte>>)
      requires Valid()
      modifies write.repr
      ensures Valid() && write.repr == old(write.repr) && read.Model() == old(read.Model())
      ensures var p := ProtectOf(write.h, old(write.Model()), t, version, data);
        if p.None? then record == None && write.Model() == old(write.Model())
        else record == Some(p.value.1) && write.Model() == p.value.0
    {
      if |data| > MAX_PLAINTEXT {
        return None;
      }
      var fragment := write.SealFragment(t, version, data);
      return Some(HeaderBytes(t, version, |fragment|) + fragment);
    }

    /** The plaintext of one record body, checked against the version its header carried. */
    method Unprotect(t: byte, v: word16, body: seq<byte>) returns (data: Option<seq<byte>>)
      requires Valid()
      modifies read.repr
      ensures Valid() && read.repr == old(read.repr) && write.Model() == old(write.Model())
      ensures (read.Model(), data) == UnprotectOf(read.h, old(read.Model()), t, v, body)
    {
      data := read.OpenFragment(t, v, body);
    }
  }

  // ---- key material ----

  /** Both MAC keys, then both cipher keys, the client's first each time. */
  datatype KeyMaterial = KeyMaterial(clientMac: seq<byte>, serverMac: seq<byte>, clientKey: seq<byte>,
                                     serverKey: seq<byte>)

  function KeyBlockLength(h: Alg): nat {
    2 * DigestSize(h) + 2 * KEY_LENGTH
  }

  method Split(h: Alg, block: seq<byte>) returns (km: KeyMaterial)
    requires |block| == KeyBlockLength(h)
    ensures block == km.clientMac + km.serverMac + km.clientKey + km.serverKey
    ensures |km.clientMac| == |km.serverMac| == DigestSize(h)
    ensures |km.clientKey| == |km.serverKey| == KEY_LENGTH
  {
    var m, p := DigestSize(h), 0;
    var cm := block[p..p + m];
    p := p + m;
    var sm := block[p..p + m];
    p := p + m;
    var ck := block[p..p + 16];
    p := p + 16;
    var sk := block[p..p + 16];
    km := KeyMaterial(cm, sm, ck, sk);
  }
}
