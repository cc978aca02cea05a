/** As much DER as it takes to lift an RSA public key out of an X.509 certificate. A pointer and its limit are
    modelled by the slice between them. */
module Der {
  import opened BitOps
  import opened Limbs
  import opened BigInt
  import opened BigIntBytes
  import opened Options
  import opened Rsa

  const INTEGER: byte := 0x02
  const BIT_STRING: byte := 0x03
  const OID: byte := 0x06
  const SEQUENCE: byte := 0x30
  const RSA_ENCRYPTION: seq<byte> := [0x2A, 0x86, 0x48, 0x86, 0xF7, 0x0D, 0x01, 0x01, 0x01]

  /** One element and what follows it. */
  datatype Tlv = Tlv(tag: byte, content: seq<byte>, rest: seq<byte>)

  // ---- one element ----

  /** The number of octets before the content, and the content's length; nothing when they are not acceptable. */
  function Header(s: seq<byte>): (r: Option<(nat, nat)>)
    ensures r.Some? ==> 2 <= r.value.0 <= 6 && r.value.0 + r.value.1 <= |s|
  {
    if |s| < 2 || s[0] % 32 == 31 || s[1] == 0x80 then None
    else if s[1] < 0x80 then
      if |s| - 2 < s[1] then None else Some((2, s[1]))
    else
      var n := s[1] - 0x80;
      if n > 4 || |s| - 2 < n then None
      else
        var len := BigEndian(s[2..2 + n]);
        if |s| - 2 - n < len then None else Some((2 + n, len))
  }

  /** Whatever is parsed lies inside its parent: header, content and rest make up the whole of it. */
  function Parse(s: seq<byte>): (r: Option<Tlv>)
    ensures r.Some? ==> |r.value.content| + |r.value.rest| + 2 <= |s|
  {
    match Header(s)
    case None => None
    case Some((h, len)) => Some(Tlv(s[0], s[h..h + len], s[h + len..]))
  }

  method ParseElement(s: seq<byte>) returns (r: Option<Tlv>)
    ensures r == Parse(s)
  {
    if s == [] {
      return None;
    }
    var tag := s[0];
    if tag % 32 == 31 || 1 >= |s| {
      return None;
    }
    var first := s[1];
    var p, len: int := 2, 0;
    if first == 0x80 {
      return None;
    } else if first >= 0x80 {
      var n := first % 0x80;
      if n < 1 || n > 4 || |s| - 2 < n {
        return None;
      }
      var i := 0;
      while i < n
        invariant 0 <= i <= n && p == 2 + i
        invariant len == BigEndian(s[2..2 + i])
      {
        assert s[2..2 + i + 1][..i] == s[2..2 + i];
        len := len * 256 + s[p] as int;
        p := p + 1;
        i := i + 1;
      }
    } else {
      len := first;
    }
    if |s| - p < len {
      return None;
    }
    return Some(Tlv(tag, s[p..p + len], s[p + len..]));
  }

  // ---- encoding ----

  /** A length in the shortest form DER allows. */
  function Length(n: nat): (r: seq<byte>)
    requires n < BASE
    ensures 1 <= |r| <= 5
  {
    if n < 0x80 then [n]
    else if n < 0x100 then [0x81, n]
    else if n < 0x1_0000 then [0x82, n / 256, n % 256]
    else if n < 0x100_0000 then [0x83, n / 256 / 256, n / 256 % 256, n % 256]
    else [0x84, n / 256 / 256 / 256, n / 256 / 256 % 256, n / 256 % 256, n % 256]
  }

  function Encode(tag: byte, content: seq<byte>): (r: seq<byte>)
    requires |content| < BASE
    ensures |content| + 2 <= |r| <= |content| + 6
  {
    [tag] + Length(|content|) + content
  }

  predicate PlainTag(tag: byte) {
    tag % 32 != 31
  }

  lemma LengthOctets(n: nat)
    requires 0x80 <= n < BASE
    ensures var k := |Length(n)| - 1;
      1 <= k <= 4 && Length(n)[0] == 0x80 + k && BigEndian(Length(n)[1..]) == n
  {
    if n < 0x100 {
      BigEndianOne(n);
      assert Length(n)[1..] == [n];
    } else if n < 0x1_0000 {
      BigEndianTwo(n / 256, n % 256);
      assert Length(n)[1..] == [n / 256, n % 256];
    } else if n < 0x100_0000 {
      BigEndianTwo(n / 256 / 256, n / 256 % 256);
      BigEndianPush([n / 256 / 256, n / 256 % 256], n % 256);
      assert Length(n)[1..] == [n / 256 / 256, n / 256 % 256] + [n % 256];
    } else {
      var m := n / 256;
      var head: seq<byte> := [m / 256 / 256, m / 256 % 256];
      BigEndianTwo(m / 256 / 256, m / 256 % 256);
      BigEndianPush(head, m % 256);
      BigEndianPush(head + [m % 256], n % 256);
      assert Length(n)[1..] == head + [m % 256] + [n % 256];
    }
  }

  lemma BigEndianPush(s: seq<byte>, b: byte)
    ensures BigEndian(s + [b]) == BigEndian(s) * 256 + b
  {
    assert (s + [b])[..|s|] == s;
  }

  lemma BigEndianTwo(a: byte, b: byte)
    ensures BigEndian([a, b]) == (a as int) * 256 + b
  {
    BigEndianOne(a);
    BigEndianPush([a], b);
    assert [a] + [b] == [a, b];
  }

  lemma LengthRoundTrip(n: nat, tag: byte, rest: seq<byte>)
    requires n < BASE && PlainTag(tag) && |rest| >= n
    ensures Header([tag] + Length(n) + rest) == Some((1 + |Length(n)|, n))
  {
    var s := [tag] + Length(n) + rest;
    assert s[1] == Length(n)[0];
    if n >= 0x80 {
      LengthOctets(n);
      var k := |Length(n)| - 1;
      assert s[2..2 + k] == Length(n)[1..];
    }
  }

  /** Parsing undoes encoding, whatever comes after. */
  lemma EncodeRoundTrip(tag: byte, content: seq<byte>, rest: seq<byte>)
    requires PlainTag(tag) && |content| < BASE
    ensures Parse(Encode(tag, content) + rest) == Some(Tlv(tag, content, rest))
  {
    var s := Encode(tag, content) + rest;
    assert s == [tag] + Length(|content|) + (content + rest);
    LengthRoundTrip(|content|, tag, content + rest);
    var h := 1 + |Length(|content|)|;
    assert s[h..h + |content|] == content && s[h + |content|..] == rest;
  }

  // ---- children ----

  /** A cursor over the elements of a constructed value. */
  class Iter {
    var rest: seq<byte>

    constructor (content: seq<byte>)
      ensures rest == content
    {
      rest := content;
    }

    method Next() returns (r: Option<Tlv>)
      modifies this
      ensures r == Parse(old(rest))
      ensures rest == if r.Some? then r.value.rest else old(rest)
    {
      if rest == [] {
        return None;
      }
      r := ParseElement(rest);
      if r.Some? {
        rest := r.value.rest;
      }
    }
  }

  // ---- keys ----

  function Trim(s: seq<byte>): (r: seq<byte>)
    ensures |r| <= |s|
    ensures s != [] ==> r != []
    ensures |r| > 1 ==> r[0] != 0
  {
    if |s| > 1 && s[0] == 0 then Trim(s[1..]) else s
  }

  lemma {:induction false} TrimValue(s: seq<byte>)
    ensures BigEndian(Trim(s)) == BigEndian(s)
  {
    if |s| > 1 && s[0] == 0 {
      LeadingByte(s);
      TrimValue(s[1..]);
    }
  }

  method TrimLeadingZeros(s: seq<byte>) returns (r: seq<byte>)
    ensures r == Trim(s)
  {
    r := s;
    while |r| > 1 && r[0] == 0
      invariant Trim(r) == Trim(s)
      decreases |r|
    {
      r := r[1..];
    }
  }

  /** A parsed element with a given tag. */
  function Tagged(s: seq<byte>, tag: byte): (r: Option<Tlv>)
    ensures r.Some? ==> Parse(s) == r && r.value.tag == tag
  {
    match Parse(s)
    case None => None
    case Some(e) => if e.tag == tag then Some(e) else None
  }

  function KeyOf(nb: seq<byte>, eb: seq<byte>): Option<Key> {
    var np, ep := Trim(nb), Trim(eb);
    if np == [] || |np| > BYTES || ep == [] || |ep| > 4 then None
    else
      var key := Key(BigEndian(np), BigEndian(ep), |np|);
      if ValidKey(key) then Some(key) else None
  }

  /** The key inside the content of an RSAPublicKey bit string. */
  function ParseRsa(bits: seq<byte>): Option<Key> {
    if |bits| < 2 || bits[0] != 0 then None
    else
      match Tagged(bits[1..], SEQUENCE)
      case None => None
      case Some(rsa) =>
        match Tagged(rsa.content, INTEGER)
        case None => None
        case Some(n) =>
          match Tagged(n.rest, INTEGER)
          case None => None
          case Some(e) => KeyOf(n.content, e.content)
  }

  /** The key inside the content of a SubjectPublicKeyInfo. */
  function ParseSpki(spki: seq<byte>): Option<Key> {
    match Tagged(spki, SEQUENCE)
    case None => None
    case Some(alg) =>
      match Tagged(alg.content, OID)
      case None => None
      case Some(oid) =>
        if oid.content != RSA_ENCRYPTION then None
        else
          match Tagged(alg.rest, BIT_STRING)
          case None => None
          case Some(bits) => ParseRsa(bits.content)
  }

  /** The key of the first child that looks like a SubjectPublicKeyInfo. */
  function Scan(children: seq<byte>): Option<Key>
    decreases |children|
  {
    match Parse(children)
    case None => None
    case Some(c) =>
      var key := if c.tag == SEQUENCE then ParseSpki(c.content) else None;
      if key.Some? then key else Scan(c.rest)
  }

  function ParseCertificate(cert: seq<byte>): Option<Key> {
    match Tagged(cert, SEQUENCE)
    case None => None
    case Some(top) =>
      match Tagged(top.content, SEQUENCE)
      case None => None
      case Some(tbs) => Scan(tbs.content)
  }

  // ---- every key accepted has a modulus of exactly its stated size ----

  lemma {:induction false} KeyIsExact(nb: seq<byte>, eb: seq<byte>)
    requires KeyOf(nb, eb).Some?
    ensures ExactKey(KeyOf(nb, eb).value)
    ensures KeyOf(nb, eb).value == Key(BigEndian(nb), BigEndian(eb), |Trim(nb)|)
  {
    var np, ep := Trim(nb), Trim(eb);
    TrimValue(nb);
    TrimValue(eb);
    LeadingByte(np);
    BigEndianBound(np);
    BigEndianBound(ep);
    BytesMono(|ep|, 4);
    BytesUpToFour();
  }

  lemma SpkiIsExact(spki: seq<byte>)
    requires ParseSpki(spki).Some?
    ensures ExactKey(ParseSpki(spki).value)
  {
    var alg := Tagged(spki, SEQUENCE).value;
    var bits := Tagged(alg.rest, BIT_STRING).value.content;
    var rsa := Tagged(bits[1..], SEQUENCE).value;
    var n := Tagged(rsa.content, INTEGER).value;
    var e := Tagged(n.rest, INTEGER).value;
    KeyIsExact(n.content, e.content);
  }

  lemma {:induction false} ScanIsExact(children: seq<byte>)
    requires Scan(children).Some?
    ensures ExactKey(Scan(children).value)
    decreases |children|
  {
    var c := Parse(children).value;
    if c.tag == SEQUENCE && ParseSpki(c.content).Some? {
      SpkiIsExact(c.content);
    } else {
      ScanIsExact(c.rest);
    }
  }

  /** No certificate yields a key unless `256^(k-1) <= n < 256^k`. */
  lemma CertificateKeyIsExact(cert: seq<byte>)
    requires ParseCertificate(cert).Some?
    ensures ExactKey(ParseCertificate(cert).value)
  {
    var top := Tagged(cert, SEQUENCE).value;
    ScanIsExact(Tagged(top.content, SEQUENCE).value.content);
  }

  // ---- the parser as it runs ----

  /** Builds a key from the two integers, and hands it over only if it is usable. */
  method LoadKey(nInt: seq<byte>, eInt: seq<byte>, out: RsaPublicKey) returns (ok: bool)
    requires out.Sized()
    modifies out, out.n
    ensures ok == KeyOf(nInt, eInt).Some?
    ensures out.Model() == if ok then KeyOf(nInt, eInt).value else old(out.Model())
  {
    var np := TrimLeadingZeros(nInt);
    var ep := TrimLeadingZeros(eInt);
    if |np| == 0 || |np| > BYTES || |ep| == 0 || |ep| > 4 {
      return false;
    }
    var key := BuildKey(np, ep);
    ok := key.Valid();
    if ok {
      Hand(key, out);
    }
  }

  method BuildKey(np: seq<byte>, ep: seq<byte>) returns (key: RsaPublicKey)
    requires 0 < |np| <= BYTES && 0 < |ep| <= 4
    ensures fresh(key) && fresh(key.n) && key.Sized()
    ensures key.Model() == Key(BigEndian(np), BigEndian(ep), |np|)
  {
    key := new RsaPublicKey();
    FitsTheType(np);
    var ok := FromBytes(key.n, np);
    key.e := SmallExponent(ep);
    key.k := |np|;
  }

  lemma FitsTheType(np: seq<byte>)
    requires |np| <= BYTES
    ensures BigEndian(np) < Pow(LIMBS)
  {
    BytesOfLimbs(LIMBS);
    BigEndianBound(np);
    BytesMono(|np|, BYTES);
  }

  method Hand(key: RsaPublicKey, out: RsaPublicKey)
    requires key.Sized() && out.Sized() && key != out && key.n != out.n
    modifies out, out.n
    ensures out.Model() == key.Model()
  {
    CopyTo(key.n, out.n);
    out.e := key.e;
    out.k := key.k;
  }

  method SmallExponent(ep: seq<byte>) returns (e: limb)
    requires |ep| <= 4
    ensures e == BigEndian(ep)
  {
    e := 0;
    BytesUpToFour();
    var i := 0;
    while i < |ep|
      invariant 0 <= i <= |ep| && e == BigEndian(ep[..i])
    {
      assert ep[..i + 1][..i] == ep[..i];
      BigEndianBound(ep[..i + 1]);
      BytesMono(i + 1, 4);
      e := e * 256 + ep[i];
      i := i + 1;
    }
    assert ep[..|ep|] == ep;
  }

  method ParseRsaBits(bits: seq<byte>, out: RsaPublicKey) returns (ok: bool)
    requires out.Sized()
    modifies out, out.n
    ensures ok == ParseRsa(bits).Some? && out.Model() == if ok then ParseRsa(bits).value else old(out.Model())
  {
    if |bits| < 2 || bits[0] != 0 {
      return false;
    }
    var rsa := ParseElement(bits[1..]);
    if rsa.None? || rsa.value.tag != SEQUENCE {
      return false;
    }
    var rsaIt := new Iter(rsa.value.content);
    var n := rsaIt.Next();
    if n.None? || n.value.tag != INTEGER {
      return false;
    }
    var e := rsaIt.Next();
    if e.None? || e.value.tag != INTEGER {
      return false;
    }
    ok := LoadKey(n.value.content, e.value.content, out);
  }

  method ParseSpkiRsa(spki: Tlv, out: RsaPublicKey) returns (ok: bool)
    requires out.Sized()
    modifies out, out.n
    ensures var key := if spki.tag == SEQUENCE then ParseSpki(spki.content) else None;
      ok == key.Some? && out.Model() == if ok then key.value else old(out.Model())
  {
    if spki.tag != SEQUENCE {
      return false;
    }
    var it := new Iter(spki.content);
    var alg := it.Next();
    if alg.None? || alg.value.tag != SEQUENCE {
      return false;
    }
    var algIt := new Iter(alg.value.content);
    var oid := algIt.Next();
    if oid.None? || oid.value.tag != OID || oid.value.content != RSA_ENCRYPTION {
      return false;
    }
    var bits := it.Next();
    if bits.None? || bits.value.tag != BIT_STRING {
      return false;
    }
    ok := ParseRsaBits(bits.value.content, out);
  }

  /** Scans the certificate body for the first child shaped like a SubjectPublicKeyInfo. */
  method ParseCertificateRsaKey(cert: seq<byte>, out: RsaPublicKey) returns (ok: bool)
    requires out.Sized()
    modifies out, out.n
    ensures ok == ParseCertificate(cert).Some?
    ensures out.Model() == if ok then ParseCertificate(cert).value else old(out.Model())
    ensures ok ==> ExactKey(out.Model())
  {
    if ParseCertificate(cert).Some? {
      CertificateKeyIsExact(cert);
    }
    var top := ParseElement(cert);
    if top.None? || top.value.tag != SEQUENCE {
      return false;
    }
    var topIt := new Iter(top.value.content);
    var tbs := topIt.Next();
    if tbs.None? || tbs.value.tag != SEQUENCE {
      return false;
    }
    var tbsIt := new Iter(tbs.value.content);
    ok := false;
    while true
      invariant ParseCertificate(cert) == Scan(tbsIt.rest)
      invariant out.Model() == old(out.Model()) && fresh(tbsIt)
      decreases |tbsIt.rest|
    {
      var child := tbsIt.Next();
      if child.None? {
        return false;
      }
      if child.value.tag == SEQUENCE {
        ok := ParseSpkiRsa(child.value, out);
        if ok {
          return true;
        }
      }
    }
  }

  // ---- accepted certificates ----

  function RsaBits(nb: seq<byte>, eb: seq<byte>): seq<byte>
    requires |nb| < BASE && |eb| < BASE && |Encode(INTEGER, nb) + Encode(INTEGER, eb)| < BASE
  {
    [0] + Encode(SEQUENCE, Encode(INTEGER, nb) + Encode(INTEGER, eb))
  }

  lemma RsaBitsRoundTrip(nb: seq<byte>, eb: seq<byte>)
    requires |nb| < 0x1000_0000 && |eb| < 0x1000_0000
    ensures ParseRsa(RsaBits(nb, eb)) == KeyOf(nb, eb)
  {
    hide Encode, Parse;
    var en, ee := Encode(INTEGER, nb), Encode(INTEGER, eb);
    EncodeRoundTrip(INTEGER, nb, ee);
    EncodeRoundTrip(INTEGER, eb, []);
    assert ee + [] == ee;
    EncodeRoundTrip(SEQUENCE, en + ee, []);
    assert RsaBits(nb, eb)[1..] == Encode(SEQUENCE, en + ee) + [];
  }

  lemma SpkiEncoded(oid: seq<byte>, params: seq<byte>, bits: seq<byte>)
    requires |oid| < 0x1000_0000 && |params| < 0x1000_0000 && |bits| < 0x3000_0000
    ensures var alg, rest := Encode(OID, oid) + params, Encode(BIT_STRING, bits);
      && Parse(Encode(SEQUENCE, alg) + rest) == Some(Tlv(SEQUENCE, alg, rest))
      && Parse(alg) == Some(Tlv(OID, oid, params)) && Parse(rest) == Some(Tlv(BIT_STRING, bits, []))
  {
    EncodeRoundTrip(BIT_STRING, bits, []);
    assert Encode(BIT_STRING, bits) + [] == Encode(BIT_STRING, bits);
    EncodeRoundTrip(OID, oid, params);
    EncodeRoundTrip(SEQUENCE, Encode(OID, oid) + params, Encode(BIT_STRING, bits));
  }

  /** A SubjectPublicKeyInfo with any algorithm parameters is read back as the key that was put in. */
  lemma SpkiRoundTrip(oid: seq<byte>, params: seq<byte>, nb: seq<byte>, eb: seq<byte>)
    requires oid == RSA_ENCRYPTION && |oid| == 9 && |nb| < 0x1000_0000 && |eb| < 0x1000_0000 && |params| < 0x1000_0000
    ensures ParseSpki(Encode(SEQUENCE, Encode(OID, oid) + params) + Encode(BIT_STRING, RsaBits(nb, eb))) ==
      KeyOf(nb, eb)
  {
    var alg, rest := Encode(OID, oid) + params, Encode(BIT_STRING, RsaBits(nb, eb));
    RsaBitsRoundTrip(nb, eb);
    SpkiEncoded(oid, params, RsaBits(nb, eb));
    SpkiShape(Encode(SEQUENCE, alg) + rest, alg, params, rest, RsaBits(nb, eb), []);
  }

  lemma SpkiShape(s: seq<byte>, alg: seq<byte>, params: seq<byte>, rest: seq<byte>, bits: seq<byte>,
                                     more: seq<byte>)
    requires Parse(s) == Some(Tlv(SEQUENCE, alg, rest)) && Parse(alg) == Some(Tlv(OID, RSA_ENCRYPTION, params))
    requires Parse(rest) == Some(Tlv(BIT_STRING, bits, more))
    ensures ParseSpki(s) == ParseRsa(bits)
  {
  }

  /** The fields before the key: elements that are not themselves shaped like one. */
  ghost predicate Fields(fields: seq<(byte, seq<byte>)>) {
    forall i :: 0 <= i < |fields| ==>
      && PlainTag(fields[i].0) && |fields[i].1| < BASE
      && (fields[i].0 == SEQUENCE ==> ParseSpki(fields[i].1) == None)
  }

  function EncodeAll(fields: seq<(byte, seq<byte>)>): seq<byte>
    requires forall i :: 0 <= i < |fields| ==> |fields[i].1| < BASE
  {
    if fields == [] then [] else Encode(fields[0].0, fields[0].1) + EncodeAll(fields[1..])
  }

  lemma ScanStep(s: seq<byte>, c: Tlv)
    requires Parse(s) == Some(c)
    ensures Scan(s) ==
      if c.tag == SEQUENCE && ParseSpki(c.content).Some? then ParseSpki(c.content) else Scan(c.rest)
  {
  }

  lemma {:induction false} ScanSkips(fields: seq<(byte, seq<byte>)>, spki: seq<byte>, after: seq<byte>)
    requires Fields(fields) && |spki| < BASE && ParseSpki(spki).Some?
    ensures Scan(EncodeAll(fields) + (Encode(SEQUENCE, spki) + after)) == ParseSpki(spki)
  {
    hide Encode, Parse, ParseSpki, Scan;
    var tail := Encode(SEQUENCE, spki) + after;
    if fields == [] {
      assert EncodeAll(fields) + tail == tail;
      EncodeRoundTrip(SEQUENCE, spki, after);
      ScanStep(tail, Tlv(SEQUENCE, spki, after));
    } else {
      var f := fields[0];
      var first, more := Encode(f.0, f.1), EncodeAll(fields[1..]);
      ScanSkips(fields[1..], spki, after);
      EncodeRoundTrip(f.0, f.1, more + tail);
      assert (first + more) + tail == first + (more + tail);
      ScanStep(first + (more + tail), Tlv(f.0, f.1, more + tail));
    }
  }

  /** However many fields come before the key and whatever follows it, the certificate yields that key. */
  lemma {:induction false} CertificateRoundTrip(fields: seq<(byte, seq<byte>)>, spki: seq<byte>, after: seq<byte>,
                                                signature: seq<byte>, trailing: seq<byte>)
    requires Fields(fields) && |spki| < BASE && ParseSpki(spki).Some?
    requires |EncodeAll(fields) + (Encode(SEQUENCE, spki) + after)| < BASE
    requires |Encode(SEQUENCE, EncodeAll(fields) + (Encode(SEQUENCE, spki) + after)) + signature| < BASE
    ensures var tbs := Encode(SEQUENCE, EncodeAll(fields) + (Encode(SEQUENCE, spki) + after));
      ParseCertificate(Encode(SEQUENCE, tbs + signature) + trailing) == ParseSpki(spki)
  {
    hide Encode, EncodeAll, Parse, ParseSpki, Scan;
    var body := EncodeAll(fields) + (Encode(SEQUENCE, spki) + after);
    ScanSkips(fields, spki, after);
    EncodeRoundTrip(SEQUENCE, body, signature);
    EncodeRoundTrip(SEQUENCE, Encode(SEQUENCE, body) + signature, trailing);
  }
}
