/** The capture tool from first to last: set up the keys, connect, and feed the session whatever each read returns. */
module Capture {
  import opened BitOps
  import opened DvcDecoder
  import opened DvcMachine
  import opened DvcRuns
  import opened Framing
  import opened Hash
  import opened Options
  import opened Rc4
  import opened RemoteSession
  import opened Seqs

  /** What a server sends: a greeting, the trigger for encrypted video, and the video under its own keystream. */
  ghost function Broadcast(md5: Alg, k: Option<Key>, m: Machine, greeting: seq<byte>, video: seq<byte>): seq<byte>
    requires KeyOk(k) && Rest(m)
  {
    greeting + [ESC, BRACKET, ENCRYPTED] + Served(md5, k, m, video)
  }

  /** The decoder gets the video as it was before it was encrypted, through every key change in it. */
  lemma VideoArrives(md5: Alg, s: Link, greeting: seq<byte>, video: seq<byte>)
    requires LinkOk(s) && !s.video && s.esc == 0 && NoTrigger(greeting + [ESC, BRACKET])
    ensures var r := Fed(md5, s, Broadcast(md5, s.inbound, s.decoder, greeting, video));
      r.decoder == Run(s.decoder, video) && r.raw == s.raw + video && r.video && r.secure
  {
    hide Rest, Fed, Served;
    VideoStartsAtTrigger(md5, s, greeting, ENCRYPTED, Served(md5, s.inbound, s.decoder, video));
    StaysInStep(md5, s.(esc := 2, video := true, secure := true), video);
  }

  method WithKeys(md5: Alg, inKey: seq<byte>, outKey: seq<byte>, index: nat) returns (s: Session)
    requires AlgOk(md5) && DigestSize(md5) == 16
    ensures fresh(s) && fresh(s.decoder.Footprint()) && fresh(s.Boxes()) && s.Valid() && s.md5 == md5
    ensures !s.connected && !s.encrypting && s.sent == [] && s.decrypter != null && s.encrypter != null
    ensures s.keyIndex == index
    ensures s.Model() ==
      Link(0, false, false, Some(Seeded(md5, inKey)), Some(Seeded(md5, outKey)), INITIAL, [])
  {
    hide Decoder.Valid, Decoder.Model, RC4.Valid, Rest, Seeded;
    s := new Session(md5);
    s.SetupDecryption(inKey);
    s.SetupEncryption(outKey, index);
  }

  /** The keys, and the login token in its announced and encrypted packet. */
  method Start(md5: Alg, inKey: seq<byte>, outKey: seq<byte>, index: nat, login: seq<byte>) returns (s: Session)
    requires AlgOk(md5) && DigestSize(md5) == 16
    ensures fresh(s) && fresh(s.decoder.Footprint()) && fresh(s.Boxes()) && s.Valid() && s.md5 == md5 && s.connected
    ensures var (k, out) := Packet(Seeded(md5, outKey), true, index, ANNOUNCEMENT + login);
      && s.sent == out
      && s.Model() == Link(0, false, false, Some(Seeded(md5, inKey)), Some(k), INITIAL, [])
  {
    hide Decoder.Valid, Decoder.Model, RC4.Valid, Rest, Packet, Seeded, Session.KeyOf;
    s := WithKeys(md5, inKey, outKey, index);
    var ok := s.Connect(login, true);
  }

  /** The receiving loop: one call after each read. */
  method FeedAll(s: Session, chunks: seq<seq<byte>>)
    requires s.Valid()
    modifies s`esc, s`video, s`secure, s`raw, s.decoder.Footprint(), s.Boxes()
    ensures s.Valid() && LinkOk(old(s.Model())) && s.Model() == Fed(s.md5, old(s.Model()), Joined(chunks))
  {
    hide Decoder.Valid, Decoder.Model, RC4.Valid, Rest, Fed;
    s.LinkIsOk();
    ghost var due := Fed(s.md5, s.Model(), Joined(chunks));
    var k := 0;
    assert chunks[0..] == chunks;
    while k < |chunks|
      invariant 0 <= k <= |chunks| && s.Valid() && LinkOk(s.Model()) && s.Boxes() == old(s.Boxes())
      invariant Fed(s.md5, s.Model(), Joined(chunks[k..])) == due
    {
      assert chunks[k..][1..] == chunks[k + 1..];
      FedInPieces(s.md5, s.Model(), chunks[k], Joined(chunks[k + 1..]));
      s.Feed(chunks[k]);
      s.LinkIsOk();
      k := k + 1;
    }
    FedNothing(s.md5, s.Model());
  }

  lemma FedNothing(md5: Alg, s: Link)
    requires LinkOk(s)
    ensures Fed(md5, s, []) == s
  {
  }

  /** A run until the server closes. Whatever comes before the trigger and however the bytes are cut into reads, what
      is captured and decoded is the video, and the login is all that has been said. */
  method CaptureVideo(md5: Alg, inKey: seq<byte>, outKey: seq<byte>, index: nat, login: seq<byte>,
                      chunks: seq<seq<byte>>, ghost greeting: seq<byte>, ghost video: seq<byte>)
    returns (s: Session)
    requires AlgOk(md5) && DigestSize(md5) == 16 && NoTrigger(greeting + [ESC, BRACKET])
    requires (InitialRests(); Joined(chunks) == Broadcast(md5, Some(Seeded(md5, inKey)), INITIAL, greeting, video))
    ensures s.Valid() && !s.connected && s.raw == video && s.decoder.Model() == Run(INITIAL, video)
    ensures s.sent == Packet(Seeded(md5, outKey), true, index, ANNOUNCEMENT + login).1
  {
    hide Decoder.Valid, Decoder.Model, RC4.Valid, Rest, Packet, Seeded, Fed, Broadcast, Run, Session.KeyOf, NoTrigger;
    s := Start(md5, inKey, outKey, index, login);
    InitialRests();
    VideoArrives(md5, s.Model(), greeting, video);
    AppendNil(video);
    FeedAll(s, chunks);
    s.Disconnect();
  }
}
