# A verified model of the iLO 2 console client

The repository is a client for the remote console of an old server management controller. It logs in over TLS 1.0,
opens an RC4-encrypted channel, decodes a proprietary video stream bit by bit, and shows the result. This project
models its hard core in Dafny and proves what each part is for:

* **The video decoder.** `DvcBits` (bit window), `DvcPalette` (17-slot colour cache), `DvcMachine` (the 48-state machine
  as functions on a value), `DvcRuns` (whole bytes and whole runs) and `DvcDecoder` (the same machine as an object whose
  methods are proved to do exactly what the functions say). `Framebuffer` is the plain screen and the one that flags
  changed tiles; `Console` is the pull that brings a front end's copy up to date.
* **Big integers and RSA.** `Limbs`, `BigInt`, `BigIntBytes` (32-bit limbs with explicit carries, shifts and
  borrows, proved against natural numbers), `Rsa` (padding and the public operation) and `Der` (taking the key out of a
  certificate).
* **TLS 1.0.** `Hash`, `Hmac`, `Prf`, `Rc4`, `Record` and `RecordLayer` (one direction of a connection as a value and as
  an object), `Handshake` (messages and transcript), `Framing` (messages out of records), `Channel` (records out of a
  byte stream that arrives in arbitrary pieces, and sending), `Negotiation` (what a handshake comes to, as a function of
  everything the server sends), `Client` (the client as it runs, proved to have that outcome), `Agreement` (when it
  connects, in both directions), `GoodServer` (servers described by what they encode), `Chunked` and `Response` (reading
  an HTTP response until it is complete) and `Https` (a GET from first to last).
* **The console session.** `RemoteSession`: the trigger that starts video, decryption byte by byte, key changes that the
  video itself asks for, and the encrypted outbound stream. `Capture`: the capture tool from first to last.

Everywhere the same pattern is used. State the program changes in place is a class; its methods say what the new
state is in terms of a value (`Model()`, `Stream()`, `Pending()`, `Screen()`); the laws are lemmas about those values.
The protocol standards involved are RFC 2246 (TLS 1.0), RFC 2104 (HMAC), RFC 1321 and RFC 3174 (MD5, SHA-1) and
RFC 9112 section 7.1 (chunked coding).

How the source's parts are represented:

* The decoder's scalar fields are grouped into the records `place`, `hue`, `command`, `screen` and `clock`. Its hooks
  (blits, status, key change) are a log of events; the session acts on a key change when the byte that asked for it has
  been processed, and `RemoteSession.AskedMeans` shows that this misses none and changes no order.
* The record layer's `write_*` and `read_*` fields are two objects of one class, `RecordLayer.Side`. The plumbing half of
  the TLS client, from `fill` to `handle_alert`, is the class `Channel.Connection`.
* A pointer and its limit are a sequence. Integers that the source bounds by a width are bounded explicitly (`limb`,
  `word`, `byte`, `word16`).
* The transport is a finite list of nonempty pieces of at most 4096 bytes, how it ends, and how many writes it accepts.
* The compression functions of MD5 and SHA-1 are parameters; nothing is assumed of them but the size of their output.
  Random bytes are parameters.

Where the code and its comments differ, the model follows the code:

* The comment on `ConsoleCore::pull` says that the rectangle list is left alone when nothing changed; the code clears it
  and sets the size once there is a screen.
* `emit_run` in `ui/console_core.hpp` skips empty rectangles; none can occur, and the model has no such branch.
* `cache_reset` does not recompute the index state, so that state says how many colours there are only while there
  are any.
* `dechunk` succeeds as soon as the line of the last chunk is there; the final blank line is not needed.

Three expectations turned out to hold only under a condition. The exact condition is proved, and an input that fails it is
given:

* A server's first flight may be cut into records in any way, but an empty handshake record left over at its end makes
  the client refuse the ChangeCipherSpec that follows: `Agreement.ConnectsToGoodServer` and, for everything a server can
  encode, `GoodServer.ConnectsToServer`. `GoodServer.LeftOverRecordIsRefused` is a flight that is refused for that alone.
* The server's Finished message may be cut up in the same way, but an empty handshake record left over after it makes the
  first read of application data fail: `Https.FetchesThePage`. `Https.LeftOverSpoilsPage` is a page lost for that alone.
* What is read of an HTTP response does not depend on how it was cut into records, unless more than 8 MiB arrive and one
  record can reach from before the end of the response to beyond the limit: `Response.CutFreeExactly`.
  `Response.CutsCanMatter` is a response whose outcome does depend on it.

## Model

| member | source | states |
|---|---|---|
| DvcBits.BitReader.InitReversal | ilo/dvc_bits.hpp:29-45 | the three tables hold, for every byte, its mirrored value and the lengths of the zero runs at its two ends |
| DvcBits.AppendByte | ilo/dvc_bits.hpp:49-60 | or-ing a byte in above the pending bits appends exactly its eight bits, low bit first |
| DvcBits.BitReader.AddBits | ilo/dvc_bits.hpp:49-60 | the window grows by the byte's bits, the zero run is carried across bytes, and the reset marker is reported exactly when it passes 30 |
| DvcBits.BitReader.GetBits | ilo/dvc_bits.hpp:63-77 | a field is the oldest bits of the window, most significant first; a field of no bits leaves the old code behind |
| DvcPalette.TouchMovesToFront | ilo/dvc_cache.hpp:40-63 | using a colour puts it first and keeps the order of all others; only a new colour in a full cache drops one, the least recently used |
| DvcPalette.FindMovesToFront | ilo/dvc_cache.hpp:67-81 | a rank gives and promotes the colour that holds it, and gives -1 and changes nothing exactly when no colour does |
| DvcPalette.PruneTruncates | ilo/dvc_cache.hpp:85-102 | because touched colours come first, pruning only cuts off the tail, so that no rank needs to change |
| DvcPalette.RunWellFormed | ilo/dvc_cache.hpp:20-103 | after any operations on a fresh cache: at most 17 distinct colours, touched ones first, index state matching their number |
| DvcPalette.DvcCache.Lru | ilo/dvc_cache.hpp:40-63 | the slot arrays with their ranks stay a permutation and change as the move-to-front list does |
| DvcPalette.DvcCache.Rank | ilo/dvc_cache.hpp:67-81 | the search by rank over the slots returns and promotes as the list does |
| DvcPalette.DvcCache.Prune | ilo/dvc_cache.hpp:85-102 | compacting the slots without re-ranking leaves a permutation that stands for the touched entries in order |
| DvcRuns.StepKeeps | ilo/dvc_decoder.hpp:125-296 | from every reachable state one turn keeps the invariant, reduces what is left to do, never takes the self-loop exit, and leaves the loop only through state 37 |
| DvcRuns.DrainKeeps | ilo/dvc_decoder.hpp:125-296 | a byte is always finished with, and at most 7 bits are left undecoded when the decoder has to resynchronise |
| DvcRuns.EveryRun | ilo/dvc_decoder.hpp:34-43 | over every input: at most 7 bits pending, at most 256 pixels and only in the painting states, the patched table entry equal to the cache's, and every blit a whole aligned tile |
| DvcRuns.RunConcat | ilo/dvc_decoder.hpp:34-43 | decoding does not depend on how the bytes are split |
| DvcRuns.SelfSynchronising | ilo/dvc_decoder.hpp:125-138 | after any bytes, four or more zero bytes and one that is not zero put the decoder in state 1 with empty window, palette, tile and position |
| DvcRuns.RekeyAligned | ilo/dvc_decoder.hpp:198-230 | the step that asks for a key change leaves no bit pending and goes to state 1; no other step asks for one |
| DvcRuns.ByteRekeys | ilo/dvc_decoder.hpp:34-43 | a byte asks for at most one key change, as its last event and with all its bits used up |
| DvcDecoder.Decoder.NextBlock | ilo/dvc_decoder.hpp:107-123 | the object's fields after blitting tiles along a row, with the clipped tail filled in |
| DvcDecoder.Decoder.Turn | ilo/dvc_decoder.hpp:134-296 | one turn of the loop changes the fields exactly as the machine steps |
| DvcDecoder.Decoder.ProcessBits | ilo/dvc_decoder.hpp:125-296 | the loop ends, and what it leaves in the fields is the machine drained of the byte |
| DvcDecoder.Decoder.ProcessDvc | ilo/dvc_decoder.hpp:34-43 | a byte, and the recovery when the bits made no sense, take the object to the machine's next resting state |
| Framebuffer.BlitAt | ilo/cim_png.hpp:68-80 | what every pixel holds after a tile is pasted, on and off the screen's edges |
| Framebuffer.PlainFramebuffer.SetDimensions | ilo/cim_png.hpp:60-64 | a new size blanks the screen, the same size leaves it alone |
| Framebuffer.PlainFramebuffer.Paste | ilo/cim_png.hpp:68-80 | the nested loops produce the pasted screen |
| Framebuffer.TrackingFramebuffer.SetDimensions | ui/console_core.hpp:91-97 | a new size flags every tile |
| Framebuffer.TrackingFramebuffer.Paste | ui/console_core.hpp:100-123 | the same screen as the plain one, and the tile flagged exactly when a pixel changed |
| Framebuffer.ResizeAgrees | ui/console_core.hpp:91-97 | after a change of size, also to one of the same area, every difference from the front end's copy is still flagged |
| Framebuffer.BlitAgrees | ui/console_core.hpp:100-123 | after an aligned paste every difference from the front end's copy is flagged |
| Console.PullRefreshes | ui/console_core.hpp:226-259 | copying only flagged tiles makes the copy equal to the screen, and the flags can be cleared |
| Console.TrackerMatchesPlain | ui/console_core.hpp:74-126 | over any sequence of draws and pulls the tracked screen equals the plain one |
| Console.PullShowsTheScreen | ui/console_core.hpp:226-259 | after any such sequence a pull leaves the copy equal to the plain screen and no tile flagged |
| Console.DecodedScreen | ui/console_core.hpp:306-326 | end to end: whatever bytes were decoded, a pull shows what the decoder drew |
| Console.ConsoleCore.EmitRun | ui/console_core.hpp:343-359 | a run of tiles is copied row by row, clipped to the screen, and reported as one rectangle |
| Console.ConsoleCore.Pull | ui/console_core.hpp:226-259 | the scan over the tiles yields that copy, and rectangles that are disjoint, on the screen and cover exactly the flagged tiles |
| BigInt.MulWide | crypto/bigint.hpp:128-144 | the limbs of the result stand for the exact product; no carry is lost and no 64-bit sum overflows |
| BigInt.BitLengthOf | crypto/bigint.hpp:115-125 | the number of significant bits |
| BigInt.CmpExt | crypto/bigint.hpp:178-183 | compares an accumulator that has one more limb, as numbers |
| BigInt.SubExt | crypto/bigint.hpp:185-193 | subtracts as numbers, the borrow ending inside the accumulator |
| BigInt.DivideBit | crypto/bigint.hpp:153-168 | one bit of long division keeps the remainder of the leading bits, below the modulus and inside the extra limb |
| BigInt.ModWide | crypto/bigint.hpp:153-168 | the remainder of a double-width number |
| BigInt.ModNarrow | crypto/bigint.hpp:170-175 | the remainder of a single-width number |
| BigInt.MulMod | crypto/bigint.hpp:107-112 | the product modulo n, also when the result is one of the operands |
| BigInt.ModExp | crypto/bigint.hpp:84-97 | succeeds exactly when modulus and exponent are not zero, and then gives m to the e modulo n for every size, every m and every e |
| BigIntBytes.FromBytes | crypto/bigint.hpp:52-61 | loads a big-endian string, failing exactly when its value does not fit |
| BigIntBytes.ToBytes | crypto/bigint.hpp:64-69 | stores the value big-endian at full width |
| Rsa.PublicOp | crypto/rsa.hpp:56-68 | exactly k bytes whose value is m to the e modulo n; refused exactly when the key is unusable or the input too long |
| Rsa.Pad | crypto/rsa.hpp:35-53 | the padded block byte by byte, refused exactly when fewer than eight padding bytes would fit |
| Rsa.PadRoundTrip | crypto/rsa.hpp:35-53 | the padding can be taken off again whatever the message, and the block is below every modulus of its size |
| Der.ParseElement | tls/der.hpp:48-79 | tag, content and rest of one element, with every refusal of the source; the element lies inside its parent |
| Der.EncodeRoundTrip | tls/der.hpp:48-79 | every element in the shortest form is read back, whatever follows it |
| Der.Iter.Next | tls/der.hpp:82-97 | the cursor moves past a good element and stays at a bad one |
| Der.TrimValue | tls/der.hpp:106-108 | leading zeros do not change the number |
| Der.ParseSpkiRsa | tls/der.hpp:114-159 | fills the key in exactly when the structure holds a usable RSA key, and otherwise leaves it alone |
| Der.ParseCertificateRsaKey | tls/der.hpp:169-187 | the key of the first suitable child of the certificate body, if there is one |
| Der.CertificateKeyIsExact | tls/der.hpp:169-187 | every key accepted satisfies 256^(k-1) <= n < 256^k |
| Der.SpkiRoundTrip | tls/der.hpp:114-159 | a key that was put into a SubjectPublicKeyInfo comes out again |
| Der.CertificateRoundTrip | tls/der.hpp:169-187 | whatever fields come before and after, a certificate yields the key that was put into it |
| Hash.PaddedIsWhole | crypto/sha1.hpp:57-78 | both pad lengths make the message a whole number of blocks |
| Hash.FoldAppend | crypto/sha1.hpp:41-54 | compressing whole blocks can be interrupted anywhere |
| Hash.StreamHash.Update | crypto/sha1.hpp:41-54 | for any split into updates the state is the fold over whole blocks and the buffer holds the tail |
| Hash.StreamHash.Finish | crypto/md5.hpp:54-72 | the one-shot digest of everything added, after which the object starts afresh |
| Hash.StreamHash.Copy | tls/handshake.hpp:124-131 | a copy can be finished without disturbing the original |
| Hmac.BlockKeyLength | crypto/hmac.hpp:31-48 | a key of any length is made exactly one block long |
| Hmac.HMAC.Init | crypto/hmac.hpp:31-48 | both pads are one block long and stand for the key, and the object is ready for a message |
| Hmac.HMAC.Finish | crypto/hmac.hpp:62-70 | the one-shot MAC of each message, however many have gone before with the same object |
| Hmac.ComputePHash | tls/prf.hpp:42-66 | the loop with one reused object gives the A(i) chain cut to length |
| Hmac.ShorterIsPrefix | tls/prf.hpp:42-66 | a shorter request is a prefix of a longer one |
| Prf.TlsHashesOk | tls/prf.hpp:69-93 | MD5 and SHA-1 are fit for the PRF exactly when their compression functions keep the number of words, so no other assumption is made of them |
| Prf.HalvesOverlap | tls/prf.hpp:69-93 | the halves of the secret cover it and share the middle byte exactly when its length is odd |
| Prf.ComputePrf | tls/prf.hpp:69-93 | the two streams combined |
| Prf.ShorterPrf | tls/prf.hpp:69-93 | a shorter request is a prefix of a longer one |
| Rc4.AfterIsOk | crypto/rc4.hpp:61-67 | the box stays a permutation however long the keystream runs |
| Rc4.KeyedIsOk | crypto/rc4.hpp:78-90 | the key schedule leaves a permutation for every key |
| Rc4.CryptSplit | crypto/rc4.hpp:71-74 | encrypting in pieces is encrypting at once |
| Rc4.CryptTwice | crypto/rc4.hpp:71-74 | two ciphers in step undo each other |
| Rc4.RC4.CryptInPlace | crypto/rc4.hpp:71-74 | the buffer is combined with the keystream in place and the next call goes on from there |
| Rc4.RC4.UpdateKey | crypto/rc4.hpp:50-58 | the next key is the digest of the session key and the current one, and the keystream starts again |
| Record.HeaderRoundTrip | tls/record.hpp:54-60 | a header is read back |
| Record.OpensWhatWasSealed | tls/record.hpp:126-190 | a reader in the writer's state recovers the data and stays in step |
| Record.AcceptsOnlyTheSealed | tls/record.hpp:164-190 | the only body accepted as some plaintext is the one the writer makes of it |
| Record.RunCounts | tls/record.hpp:107-190 | the number counts the records since the keys were enabled, and the keystream position is the sum of fragment and MAC lengths |
| Record.RunInStep | tls/record.hpp:107-190 | for any messages the reader accepts every record, gets the data, and ends in the writer's state |
| RecordLayer.CtEqual | tls/record.hpp:68-72 | equality by or-ing all differences together |
| RecordLayer.Split | tls/record.hpp:78-95 | the key block is cut into the four keys in order, without remainder |
| RecordLayer.RecordLayer.EnableWriteCipher | tls/record.hpp:107-112 | new keys, number 0, fresh keystream, and the other direction untouched |
| RecordLayer.RecordLayer.EnableReadCipher | tls/record.hpp:113-118 | the same for reading |
| RecordLayer.RecordLayer.Protect | tls/record.hpp:126-160 | the whole record and the writer's new state, or a refusal that changes nothing |
| RecordLayer.RecordLayer.Unprotect | tls/record.hpp:164-190 | the plaintext and the reader's new state; a bad record may have used up keystream |
| Handshake.FrameRoundTrip | tls/handshake.hpp:142-151 | a framed message is recognised whatever follows it |
| Handshake.MessageStable | tls/handshake.hpp:255-266 | bytes that arrive later do not change a message that was complete |
| Handshake.ServerHelloRoundTrip | tls/handshake.hpp:276-293 | every ServerHello is read back, extensions being ignored |
| Handshake.CertificatesRoundTrip | tls/handshake.hpp:303-320 | every nonempty certificate list is read back, trailing bytes being ignored |
| Handshake.CertificateList | tls/handshake.hpp:303-320 | the loop over the list gives its entries, or refuses it |
| Handshake.Transcript.Update | tls/handshake.hpp:112-116 | the transcript is everything absorbed so far, in order |
| Handshake.Transcript.Snapshot | tls/handshake.hpp:124-131 | both digests so far, leaving the transcript as it was |
| Framing.DeliverIsRepeated | tls/client.hpp:317-350 | the messages delivered are what repeated calls return |
| Framing.ReadsProtected | tls/client.hpp:290-312 | a record is read back in the writer's state, in the clear and under keys, whatever follows it |
| Framing.FramingIndependence | tls/client.hpp:317-350 | in the clear and under keys, the messages depend only on the handshake data, not on record boundaries, empty records, warnings between them or the versions the records name |
| Framing.SameDataSameMessages | tls/client.hpp:317-350 | two ways of cutting the same data into records, of whatever versions, deliver the same messages |
| Framing.CutJoined | tls/handshake.hpp:255-266 | messages sent one after the other are cut apart again |
| Channel.Connection.Fill | tls/client.hpp:273-288 | reads until there is enough, succeeds exactly when the stream holds that much, and loses no byte however the socket cuts them |
| Channel.Connection.ReadNext | tls/client.hpp:290-312 | the next record of the stream or the reason there is none, in terms of the bytes alone |
| Channel.Connection.NextHandshake | tls/client.hpp:317-350 | the next message of the stream, put together from as many records as it takes, and what is left |
| Channel.Connection.ExpectChangeCipherSpec | tls/client.hpp:352-375 | accepts exactly the one-byte record, with no handshake data pending, after ignorable warnings |
| Channel.Connection.HandleAlert | tls/client.hpp:378-395 | which alerts end the connection, and which of them as an end of stream |
| Channel.Connection.Recv | tls/client.hpp:84-106 | the next application data, and whether a failure is an orderly end |
| Channel.Connection.SendRecord | tls/client.hpp:266-271 | one record sent and the writer advanced, or refused, or not taken by the transport |
| Channel.Connection.Send | tls/client.hpp:68-77 | data of any length goes out as the records of its fragments, or as many of them as the transport takes |
| Channel.FragmentsCover | tls/client.hpp:68-77 | the fragments are nonempty, short enough, and together the data |
| Channel.ReceivesWhatWasSent | tls/client.hpp:68-106 | a run of records is received as exactly its pieces |
| Channel.Conversation | tls/client.hpp:68-106 | any amount of data in any number of calls arrives whole and in order |
| Client.EncryptPremaster | crypto/rsa.hpp:71-78 | the padded premaster secret under the key, at the key's size |
| Client.DeriveSecrets | tls/client.hpp:221-230 | the master secret with the client's random number first, the key block with the server's first |
| Client.Client.ReadFlight | tls/client.hpp:137-198 | the server's first flight is judged as the reference does, and its messages, no others, enter the transcript |
| Client.Client.SendReply | tls/client.hpp:200-240 | the records sent in order; ChangeCipherSpec stays out of the transcript, and Finished is the first record under the new keys, at number 0 |
| Client.Client.ReadFinished | tls/client.hpp:242-257 | the server's Finished is compared with the transcript as it stood before that message |
| Client.Client.Handshake | tls/client.hpp:125-262 | the outcome is the one the server's bytes call for, however the socket cuts them, unless the transport stops taking writes; connected is set exactly on success |
| Agreement.ConnectedOnlyIf | tls/client.hpp:125-262 | it connects only if version, suite and compression are as offered, the key is a certificate key, ChangeCipherSpec was accepted with no handshake byte pending, and both Finished messages cover ClientHello to client Finished in wire order |
| Agreement.SwitchOnWire | tls/client.hpp:352-375 | after the flight ChangeCipherSpec is accepted exactly when no empty handshake record is left before it |
| Agreement.ConnectsToGoodServer | tls/client.hpp:125-262 | it connects to every server whose flight passes its checks, however that flight and the server's Finished message are framed, exactly when no empty record is left over before ChangeCipherSpec |
| GoodServer.KeyRoundTrip | tls/der.hpp:114-159 | every usable key is recovered from its two integers in any big-endian form |
| GoodServer.CertificateYieldsKey | tls/der.hpp:169-187 | every certificate made around a usable key yields it, whatever else it holds |
| GoodServer.EncodesGoodFlight | tls/client.hpp:137-198 | what a server encodes, for every key, certificate, hello and number of certificate requests, passes the client's checks |
| GoodServer.ConnectsToServer | tls/client.hpp:125-262 | it connects to every server that encodes its part, under any framing of its flight and of its Finished message, exactly when no empty record is left over before ChangeCipherSpec; what comes after Finished is left unread |
| GoodServer.LeftOverRecordIsRefused | tls/client.hpp:352-375 | a flight that is refused because of one empty record, and accepted without it |
| Chunked.FindMeaning | tls/client.hpp:462-463 | a search gives the first occurrence, or there is none |
| Chunked.ParseSize | tls/client.hpp:464-480 | the hexadecimal size of a line, extensions cut off, blanks skipped, anything else refused |
| Chunked.Dechunk | tls/client.hpp:459-490 | the loop decodes as the reference does |
| Chunked.DecodesEncoded | tls/client.hpp:459-490 | every list of nonempty chunks is decoded to its content, with nothing needed after the last size line |
| Chunked.DecodesOnlyEncoded | tls/client.hpp:459-490 | only a chunked body is decoded, and only to what its chunks hold |
| Chunked.DecodesUsual | tls/client.hpp:459-490 | the usual encoding with lower-case sizes is decoded |
| Chunked.DecodedStable | tls/client.hpp:459-490 | success on a prefix is success with the same output on every extension |
| Response.CompleteStable | tls/client.hpp:528-546 | a complete response stays complete and the same, whatever follows |
| Response.CutsDoNotMatter | tls/client.hpp:526-560 | within the limit the outcome is a function of the bytes alone |
| Response.CutFreeExactly | tls/client.hpp:526-560 | exactly when the outcome does not depend on how the response was cut into records, empty ones among them |
| Response.CutsCanMatter | tls/client.hpp:526-560 | a response whose outcome does depend on it |
| Response.ReadResponse | tls/client.hpp:526-591 | the loop over a connection yields the response that the stream calls for |
| Channel.Connection.Close | tls/client.hpp:108-114 | once there are keys the closing alert goes out under them, if the transport still takes it, and nothing else changes |
| Response.PageArrives | tls/client.hpp:500-593 | a chunked page sent in any number of writes arrives as its headers and content, whether or not the server closes |
| Https.Connect | tls/client.hpp:64-67 | a new client over a transport has the outcome the server's bytes call for, and has said its whole opening and no more when it is connected |
| Https.Exchange | tls/client.hpp:514-563 | the request goes out in its records, the response is the one the stream calls for, and the closing alert follows it |
| Https.HttpsGet | tls/client.hpp:500-593 | the result is a function of what the server sends as long as the transport takes what is said, and what was said is every record from ClientHello to the closing alert, in order |
| Https.AfterFinished | tls/client.hpp:84-106 | warnings left over from the server's last flight are skipped by the first read of application data; an empty handshake record ends it |
| Https.FetchesThePage | tls/client.hpp:500-593 | end to end: the chunked page of every server that encodes its part arrives, whatever the framing of both flights and the writes of the page, exactly when no empty record is left over in either flight |
| Https.LeftOverSpoilsPage | tls/client.hpp:84-106 | a page that is lost because of one empty record after Finished, and arrives without it |
| Https.ConnectToServer | tls/client.hpp:125-262 | a client built on the bytes of such a server, however the socket cuts them, is connected when five writes are accepted |
| Https.GetPage | tls/client.hpp:500-593 | and the whole GET, as it runs on those bytes, returns the page |
| RemoteSession.FedInPieces | ilo/telnet.hpp:193-215 | how the bytes are cut into reads makes no difference |
| RemoteSession.VideoStartsAtTrigger | ilo/telnet.hpp:193-215 | video starts at the first ESC [ R or ESC [ r, and the letter says whether it is encrypted |
| RemoteSession.NoTriggerNoVideo | ilo/telnet.hpp:193-215 | and at nothing else |
| RemoteSession.AskedMeans | tools/capture_dvc.cpp:132-138 | acting on a key change after its byte misses none, and no bit of the old key is joined with one of the new |
| RemoteSession.StaysInStep | tools/capture_dvc.cpp:127-145 | however often the video changes the key, the decoder gets exactly the bytes meant for it |
| RemoteSession.OneKeystream | ilo/ilo2_session.hpp:59-81 | six announcing bytes are in the clear, and everything after them is one stream under one keystream, whatever the packets |
| RemoteSession.OutboundStaysInStep | ilo/ilo2_session.hpp:59-88 | for packets and key changes in any order, an end that changes its key at the same points of the stream hears exactly what was said |
| RemoteSession.Session.Feed | ilo/telnet.hpp:193-215 | the loop over one read takes the session where the reference does |
| RemoteSession.Session.ChangeKey | ilo/ilo2_session.hpp:85-88 | both directions take their next keys |
| RemoteSession.Session.Transmit | ilo/ilo2_session.hpp:59-81 | one packet as it goes out, and the keystream position after it |
| RemoteSession.Session.Connect | ilo/ilo2_session.hpp:47-56 | every attempt re-arms the announcement when there is a key to decrypt with; only one that makes a connection sends the login token, announced then, and encrypted when there is a key to encrypt with |
| RemoteSession.Session.Disconnect | ilo/telnet.hpp:127-136 | only the connection and the decryption of video end; keys and keystreams stay |
| Capture.VideoArrives | tools/capture_dvc.cpp:127-145 | after any greeting and the trigger, the decoder gets the video as it was before encryption, through every key change in it |
| Capture.FeedAll | ilo/telnet.hpp:151-170 | one call after each read: the session depends on the bytes alone |
| Capture.CaptureVideo | tools/capture_dvc.cpp:258-359 | end to end: keys, login and reads of any size leave exactly the video captured and decoded, with the announced login as what was sent |

## Left out

- Client.Client.Handshake: a client object makes one connection; failures of the random number generator and the wiping of secrets are not modelled.
- RemoteSession.Session.Connect: sockets and name lookup are not modelled, so that whether the host can be reached is an input, and a login that would be the announced first packet has at least six bytes.
- RemoteSession.Session.Transmit: the announced first packet has at least six bytes, as the token built by connect does; a shorter one has no defined outcome in the source, which indexes six bytes of it.
- Capture.CaptureVideo: what the tool sends while it receives (refreshes, keep-alives, pointer moves) is not part of the run; `RemoteSession.OutboundStaysInStep` covers packets and key changes in any order.
- Chunked.Dechunk: sizes are unbounded integers, so the wrap-around of a size that does not fit in `size_t` is not modelled.
- Rsa.Pad: the padding bytes are given and not zero; the loop that draws zero bytes again ends only with probability one.
- Record.RunCounts: record numbers are unbounded and appear modulo 2^64 in the MAC only.
- DvcDecoder.Decoder.ProcessDvc: byte and error counters are unbounded, and command parameters are a map without the capacity of the source's buffer.
- Framebuffer.TrackingFramebuffer.Paste: pixels are integers, without the conversion to 32 bits.
- Sockets, threads, mutexes, timeouts and file access; the queueing of outbound data between threads.
- The compression functions of MD5 and SHA-1, and any statement about cryptographic strength.
- Header lookup and the conversion of Content-Length and the status line: a function from headers to the way the body ends is a parameter.
- The visible text of status and error messages, and the names of alerts.
- The wiring of the key change in the graphical front end, which does not override the hook; the wiring modelled is that of the capture tool.
- PNG output, input encoding, the web scraping, power and media workers, and the user interface.
