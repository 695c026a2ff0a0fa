# A verified model of the L7 Shred tunnel

This project models, in Dafny, the logic of a tunnel that disguises its traffic as
that of other protocols, and proves what the parts promise each other. It verifies
with `dafny verify dfyconfig.toml` (Dafny 4.11).

## What is modelled

A client and a server share a key. The client signs and sends a SYN that lists the
modes it wants; the server checks, remembers and answers it with a signed ACK; both
then wrap every packet in the mask of a current mode and unwrap what they receive,
trying other modes when the current one does not fit.

- `Bytes`, `HandshakeCodec`, `HandshakeLaws`: the handshake packet, its exclusive-or
  checksum, its encoder and tolerant decoder; exact round trips and which corruptions
  are caught.
- `TimedCache`, `ReplayWindow`, `AuthSessions`: the replay cache with expiry, the
  sliding window, and the expiring session table; that purging is invisible.
- `HandshakeProtocol`, `HandshakeManagers`: the protocol as a step system of clients,
  server threads and a network that keeps, repeats, reorders and injects packets, with
  HMAC as an ideal signature; and the two sides as methods.
- `HandshakeRuns`, `HandshakeNumbers`, `OwnAck`: runs of it built from the start; the
  sequence numbers a server marks; when an accepted ACK is for the client's own
  configuration.
- `Crc16`, `Masks`, `MaskPackets`, `MaskClasses`, `OtherMasks`: the mask codecs, and the
  algebra of the WinUpdate checksum over polynomials modulo two.
- `MixerModel`, `MixerRuns`, `MaskMixerClass`, `Sessions`: the mixer that rotates and
  adapts, as a value, over all runs, and as the class; the session with two of them.
- `DataPath`, `Delivery`, `Engine`, `Sni`: what is delivered end to end, exactly when a
  datagram moves the receiver off its mode, the receive loops, and the client's scan for
  a server name.
- `NoiseModel`, `NoiseAgreement`, `Noise`: the key agreement over two byte streams, and
  the class whose hash and chaining key start as one array.
- `QuicModel`, `Quic`: congestion control over all runs and the transport's bookkeeping.
- `Pipeline`, `Framing`: shaping and fragmenting, and message framing on streams.

Clock readings, random bytes and padding are parameters. SHA-256, HKDF, Curve25519 and
HMAC are function parameters; of these only the lengths of their results, the
commutation of Diffie-Hellman and, in the step system, that a verifying packet was
signed are used. A Go panic and a loop that never ends are outcomes of the model
(`Panics`, `Crashes`, `Hangs`).

## Where the code falls short

Each of these is stated by the lemmas named.

- A client with a zero current mode (WebRTC) sends a SYN without a tail, so without its
  checksum: it reads back only if all of the tail would have been zero
  (`HandshakeLaws.RoundTrip`), and is accepted only if what is left happens to sum to
  zero (`HandshakeLaws.TaillessAccepted`).
- Check and mark of a handshake sequence are two critical sections, so two connections
  can accept one SYN at the same instant: `HandshakeRuns.ConcurrentDoubleAcceptance` has
  the run from the start. What the check does promise is exact:
  `HandshakeProtocol.RefusedExactly`.
- A client does not compare the ACK with its own SYN. `OwnAck.OthersAckAccepted` has,
  for any two requests of which the second can be answered, a run in which the client
  with the first accepts the ACK for the second; `OwnAck.OwnAckExactly` says when no run
  does that: if and only if every request asks for the configuration of each one that
  can be answered.
- The client looks for a server name in what it unwraps, with a loop bounded by a length
  field and not by the packet; one 49-byte payload that the server sends and that ends
  in that field kills it (`Delivery.FatalHelloKillsClient`). The delivery theorems say
  exactly when the client lives on (`Delivery.ExactDelivery`, `DiesExactly`); a scan
  overruns only if the extensions claim to go on past the packet
  (`Sni.OverrunNeedsLongExtensions`).
- What the scan takes for the name is the entry of the list, with its type and length
  in front: three bytes that no domain begins with (`Sni.EntryShowsItsHeader`).
- Both ends read into 65536 bytes, and a longer wrapped packet loses its end
  (`Delivery.OversizedIsCut`).
- The SYN is written three times. The copies left over are ordinary datagrams to the
  data path and can move it off its mode (`Delivery.LeftoverSynMoves`), though not when
  VK comes first (`Delivery.LeftoverCopiesHarmless`).
- A short payload that looks like a TLS record is sent under the Browser mask, which
  need not be in the receiver's list (`Delivery.TlsLikePayloadMoves`).
- Token frames carry no length for their padding, so padded frames cannot follow one
  another (`Framing.TokenFramesRoundTrip`).

The code and the repository's own description (README.md) differ in three places, and
the model follows the code. There the pipeline fragments, encrypts, frames and then
masks; `internal/shred/engine.go:79-112` masks, shapes and then fragments, and encrypts
nothing. There a third handshake message, a FIN, establishes the session, and the
server checks the SYN's timestamp; `internal/shred/handshake.go:306-458` has two messages
and checks no timestamp, and a FIN closes the connection (`internal/engine/server.go:230-238`).

## Model

| member | source | states |
|---|---|---|
| HandshakeCodec.CalcChecksum | internal/shred/handshake.go:63-100 | The nested folds give the exclusive or of exactly the covered bytes, in order: header, the low byte of each mode, then the trailer |
| HandshakeCodec.Verify | internal/shred/handshake.go:102-113 | Accepts exactly when magic, version and checksum are right |
| HandshakeCodec.NewHandshake | internal/shred/handshake.go:46-61 | Magic, version and every argument are in the new handshake, the list's length modulo 256 and the current mode modulo 2^32 among them, and it verifies |
| HandshakeCodec.Encode | internal/shred/handshake.go:115-154 | The buffer filled with a moving offset holds header, modes and, only for a non-zero current mode, the 37-byte tail |
| HandshakeCodec.DecodeHandshake | internal/shred/handshake.go:156-221 | Outcome for every byte string: decoded, either error, or the out-of-range panic on an empty list |
| HandshakeLaws.RoundTrip | internal/shred/handshake.go:46-221 | Decoding an encoded new handshake gives it back if and only if it has at most 255 modes, all of 32 bits, and a non-zero current mode or a tail of nothing but zeros; for every clock reading |
| HandshakeLaws.DecodedAgrees | internal/shred/handshake.go:156-221 | Any accepted encoding of a carried handshake has the sender's type, interval and list, and its current mode or else the first mode; the panic needs an empty list and mode zero |
| HandshakeLaws.TaillessAccepted | internal/shred/handshake.go:140-221 | A handshake with a zero current mode is accepted if and only if the bytes sent, with the first mode's word, sum to zero |
| HandshakeLaws.OutcomeByLength | internal/shred/handshake.go:156-221 | Which lengths give which error or the panic, in numbers; everything else is decoded or fails its checksum |
| HandshakeLaws.EncodedLength | internal/shred/handshake.go:115-154 | Length 11 + 4n + 37 (no tail for mode zero); at most 1068 bytes for 255 modes |
| HandshakeLaws.WireLayout | internal/shred/handshake.go:115-154 | Every field of a handshake with a current mode, as a big-endian number at its byte offset |
| HandshakeLaws.Canonical | internal/shred/handshake.go:115-221 | An accepted full-length byte string with a non-zero current mode is the encoding of what it decodes to |
| HandshakeLaws.AcceptedExactly | internal/shred/handshake.go:63-113 | A full-length packet is accepted exactly when its magic, version and checksum are right, and never panics |
| HandshakeLaws.SingleByteCorruption | internal/shred/handshake.go:63-113 | Changing one byte of an encoding, other than the mode count, makes decoding fail if and only if it is not one of the three high bytes of a listed mode |
| HandshakeLaws.CorruptedPacket | internal/shred/handshake.go:63-221 | The same for any accepted full-length packet, whoever built it |
| TimedCache.HandshakeState.IsReplay | internal/shred/handshake.go:244-254 | True exactly for a remembered sequence whose time is less than the window ago |
| TimedCache.HandshakeState.MarkSeen | internal/shred/handshake.go:256-267 | Records the sequence and purges in any order: only entries over a minute old go, only entries not yet that old when the sweep began stay |
| TimedCache.HandshakeState.NextSequence | internal/shred/handshake.go:237-242 | Counts up modulo 2^64 and leaves the cache alone |
| TimedCache.HandshakeState.Reset | internal/shred/handshake.go:269-274 | Forgets every sequence and starts counting at zero |
| TimedCache.PurgeInvisible | internal/shred/handshake.go:244-267 | After any calls of MarkSeen, checked or not, and Reset under a monotone clock, the cache answers as if nothing had ever been purged, for every window up to a minute |
| TimedCache.LongerWindowVisible | internal/shred/handshake.go:244-267 | For any longer window some run tells the purged cache from the full one |
| TimedCache.NoDoubleAcceptance | internal/shred/handshake.go:420-425 | Handshakes handled one after another never accept a sequence within 30 seconds after any earlier mark of it, unless reset in between |
| ReplayWindow.ReplayProtection.CheckAndAdd | internal/shred/handshake.go:487-505 | Reports a replay exactly for a number among the last maxSize accepted of the whole history; map and window stay in step |
| ReplayWindow.WindowDistinct | internal/shred/handshake.go:487-505 | The window is the last min(maxSize, n) accepted numbers, without duplicates, after any calls |
| ReplayWindow.ReacceptedOnlyAfter | internal/shred/handshake.go:487-505 | A number is accepted again only after at least maxSize other, pairwise distinct ones |
| ReplayWindow.TracksNext | internal/shred/handshake.go:491-504 | One call keeps the map's keys equal to the window and the window equal to the tail of the accepted history |
| HandshakeManagers.HandshakeManager.Check | internal/shred/handshake.go:333-364 | Cutting, signature, decoding, type and replay check give the verdict of the protocol model |
| HandshakeManagers.HandshakeManager.PerformClientHandshake | internal/shred/handshake.go:306-370 | Makes three attempts to write the signed SYN for exactly the given arguments, of type 1 on the wire, whichever of them fail; fails without an answer exactly when deadline or read do; succeeds exactly on an acceptable ACK, marks it then, and otherwise leaves the cache alone |
| HandshakeManagers.HandshakeManager.PerformServerHandshake | internal/shred/handshake.go:372-458 | Exactly on an acceptable SYN marks it and counts up, and then returns its configuration and attempts to write the signed ACK with the next number, of type 2 on the wire, three times, or fails and writes nothing if the write deadline cannot be set; any refusal writes nothing and changes nothing |
| HandshakeManagers.WriteThrice | internal/shred/handshake.go:321-326 | What reaches the connection is a copy for each write that succeeds, in each of the eight cases |
| HandshakeProtocol.Invariant | internal/shred/handshake.go:306-458 | In every reachable state of clients, server threads and an injecting network, everything accepted was built and signed by a key holder of the right role, and marks are kept for a minute |
| HandshakeProtocol.ConfigsComeFromClients | internal/shred/handshake.go:372-458 | Every configuration the server returns is what a SYN that some client built decodes to; for a list the wire can carry, its interval, modes and current (or first) mode |
| HandshakeProtocol.AcksComeFromServer | internal/shred/handshake.go:306-458 | Every ACK a client accepts was sent by a server run that had accepted some client's SYN, and carries that run's configuration |
| HandshakeProtocol.TypesNeverConfused | internal/shred/handshake.go:358-360 | No handshake is accepted in place of the other type, in any cache state |
| HandshakeProtocol.HonestPacketArrivesWhole | internal/shred/handshake.go:311-346 | A packet for at most 255 modes is at most 1100 bytes, survives the 4096-byte buffer, verifies, and is judged on what was built |
| HandshakeProtocol.VerdictOnSigned | internal/shred/handshake.go:333-364 | Only the first 4096 bytes count; of what was read the last 32 must sign all before them, and then decoding, type and replay within 30 seconds are checked in this order, each with its error |
| HandshakeProtocol.HoldsWhatItTook | internal/shred/handshake.go:372-458 | In every run, what a connection holds from the read of a packet on is what that packet was judged to be at that moment |
| HandshakeProtocol.ReplayRefused | internal/shred/handshake.go:420-425 | With concurrent threads, a sequence passes the check only if every thread that marked it did so at least 30 seconds before |
| HandshakeProtocol.ReplaysExactly | internal/shred/handshake.go:244-267 | In every reachable state the cache calls a sequence a replay if and only if some thread marked it less than 30 seconds before: purging and renewed marks included |
| HandshakeProtocol.RefusedExactly | internal/shred/handshake.go:420-425 | In every reachable state a packet that is otherwise acceptable is refused as a replay if and only if some thread marked its sequence less than 30 seconds before |
| HandshakeProtocol.CrashNeedsEmptyHandshake | internal/shred/handshake.go:156-221 | The decoder's panic is reached only if a key holder signed a handshake with an empty list and mode zero |
| HandshakeProtocol.PanicsOnlyWhenEmpty | internal/shred/handshake.go:115-221 | Of all encodings only that of an empty list with mode zero panics |
| HandshakeRuns.BothChecksPass | internal/shred/handshake.go:420-425 | From any reachable state, two connections may both pass the replay check for one SYN before either marks it |
| HandshakeRuns.BothMarksFollow | internal/shred/handshake.go:420-425 | and then both mark it at the same instant, whatever else the cache holds or purges |
| HandshakeRuns.ConcurrentDoubleAcceptance | internal/shred/handshake.go:372-458 | For any request with a current mode, a run from the start in which two connections accept the one SYN that was sent |
| HandshakeNumbers.TakenWasSent | internal/shred/handshake.go:372-458 | In every run in which clients ask for a current mode, what a connection holds is in every field a SYN that some client was told to send before |
| HandshakeNumbers.MarkedWasAsked | internal/shred/handshake.go:256-267 | In every such run, every number in the server's cache was given to some client's connect |
| HandshakeNumbers.BothAccepted | internal/shred/handshake.go:372-458 | For any two requests, two numbers and any gap: if the numbers differ or the gap is 30 seconds, there is a run from the start in which both are accepted and the server marks the numbers given |
| OwnAck.AckIsSomebodys | internal/shred/handshake.go:306-458 | In every run the ACK a client holds carries the configuration of some client's request that can be answered |
| OwnAck.OthersAckAccepted | internal/shred/handshake.go:333-370 | For any two requests, the second answerable, a run from the start in which the client with the first accepts the ACK for the second |
| OwnAck.OwnAckExactly | internal/shred/handshake.go:306-458 | Over any set of requests: in every run each accepted ACK is for the client's own configuration, if and only if every request asks for the configuration of each answerable one |
| OwnAck.NotBothTailless | internal/shred/handshake.go:140-221 | For one configuration with mode zero, SYN and ACK are never both accepted: their sums differ in the type byte |
| Crc16.CalcCrc | internal/masks/winupdate.go:65-78 | The nested loops compute the model checksum |
| Crc16.ShiftBijective | internal/masks/winupdate.go:65-78 | The bit step is a bijection on 16-bit states |
| Crc16.ShiftLinear | internal/masks/winupdate.go:65-78 | The bit step is linear over exclusive or |
| Crc16.CrcLinear | internal/masks/winupdate.go:65-78 | The checksum is linear over exclusive or for inputs of equal length and any start states |
| Crc16.TwoByteBurst | internal/masks/winupdate.go:65-78 | Two bytes have checksum zero only if both are zero |
| Crc16.UnalignedBurst | internal/masks/winupdate.go:65-78 | A run of 16 bits at any bit offset has checksum zero only if it is all zero |
| Crc16.GeneratorUndetected | internal/masks/winupdate.go:65-78 | The 17-bit generator pattern has checksum zero |
| MaskPackets.CorruptionExactly | internal/masks/winupdate.go:42-63 | After any same-length change of the payload, corruption is reported exactly when the checksum of the difference is not zero |
| MaskPackets.AdjacentBytesDetected | internal/masks/winupdate.go:42-78 | Any change confined to two adjacent payload bytes is reported, for payloads of any length |
| MaskPackets.SixteenBitsDetected | internal/masks/winupdate.go:42-78 | So is any change confined to 16 consecutive bits at any offset |
| MaskPackets.SeventeenBitsUndetected | internal/masks/winupdate.go:42-78 | A change over 17 bits can go unnoticed |
| MaskPackets.TeamsRoundTrip | internal/masks/teams.go:28-72 | Round trip if and only if the payload is under 2^32 bytes, for every header state and padding |
| MaskPackets.RuTubeRoundTrip | internal/masks/rutube.go:30-93 | The same, with the padding length in the header |
| MaskPackets.WinUpdateRoundTrip | internal/masks/winupdate.go:26-63 | The same, with the checksum |
| MaskPackets.BrowserRoundTrip | internal/masks/browser.go:24-80 | Round trip if and only if the payload is under 65536 bytes and the session id does not begin 0x1603 |
| MaskPackets.DoHRoundTrip | internal/masks/dns_over_https.go:26-62 | Round trip for every payload, even one that contains a blank line, and every date without a carriage return |
| MaskPackets.HeaderRoundTrip | internal/masks/vk.go:40-45 | A parser that only drops a fixed header gives back whatever follows it |
| MaskPackets.DigitsSpell | internal/masks/dns_over_https.go:41-44 | The decimal digits of a length spell it, without a leading zero |
| Masks.BlankLineIsFirst | internal/masks/dns_over_https.go:52-62 | The separator search finds the first blank line, and none only if there is none |
| Masks.HeaderEnds | internal/masks/dns_over_https.go:26-62 | After lines without carriage returns the first blank line is the header's own, whatever the body (section 4.1 of RFC 8484) |
| Masks.FixedHeaders | internal/shred/mask_mixer.go:76-113 | For each mode with a fixed header, the number of bytes dropped, and that anything shorter is refused |
| Masks.OtherModes | internal/shred/mask_mixer.go:76-113 | The masks of the other mode numbers; a number that stands for none gives VK |
| OtherMasks.TlsRecord | internal/masks/tls.go:280-298 | A record of type 20, 22 or 23 gives its body if and only if that is not empty, whatever follows |
| OtherMasks.StunMessage | internal/masks/stun.go:51-82 | A message gives its attributes; if a fingerprint seems to follow it loses eight bytes, or slices out of range when it has fewer |
| OtherMasks.RtpPacket | internal/masks/webrtc.go:287-311 | A packet of payload type 111 loses its 12-byte header |
| OtherMasks.RtpExtended | internal/masks/webrtc.go:294-310 | With an extension it also loses four bytes and the extension, whose length is read in bytes from bytes 12 and 13 |
| OtherMasks.StunBeforePayload | internal/masks/webrtc.go:313-321 | A STUN message with the magic cookie is dropped whole and what follows is the payload |
| OtherMasks.QuicShort | internal/masks/quic.go:573-591 | A packet with a short header loses 14 to 17 bytes, and the last 16 if more is left |
| OtherMasks.QuicRetry | internal/masks/quic.go:446-516 | A long-header packet of type 1 loses 37 bytes |
| OtherMasks.QuicFramed | internal/masks/quic.go:518-571 | Of type 2 or 3 it loses 37 bytes and one crypto or stream frame, whose length field says how much |
| MaskClasses.VKMask.Wrap | internal/masks/vk.go:28-38 | Packet and counter for every state; unwraps to the payload |
| MaskClasses.YandexMask.Wrap | internal/masks/yandex.go:24-43 | Packet and counter for every state; unwraps to the payload |
| MaskClasses.ZoomMask.Wrap | internal/masks/zoom.go:27-52 | Packet, counter and timestamp for every state; unwraps to the payload |
| MaskClasses.OzonMask.Wrap | internal/masks/ozon.go:28-39 | Packet, counter and timestamp for every state; unwraps to the payload |
| MaskClasses.WildberriesMask.Wrap | internal/masks/wildberries.go:25-32 | Packet and counter for every state; unwraps to the payload |
| MaskClasses.PortalMask.Wrap | internal/masks/sberid.go:28-39 | Packet, request id and timestamp for every state; unwraps to the payload as SberID and as Gosuslugi |
| MaskClasses.TeamsMask.Wrap | internal/masks/teams.go:28-56 | Packet and sequence for every state and padding; unwraps to the payload if and only if it is under 2^32 bytes |
| MaskClasses.RuTubeMask.Wrap | internal/masks/rutube.go:30-69 | Packet and chunk id for every state and padding; unwraps to the payload if and only if it is under 2^32 bytes |
| MaskClasses.WinUpdateMask.Wrap | internal/masks/winupdate.go:26-40 | Packet with its checksum; unwraps to the payload if and only if it is under 2^32 bytes |
| MaskClasses.DNSOverHTTPSMask.Wrap | internal/masks/dns_over_https.go:26-50 | Request and query id for every state; unwraps to the payload |
| MaskClasses.BrowserMask.Wrap | internal/masks/browser.go:24-61 | Packet and counter, padding dropped for TLS-like or long payloads; unwraps to the payload if and only if length and session id allow |
| MixerModel.UnwrapIsFirstAccepting | internal/shred/mask_mixer.go:361-384 | The result is that of the first accepting mask in the order current, modes[0], modes[1], ... |
| MixerModel.UnwrapFailsExactly | internal/shred/mask_mixer.go:361-384 | It fails if and only if every mask rejects, and then only the error count changes |
| MixerModel.UnwrapSettles | internal/shred/mask_mixer.go:361-384 | After a success the new current mask alone takes the same data the same way, and nothing but mode, mask and count moved |
| MixerModel.OrbitOfDistinct | internal/shred/mask_mixer.go:327-347 | With distinct modes, k rotations of the mixer from the mode at position i put it on the mode at (i + k) mod n, with that mode's mask and the time of the last rotation, and change nothing else |
| MixerModel.FullTurn | internal/shred/mask_mixer.go:327-347 | With distinct modes, the mixer comes to each mode after exactly one number of rotations from 1 to n |
| MixerModel.OrbitWithRepeat | internal/shred/mask_mixer.go:327-347 | If position d is the first to repeat an earlier f, the mixer's rotations end up looping over positions f to d-1 for ever, and change only mode, mask and time |
| MixerModel.RotateGoesOn | internal/shred/mask_mixer.go:327-347 | One rotation goes to the mode after the first occurrence of the current one, or to the first if that is not listed, and changes only mode, mask and time |
| MixerModel.FirstTakerIsFirst | internal/shred/mask_mixer.go:371-380 | The fallback search stops at the first listed mask that does not reject |
| MixerRuns.Invariant | internal/shred/mask_mixer.go:233-297 | Over every sequence of operations: modes never empty, mask of the current mode's kind, current mode listed unless it was set from outside the list and nothing has taken a mode from the list since, statistics summing to the packets wrapped, each returned Unwrap counted once |
| MixerRuns.WithoutMembers | internal/shred/mask_mixer.go:271-276 | Removing a mode keeps exactly the others |
| MixerRuns.RemovalKeepsTheRest | internal/shred/mask_mixer.go:267-297 | Removing does nothing if no other mode is listed; otherwise the rest is left and the mixer falls back to its first mode exactly when its own is not listed any more |
| MixerRuns.WithoutAppend | internal/shred/mask_mixer.go:271-276 | What is left keeps its order: removal works place by place |
| MixerRuns.StatsCountWraps | internal/shred/mask_mixer.go:349-359 | Over every sequence of operations the statistics of a mode are the packets wrapped under it since the list was last set: TLS-like ones under 15, others under the mode current then |
| MixerRuns.ObserveExactly | internal/shred/mask_mixer.go:209-231 | In numbers: between 8 and 23 hours the day list, else the night list, taken over when the half changes; otherwise one rotation exactly if more than the interval has passed |
| MixerRuns.SpacedCallsRotate | internal/shred/mask_mixer.go:314-325 | k calls more than an interval apart are k rotations |
| MixerRuns.CloseCallsKeep | internal/shred/mask_mixer.go:314-325 | Calls within an interval of the last switch change nothing |
| MaskMixerClass.WrapFresh | internal/shred/mask_mixer.go:349-359 | A fresh mask of a payload-carrying kind makes a packet that unwraps to the payload, for seven of them with the header given byte by byte; QUIC and STUN slice past their buffers |
| MaskMixerClass.MaskMixer.constructor | internal/shred/mask_mixer.go:143-192 | Starts on the first mode of the day or night list |
| MaskMixerClass.MaskMixer.SetModes | internal/shred/mask_mixer.go:233-252 | Whole new state: list, first mode, counters cleared, time-based rotation off; nothing for an empty list |
| MaskMixerClass.MaskMixer.AddMode | internal/shred/mask_mixer.go:254-265 | Appends a mode exactly when it is not listed yet |
| MaskMixerClass.MaskMixer.RemoveMode | internal/shred/mask_mixer.go:267-297 | Drops every occurrence, unless that would empty the list, and falls back to the first mode if the current one went |
| MaskMixerClass.MaskMixer.Rotate | internal/shred/mask_mixer.go:327-347 | Moves to the mode after the first occurrence of the current one, cyclically, or to the first if it is not listed |
| MaskMixerClass.MaskMixer.CheckTimeBasedRotation | internal/shred/mask_mixer.go:209-231 | Swaps in the day or night list exactly when the half of the day changed and time-based rotation is on |
| MaskMixerClass.MaskMixer.GetCurrentMask | internal/shred/mask_mixer.go:314-325 | Time-based swap first, then rotation when the interval has passed |
| MaskMixerClass.MaskMixer.Wrap | internal/shred/mask_mixer.go:349-359 | Counts the packet under 15 if it looks like a TLS record and else under the current mode, changes nothing else, and the packet carries the payload for payload-carrying modes |
| MaskMixerClass.MaskMixer.Unwrap | internal/shred/mask_mixer.go:361-384 | The loop gives the result and state of the first-accepting search |
| MaskMixerClass.MaskMixer.SwitchToDomain | internal/shred/mask_mixer.go:448-487 | For any table from domains to mask names, sets the mode named for the domain, listed or not; no change if it is current |
| MaskMixerClass.Names | internal/shred/mask_mixer.go:454-478 | The mode number of each mask name, and of any other |
| MaskMixerClass.MaskMixer.SetCurrentMode | internal/shred/mask_mixer.go:439-446 | Sets mode and mask, listed or not |
| Sessions.Session.constructor | internal/shred/session.go:123-154 | Mode zero in the caller's configuration becomes VK; both mixers get list and mode |
| Sessions.Session.SyncModes | internal/shred/session.go:245-255 | Both mixers take the configured list and interval, and so its first mode |
| Sessions.Session.Wrap | internal/shred/session.go:197-203 | Counts the bytes and wraps with the local mixer only |
| Sessions.Session.Unwrap | internal/shred/session.go:205-211 | Counts the bytes and unwraps with the remote mixer only |
| Sessions.Session.CheckReplay | internal/shred/session.go:213-235 | Off: never a replay. On: a replay exactly for a number among the last accepted of the window's size |
| Sessions.SameVerdicts | internal/shred/session.go:213-235 | With protection on, the verdicts equal those of ReplayProtection on every call sequence |
| DataPath.StaysExactly | internal/shred/mask_mixer.go:361-384 | A receiver on its first mode stays there, without crash or hang, if and only if that mode accepts the datagram or no listed mode does |
| DataPath.KeepAliveRejected | internal/engine/client.go:555-564 | The one-byte keepalive is rejected by every mask |
| DataPath.EndToEnd | internal/engine/server.go:192-276 | For every history of sends, keepalives, stray tame datagrams and deliveries in any order and number, the output and the status, a client killed by its scan included, are those of a channel without mixers, and neither end leaves its mode |
| Delivery.ExactDelivery | internal/engine/server.go:192-276 | Without strays, TLS-like payloads and FIN look-alikes, the output is exactly the delivered payloads that pass the filter, byte for byte, and the receiver stays open if and only if no delivered payload overruns its scan |
| Delivery.OutputHolds | internal/engine/server.go:243-268 | Over every such history, in bytes: a payload is in the output if and only if it was handed over to a living receiver and begins 4 or 6 in its high half byte, or at the client has 1 to 19 bytes |
| Delivery.SentComesOut | internal/engine/client.go:716-745 | A payload sent and then handed over adds itself once, at the end of the output, or nothing, by the same rule of bytes |
| Delivery.DiesExactly | internal/engine/client.go:629-663 | A receiver dies if and only if some delivery hands over a payload of over 43 bytes that begins 0x16 and overruns the scan; a server never does |
| Delivery.FatalHelloKillsClient | internal/engine/client.go:640-714 | A concrete payload, sent by the server and not taken for TLS, that kills the client whatever VK header it comes under |
| Delivery.OversizedIsCut | internal/engine/client.go:543-546 | Under the fixed-header masks a packet comes through the read buffer whole if and only if it has at most 65536 bytes |
| Delivery.SessionDelivery | internal/shred/session.go:245-255 | Two sessions synchronised to one mode list deliver exactly, in both directions, whatever their other settings, clocks and hours |
| Delivery.HandshakeThenDelivery | internal/shred/session.go:245-255 | The same, in both directions, in any reachable state of the handshake protocol, between a client and a connection that took its SYN and answered |
| Delivery.TlsLikePayloadMoves | internal/shred/mask_mixer.go:202-207 | A short TLS-like payload that the client does send moves a receiver with Yandex first and VK second |
| Delivery.LeftoverSynMoves | internal/shred/handshake.go:321-326 | Leftover copies of the SYN move a receiver with Teams first and VK second |
| Delivery.LeftoverCopiesHarmless | internal/shred/handshake.go:321-326 | With VK first, leftover copies of either handshake packet move nothing and deliver nothing |
| Engine.ServerConnection.HandleDataExchange | internal/engine/server.go:192-276 | For any datagrams read, TUN output, mixer, stopping reason and byte count are those of the step model |
| Engine.ServerConnection.Handle | internal/engine/server.go:226-275 | One turn: empty and FIN datagrams, adaptive unwrap, raw IP fallback, version filter, byte count |
| Engine.Accept | internal/engine/server.go:243-268 | The payload, or the raw datagram when no mask took it, if it has 20 bytes and begins 0x4 or 0x6 |
| Engine.Screen | internal/engine/client.go:636-662 | A payload of 1 to 19 bytes, or one that begins 0x4 or 0x6 |
| Engine.CountedIsVolume | internal/engine/server.go:226-241 | A byte count is the sum modulo 2^64 of the datagrams read, without those that begin DE AD BE EF 03 |
| Engine.Client.Send | internal/engine/client.go:716-745 | Drops exactly payloads of 20 bytes and more that do not begin 0x4 or 0x6, counts and wraps the rest, and writes a datagram as the data path assumes of a sender |
| Engine.Client.Process | internal/engine/client.go:629-663 | Callback output, mixer and status are those of the step model, the overrun of the scan included; the domain is the last name shown |
| Engine.Client.LookForName | internal/engine/client.go:640-647 | Dies exactly when the payload is fatal; otherwise takes over a new non-empty name and switches the client's own mixer, and only then |
| Sni.ExtractSNI | internal/engine/client.go:665-714 | The loop with its moving offset finds the name, nothing, or an index past the end as the recursive scan does, for every byte string |
| Sni.HelloShowsName | internal/engine/client.go:665-714 | Any hello with a name extension shows the bytes of its list, whatever fields and other extensions come before and after |
| Sni.EntryShowsItsHeader | internal/engine/client.go:699-708 | An entry as section 3 of RFC 6066 has it shows up with its type and length in front of the host |
| Sni.OverrunNeedsLongExtensions | internal/engine/client.go:692-711 | An overrun needs all the fixed fields and extensions that claim to go on past the packet |
| Sni.TruncatedExtensions | internal/engine/client.go:692-711 | A packet that ends with the length of its extensions overruns if and only if that is at least 4 |
| Engine.Client.ReadLoop | internal/engine/client.go:606-622 | For any datagrams read, callback output, mixer, stopping reason and byte count are those of the step model; nothing before the handshake is done |
| Noise.NoiseHandshake.constructor | internal/crypto/noise.go:27-57 | Hash and chaining key start as one array |
| Noise.NoiseHandshake.MixHash | internal/crypto/noise.go:158-161 | The hash of the running hash and the data, in an array of its own; the chaining key is untouched |
| Noise.NoiseHandshake.MixKey | internal/crypto/noise.go:163-169 | New key in a new array; the old key's array is overwritten, and the hash with it only if they share it |
| Noise.NoiseHandshake.Handshake | internal/crypto/noise.go:59-145 | Succeeds exactly when both peer keys arrive; bytes written and keys read are those of the pattern, and hash and cipher key are the closed forms over name, keys and secrets in order, despite the sharing |
| NoiseModel.InitiatorEnds | internal/crypto/noise.go:59-100 | The closed form of an initiator's hash and chaining key in hash, key derivation and Diffie-Hellman alone |
| NoiseModel.ResponderEnds | internal/crypto/noise.go:101-145 | And of a responder's |
| NoiseAgreement.Invariant | internal/crypto/noise.go:59-145 | Over every interleaving and chunking, each party's transcript is that of its program on the peer's real keys |
| NoiseAgreement.Progress | internal/crypto/noise.go:59-156 | Until both have finished some party can write or read |
| NoiseAgreement.Agreement | internal/crypto/noise.go:59-145 | Every run has at most 132 steps and can go on until both finish with each other's keys and with hash and cipher key of one closed form: the name, both ephemerals, responder static, initiator static, and the three secrets in order; given only that Diffie-Hellman commutes (pattern XX, section 7.5 of the Noise Protocol Framework, revision 34) |
| QuicModel.ThresholdNeverRises | internal/masks/quic.go:35-63 | In every reachable state 1 <= cwnd <= min(1000, ssthresh) and 2 <= ssthresh, which never rises along a run |
| QuicModel.LossesHalveTheWindow | internal/masks/quic.go:35-63 | After k >= 1 losses cwnd <= ssthresh <= max(2, 1000/2^k) |
| QuicModel.NineLosses | internal/masks/quic.go:35-63 | After nine losses the window stays at most 2 |
| QuicModel.AcksGrowTheWindow | internal/masks/quic.go:35-51 | From any reachable state, n acknowledgements without a loss give min(1000, ssthresh, cwnd + n) |
| QuicModel.GrowthFromTheStart | internal/masks/quic.go:35-51 | From the start they give min(1000, 10 + n) |
| QuicModel.ClimbAfterLoss | internal/masks/quic.go:35-63 | After a loss the window climbs from 1, one by one, to half of what it was, or 2 |
| QuicModel.RttWithinSamples | internal/masks/quic.go:39-40 | The smoothed time stays within any bounds that hold of 30 ms and of every sample (weights of section 5.3 of RFC 9002) |
| Quic.CongestionControl.OnAckReceived | internal/masks/quic.go:35-51 | One more below the threshold and 1000, else unchanged; the round-trip time is seven parts old and one new, truncated toward zero; no division by zero |
| Quic.CongestionControl.OnPacketLoss | internal/masks/quic.go:53-63 | Threshold half the window, at least 2, and the window 1 |
| Quic.QUICTransport.SendPacket | internal/masks/quic.go:95-117 | The packet number goes up modulo 2^64, the packet becomes pending, its bytes are those of the format, and the mask's parser gives back the data; until the counter wraps every number is acknowledged, lost or pending, and only one of these |
| Quic.QUICTransport.ProcessAck | internal/masks/quic.go:119-136 | Never ends exactly for a new acknowledgement of 2^64 - 1; otherwise exactly the pending numbers in the new range become acknowledged, in order for the controller, each opening the window by one up to threshold and 1000, and lastAck never falls |
| Quic.SampleIsElapsed | internal/masks/quic.go:119-136 | The sample of an acknowledgement is the time since its packet was sent |
| Quic.QUICTransport.DetectLoss | internal/masks/quic.go:138-150 | Exactly the packets pending for more than three round-trip times become lost, and the final state does not depend on the order of the map |
| Quic.SentRoundTrip | internal/masks/quic.go:412-446 | The type-0 branch gives back what was sent if and only if the length fits 32 bits and the packet number is not 2^64 - 1 |
| Pipeline.TrafficShaper.Process | internal/shred/shaper.go:28-48 | Bursts make up the data in order; all but the last have the drawn size, the last at most that; with a positive minimum the loop ends, with zero sizes it makes no progress, and it panics only on a negative size |
| Pipeline.Fragmentor.RotateIfNeeded | internal/shred/fragmentor.go:41-46 | A new size exactly when more than 30 seconds have passed, in [min, max) if 0 < min < max; divides by zero exactly if the sizes are equal then |
| Pipeline.Fragmentor.Fragment | internal/shred/fragmentor.go:20-39 | Fragments make up the data in order, all but the last have exactly the current size; never ends exactly for data and a size of zero, panics exactly for equal sizes when due or a negative size |
| Pipeline.ShredEngine.Emit | internal/shred/engine.go:94-110 | What is written for a packet is the packet, burst by burst and fragment by fragment, or a first part of it, and that never with sound sizes |
| Pipeline.ShredEngine.Process | internal/shred/engine.go:79-112 | Over any reads, the pieces written are those of the masked packets in order, each carrying its read, with the burst and fragment sizes of each packet; only the last packet may be cut short, and none with sound sizes |
| Framing.FrameRoundTrip | internal/engine/framing.go:19-57 | A message comes back with the rest of the stream untouched if and only if it has 1 to 65535 bytes |
| Framing.FramesRoundTrip | internal/engine/framing.go:19-57 | Any list of such messages is read back as it was written |
| Framing.Stream.ReadFull | internal/engine/framing.go:34-48 | However the stream is cut up, exactly the next bytes, or failure exactly when there are too few |
| Framing.Stream.WriteFrame | internal/engine/framing.go:19-32 | Refuses more than 65535 bytes and writes nothing then |
| Framing.Stream.ReadFrame | internal/engine/framing.go:34-48 | One frame off the stream, or the error the length or the end gives |
| Framing.ReadAll | internal/engine/framing.go:34-48 | Repeated reads give exactly the list that was written and leave the rest, for any chunking |
| Framing.Transfer | internal/engine/framing.go:19-57 | Writing a list of frameable messages and reading as many gives the list and leaves the stream empty, for any chunking |
| Framing.TokenFrameRoundTrip | internal/shred/frame.go:23-66 | Token and payload come back with exactly the padding left before the rest, if and only if the payload is under 65536 bytes |
| Framing.TokenFramesRoundTrip | internal/shred/frame.go:23-66 | A sequence of frames is read back whole, leaving the rest, if and only if no frame is padded |
| Framing.FrameParser.WriteFrame | internal/shred/frame.go:23-39 | Token, truncated length, payload and padding go out in this order |
| Framing.FrameParser.ReadFrame | internal/shred/frame.go:41-66 | Reads token, length and payload for any chunking, and never the padding |
| AuthSessions.SessionAuthenticator.IsSessionValid | internal/crypto/auth.go:104-110 | True exactly for a registered session before its expiry |
| AuthSessions.SessionAuthenticator.Cleanup | internal/crypto/auth.go:116-123 | Removes exactly the expired sessions, in any order |
| AuthSessions.CleanupInvisible | internal/crypto/auth.go:100-123 | Under a monotone clock, cleaning never changes any later answer |
| AuthSessions.ValidUntilExpiry | internal/crypto/auth.go:100-123 | After any operations, a session last registered at t for d is valid exactly before t + d, and one last revoked is not, whatever was cleaned up |

## Left out

- HandshakeCodec.NewHandshake: takes the interval in whole seconds; the floating-point
  conversion of a fractional duration is not modelled.
- HandshakeProtocol.Invariant: a client handshake starts from an emptied cache, as both
  callers in the client do, and the ideal-signature assumption is about what the
  4096-byte buffer leaves of a packet.
- OwnAck.OwnAckExactly: is about requests of at most 255 modes of 32 bits, those that the
  wire can carry.
- TimedCache.HandshakeState.MarkSeen: differences of times are unbounded integers.
- Quic.QUICTransport.SendPacket: what becomes of the three sets once the packet counter
  has wrapped and numbers are used again.
- Quic.CongestionControl.OnAckReceived: the round-trip time is an unbounded integer.
- Pipeline.ShredEngine.Process: jitter, simulated loss (timing only) and writer errors.
- MaskMixerClass.WrapFresh: the cover handshakes that a fresh WebRTC or TLS mask emits
  are parameters, since they carry no payload; QUIC and STUN crash on a fresh mask.
- MaskMixerClass.MaskMixer.RemoveMode: one clock reading per operation, for every mixer
  operation; stats and packet counters are unbounded.
- MaskMixerClass.MaskMixer.SwitchToDomain: the table from domains to mask names is a
  parameter.
- DataPath.EndToEnd: what a read leaves of a datagram over 65536 bytes is lost, as with
  UDP; a KCP session keeps it for the next read.
- Engine.Client.ReadLoop: packets are processed in the order read, where the source
  starts a goroutine for each; `DataPath.EndToEnd` covers any order.
- The state that parsers of QUIC, TLS and WebRTC keep beside their result: a fresh mask
  is built for every packet wrapped, and no result depends on that state.
- `CreateSession` with the built-in configuration, the table of sessions and its clean-up
  by age; `writeFrame` and `readFrame` on connections that are not streams, which pass
  datagrams through.
- Locks: every locked method is one step, except the replay check and mark, which are
  modelled as the two steps they are.
- Sockets, KCP, TUN devices, routing, exports, logging, the REST API, database, payment
  and metrics code: input and output only.
- AES-GCM, the hybrid key exchange, the double ratchet and the token authenticator.
- The second copies of mixer and fragmentor in the engine package.
