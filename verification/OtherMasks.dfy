/** The four masks of internal/masks whose packets carry no payload at first: what
    their parsers read of well-formed packets of the protocols they imitate. */
module OtherMasks {
  import opened Bytes
  import opened Masks

  /** A TLS record (section 5.1 of RFC 8446) of type 20, 22 or 23 gives its body if and
      only if that is not empty, whatever follows it; other types are refused. */
  lemma TlsRecord(header: seq<byte>, body: seq<byte>, rest: seq<byte>)
    requires |header| == 5 && |body| < 0x1_0000 && header[3..5] == BE(2, |body|)
    ensures UnwrapBy(TLS, header + body + rest) ==
            if header[0] in {20, 22, 23} && body != [] then Payload(body) else Fails(InvalidPacket)
  {
    hide BE, UInt;
    var data := header + body + rest;
    assert data[3..5] == header[3..5];
    U16RoundTrip(|body|);
    assert data[5..5 + |body|] == body;
  }

  lemma Fingerprint(s: seq<byte>)
    requires |s| == 2
    ensures UInt(s) == 0x8028 <==> s == [0x80, 0x28]
  {
    assert UIntTo(s, 0) == 0 && UIntTo(s, 1) == s[0];
    assert UIntTo(s, 2) == s[0] as int * 256 + s[1];
  }

  lemma StunReads(data: seq<byte>, n: nat)
    requires |data| >= 20 + n && UInt(data[2..4]) == n
    ensures UnwrapBy(STUN, data) ==
            if |data[20 + n..]| < 8 || data[20 + n..][..2] != [0x80, 0x28] then Payload(data[20..20 + n])
            else if n < 8 then Crashes
            else Payload(data[20..20 + (n - 8)])
  {
    hide UInt;
    if |data| >= 28 + n {
      assert data[20 + n..][..2] == data[20 + n..20 + n + 2];
      Fingerprint(data[20 + n..][..2]);
    }
  }

  /** A STUN message (section 5 of RFC 8489) gives its attributes, unless what follows it
      starts like a fingerprint attribute: then the last eight bytes are taken off. */
  lemma StunMessage(header: seq<byte>, attributes: seq<byte>, rest: seq<byte>)
    requires |header| == 20 && |attributes| < 0x1_0000 && header[2..4] == BE(2, |attributes|)
    ensures UnwrapBy(STUN, header + attributes + rest) ==
            if |rest| < 8 || rest[..2] != [0x80, 0x28] then Payload(attributes)
            else if |attributes| < 8 then Crashes
            else Payload(attributes[..|attributes| - 8])
  {
    hide BE, UInt, UnwrapBy;
    var data, n := header + attributes + rest, |attributes|;
    assert data[2..4] == header[2..4];
    U16RoundTrip(n);
    StunReads(data, n);
    assert data[20..20 + n] == attributes && data[20 + n..] == rest;
    if n >= 8 {
      assert data[20..20 + (n - 8)] == attributes[..n - 8];
    }
  }

  /** An RTP packet (section 5.1 of RFC 3550) of payload type 111 loses its header; with
      the extension bit also the extension, whose length is taken from where its profile
      would be, and in bytes. */
  lemma RtpPacket(header: seq<byte>, body: seq<byte>)
    requires |header| == 12 && header[0] / 16 % 2 == 0 && header[1] % 128 == 111
    ensures UnwrapBy(WebRTC, header + body) == Payload(body)
  {
    assert (header + body)[12..] == body;
  }

  lemma RtpExtended(header: seq<byte>, extension: seq<byte>, body: seq<byte>)
    requires |header| == 16 && header[0] / 16 % 2 == 1 && header[1] % 128 == 111
    requires |extension| < 0x1_0000 && header[12..14] == BE(2, |extension|)
    ensures UnwrapBy(WebRTC, header + extension + body) == Payload(body)
  {
    hide BE, UInt;
    var data, n := header + extension + body, |extension|;
    assert data[12..14] == header[12..14];
    U16RoundTrip(n);
    assert data[16 + n..] == body;
  }

  /** A QUIC packet with a short header loses 14 bytes and as many more as the two low
      bits of the first say, and the last 16 if any are left before them. */
  lemma QuicShort(data: seq<byte>)
    requires |data| > 17 && data[0] < 128
    ensures UnwrapBy(QUIC, data) ==
            Payload(if |data| > 30 + data[0] as int % 4 then data[14 + data[0] as int % 4..|data| - 16]
                    else data[14 + data[0] as int % 4..])
  {}

  /** One with a long header of type 1 loses 37 bytes, if it is longer. */
  lemma QuicRetry(first: byte, fields: seq<byte>, body: seq<byte>)
    requires first >= 128 && first % 64 == 1 && |fields| == 36 && body != []
    ensures UnwrapBy(QUIC, [first] + fields + body) == Payload(body)
  {
    assert ([first] + fields + body)[37..] == body;
  }

  lemma FrameSkipped(header: seq<byte>, frame: seq<byte>, skipped: seq<byte>, body: seq<byte>)
    requires |header| == 37 && header[0] >= 128 && header[0] % 64 in {2, 3}
    requires |frame| == 3 && UInt(frame[1..3]) == |skipped|
    ensures UnwrapBy(QUIC, header + frame + skipped + body) ==
            Payload(if (header[0] % 64 == 2 && frame[0] == 6) || (header[0] % 64 == 3 && frame[0] in {8, 9}) then body
                    else frame + skipped + body)
  {
    hide UInt;
    var data := header + frame + skipped + body;
    assert data[38..40] == frame[1..3];
    assert data[37..] == frame + skipped + body;
    assert data[40 + |skipped|..] == body;
  }

  /** One of type 2 or 3 loses 37 bytes and one frame after them, if that is a crypto
      frame (type 6) or a stream frame (8 or 9) in turn (section 19 of RFC 9000). */
  lemma QuicFramed(header: seq<byte>, frame: seq<byte>, skipped: seq<byte>, body: seq<byte>)
    requires |header| == 37 && header[0] >= 128 && header[0] % 64 in {2, 3}
    requires |frame| == 3 && |skipped| < 0x1_0000 && frame[1..3] == BE(2, |skipped|)
    ensures UnwrapBy(QUIC, header + frame + skipped + body) ==
            Payload(if (header[0] % 64 == 2 && frame[0] == 6) || (header[0] % 64 == 3 && frame[0] in {8, 9}) then body
                    else frame + skipped + body)
  {
    hide BE, UInt, UnwrapBy;
    U16RoundTrip(|skipped|);
    FrameSkipped(header, frame, skipped, body);
  }

  lemma CookieBytes(s: seq<byte>)
    requires s == [0x21, 0x12, 0xA4, 0x42]
    ensures UInt(s) == COOKIE
  {
    assert UIntTo(s, 0) == 0 && UIntTo(s, 1) == 0x21;
    assert UIntTo(s, 2) == 0x2112 && UIntTo(s, 3) == 0x2112A4;
  }

  lemma StunSkipped(data: seq<byte>, n: nat)
    requires |data| >= 20 + n && data[1] % 128 != 111 && UInt(data[4..8]) == COOKIE && UInt(data[2..4]) == n
    ensures UnwrapBy(WebRTC, data) == Payload(data[20 + n..])
  {
    hide UInt;
  }

  /** Where it is not RTP, a STUN message with the magic cookie is dropped whole, and
      what follows it is the payload. */
  lemma StunBeforePayload(header: seq<byte>, attributes: seq<byte>, body: seq<byte>)
    requires |header| == 20 && header[1] % 128 != 111 && header[4..8] == [0x21, 0x12, 0xA4, 0x42]
    requires |attributes| < 0x1_0000 && header[2..4] == BE(2, |attributes|)
    ensures UnwrapBy(WebRTC, header + attributes + body) == Payload(body)
  {
    hide BE, UInt, UnwrapBy;
    var data, n := header + attributes + body, |attributes|;
    assert data[2..4] == header[2..4] && data[4..8] == header[4..8];
    U16RoundTrip(n);
    CookieBytes(data[4..8]);
    StunSkipped(data, n);
    assert data[20 + n..] == body;
  }
}
