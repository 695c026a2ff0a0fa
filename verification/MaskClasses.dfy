/** The stateful half of internal/masks: each mask's fields and its `Wrap`, which
    fills a buffer and moves the counters on.  Random bytes and clock readings are
    parameters; counters wrap at their Go width. */
module MaskClasses {
  import opened Bytes
  import opened Masks
  import opened MaskPackets
  import opened Crc16

  class VKMask {
    const streamID: u32
    const magicBytes: seq<byte>
    var packetNum: u32

    constructor (streamID: u32, magicBytes: seq<byte>)
      ensures this.streamID == streamID && this.magicBytes == magicBytes && packetNum == 0
    {
      this.streamID, this.magicBytes, this.packetNum := streamID, magicBytes, 0;
    }

    method Wrap(payload: seq<byte>) returns (out: seq<byte>)
      requires |magicBytes| == 4
      modifies this
      ensures out == magicBytes + BE(4, streamID) + BE(4, old(packetNum)) + BE(4, Word(|payload|)) + payload
      ensures packetNum == (old(packetNum) + 1) % WORD
      ensures UnwrapBy(VK, out) == Payload(payload)
    {
      var header := new byte[16];
      Put(header, 0, magicBytes);
      Put(header, 4, BE(4, streamID));
      Put(header, 8, BE(4, packetNum));
      Put(header, 12, BE(4, Word(|payload|)));
      assert header[..16] == header[..];
      packetNum := (packetNum + 1) % WORD;
      out := header[..] + payload;
      HeaderRoundTrip(VK, header[..], payload);
    }
  }

  class YandexMask {
    const requestID: seq<byte>
    const magicBytes: seq<byte>
    var sequence: u32

    constructor (requestID: seq<byte>, magicBytes: seq<byte>)
      ensures this.requestID == requestID && this.magicBytes == magicBytes && sequence == 0
    {
      this.requestID, this.magicBytes, this.sequence := requestID, magicBytes, 0;
    }

    method Wrap(payload: seq<byte>, now: u64) returns (out: seq<byte>)
      requires |requestID| == 16 && |magicBytes| == 8
      modifies this
      ensures sequence == (old(sequence) + 1) % WORD
      ensures out == magicBytes + [0x01, 0x00] + BE(4, sequence) + BE(8, now) + requestID + payload
      ensures UnwrapBy(Yandex, out) == Payload(payload)
    {
      sequence := (sequence + 1) % WORD;
      var header := new byte[38];
      Put(header, 0, magicBytes);
      Put(header, 8, [0x01, 0x00]);
      Put(header, 10, BE(4, sequence));
      Put(header, 14, BE(8, now));
      Put(header, 22, requestID);
      assert header[..38] == header[..];
      out := header[..] + payload;
      HeaderRoundTrip(Yandex, header[..], payload);
    }
  }

  class ZoomMask {
    const meetingID: u64
    const userID: u32
    var timestamp: u32
    var sequence: u16

    constructor (meetingID: u64, userID: u32, timestamp: u32)
      ensures this.meetingID == meetingID && this.userID == userID
      ensures this.timestamp == timestamp && sequence == 0
    {
      this.meetingID, this.userID, this.timestamp, this.sequence := meetingID, userID, timestamp, 0;
    }

    method Wrap(payload: seq<byte>, encBlock: seq<byte>, now: u32) returns (out: seq<byte>)
      requires |encBlock| == 4
      modifies this
      ensures out == BE(8, meetingID) + BE(4, userID) + BE(4, old(timestamp)) + BE(2, old(sequence)) + encBlock
                     + payload
      ensures sequence == (old(sequence) + 1) % 0x1_0000 && timestamp == now
      ensures UnwrapBy(Zoom, out) == Payload(payload)
    {
      var buf := new byte[22 + |payload|];
      Put(buf, 0, BE(8, meetingID));
      Put(buf, 8, BE(4, userID));
      Put(buf, 12, BE(4, timestamp));
      Put(buf, 16, BE(2, sequence));
      Put(buf, 18, encBlock);
      ghost var header := buf[..22];
      Put(buf, 22, payload);
      assert buf[..22 + |payload|] == buf[..];
      sequence, timestamp := (sequence + 1) % 0x1_0000, now;
      out := buf[..];
      HeaderRoundTrip(Zoom, header, payload);
    }
  }

  class OzonMask {
    const sessionID: u64
    const requestID: u32
    var sequence: u32
    var timestamp: u32

    constructor (now: u32)
      ensures sessionID == 0 && requestID == 0 && sequence == 0 && timestamp == now
    {
      sessionID, requestID, sequence, timestamp := 0, 0, 0, now;
    }

    /** `copy(header[0:8], "OZONAPIv2")` keeps eight of the nine characters. */
    method Wrap(payload: seq<byte>, now: u32) returns (out: seq<byte>)
      modifies this
      ensures sequence == (old(sequence) + 1) % WORD && timestamp == now
      ensures out == Ascii("OZONAPIv") + BE(8, sessionID) + BE(4, requestID) + BE(4, sequence) + payload
      ensures UnwrapBy(Ozon, out) == Payload(payload)
    {
      sequence, timestamp := (sequence + 1) % WORD, now;
      var header := new byte[24];
      Put(header, 0, Ascii("OZONAPIv"));
      Put(header, 8, BE(8, sessionID));
      Put(header, 16, BE(4, requestID));
      Put(header, 20, BE(4, sequence));
      assert header[..24] == header[..];
      out := header[..] + payload;
      HeaderRoundTrip(Ozon, header[..], payload);
    }
  }

  class WildberriesMask {
    const userID: u64
    var packetNum: u32

    constructor ()
      ensures userID == 0 && packetNum == 0
    {
      userID, packetNum := 0, 0;
    }

    /** Eight of the nine characters of "WBAPI2025" fit the field. */
    method Wrap(payload: seq<byte>) returns (out: seq<byte>)
      modifies this
      ensures packetNum == (old(packetNum) + 1) % WORD
      ensures out == Ascii("WBAPI202") + BE(8, userID) + BE(4, packetNum) + payload
      ensures UnwrapBy(Wildberries, out) == Payload(payload)
    {
      packetNum := (packetNum + 1) % WORD;
      var header := new byte[20];
      Put(header, 0, Ascii("WBAPI202"));
      Put(header, 8, BE(8, userID));
      Put(header, 16, BE(4, packetNum));
      assert header[..20] == header[..];
      out := header[..] + payload;
      HeaderRoundTrip(Wildberries, header[..], payload);
    }
  }

  /** `SberIDMask` and `GosuslugiMask` differ only in their ten-character label. */
  class PortalMask {
    const brand: string
    const first: u64
    const second: u64
    var requestID: u32
    var timestamp: u32

    constructor (brand: string, now: u32)
      ensures this.brand == brand && first == 0 && second == 0 && requestID == 0 && timestamp == now
    {
      this.brand, first, second, requestID, timestamp := brand, 0, 0, 0, now;
    }

    method Wrap(payload: seq<byte>, now: u32) returns (out: seq<byte>)
      requires |brand| == 10
      modifies this
      ensures requestID == (old(requestID) + 1) % WORD && timestamp == now
      ensures out == Ascii(brand) + [0, 0] + BE(8, first) + BE(8, second) + BE(4, requestID) + payload
      ensures UnwrapBy(SberID, out) == UnwrapBy(Gosuslugi, out) == Payload(payload)
    {
      requestID, timestamp := (requestID + 1) % WORD, now;
      var header := new byte[32];
      Put(header, 0, Ascii(brand) + [0, 0]);
      Put(header, 12, BE(8, first));
      Put(header, 20, BE(8, second));
      Put(header, 28, BE(4, requestID));
      assert header[..32] == header[..];
      out := header[..] + payload;
      HeaderRoundTrip(SberID, header[..], payload);
      HeaderRoundTrip(Gosuslugi, header[..], payload);
    }
  }

  class TeamsMask {
    const conferenceID: u64
    const participantID: u32
    var sequence: u32

    constructor (conferenceID: u64, participantID: u32)
      ensures this.conferenceID == conferenceID && this.participantID == participantID && sequence == 0
    {
      this.conferenceID, this.participantID, this.sequence := conferenceID, participantID, 0;
    }

    /** The padding is written only after payloads shorter than 1400 bytes. */
    method Wrap(payload: seq<byte>, noise: seq<byte>, padding: seq<byte>) returns (out: seq<byte>)
      requires |noise| == 8 && |padding| < 64
      modifies this
      ensures out == TeamsPacket(TeamsHead(conferenceID, participantID, old(sequence)), noise, payload,
                                 if |payload| < 1400 then padding else [])
      ensures out == BE(8, conferenceID) + BE(4, participantID) + BE(4, old(sequence)) +
                     BE(4, |payload| % 0x1_0000_0000) + noise + payload + if |payload| < 1400 then padding else []
      ensures sequence == (old(sequence) + 1) % WORD
      ensures UnwrapBy(Teams, out) == Payload(payload) <==> |payload| < WORD
    {
      var buf := new byte[28 + |payload|];
      Put(buf, 0, BE(8, conferenceID));
      Put(buf, 8, BE(4, participantID));
      Put(buf, 12, BE(4, sequence));
      ghost var head := TeamsHead(conferenceID, participantID, sequence);
      assert buf[..16] == head;
      Put(buf, 16, BE(4, Word(|payload|)));
      Put(buf, 20, noise);
      Put(buf, 28, payload);
      assert buf[..28 + |payload|] == buf[..];
      out := buf[..];
      ghost var added := [];
      if |payload| < 1400 {
        out := out + padding;
        added := padding;
      }
      sequence := (sequence + 1) % WORD;
      assert out == TeamsPacket(head, noise, payload, added);
      TeamsRoundTrip(head, noise, payload, added);
    }
  }

  class RuTubeMask {
    var chunkID: u32
    const sessionID: u64
    const magicBytes: seq<byte>

    constructor (sessionID: u64, magicBytes: seq<byte>)
      ensures this.sessionID == sessionID && this.magicBytes == magicBytes && chunkID == 0
    {
      this.sessionID, this.magicBytes, this.chunkID := sessionID, magicBytes, 0;
    }

    method WriteHeader(header: array<byte>, payloadLen: nat, paddingLen: nat)
      requires |magicBytes| == 2 && header.Length >= 24
      modifies header
      ensures header[..24] == RuTubeHeader(RuTubeHead(magicBytes[0], magicBytes[1], chunkID, sessionID),
                                           payloadLen, paddingLen)
    {
      Put(header, 0, [magicBytes[0], magicBytes[1], 0x00, 0x01]);
      Put(header, 4, BE(4, chunkID));
      Put(header, 8, BE(8, sessionID));
      assert header[..16] == RuTubeHead(magicBytes[0], magicBytes[1], chunkID, sessionID);
      Put(header, 16, BE(4, Word(payloadLen)));
      Put(header, 20, BE(2, if paddingLen > 0 then 1 else 0));
      Put(header, 22, BE(2, paddingLen));
    }

    method Fill(payload: seq<byte>, padding: seq<byte>) returns (buf: seq<byte>)
      requires |magicBytes| == 2 && |padding| < 32
      ensures buf == RuTubePacket(RuTubeHead(magicBytes[0], magicBytes[1], chunkID, sessionID), payload, padding)
    {
      var header := new byte[24 + |payload| + |padding|](_ => 0);
      WriteHeader(header, |payload|, |padding|);
      hide RuTubeHeader, RuTubeHead;
      ghost var full := header[..24];
      Put(header, 24, payload);
      assert header[..24 + |payload|] == full + payload;
      Put(header, 24 + |payload|, padding);
      assert header[..24 + |payload| + |padding|] == header[..];
      buf := header[..];
    }

    method Wrap(payload: seq<byte>, padding: seq<byte>) returns (out: seq<byte>)
      requires |magicBytes| == 2 && |padding| < 32
      modifies this
      ensures out == RuTubePacket(RuTubeHead(magicBytes[0], magicBytes[1], old(chunkID), sessionID), payload, padding)
      ensures out == [magicBytes[0], magicBytes[1], 0, 1] + BE(4, old(chunkID)) + BE(8, sessionID) +
                     BE(4, |payload| % 0x1_0000_0000) + BE(2, if |padding| > 0 then 1 else 0) + BE(2, |padding|) +
                     payload + padding
      ensures chunkID == (old(chunkID) + 1) % WORD
      ensures UnwrapBy(RuTube, out) == Payload(payload) <==> |payload| < WORD
    {
      out := Fill(payload, padding);
      RuTubeRoundTrip(RuTubeHead(magicBytes[0], magicBytes[1], chunkID, sessionID), payload, padding);
      chunkID := (chunkID + 1) % WORD;
    }
  }

  class WinUpdateMask {
    const sessionID: u64
    const updateID: u32

    constructor (sessionID: u64, updateID: u32)
      ensures this.sessionID == sessionID && this.updateID == updateID
    {
      this.sessionID, this.updateID := sessionID, updateID;
    }

    method WriteHeader(buf: array<byte>, payloadLen: nat, crc: u16)
      requires buf.Length >= 18
      modifies buf
      ensures buf[..18] == SessionHead(sessionID, updateID) + BE(4, Word(payloadLen)) + BE(2, crc)
    {
      Put(buf, 0, BE(8, sessionID));
      Put(buf, 8, BE(4, updateID));
      assert buf[..12] == SessionHead(sessionID, updateID);
      Put(buf, 12, BE(4, Word(payloadLen)));
      Put(buf, 16, BE(2, crc));
    }

    method Wrap(payload: seq<byte>) returns (out: seq<byte>)
      ensures out == WinUpdatePacket(SessionHead(sessionID, updateID), payload)
      ensures out == BE(8, sessionID) + BE(4, updateID) + BE(4, |payload| % 0x1_0000_0000) +
                     BE(2, Crc(payload)) + payload
      ensures UnwrapBy(WinUpdate, out) == Payload(payload) <==> |payload| < WORD
    {
      var buf := new byte[18 + |payload|];
      var crc := CalcCrc(payload);
      WriteHeader(buf, |payload|, crc);
      Put(buf, 18, payload);
      assert buf[..18 + |payload|] == buf[..];
      out := buf[..];
      WinUpdateRoundTrip(SessionHead(sessionID, updateID), payload);
    }
  }

  lemma JoinFive(a: seq<byte>, b: seq<byte>, c: seq<byte>, d: seq<byte>, e: seq<byte>)
    ensures Lines([a, b, c, d, e]) ==
            a + [13, 10] + (b + [13, 10]) + (c + [13, 10]) + (d + [13, 10]) + (e + [13, 10])
  {
    var all := [a, b, c, d, e];
    assert all[1..] == [b, c, d, e] && all[1..][1..] == [c, d, e];
    assert Lines([e]) == e + [13, 10] + Lines([]);
    assert Lines([d, e]) == d + [13, 10] + Lines([d, e][1..]);
    assert Lines([c, d, e]) == c + [13, 10] + Lines([c, d, e][1..]);
  }

  method MakeQuery(id: u16, payload: seq<byte>) returns (dnsMsg: array<byte>)
    ensures fresh(dnsMsg) && dnsMsg[..] == Query(id, payload)
  {
    dnsMsg := new byte[12 + |payload|];
    Put(dnsMsg, 0, BE(2, id));
    Put(dnsMsg, 2, BE(2, 0x0100));
    Put(dnsMsg, 4, BE(2, 1));
    Put(dnsMsg, 6, BE(2, 0));
    Put(dnsMsg, 8, BE(2, 0));
    Put(dnsMsg, 10, BE(2, 0));
    Put(dnsMsg, 12, payload);
    assert dnsMsg[..12 + |payload|] == dnsMsg[..];
  }

  class DNSOverHTTPSMask {
    var queryID: u16

    constructor ()
      ensures queryID == 0
    {
      queryID := 0;
    }

    /** `date` is the formatted clock reading, which holds no carriage return. */
    method Wrap(payload: seq<byte>, date: seq<byte>) returns (out: seq<byte>)
      requires 13 !in date
      modifies this
      ensures queryID == (old(queryID) + 1) % 0x1_0000
      ensures out == DoHPacket(queryID, date, payload)
      ensures out == Ascii("POST /dns-query HTTP/2") + [13, 10] + (Ascii("Host: dns.google") + [13, 10]) +
                     (Ascii("Content-Type: application/dns-message") + [13, 10]) +
                     (Ascii("Content-Length: ") + Digits(12 + |payload|) + [13, 10]) +
                     (Ascii("Date: ") + date + [13, 10]) + [13, 10] +
                     (BE(2, queryID) + BE(2, 0x0100) + BE(2, 1) + BE(2, 0) + BE(2, 0) + BE(2, 0) + payload)
      ensures UnwrapBy(DNSOverHTTPS, out) == Payload(payload)
    {
      queryID := (queryID + 1) % 0x1_0000;
      var dnsMsg := MakeQuery(queryID, payload);
      hide Query, UnwrapBy, Ascii, Digits;
      var httpReq := Ascii(POST_LINE) + [13, 10];
      httpReq := httpReq + (Ascii(HOST_LINE) + [13, 10]);
      httpReq := httpReq + (Ascii(TYPE_LINE) + [13, 10]);
      httpReq := httpReq + (Ascii(LENGTH_FIELD) + Digits(dnsMsg.Length) + [13, 10]);
      httpReq := httpReq + (Ascii(DATE_FIELD) + date + [13, 10]);
      JoinFive(Ascii(POST_LINE), Ascii(HOST_LINE), Ascii(TYPE_LINE),
               Ascii(LENGTH_FIELD) + Digits(dnsMsg.Length), Ascii(DATE_FIELD) + date);
      httpReq := httpReq + [13, 10];
      out := httpReq + dnsMsg[..];
      DoHRoundTrip(queryID, date, payload);
    }
  }

  class BrowserMask {
    const sessionID: u64
    var packetNum: u32

    constructor (sessionID: u64)
      ensures this.sessionID == sessionID && packetNum == 0
    {
      this.sessionID, this.packetNum := sessionID, 0;
    }

    /** A payload that looks like a TLS record, or of 1400 bytes and more, is not padded. */
    method Wrap(payload: seq<byte>, padding: seq<byte>) returns (out: seq<byte>)
      requires |padding| < 32
      modifies this
      ensures out == BrowserPacket(SessionHead(sessionID, old(packetNum)), payload,
                                   if TlsLike(payload) || |payload| >= 1400 then [] else padding)
      ensures out == BE(8, sessionID) + BE(4, old(packetNum)) + BE(2, |payload| % 0x1_0000) + payload +
                     if |payload| >= 1400 || (|payload| >= 5 && payload[0] == 0x16 && payload[1] == 0x03) then []
                     else padding
      ensures packetNum == (old(packetNum) + 1) % WORD
      ensures UnwrapBy(Browser, out) == Payload(payload) <==>
              |payload| < 0x1_0000 && !StartsTls(SessionHead(sessionID, old(packetNum)))
    {
      var header := new byte[14];
      Put(header, 0, BE(8, sessionID));
      Put(header, 8, BE(4, packetNum));
      ghost var head := SessionHead(sessionID, packetNum);
      assert header[..12] == head;
      Put(header, 12, BE(2, |payload| % 0x1_0000));
      assert header[..14] == header[..];
      packetNum := (packetNum + 1) % WORD;
      if TlsLike(payload) {
        BrowserRoundTrip(head, payload, []);
        out := header[..] + payload;
        assert out == BrowserPacket(head, payload, []);
      } else {
        var added := if |payload| < 1400 then padding else [];
        BrowserRoundTrip(head, payload, added);
        out := header[..] + payload + added;
      }
    }
  }
}
