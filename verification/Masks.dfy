/** The parsers of internal/masks: what each mask's `Unwrap` returns for any bytes.
    No outcome depends on the state of the mask. */
module Masks {
  import opened Bytes
  import Crc16

  datatype Kind =
    | WebRTC | QUIC | Teams | WinUpdate | DNSOverHTTPS | RuTube | Yandex | VK
    | STUN | Zoom | Ozon | Wildberries | SberID | Gosuslugi | TLS | Browser

  datatype MaskError = InvalidPacket | UnwrapFailed | CorruptedData

  /** A Go error, a slice out of range, or an acknowledgement loop that never ends. */
  datatype Unwrapped = Payload(bytes: seq<byte>) | Fails(error: MaskError) | Crashes | Hangs

  /** `MaskFactory.CreateMask`: which mask a mode number stands for. */
  function KindOf(mode: int): Kind {
    match mode
    case 0 => WebRTC
    case 1 => QUIC
    case 2 => Teams
    case 3 => WinUpdate
    case 4 => DNSOverHTTPS
    case 5 => RuTube
    case 6 => Yandex
    case 7 => VK
    case 8 => STUN
    case 9 => Zoom
    case 10 => Ozon
    case 11 => Wildberries
    case 12 => SberID
    case 13 => Gosuslugi
    case 14 => TLS
    case 15 => Browser
    case _ => VK
  }

  const COOKIE := 0x2112A442

  function UnwrapWebRTC(data: seq<byte>): Unwrapped {
    if |data| < 12 then Fails(InvalidPacket)
    else if data[1] % 128 == 111 then
      if data[0] / 16 % 2 != 1 then Payload(data[12..])
      else if |data| < 14 then Fails(InvalidPacket)
      else
        var headerLen := 16 + UInt(data[12..14]);
        if |data| < headerLen then Fails(InvalidPacket) else Payload(data[headerLen..])
    else if |data| >= 20 && UInt(data[4..8]) == COOKIE && |data| >= 20 + UInt(data[2..4]) then
      Payload(data[20 + UInt(data[2..4])..])
    else if |data| >= 77 && data[0] == 22 then Payload(data[77..])
    else if |data| > 24 && data[20..23] == [0x49, 0x43, 0x45] then Payload(data[24..])
    else if |data| > 34 && data[0] == 0x14 then
      if |data| >= 80 then Payload(data[80..]) else Crashes
    else Payload(data[12..])
  }

  function AfterFrame(data: seq<byte>, frameTypes: set<int>): Unwrapped {
    if |data| < 37 then Fails(InvalidPacket)
    else if |data| == 37 then Payload([])
    else if data[37] !in frameTypes then Payload(data[37..])
    else if |data| < 40 then Fails(InvalidPacket)
    else
      var offset := 40 + UInt(data[38..40]);
      Payload(if offset < |data| then data[offset..] else [])
  }

  const MAX_U64 := 0xFFFF_FFFF_FFFF_FFFF

  function UnwrapQUIC(data: seq<byte>): Unwrapped {
    if |data| < 5 then Fails(InvalidPacket)
    else if data[0] >= 0x80 then
      if |data| < 21 then Fails(InvalidPacket) else
      var packetType := data[0] % 64;
      if packetType == 0 then
        if UInt(data[5..13]) == MAX_U64 then Hangs else
        var n := UInt(data[17..21]);
        Payload(if |data| >= 21 + n then data[21..21 + n] else [])
      else if packetType == 1 && |data| > 37 then Payload(data[37..])
      else if packetType == 2 && |data| > 25 then AfterFrame(data, {6})
      else if packetType == 3 && |data| > 25 then AfterFrame(data, {8, 9})
      else if |data| > 49 then Payload(data[49..])
      else Payload(data[21..])
    else if |data| > 17 then
      var offset := 14 + data[0] as int % 4;
      Payload(if |data| > offset + 16 then data[offset..|data| - 16] else data[offset..])
    else Fails(InvalidPacket)
  }

  function UnwrapTeams(data: seq<byte>): Unwrapped {
    if |data| < 28 then Fails(InvalidPacket) else
    var n := UInt(data[16..20]);
    if |data| < 28 + n then Fails(InvalidPacket) else Payload(data[28..28 + n])
  }

  function UnwrapWinUpdate(data: seq<byte>): Unwrapped {
    if |data| < 18 then Fails(InvalidPacket) else
    var n := UInt(data[12..16]);
    if |data| < 18 + n then Fails(InvalidPacket) else
    var payload := data[18..18 + n];
    if UInt(data[16..18]) != Crc16.Crc(payload) then Fails(CorruptedData) else Payload(payload)
  }

  const BLANK_LINE: seq<byte> := [13, 10, 13, 10]

  /** `bytes.Index(data, "\r\n\r\n")`. */
  function BlankLineIn(data: seq<byte>): (r: int)
    ensures r == -1 || 0 <= r <= |data| - 4
  {
    if |data| < 4 then -1
    else if data[..4] == BLANK_LINE then 0
    else
      var r := BlankLineIn(data[1..]);
      if r == -1 then -1 else r + 1
  }

  function UnwrapDoH(data: seq<byte>): Unwrapped {
    var idx := BlankLineIn(data);
    if idx == -1 then Fails(InvalidPacket) else
    var body := data[idx + 4..];
    if |body| < 12 then Fails(InvalidPacket) else Payload(body[12..])
  }

  function UnwrapRuTube(data: seq<byte>): Unwrapped {
    if |data| < 24 then Fails(InvalidPacket) else
    var n := UInt(data[16..20]);
    var padding := UInt(data[22..24]);
    if |data| < 24 + (n + padding) then Fails(InvalidPacket) else Payload(data[24..24 + n])
  }

  function AfterHeader(n: nat, data: seq<byte>): Unwrapped {
    if |data| < n then Fails(InvalidPacket) else Payload(data[n..])
  }

  function UnwrapSTUN(data: seq<byte>): Unwrapped {
    if |data| < 20 then Fails(InvalidPacket) else
    var msgLen := UInt(data[2..4]);
    var offset := 20 + msgLen;
    var fingerprint := |data| >= offset + 8 && UInt(data[offset..offset + 2]) == 0x8028;
    var payloadLen := if fingerprint then msgLen - 8 else msgLen;
    if |data| < 20 + payloadLen then Fails(InvalidPacket)
    else if payloadLen < 0 then Crashes
    else Payload(data[20..20 + payloadLen])
  }

  function UnwrapTLS(data: seq<byte>): Unwrapped {
    if |data| < 5 then Fails(InvalidPacket) else
    var n := UInt(data[3..5]);
    if data[0] in {0x16, 0x17, 0x14} && |data| >= 5 + n && n > 0
    then Payload(data[5..5 + n]) else Fails(InvalidPacket)
  }

  predicate TlsLike(data: seq<byte>) {
    |data| >= 5 && data[0] == 0x16 && data[1] == 0x03
  }

  function UnwrapBrowser(data: seq<byte>): Unwrapped {
    if |data| < 14 then Fails(InvalidPacket)
    else if TlsLike(data) then Payload(data)
    else
      var n := UInt(data[12..14]);
      if |data| < 14 + n then Fails(InvalidPacket) else Payload(data[14..14 + n])
  }

  function UnwrapBy(kind: Kind, data: seq<byte>): Unwrapped {
    match kind
    case WebRTC => UnwrapWebRTC(data)
    case QUIC => UnwrapQUIC(data)
    case Teams => UnwrapTeams(data)
    case WinUpdate => UnwrapWinUpdate(data)
    case DNSOverHTTPS => UnwrapDoH(data)
    case RuTube => UnwrapRuTube(data)
    case Yandex => AfterHeader(38, data)
    case VK => AfterHeader(16, data)
    case STUN => UnwrapSTUN(data)
    case Zoom => AfterHeader(22, data)
    case Ozon => AfterHeader(24, data)
    case Wildberries => AfterHeader(20, data)
    case SberID => AfterHeader(32, data)
    case Gosuslugi => AfterHeader(32, data)
    case TLS => UnwrapTLS(data)
    case Browser => UnwrapBrowser(data)
  }

  /** The table of masks, as byte counts: what each mode with a fixed header drops. */
  lemma FixedHeaders(data: seq<byte>)
    ensures |data| >= 16 ==> UnwrapBy(KindOf(7), data) == Payload(data[16..])
    ensures |data| >= 20 ==> UnwrapBy(KindOf(11), data) == Payload(data[20..])
    ensures |data| >= 22 ==> UnwrapBy(KindOf(9), data) == Payload(data[22..])
    ensures |data| >= 24 ==> UnwrapBy(KindOf(10), data) == Payload(data[24..])
    ensures |data| >= 32 ==> UnwrapBy(KindOf(12), data) == UnwrapBy(KindOf(13), data) == Payload(data[32..])
    ensures |data| >= 38 ==> UnwrapBy(KindOf(6), data) == Payload(data[38..])
    ensures |data| < 16 ==> UnwrapBy(KindOf(7), data) == Fails(InvalidPacket)
    ensures |data| < 20 ==> UnwrapBy(KindOf(11), data) == Fails(InvalidPacket)
    ensures |data| < 22 ==> UnwrapBy(KindOf(9), data) == Fails(InvalidPacket)
    ensures |data| < 24 ==> UnwrapBy(KindOf(10), data) == Fails(InvalidPacket)
    ensures |data| < 32 ==> UnwrapBy(KindOf(12), data) == UnwrapBy(KindOf(13), data) == Fails(InvalidPacket)
    ensures |data| < 38 ==> UnwrapBy(KindOf(6), data) == Fails(InvalidPacket)
  {}

  /** And the masks of the other modes; a number that stands for none is VK's. */
  lemma OtherModes(mode: int)
    ensures KindOf(0) == WebRTC && KindOf(1) == QUIC && KindOf(2) == Teams && KindOf(3) == WinUpdate
    ensures KindOf(4) == DNSOverHTTPS && KindOf(5) == RuTube && KindOf(8) == STUN
    ensures KindOf(12) == SberID && KindOf(13) == Gosuslugi && KindOf(14) == TLS && KindOf(15) == Browser
    ensures !(0 <= mode <= 15) ==> KindOf(mode) == VK
  {}

  // -------------------------------------------------------- blank-line search

  predicate BlankAt(data: seq<byte>, i: int) {
    0 <= i <= |data| - 4 && data[i..i + 4] == BLANK_LINE
  }

  lemma BlankMoves(data: seq<byte>, i: int)
    requires 0 < i && |data| > 0
    ensures BlankAt(data, i) <==> BlankAt(data[1..], i - 1)
  {
    if i <= |data| - 4 {
      assert data[i..i + 4] == data[1..][i - 1..i + 3];
    }
  }

  /** The search finds the first blank line, and finds none only if there is none. */
  lemma {:induction false} BlankLineIsFirst(data: seq<byte>)
    ensures BlankLineIn(data) == -1 <==> forall i :: !BlankAt(data, i)
    ensures BlankLineIn(data) != -1 ==>
              BlankAt(data, BlankLineIn(data)) && forall i :: BlankAt(data, i) ==> BlankLineIn(data) <= i
  {
    if |data| >= 4 {
      var rest := data[1..];
      BlankLineIsFirst(rest);
      assert data[0..4] == data[..4];
      assert BlankAt(data, 0) <==> data[..4] == BLANK_LINE;
      forall i | 0 < i
        ensures BlankAt(data, i) <==> BlankAt(rest, i - 1)
      {
        BlankMoves(data, i);
      }
      assert forall i :: BlankAt(data, i) ==> i >= 0;
      hide BlankAt;
      var r := BlankLineIn(data);
      if r != -1 {
        assert r == 0 || BlankAt(rest, r - 1);
        assert BlankAt(data, r);
      }
    }
  }

  predicate PlainLine(line: seq<byte>) {
    |line| > 0 && 13 !in line
  }

  lemma {:induction false} SkipLine(line: seq<byte>, rest: seq<byte>)
    requires 13 !in line
    requires |rest| >= 2
    ensures rest[..2] == [13, 10] ==> BlankLineIn(line + [13, 10] + rest) == |line|
    ensures rest[0] != 13 && BlankLineIn(rest) != -1 ==>
              BlankLineIn(line + [13, 10] + rest) == |line| + 2 + BlankLineIn(rest)
  {
    var data := line + [13, 10] + rest;
    if line == [] {
      assert data[..4] == [13, 10] + rest[..2];
      var tail := data[1..];
      assert tail[0] == 10 && tail[1..] == rest;
      if rest[0] != 13 && BlankLineIn(rest) != -1 {
        assert data[..4][2] != 13;
        assert tail[..4][0] == 10;
      }
    } else {
      SkipLine(line[1..], rest);
      assert data[1..] == line[1..] + [13, 10] + rest;
      assert data[..4][0] == line[0] && line[0] in line;
    }
  }

  function Lines(lines: seq<seq<byte>>): seq<byte> {
    if lines == [] then [] else lines[0] + [13, 10] + Lines(lines[1..])
  }

  /** Non-empty lines without carriage returns: the first blank line is the one
      after the last of them, whatever the body holds. */
  lemma {:induction false} HeaderEnds(lines: seq<seq<byte>>, body: seq<byte>)
    requires |lines| > 0
    requires forall i :: 0 <= i < |lines| ==> PlainLine(lines[i])
    ensures |Lines(lines)| >= 2
    ensures BlankLineIn(Lines(lines) + [13, 10] + body) == |Lines(lines)| - 2
  {
    if |lines| == 1 {
      assert Lines(lines[1..]) == [];
      assert Lines(lines) == lines[0] + [13, 10];
      assert Lines(lines) + [13, 10] + body == lines[0] + [13, 10] + ([13, 10] + body);
      assert ([13 as byte, 10] + body)[..2] == [13, 10];
      SkipLine(lines[0], [13, 10] + body);
    } else {
      var rest := Lines(lines[1..]) + [13, 10] + body;
      HeaderEnds(lines[1..], body);
      assert PlainLine(lines[1]);
      assert rest[0] == lines[1][0] && lines[1][0] in lines[1];
      SkipLine(lines[0], rest);
      assert Lines(lines) + [13, 10] + body == lines[0] + [13, 10] + rest;
    }
  }
}
