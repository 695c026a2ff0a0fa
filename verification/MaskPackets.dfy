/** The packets that internal/masks writes, as functions of the mask's state, the
    payload and the random padding, and the round trip through each parser. */
module MaskPackets {
  import opened Bytes
  import opened Masks
  import opened Crc16

  const WORD := 0x1_0000_0000

  function Word(n: nat): u32 {
    n % WORD
  }

  lemma SmallWord(n: nat)
    requires n < WORD
    ensures Word(n) == n
  {
    DivUnique(n, WORD, 0, n);
  }

  function TeamsHead(conference: u64, participant: u32, sequence: u32): (s: seq<byte>)
    ensures |s| == 16
  {
    BE(8, conference) + BE(4, participant) + BE(4, sequence)
  }

  function TeamsPacket(head: seq<byte>, noise: seq<byte>, payload: seq<byte>, padding: seq<byte>): seq<byte> {
    head + BE(4, Word(|payload|)) + noise + payload + padding
  }

  function RuTubeHead(m0: byte, m1: byte, chunk: u32, session: u64): (s: seq<byte>)
    ensures |s| == 16
  {
    [m0, m1, 0x00, 0x01] + BE(4, chunk) + BE(8, session)
  }

  function RuTubeHeader(head: seq<byte>, payloadLen: nat, paddingLen: nat): seq<byte> {
    head + BE(4, Word(payloadLen)) + BE(2, if paddingLen > 0 then 1 else 0) + BE(2, paddingLen)
  }

  function RuTubePacket(head: seq<byte>, payload: seq<byte>, padding: seq<byte>): seq<byte> {
    RuTubeHeader(head, |payload|, |padding|) + payload + padding
  }

  /** How WinUpdate and Browser packets begin. */
  function SessionHead(session: u64, number: u32): (s: seq<byte>)
    ensures |s| == 12
  {
    BE(8, session) + BE(4, number)
  }

  function WinUpdateHeader(head: seq<byte>, payload: seq<byte>): seq<byte> {
    head + BE(4, Word(|payload|)) + BE(2, Crc(payload))
  }

  function WinUpdatePacket(head: seq<byte>, payload: seq<byte>): seq<byte> {
    WinUpdateHeader(head, payload) + payload
  }

  function BrowserPacket(head: seq<byte>, payload: seq<byte>, padding: seq<byte>): seq<byte> {
    head + BE(2, |payload| % 0x1_0000) + payload + padding
  }

  // -------------------------------------------------- masks with a fixed header

  /** The header length of a mask whose parser only drops the header. */
  function HeaderLen(kind: Kind): nat {
    match kind
    case Yandex => 38
    case VK => 16
    case Zoom => 22
    case Ozon => 24
    case Wildberries => 20
    case SberID => 32
    case Gosuslugi => 32
    case _ => 0
  }

  lemma HeaderRoundTrip(kind: Kind, header: seq<byte>, payload: seq<byte>)
    requires kind in {Yandex, VK, Zoom, Ozon, Wildberries, SberID, Gosuslugi}
    requires |header| == HeaderLen(kind)
    ensures UnwrapBy(kind, header + payload) == Payload(payload)
  {
    assert (header + payload)[|header|..] == payload;
  }

  // --------------------------------------------------- masks with a length field

  /** Teams packets round-trip exactly for payloads below 2^32 bytes. */
  lemma TeamsRoundTrip(head: seq<byte>, noise: seq<byte>, payload: seq<byte>, padding: seq<byte>)
    requires |head| == 16 && |noise| == 8
    ensures UnwrapTeams(TeamsPacket(head, noise, payload, padding)) == Payload(payload) <==> |payload| < WORD
  {
    var data := TeamsPacket(head, noise, payload, padding);
    var n := Word(|payload|);
    assert data[16..20] == BE(4, n);
    U32RoundTrip(n);
    assert data[28..28 + n] == payload[..n];
    assert |data[28..28 + n]| == n;
  }

  lemma RuTubeRoundTrip(head: seq<byte>, payload: seq<byte>, padding: seq<byte>)
    requires |head| == 16 && |padding| < 32
    ensures UnwrapRuTube(RuTubePacket(head, payload, padding)) == Payload(payload) <==> |payload| < WORD
  {
    var data := RuTubePacket(head, payload, padding);
    var n := Word(|payload|);
    assert data[16..20] == BE(4, n);
    U32RoundTrip(n);
    assert data[22..24] == BE(2, |padding|);
    U16RoundTrip(|padding|);
    assert data[24..24 + n] == payload[..n];
    assert |data[24..24 + n]| == n;
  }

  lemma WinUpdateFields(head: seq<byte>, crc: u16, n: u32, rest: seq<byte>, taken: seq<byte>)
    requires |head| == 12 && |rest| >= n && taken == rest[..n]
    ensures UnwrapWinUpdate(head + BE(4, n) + BE(2, crc) + rest) ==
            if crc == Crc(taken) then Payload(taken) else Fails(CorruptedData)
  {
    var data := head + BE(4, n) + BE(2, crc) + rest;
    assert data[12..16] == BE(4, n);
    U32RoundTrip(n);
    assert data[16..18] == BE(2, crc);
    U16RoundTrip(crc);
    assert data[18..18 + n] == taken;
  }

  lemma WinUpdateRoundTrip(head: seq<byte>, payload: seq<byte>)
    requires |head| == 12
    ensures UnwrapWinUpdate(WinUpdatePacket(head, payload)) == Payload(payload) <==> |payload| < WORD
  {
    var n := Word(|payload|);
    var taken := payload[..n];
    assert |payload| < WORD ==> taken == payload;
    WinUpdateFields(head, Crc(payload), n, payload, taken);
  }

  predicate StartsTls(head: seq<byte>)
    requires |head| >= 2
  {
    head[0] == 0x16 && head[1] == 0x03
  }

  /** Browser packets round-trip exactly when the length fits 16 bits and the
      session id does not make the packet itself look like a TLS record. */
  lemma BrowserRoundTrip(head: seq<byte>, payload: seq<byte>, padding: seq<byte>)
    requires |head| == 12
    ensures UnwrapBrowser(BrowserPacket(head, payload, padding)) == Payload(payload) <==>
            |payload| < 0x1_0000 && !StartsTls(head)
  {
    var data := BrowserPacket(head, payload, padding);
    var n := |payload| % 0x1_0000;
    assert data[0] == head[0] && data[1] == head[1];
    assert data[12..14] == BE(2, n);
    U16RoundTrip(n);
    assert data[14..14 + n] == payload[..n];
    assert |data[14..14 + n]| == n;
  }

  // ------------------------------------------------------------- DNS over HTTPS

  predicate Printable(s: string) {
    forall i :: 0 <= i < |s| ==> ' ' <= s[i] <= '~'
  }

  lemma PlainText(s: string)
    requires Printable(s)
    ensures 13 !in Ascii(s)
  {}

  /** Decimal digits of `n`, as `fmt` prints `%d`. */
  function Digits(n: nat): (s: seq<byte>)
    ensures |s| > 0 && forall i :: 0 <= i < |s| ==> 48 <= s[i] <= 57
  {
    if n < 10 then [48 + n] else Digits(n / 10) + [48 + n % 10]
  }

  /** The number that decimal digits spell. */
  function Spelled(s: seq<byte>): int {
    if s == [] then 0 else Spelled(s[..|s| - 1]) * 10 + (s[|s| - 1] as int - 48)
  }

  lemma {:induction false} DigitsSpell(n: nat)
    ensures Spelled(Digits(n)) == n && (n > 0 ==> Digits(n)[0] != 48)
  {
    if n < 10 {
      assert [48 + n][..0] == [];
    } else {
      DigitsSpell(n / 10);
      var s := Digits(n);
      assert s[..|s| - 1] == Digits(n / 10);
      assert s[0] == Digits(n / 10)[0];
    }
  }

  const POST_LINE := "POST /dns-query HTTP/2"
  const HOST_LINE := "Host: dns.google"
  const TYPE_LINE := "Content-Type: application/dns-message"
  const LENGTH_FIELD := "Content-Length: "
  const DATE_FIELD := "Date: "

  function RequestLines(length: nat, date: seq<byte>): (lines: seq<seq<byte>>)
    ensures |lines| == 5
  {
    [Ascii(POST_LINE), Ascii(HOST_LINE), Ascii(TYPE_LINE),
     Ascii(LENGTH_FIELD) + Digits(length), Ascii(DATE_FIELD) + date]
  }

  function Query(id: u16, payload: seq<byte>): seq<byte> {
    BE(2, id) + BE(2, 0x0100) + BE(2, 1) + BE(2, 0) + BE(2, 0) + BE(2, 0) + payload
  }

  function DoHPacket(id: u16, date: seq<byte>, payload: seq<byte>): seq<byte> {
    Lines(RequestLines(|Query(id, payload)|, date)) + [13, 10] + Query(id, payload)
  }

  lemma FixedText()
    ensures Printable(POST_LINE) && Printable(HOST_LINE) && Printable(TYPE_LINE)
    ensures Printable(LENGTH_FIELD) && Printable(DATE_FIELD)
    ensures |POST_LINE| > 0 && |HOST_LINE| > 0 && |TYPE_LINE| > 0 && |LENGTH_FIELD| > 0 && |DATE_FIELD| > 0
  {}

  lemma RequestLinesPlain(length: nat, date: seq<byte>)
    requires 13 !in date
    ensures forall i :: 0 <= i < 5 ==> PlainLine(RequestLines(length, date)[i])
  {
    FixedText();
    PlainText(POST_LINE);
    PlainText(HOST_LINE);
    PlainText(TYPE_LINE);
    PlainText(LENGTH_FIELD);
    PlainText(DATE_FIELD);
  }

  lemma BodyFound(header: seq<byte>, body: seq<byte>)
    requires |header| >= 2 && |body| >= 12
    requires BlankLineIn(header + [13, 10] + body) == |header| - 2
    ensures UnwrapDoH(header + [13, 10] + body) == Payload(body[12..])
  {
    assert (header + [13, 10] + body)[|header| + 2..] == body;
  }

  /** The first blank line is the header's own even when the payload holds one. */
  lemma DoHRoundTrip(id: u16, date: seq<byte>, payload: seq<byte>)
    requires 13 !in date
    ensures UnwrapDoH(DoHPacket(id, date, payload)) == Payload(payload)
  {
    var query := Query(id, payload);
    var lines := RequestLines(|query|, date);
    RequestLinesPlain(|query|, date);
    HeaderEnds(lines, query);
    assert query[12..] == payload;
    BodyFound(Lines(lines), query);
  }

  // ------------------------------------------------------- corruption detection

  lemma SameChecksum(a: seq<byte>, b: seq<byte>)
    requires |a| == |b|
    ensures Crc(a) == Crc(b) <==> Crc(XorSeq(a, b)) == 0
  {
    Group(0, 0, 0);
    CrcLinear(0, 0, a, b);
    Group(Crc(a), Crc(b), 0);
    if Crc(XorSeq(a, b)) == 0 {
      ZeroSum(Crc(a), Crc(b));
    }
  }

  /** Replace the payload of a WinUpdate packet by one of the same length: the
      parser reports corruption exactly when the checksum of the difference is
      not zero. */
  lemma CorruptionExactly(head: seq<byte>, payload: seq<byte>, changed: seq<byte>)
    requires |head| == 12 && |payload| == |changed| < WORD
    ensures var data := WinUpdateHeader(head, payload) + changed;
            UnwrapWinUpdate(data) ==
            if Crc(XorSeq(payload, changed)) == 0 then Payload(changed) else Fails(CorruptedData)
  {
    SmallWord(|payload|);
    assert changed[..|payload|] == changed;
    WinUpdateFields(head, Crc(payload), |payload|, changed, changed);
    SameChecksum(payload, changed);
  }

  lemma DifferenceBytes(a: seq<byte>, b: seq<byte>, i: nat)
    requires i < |a| == |b|
    ensures XorSeq(a, b)[i] == 0 <==> a[i] == b[i]
  {
    XorSeqAt(a, b, i);
    XorLaws(a[i], a[i], b[i]);
    assert Pow2(4) == 16 && Pow2(8) == 256;
    XorBitsSelf(8, a[i]);
  }

  lemma SameBytesCancel(a: seq<byte>, b: seq<byte>, lo: nat, hi: nat)
    requires |a| == |b| && lo <= hi <= |a|
    requires a[lo..hi] == b[lo..hi]
    ensures IsZero(XorSeq(a, b)[lo..hi])
  {
    forall k | lo <= k < hi
      ensures XorSeq(a, b)[k] == 0
    {
      DifferenceBytes(a, b, k);
      assert a[lo..hi][k - lo] == b[lo..hi][k - lo];
    }
  }

  lemma NonZeroPair(a: seq<byte>, b: seq<byte>, i: nat)
    requires |a| == |b| && i + 1 < |a| && a != b
    requires a[..i] == b[..i] && a[i + 2..] == b[i + 2..]
    ensures XorSeq(a, b)[i] != 0 || XorSeq(a, b)[i + 1] != 0
  {
    DifferenceBytes(a, b, i);
    DifferenceBytes(a, b, i + 1);
    forall k | 0 <= k < |a| && k != i && k != i + 1
      ensures a[k] == b[k]
    {
      if k < i {
        assert a[..i][k] == b[..i][k];
      } else {
        assert a[i + 2..][k - i - 2] == b[i + 2..][k - i - 2];
      }
    }
    assert a[i] == b[i] && a[i + 1] == b[i + 1] ==> a == b;
  }

  lemma PairDetected(d: seq<byte>, i: nat)
    requires i + 1 < |d| && (d[i] != 0 || d[i + 1] != 0)
    requires IsZero(d[0..i]) && IsZero(d[i + 2..|d|])
    ensures Crc(d) != 0
  {
    TwoByteBurst(d[i], d[i + 1]);
    BurstInZeros(d[0..i], [d[i], d[i + 1]], d[i + 2..|d|]);
    assert d == d[0..i] + [d[i], d[i + 1]] + d[i + 2..|d|];
  }

  /** Any change confined to two adjacent payload bytes is reported, for payloads
      of any length the format carries. */
  lemma AdjacentBytesDetected(head: seq<byte>, payload: seq<byte>, changed: seq<byte>, i: nat)
    requires |head| == 12 && |payload| == |changed| < WORD
    requires i + 1 < |payload| && payload != changed
    requires payload[..i] == changed[..i] && payload[i + 2..] == changed[i + 2..]
    ensures UnwrapWinUpdate(WinUpdateHeader(head, payload) + changed) == Fails(CorruptedData)
  {
    CorruptionExactly(head, payload, changed);
    SameBytesCancel(payload, changed, 0, i);
    SameBytesCancel(payload, changed, i + 2, |payload|);
    NonZeroPair(payload, changed, i);
    PairDetected(XorSeq(payload, changed), i);
  }

  lemma RunDetected(d: seq<byte>, i: nat, w: u16, k: nat)
    requires i + 2 < |d| && w != 0 && IsBurst(d[i], d[i + 1], d[i + 2], w, k)
    requires IsZero(d[0..i]) && IsZero(d[i + 3..|d|])
    ensures Crc(d) != 0
  {
    UnalignedBurst(d[i], d[i + 1], d[i + 2], w, k);
    BurstInZeros(d[0..i], [d[i], d[i + 1], d[i + 2]], d[i + 3..|d|]);
    assert d == d[0..i] + [d[i], d[i + 1], d[i + 2]] + d[i + 3..|d|];
  }

  /** So is any change confined to sixteen consecutive bits at any bit offset. */
  lemma SixteenBitsDetected(head: seq<byte>, payload: seq<byte>, changed: seq<byte>, i: nat, w: u16, k: nat)
    requires |head| == 12 && |payload| == |changed| < WORD
    requires i + 2 < |payload| && w != 0
    requires payload[..i] == changed[..i] && payload[i + 3..] == changed[i + 3..]
    requires IsBurst(Xor(payload[i], changed[i]), Xor(payload[i + 1], changed[i + 1]),
                     Xor(payload[i + 2], changed[i + 2]), w, k)
    ensures UnwrapWinUpdate(WinUpdateHeader(head, payload) + changed) == Fails(CorruptedData)
  {
    CorruptionExactly(head, payload, changed);
    SameBytesCancel(payload, changed, 0, i);
    SameBytesCancel(payload, changed, i + 3, |payload|);
    XorSeqAt(payload, changed, i);
    XorSeqAt(payload, changed, i + 1);
    XorSeqAt(payload, changed, i + 2);
    RunDetected(XorSeq(payload, changed), i, w, k);
  }

  lemma {:induction false} XorWithZeros(s: seq<byte>)
    ensures XorSeq(Zeros(|s|), s) == s
  {
    forall k | 0 <= k < |s|
      ensures XorSeq(Zeros(|s|), s)[k] == s[k]
    {
      XorSeqAt(Zeros(|s|), s, k);
      XorLaws(s[k], 0, 0);
    }
  }

  /** The guarantee ends there: three bytes can change unnoticed. */
  lemma SeventeenBitsUndetected(head: seq<byte>)
    requires |head| == 12
    ensures UnwrapWinUpdate(WinUpdateHeader(head, [0, 0, 0]) + [0x01, 0x10, 0x21]) ==
            Payload([0x01, 0x10, 0x21])
  {
    hide XorSeq, UnwrapWinUpdate, WinUpdateHeader, Crc;
    var changed: seq<byte> := [0x01, 0x10, 0x21];
    assert Zeros(3) == [0, 0, 0];
    XorWithZeros(changed);
    CorruptionExactly(head, [0, 0, 0], changed);
    GeneratorUndetected();
  }
}
