/** What the handshake codec promises: exact round trips, a canonical full-length
    form, and which one-byte corruptions the checksum catches. */
module HandshakeLaws {
  import opened Bytes
  import opened HandshakeCodec

  predicate AreWords(modes: seq<int>) {
    forall i :: 0 <= i < |modes| ==> 0 <= modes[i] < 0x1_0000_0000
  }

  /** A handshake whose mode list the wire can carry. */
  predicate Carried(h: Handshake) {
    h.modesCount == |h.modes| && AreWords(h.modes)
  }

  // ------------------------------------------------------------------ mode list

  lemma {:induction false} EncodedModeAt(modes: seq<int>, i: nat)
    requires i < |modes|
    ensures EncodedModes(modes)[4 * i..4 * i + 4] == BE(4, ModeWord(modes[i]))
  {
    var n := |modes| - 1;
    if i < n {
      EncodedModeAt(modes[..n], i);
      assert EncodedModes(modes)[4 * i..4 * i + 4] == EncodedModes(modes[..n])[4 * i..4 * i + 4];
    }
  }

  lemma SliceOfSlice(s: seq<byte>, a: nat, b: nat, i: nat, j: nat)
    requires a <= b <= |s| && i <= j <= b - a
    ensures s[a..b][i..j] == s[a + i..a + j]
  {
    var t := s[a..b];
    forall k | 0 <= k < j - i
      ensures t[i..j][k] == s[a + i..a + j][k]
    {
      assert t[i + k] == s[a + i + k];
    }
  }

  lemma DecodedListOfEncoded(head: seq<byte>, modes: seq<int>, rest: seq<byte>)
    requires |head| == HEADER_LEN && AreWords(modes)
    ensures DecodedModes(head + EncodedModes(modes) + rest, |modes|) == modes
  {
    var blob := EncodedModes(modes);
    var data := head + blob + rest;
    var decoded := DecodedModes(data, |modes|);
    forall i | 0 <= i < |modes|
      ensures decoded[i] == modes[i]
    {
      var at := HEADER_LEN + 4 * i;
      EncodedModeAt(modes, i);
      assert data[HEADER_LEN..HEADER_LEN + |blob|] == blob;
      SliceOfSlice(data, HEADER_LEN, HEADER_LEN + |blob|, 4 * i, 4 * i + 4);
      assert ModeWord(modes[i]) == modes[i];
      U32RoundTrip(modes[i]);
      DecodedModeIndex(data, |modes|, i);
    }
  }

  lemma ModeBytes(data: seq<byte>, i: nat, at: nat)
    requires at == HEADER_LEN + 4 * i && at + 4 <= |data|
    ensures BE(4, ModeWord(ModeAt(data, i))) == data[at..at + 4]
  {
    var v := ModeAt(data, i);
    ModeFits(data, i);
    DivUnique(v, 0x1_0000_0000, 0, v);
    BEOfUInt(data[at..at + 4]);
  }

  lemma Slices(data: seq<byte>, a: nat, b: nat, c: nat)
    requires a <= b <= c <= |data|
    ensures data[a..b] + data[b..c] == data[a..c]
  {}

  lemma {:induction false} EncodedFromWords(modes: seq<int>, blob: seq<byte>)
    requires |blob| == 4 * |modes|
    requires forall i :: 0 <= i < |modes| ==> BE(4, ModeWord(modes[i])) == blob[4 * i..4 * i + 4]
    ensures EncodedModes(modes) == blob
  {
    if modes != [] {
      var n := |modes| - 1;
      forall i | 0 <= i < n
        ensures BE(4, ModeWord(modes[..n][i])) == blob[..4 * n][4 * i..4 * i + 4]
      {
        assert blob[..4 * n][4 * i..4 * i + 4] == blob[4 * i..4 * i + 4];
      }
      EncodedFromWords(modes[..n], blob[..4 * n]);
      assert blob == blob[..4 * n] + blob[4 * n..4 * n + 4];
    }
  }

  lemma EncodedListOfDecoded(data: seq<byte>, n: nat)
    requires HEADER_LEN + 4 * n <= |data|
    ensures EncodedModes(DecodedModes(data, n)) == data[HEADER_LEN..HEADER_LEN + 4 * n]
  {
    var blob := data[HEADER_LEN..HEADER_LEN + 4 * n];
    forall i | 0 <= i < n
      ensures BE(4, ModeWord(DecodedModes(data, n)[i])) == blob[4 * i..4 * i + 4]
    {
      var at := HEADER_LEN + 4 * i;
      DecodedModeIndex(data, n, i);
      ModeBytes(data, i, at);
      SliceOfSlice(data, HEADER_LEN, HEADER_LEN + 4 * n, 4 * i, 4 * i + 4);
    }
    EncodedFromWords(DecodedModes(data, n), blob);
  }

  // ----------------------------------------------------------------- round trip

  lemma TailRoundTrip(h: Handshake, first: u32)
    ensures ParsedTail(Tail(h), first) ==
            TailFields(h.currentMode, h.timestamp, h.nonce, h.sequence, h.checksum)
  {
    var cm, ts, sq := BE(4, h.currentMode), BE(8, h.timestamp), BE(8, h.sequence);
    var b0 := Tail(h);
    var b1 := ts + h.nonce + sq + [h.checksum];
    var b2 := h.nonce + sq + [h.checksum];
    var b3 := sq + [h.checksum];
    assert b0[..4] == cm && Drop(b0, 4) == b1;
    assert b1[..8] == ts && Drop(b1, 8) == b2;
    assert b2[..16] == h.nonce && Drop(b2, 16) == b3;
    assert b3[..8] == sq && Drop(b3, 8) == [h.checksum];
    U32RoundTrip(h.currentMode);
    U64RoundTrip(h.timestamp);
    U64RoundTrip(h.sequence);
  }

  lemma HeaderRoundTrip(h: Handshake, rest: seq<byte>)
    ensures var data := Header(h) + rest;
            && data[..4] == h.magic && data[4] == h.kind && data[5] == h.version
            && Interval(data) == h.switchInterval && data[10] == h.modesCount
  {
    var data := Header(h) + rest;
    assert data[..4] == h.magic;
    assert data[6..10] == BE(4, h.switchInterval);
    U32RoundTrip(h.switchInterval);
  }

  /** What the receiver takes for the current mode: without a tail, the first mode. */
  function EffectiveMode(h: Handshake): int
    requires h.currentMode != 0 || |h.modes| > 0
  {
    if h.currentMode != 0 then h.currentMode else h.modes[0]
  }

  lemma EncodingLayout(h: Handshake)
    requires h.modesCount == |h.modes|
    ensures var data := Encoding(h);
            var tail := if h.currentMode != 0 then Tail(h) else [];
            && HEADER_LEN + 4 * |h.modes| <= |data| && data[10] == |h.modes|
            && data[..4] == h.magic && data[4] == h.kind && data[5] == h.version
            && Interval(data) == h.switchInterval
            && data[HEADER_LEN + 4 * |h.modes|..] == tail
  {
    var tail := if h.currentMode != 0 then Tail(h) else [];
    HeaderRoundTrip(h, EncodedModes(h.modes) + tail);
    assert Encoding(h) == Header(h) + (EncodedModes(h.modes) + tail);
  }

  lemma ListRoundTrip(h: Handshake)
    requires Carried(h)
    ensures HEADER_LEN + 4 * |h.modes| <= |Encoding(h)|
    ensures DecodedModes(Encoding(h), |h.modes|) == h.modes
    ensures |h.modes| > 0 ==> ModeAt(Encoding(h), 0) == h.modes[0]
  {
    DecodedListOfEncoded(Header(h), h.modes, if h.currentMode != 0 then Tail(h) else []);
    assert Encoding(h) == Header(h) + EncodedModes(h.modes) + if h.currentMode != 0 then Tail(h) else [];
    if |h.modes| > 0 {
      DecodedModeIndex(Encoding(h), |h.modes|, 0);
    }
  }

  lemma ParsedEncoding(h: Handshake)
    requires Carried(h)
    requires h.currentMode != 0 || |h.modes| > 0
    ensures HEADER_LEN + 4 * |h.modes| <= |Encoding(h)| && Encoding(h)[10] == |h.modes|
    ensures var g := Parsed(Encoding(h));
            && g.magic == h.magic && g.kind == h.kind && g.version == h.version
            && g.switchInterval == h.switchInterval && g.modesCount == h.modesCount
            && g.modes == h.modes && g.currentMode == EffectiveMode(h)
            && (h.currentMode != 0 ==> g == h)
            && (h.currentMode == 0 ==> g.timestamp == 0)
  {
    EncodingLayout(h);
    ListRoundTrip(h);
    if h.currentMode != 0 {
      TailRoundTrip(h, FirstMode(Encoding(h)));
    }
  }

  lemma EncodedLength(h: Handshake)
    ensures |Encoding(h)| == HEADER_LEN + 4 * |h.modes| + if h.currentMode != 0 then TAIL_LEN else 0
    ensures |h.modes| <= 255 ==> |Encoding(h)| <= 1068
  {}

  lemma TailLayout(h: Handshake)
    ensures var t := Tail(h);
            && UInt(t[..4]) == h.currentMode && UInt(t[4..12]) == h.timestamp && t[12..28] == h.nonce
            && UInt(t[28..36]) == h.sequence && t[36] == h.checksum
  {
    var t := Tail(h);
    assert t[..4] == BE(4, h.currentMode) && t[4..12] == BE(8, h.timestamp) && t[28..36] == BE(8, h.sequence);
    U32RoundTrip(h.currentMode);
    U64RoundTrip(h.timestamp);
    U64RoundTrip(h.sequence);
  }

  lemma ModesLayout(h: Handshake, i: nat)
    requires Carried(h) && i < |h.modes|
    ensures 15 + 4 * i <= |Encoding(h)| && UInt(Encoding(h)[11 + 4 * i..15 + 4 * i]) == h.modes[i]
  {
    ListRoundTrip(h);
    DecodedModeIndex(Encoding(h), |h.modes|, i);
  }

  /** Where everything is on the wire, in byte offsets. */
  lemma WireLayout(h: Handshake)
    requires Carried(h) && h.currentMode != 0
    ensures var e, n := Encoding(h), 11 + 4 * |h.modes|;
            && |e| == n + 37
            && e[..4] == h.magic && e[4] == h.kind && e[5] == h.version
            && UInt(e[6..10]) == h.switchInterval && e[10] as int == |h.modes|
            && (forall i :: 0 <= i < |h.modes| ==> UInt(e[11 + 4 * i..15 + 4 * i]) == h.modes[i])
            && UInt(e[n..n + 4]) == h.currentMode && UInt(e[n + 4..n + 12]) == h.timestamp
            && e[n + 12..n + 28] == h.nonce && UInt(e[n + 28..n + 36]) == h.sequence && e[n + 36] == h.checksum
  {
    var e, n, t := Encoding(h), 11 + 4 * |h.modes|, Tail(h);
    EncodedLength(h);
    EncodingLayout(h);
    TailLayout(h);
    hide Encoding, Tail, BE, UInt;
    assert e[n..] == t;
    assert e[n..n + 4] == t[..4] && e[n + 4..n + 12] == t[4..12] && e[n + 12..n + 28] == t[12..28];
    assert e[n + 28..n + 36] == t[28..36] && e[n + 36] == t[36];
    forall i | 0 <= i < |h.modes|
      ensures UInt(e[11 + 4 * i..15 + 4 * i]) == h.modes[i]
    {
      ModesLayout(h, i);
    }
  }

  lemma DecodedIsCarried(h: Handshake)
    requires Decode(Encoding(h)) == Decoded(h)
    ensures Carried(h) && (h.currentMode != 0 || |h.modes| > 0)
  {
    var data := Encoding(h);
    var n: nat := data[10];
    assert h.modes == DecodedModes(data, n);
    forall i | 0 <= i < n
      ensures 0 <= h.modes[i] < 0x1_0000_0000
    {
      ModeFits(data, i);
      DecodedModeIndex(data, n, i);
    }
  }

  /** Whatever a receiver decodes from a carried handshake has the sender's type,
      interval and mode list, and its current mode unless that was zero. */
  lemma DecodedAgrees(h: Handshake)
    requires Carried(h)
    ensures Decode(Encoding(h)).Panics? <==> h.currentMode == 0 && h.modes == []
    ensures h.currentMode != 0 ==> Decode(Encoding(h)) == if Verified(h) then Decoded(h) else Rejected(ChecksumMismatch)
    ensures var r := Decode(Encoding(h));
            r.Decoded? ==>
              && (h.currentMode != 0 || |h.modes| > 0)
              && r.h.kind == h.kind && r.h.switchInterval == h.switchInterval
              && r.h.modes == h.modes && r.h.currentMode == EffectiveMode(h)
  {
    if h.currentMode != 0 || |h.modes| > 0 {
      ParsedEncoding(h);
    } else {
      HeaderRoundTrip(h, []);
      assert Encoding(h) == Header(h) + [];
    }
  }

  // ------------------------------------------------------- without a tail

  lemma {:induction false} FoldZeros(start: byte, n: nat)
    ensures FoldXor(start, Zeros(n)) == start
  {
    if n > 0 {
      FoldZeros(start, n - 1);
      assert Zeros(n)[..n - 1] == Zeros(n - 1);
      XorLaws(start, 0, 0);
    }
  }

  lemma {:induction false} ZeroField(n: nat)
    ensures BE(n, 0) == Zeros(n)
  {
    if n > 0 {
      ZeroField(n - 1);
    }
  }

  /** What the receiver makes of an encoding without a tail. */
  function WithoutTail(h: Handshake): Handshake
    requires Carried(h) && |h.modes| > 0
  {
    h.(currentMode := h.modes[0], timestamp := 0, nonce := Zeros(16), sequence := 0, checksum := 0)
  }

  lemma TaillessParsed(h: Handshake)
    requires Carried(h) && h.currentMode == 0 && |h.modes| > 0
    ensures HEADER_LEN + 4 * |h.modes| == |Encoding(h)| && Encoding(h)[10] == |h.modes|
    ensures Parsed(Encoding(h)) == WithoutTail(h)
  {
    ParsedEncoding(h);
    EncodingLayout(h);
    EncodedLength(h);
  }

  lemma TaillessChecksum(h: Handshake)
    requires Carried(h) && |h.modes| > 0
    ensures Checksum(WithoutTail(h)) == FoldXor(0, Header(h) + LowBytes(h.modes) + BE(4, h.modes[0]))
  {
    var g := WithoutTail(h);
    var sent := Header(h) + LowBytes(h.modes) + BE(4, h.modes[0]);
    ZeroField(8);
    assert Zeros(16) + Zeros(8) + Zeros(8) == Zeros(32);
    assert Trailer(g) == BE(4, h.modes[0]) + (Zeros(16) + Zeros(8) + Zeros(8));
    assert Header(g) == Header(h);
    assert Covered(g) == sent + Zeros(32);
    FoldAppend(0, sent, Zeros(32));
    FoldZeros(FoldXor(0, sent), 32);
  }

  /** A handshake with a zero current mode loses its checksum with its tail: it is
      accepted exactly when what is left of it happens to sum to zero. */
  lemma TaillessAccepted(h: Handshake)
    requires Carried(h) && Verified(h) && h.currentMode == 0 && |h.modes| > 0
    ensures Decode(Encoding(h)).Decoded? <==>
            FoldXor(0, Header(h) + LowBytes(h.modes) + BE(4, h.modes[0])) == 0
  {
    TaillessParsed(h);
    TaillessChecksum(h);
  }

  /** Nothing is lost with the tail: it holds only zeros, and the first mode is zero. */
  predicate EmptyTail(h: Handshake) {
    && |h.modes| > 0 && h.modes[0] == 0
    && h.timestamp == 0 && h.nonce == Zeros(16) && h.sequence == 0 && h.checksum == 0
  }

  lemma RoundTripOf(h: Handshake)
    requires Verified(h)
    ensures Decode(Encoding(h)) == Decoded(h) <==> Carried(h) && (h.currentMode != 0 || EmptyTail(h))
  {
    if Decode(Encoding(h)) == Decoded(h) {
      DecodedIsCarried(h);
    }
    if Carried(h) {
      if h.currentMode != 0 {
        DecodedAgrees(h);
      } else if |h.modes| > 0 {
        TaillessParsed(h);
      }
    }
  }

  /** The codec loses nothing exactly when the list has at most 255 entries, every mode
      fits 32 bits, and the current mode's word is not zero or the tail would be empty. */
  lemma RoundTrip(kind: byte, interval: u32, modes: seq<int>, currentMode: int,
                  sequence: u64, clock: u64, nonce: Nonce)
    ensures var h := NewHandshake(kind, interval, modes, currentMode, sequence, clock, nonce);
            Decode(Encoding(h)) == Decoded(h) <==>
            |modes| <= 255 && AreWords(modes) && (ModeWord(currentMode) != 0 || EmptyTail(h))
  {
    var h := NewHandshake(kind, interval, modes, currentMode, sequence, clock, nonce);
    if |modes| <= 255 {
      DivUnique(|modes|, 256, 0, |modes|);
    }
    RoundTripOf(h);
  }

  /** Which bytes end how: too few for the header or the list is the error of a wrong
      magic number, no list and no current mode after it the panic, and anything else is
      decoded or fails its checksum. */
  lemma OutcomeByLength(data: seq<byte>)
    ensures |data| < 11 ==> Decode(data) == Rejected(InvalidMagic)
    ensures |data| >= 11 ==>
              var need := 11 + 4 * (data[10] as int);
              && (|data| < need <==> Decode(data) == Rejected(InvalidMagic))
              && (Decode(data).Panics? <==> need == 11 && |data| < 15)
              && (|data| >= need && !(need == 11 && |data| < 15) ==>
                    Decode(data) ==
                    if Verified(Parsed(data)) then Decoded(Parsed(data)) else Rejected(ChecksumMismatch))
  {
    hide Parsed, Verified;
  }

  // ----------------------------------------------------------- canonical form

  predicate FullLength(data: seq<byte>) {
    |data| >= HEADER_LEN && |data| == HEADER_LEN + 4 * (data[10] as int) + TAIL_LEN
  }

  lemma CanonicalTail(b: seq<byte>, first: u32)
    requires |b| == TAIL_LEN
    ensures var t := ParsedTail(b, first);
            && BE(4, t.currentMode) == b[..4] && BE(8, t.timestamp) == b[4..12]
            && t.nonce == b[12..28] && BE(8, t.sequence) == b[28..36] && t.checksum == b[36]
  {
    var b1, b2, b3 := b[4..], b[12..], b[28..];
    assert Drop(b, 4) == b1 && Drop(b1, 8) == b2 && Drop(b2, 16) == b3;
    assert b1[..8] == b[4..12] && b2[..16] == b[12..28] && b3[..8] == b[28..36];
    assert Drop(b3, 8) == b[36..];
    BEOfUInt(b[..4]);
    BEOfUInt(b[4..12]);
    BEOfUInt(b[28..36]);
  }

  lemma CanonicalHeader(data: seq<byte>)
    requires |data| >= HEADER_LEN
    ensures data[..4] + [data[4], data[5]] + BE(4, Interval(data)) + [data[10]] == data[..HEADER_LEN]
  {
    BEOfUInt(data[6..10]);
    assert data[..4] + [data[4], data[5]] == data[..6];
    assert data[..6] + data[6..10] == data[..10];
  }

  lemma TailPieces(b: seq<byte>)
    requires |b| == TAIL_LEN
    ensures b[..4] + b[4..12] + b[12..28] + b[28..36] + [b[36]] == b
  {
    assert b[..4] + b[4..12] == b[..12];
    assert b[..12] + b[12..28] == b[..28];
    assert b[..28] + b[28..36] == b[..36];
  }

  lemma ParsedPieces(data: seq<byte>)
    requires FullLength(data)
    ensures Header(Parsed(data)) == data[..HEADER_LEN]
    ensures Tail(Parsed(data)) == data[HEADER_LEN + 4 * (data[10] as int)..]
  {
    var b := data[HEADER_LEN + 4 * (data[10] as int)..];
    CanonicalTail(b, FirstMode(data));
    CanonicalHeader(data);
    TailPieces(b);
  }

  /** An accepted byte string of full length with a non-zero current mode is the
      encoding of what it decodes to, so no two of them decode alike. */
  lemma Canonical(data: seq<byte>)
    requires FullLength(data)
    requires Decode(data).Decoded? && Decode(data).h.currentMode != 0
    ensures Encoding(Decode(data).h) == data
  {
    var n: nat := data[10];
    var at := HEADER_LEN + 4 * n;
    EncodedListOfDecoded(data, n);
    ParsedPieces(data);
    Slices(data, 0, HEADER_LEN, at);
    Slices(data, 0, at, |data|);
    assert data[at..] == data[at..|data|] && data[0..|data|] == data && data[..HEADER_LEN] == data[0..HEADER_LEN];
  }

  // ------------------------------------------------------ one-byte corruption

  /** The three high bytes of a mode in the list, which the checksum skips. */
  predicate SkippedByChecksum(i: nat, n: nat) {
    HEADER_LEN <= i < HEADER_LEN + 4 * n && (i - HEADER_LEN) % 4 != 3
  }

  /** Where byte `i` of a full-length packet stands in the checksum's fold. */
  function FoldPosition(i: nat, n: nat): nat
    requires !SkippedByChecksum(i, n)
  {
    if i < HEADER_LEN then i
    else if i < HEADER_LEN + 4 * n then HEADER_LEN + (i - HEADER_LEN) / 4
    else
      var t := i - HEADER_LEN - 4 * n;
      HEADER_LEN + n + if t < 4 then t else if t < 12 then t + 24 else t - 8
  }

  function PacketIndex(k: nat, n: nat): nat
    requires k < HEADER_LEN + n + TAIL_LEN - 1
  {
    if k < HEADER_LEN then k
    else if k < HEADER_LEN + n then HEADER_LEN + 4 * (k - HEADER_LEN) + 3
    else
      var t := k - HEADER_LEN - n;
      HEADER_LEN + 4 * n + if t < 4 then t else if t < 28 then t + 8 else t - 24
  }

  lemma PositionsMatch(k: nat, i: nat, n: nat)
    requires k < HEADER_LEN + n + TAIL_LEN - 1 && i < HEADER_LEN + 4 * n + TAIL_LEN - 1
    ensures PacketIndex(k, n) < HEADER_LEN + 4 * n + TAIL_LEN - 1
    ensures !SkippedByChecksum(PacketIndex(k, n), n)
    ensures PacketIndex(k, n) == i && !SkippedByChecksum(i, n) ==> k == FoldPosition(i, n)
    ensures !SkippedByChecksum(i, n) ==>
              FoldPosition(i, n) < HEADER_LEN + n + TAIL_LEN - 1 && PacketIndex(FoldPosition(i, n), n) == i
  {}

  lemma LowByteAt(data: seq<byte>, i: nat)
    requires HEADER_LEN + 4 * i + 4 <= |data|
    ensures ByteOf(ModeAt(data, i)) == data[HEADER_LEN + 4 * i + 3]
  {
    var s := data[HEADER_LEN + 4 * i..HEADER_LEN + 4 * i + 4];
    assert UInt(s) == UIntTo(s, 3) * 256 + s[3];
  }

  lemma CoveredPieces(data: seq<byte>)
    requires FullLength(data)
    ensures var b := data[HEADER_LEN + 4 * (data[10] as int)..];
            Covered(Parsed(data)) ==
            data[..HEADER_LEN] + LowBytes(DecodedModes(data, data[10])) + (b[..4] + b[12..28] + b[28..36] + b[4..12])
  {
    CanonicalHeader(data);
    CanonicalTail(data[HEADER_LEN + 4 * (data[10] as int)..], FirstMode(data));
  }

  /** The fold runs over `s`, byte `k` of which is byte `PacketIndex(k, n)` of the packet. */
  ghost predicate Mirrors(s: seq<byte>, data: seq<byte>, n: nat) {
    && |s| == HEADER_LEN + n + TAIL_LEN - 1
    && |data| == HEADER_LEN + 4 * n + TAIL_LEN
    && forall k :: 0 <= k < |s| ==> PacketIndex(k, n) < |data| && s[k] == data[PacketIndex(k, n)]
  }

  lemma TrailerIndex(b: seq<byte>, t: nat)
    requires |b| == TAIL_LEN && t < TAIL_LEN - 1
    ensures (b[..4] + b[12..28] + b[28..36] + b[4..12])[t] ==
            b[if t < 4 then t else if t < 28 then t + 8 else t - 24]
  {}

  lemma PiecesMirror(data: seq<byte>, lows: seq<byte>, n: nat)
    requires |data| == HEADER_LEN + 4 * n + TAIL_LEN && |lows| == n
    requires forall i :: 0 <= i < n ==> lows[i] == data[HEADER_LEN + 4 * i + 3]
    ensures var b := data[HEADER_LEN + 4 * n..];
            Mirrors(data[..HEADER_LEN] + lows + (b[..4] + b[12..28] + b[28..36] + b[4..12]), data, n)
  {
    var b := data[HEADER_LEN + 4 * n..];
    var trailer := b[..4] + b[12..28] + b[28..36] + b[4..12];
    var s := data[..HEADER_LEN] + lows + trailer;
    forall k | 0 <= k < |s|
      ensures PacketIndex(k, n) < |data| && s[k] == data[PacketIndex(k, n)]
    {
      if HEADER_LEN + n <= k {
        TrailerIndex(b, k - HEADER_LEN - n);
      }
    }
  }

  lemma LowBytesOfPacket(data: seq<byte>, n: nat)
    requires HEADER_LEN + 4 * n <= |data|
    ensures forall i :: 0 <= i < n ==> LowBytes(DecodedModes(data, n))[i] == data[HEADER_LEN + 4 * i + 3]
  {
    forall i | 0 <= i < n
      ensures LowBytes(DecodedModes(data, n))[i] == data[HEADER_LEN + 4 * i + 3]
    {
      LowByteIndex(DecodedModes(data, n), i);
      DecodedModeIndex(data, n, i);
      LowByteAt(data, i);
    }
  }

  lemma CoveredMirrors(data: seq<byte>)
    requires FullLength(data)
    ensures Mirrors(Covered(Parsed(data)), data, data[10])
  {
    CoveredPieces(data);
    LowBytesOfPacket(data, data[10]);
    PiecesMirror(data, LowBytes(DecodedModes(data, data[10])), data[10]);
  }

  lemma ChangedFold(s: seq<byte>, t: seq<byte>, data: seq<byte>, n: nat, i: nat, b: byte)
    requires i < |data| - 1 && b != data[i]
    requires Mirrors(s, data, n) && Mirrors(t, data[i := b], n)
    ensures FoldXor(0, s) == FoldXor(0, t) <==> SkippedByChecksum(i, n)
  {
    if SkippedByChecksum(i, n) {
      forall k | 0 <= k < |s|
        ensures s[k] == t[k]
      {
        PositionsMatch(k, i, n);
      }
      assert s == t;
    } else {
      var j := FoldPosition(i, n);
      PositionsMatch(0, i, n);
      forall k | 0 <= k < |s| && k != j
        ensures s[k] == t[k]
      {
        PositionsMatch(k, i, n);
      }
      FoldOneDifference(0, s, t, j);
    }
  }

  lemma UnchangedFold(s: seq<byte>, t: seq<byte>, data: seq<byte>, n: nat, b: byte)
    requires |data| > 0
    requires Mirrors(s, data, n) && Mirrors(t, data[|data| - 1 := b], n)
    ensures s == t
  {
    forall k | 0 <= k < |s|
      ensures s[k] == t[k]
    {
      PositionsMatch(k, 0, n);
    }
  }

  /** Acceptance of a full-length packet, in terms of its raw bytes. */
  lemma AcceptedExactly(data: seq<byte>)
    requires FullLength(data)
    ensures Decode(data).Decoded? <==>
            data[..4] == MAGIC && data[5] == VERSION && data[|data| - 1] == FoldXor(0, Covered(Parsed(data)))
    ensures !Decode(data).Panics?
  {
    var n: nat := data[10];
    var b := data[HEADER_LEN + 4 * n..];
    CanonicalTail(b, FirstMode(data));
    assert Parsed(data).checksum == b[36] == data[|data| - 1];
  }

  lemma ChangedCovered(data: seq<byte>, i: nat, b: byte)
    requires FullLength(data) && i < |data| && i != 10 && b != data[i]
    ensures var (s, t) := (Covered(Parsed(data)), Covered(Parsed(data[i := b])));
            if i < |data| - 1 then FoldXor(0, s) == FoldXor(0, t) <==> SkippedByChecksum(i, data[10])
            else s == t
  {
    var n: nat := data[10];
    var bad := data[i := b];
    CoveredMirrors(data);
    CoveredMirrors(bad);
    var s, t := Covered(Parsed(data)), Covered(Parsed(bad));
    if i < |data| - 1 {
      ChangedFold(s, t, data, n, i, b);
    } else {
      UnchangedFold(s, t, data, n, b);
    }
  }

  lemma CorruptedPacket(data: seq<byte>, i: nat, b: byte)
    requires FullLength(data) && Decode(data).Decoded?
    requires i < |data| && i != 10 && b != data[i]
    ensures Decode(data[i := b]).Decoded? <==> SkippedByChecksum(i, data[10])
    ensures !Decode(data[i := b]).Panics?
  {
    var bad := data[i := b];
    AcceptedExactly(data);
    AcceptedExactly(bad);
    ChangedCovered(data, i, b);
    assert SkippedByChecksum(i, data[10]) ==> bad[..4] == data[..4] && bad[5] == data[5];
  }

  /** Change any one byte but the mode count of an encoded handshake: the decoder
      still accepts exactly when the byte is a high byte of a listed mode. */
  lemma SingleByteCorruption(h: Handshake, i: nat, b: byte)
    requires Carried(h) && Verified(h) && h.currentMode != 0
    requires i < |Encoding(h)| && i != 10 && b != Encoding(h)[i]
    ensures Decode(Encoding(h)[i := b]).Decoded? <==> SkippedByChecksum(i, |h.modes|)
    ensures !Decode(Encoding(h)[i := b]).Panics?
  {
    var data := Encoding(h);
    ParsedEncoding(h);
    EncodedLength(h);
    assert Decode(data) == Decoded(h);
    CorruptedPacket(data, i, b);
  }
}
