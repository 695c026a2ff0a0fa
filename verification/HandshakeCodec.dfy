/** The handshake packet of internal/shred/handshake.go: its checksum, its
    variable-length encoding and its tolerant decoder. */
module HandshakeCodec {
  import opened Bytes

  const MAGIC: seq<byte> := [0xDE, 0xAD, 0xBE, 0xEF]
  const SYN: byte := 0x01
  const ACK: byte := 0x02
  const FIN: byte := 0x03
  const VERSION: byte := 1
  const HEADER_LEN := 11
  const TAIL_LEN := 37

  /** `modes` are Go `int`s; the wire carries only their low 32 bits. */
  datatype Fields = Fields(
    magic: seq<byte>, kind: byte, version: byte, switchInterval: u32,
    modesCount: byte, modes: seq<int>, currentMode: u32, timestamp: u64,
    nonce: seq<byte>, sequence: u64, checksum: byte)

  type Handshake = h: Fields | |h.magic| == 4 && |h.nonce| == 16
    witness Fields(Zeros(4), 0, 0, 0, 0, [], 0, 0, Zeros(16), 0, 0)

  type Nonce = s: seq<byte> | |s| == 16 witness Zeros(16)

  datatype DecodeError = InvalidMagic | ChecksumMismatch

  /** `Panics` is the out-of-range index that `h.Modes[0]` is when the list is empty. */
  datatype Decoded = Decoded(h: Handshake) | Rejected(error: DecodeError) | Panics

  // ------------------------------------------------------------- specification

  function ModeWord(mode: int): u32 {
    mode % 0x1_0000_0000
  }

  function LowBytes(modes: seq<int>): (s: seq<byte>)
    ensures |s| == |modes|
  {
    if modes == [] then [] else LowBytes(modes[..|modes| - 1]) + [ByteOf(modes[|modes| - 1])]
  }

  function EncodedModes(modes: seq<int>): (s: seq<byte>)
    ensures |s| == 4 * |modes|
  {
    if modes == [] then [] else
    EncodedModes(modes[..|modes| - 1]) + BE(4, ModeWord(modes[|modes| - 1]))
  }

  function Header(h: Handshake): (s: seq<byte>)
    ensures |s| == HEADER_LEN
  {
    h.magic + [h.kind, h.version] + BE(4, h.switchInterval) + [h.modesCount]
  }

  function Tail(h: Handshake): (s: seq<byte>)
    ensures |s| == TAIL_LEN
  {
    BE(4, h.currentMode) + BE(8, h.timestamp) + h.nonce + BE(8, h.sequence) + [h.checksum]
  }

  function Encoding(h: Handshake): seq<byte> {
    Header(h) + EncodedModes(h.modes) + if h.currentMode != 0 then Tail(h) else []
  }

  /** What the checksum folds after the mode list, in the order of the fold. */
  function Trailer(h: Handshake): (s: seq<byte>)
    ensures |s| == TAIL_LEN - 1
  {
    BE(4, h.currentMode) + h.nonce + BE(8, h.sequence) + BE(8, h.timestamp)
  }

  /** The bytes that the checksum folds, in the order of the fold. */
  function Covered(h: Handshake): (s: seq<byte>)
    ensures |s| == HEADER_LEN + |h.modes| + TAIL_LEN - 1
  {
    Header(h) + LowBytes(h.modes) + Trailer(h)
  }

  function Checksum(h: Handshake): byte {
    FoldXor(0, Covered(h))
  }

  predicate Verified(h: Handshake) {
    h.magic == MAGIC && h.version == VERSION && h.checksum == Checksum(h)
  }

  function ModeAt(data: seq<byte>, i: nat): int
    requires HEADER_LEN + 4 * i + 4 <= |data|
  {
    UInt(data[HEADER_LEN + 4 * i..HEADER_LEN + 4 * i + 4])
  }

  function DecodedModes(data: seq<byte>, n: nat): (modes: seq<int>)
    requires HEADER_LEN + 4 * n <= |data|
    ensures |modes| == n
  {
    if n == 0 then [] else DecodedModes(data, n - 1) + [ModeAt(data, n - 1)]
  }

  lemma {:induction false} DecodedModeIndex(data: seq<byte>, n: nat, i: nat)
    requires HEADER_LEN + 4 * n <= |data| && i < n
    ensures DecodedModes(data, n)[i] == ModeAt(data, i)
  {
    if i < n - 1 {
      DecodedModeIndex(data, n - 1, i);
    }
  }

  lemma {:induction false} LowByteIndex(modes: seq<int>, i: nat)
    requires i < |modes|
    ensures LowBytes(modes)[i] == ByteOf(modes[i])
  {
    if i < |modes| - 1 {
      LowByteIndex(modes[..|modes| - 1], i);
    }
  }

  function Drop(s: seq<byte>, n: nat): seq<byte> {
    if |s| >= n then s[n..] else s
  }

  function Number(s: seq<byte>, n: nat, absent: nat): (v: nat)
    ensures |s| >= n ==> v < Pow256(n)
    ensures |s| < n ==> v == absent
  {
    if |s| >= n then BEOfUInt(s[..n]); UInt(s[..n]) else absent
  }

  datatype TailFields = TailFields(
    currentMode: u32, timestamp: u64, nonce: Nonce, sequence: u64, checksum: byte)

  /** Each trailing field is read only when enough bytes are left for it, and a
      field that is skipped leaves its bytes to the next one. */
  function ParsedTail(b0: seq<byte>, first: u32): TailFields {
    PowerValues();
    var b1 := Drop(b0, 4);
    var b2 := Drop(b1, 8);
    var b3 := Drop(b2, 16);
    var b4 := Drop(b3, 8);
    TailFields(Number(b0, 4, first),
               Number(b1, 8, 0),
               if |b2| >= 16 then b2[..16] else Zeros(16),
               Number(b3, 8, 0),
               if |b4| > 0 then b4[0] else 0)
  }

  lemma ModeFits(data: seq<byte>, i: nat)
    requires HEADER_LEN + 4 * i + 4 <= |data|
    ensures 0 <= ModeAt(data, i) < 0x1_0000_0000
  {
    PowerValues();
    BEOfUInt(data[HEADER_LEN + 4 * i..HEADER_LEN + 4 * i + 4]);
  }

  function FirstMode(data: seq<byte>): u32
    requires HEADER_LEN <= |data| && HEADER_LEN + 4 * (data[10] as int) <= |data|
  {
    if data[10] == 0 then 0 else ModeFits(data, 0); ModeAt(data, 0)
  }

  function Interval(data: seq<byte>): u32
    requires |data| >= 10
  {
    PowerValues();
    BEOfUInt(data[6..10]);
    UInt(data[6..10])
  }

  function Parsed(data: seq<byte>): Handshake
    requires HEADER_LEN <= |data|
    requires HEADER_LEN + 4 * (data[10] as int) <= |data|
    requires data[10] > 0 || |data| >= HEADER_LEN + 4
  {
    var n: nat := data[10];
    var modes := DecodedModes(data, n);
    var tail := ParsedTail(data[HEADER_LEN + 4 * n..], FirstMode(data));
    Fields(data[..4], data[4], data[5], Interval(data), data[10], modes,
           tail.currentMode, tail.timestamp, tail.nonce, tail.sequence, tail.checksum)
  }

  function Decode(data: seq<byte>): Decoded {
    if |data| < HEADER_LEN then Rejected(InvalidMagic)
    else if |data| < HEADER_LEN + 4 * (data[10] as int) then Rejected(InvalidMagic)
    else if data[10] == 0 && |data| < HEADER_LEN + 4 then Panics
    else if Verified(Parsed(data)) then Decoded(Parsed(data))
    else Rejected(ChecksumMismatch)
  }

  // ---------------------------------------------------------------- operations

  lemma Shifts(v: nat)
    ensures BE(4, v) == [ByteOf(v / 0x100_0000), ByteOf(v / 0x1_0000), ByteOf(v / 0x100), ByteOf(v)]
  {
    var w := v / 256;
    assert w / 256 == v / 0x1_0000;
    assert w / 256 / 256 == v / 0x100_0000;
    assert BE(1, w / 256 / 256) == [ByteOf(w / 256 / 256)];
    assert BE(2, w / 256) == [ByteOf(w / 256 / 256), ByteOf(w / 256)];
    assert BE(3, w) == [ByteOf(w / 256 / 256), ByteOf(w / 256), ByteOf(w)];
  }

  lemma Shifts64(v: nat)
    ensures BE(8, v) == BE(4, v / 0x1_0000_0000) + BE(4, v)
  {
    var w := v / 0x1_0000;
    assert v / 256 / 256 == w && w / 256 / 256 == v / 0x1_0000_0000;
    assert BE(8, v) == BE(6, w) + [ByteOf(v / 256), ByteOf(v)] by {
      assert BE(7, v / 256) == BE(6, w) + [ByteOf(v / 256)];
    }
    assert BE(6, w) == BE(4, w / 256 / 256) + [ByteOf(w / 256), ByteOf(w)] by {
      assert BE(5, w / 256) == BE(4, w / 256 / 256) + [ByteOf(w / 256)];
    }
    Shifts(v);
    assert w / 256 == v / 0x100_0000;
  }

  lemma FoldOne(start: byte, b: byte)
    ensures FoldXor(start, [b]) == Xor(start, b)
  {
    var s := [b];
    assert s[..0] == [];
    assert FoldXor(start, s[..0]) == start;
  }

  lemma FoldFour(start: byte, a: byte, b: byte, c: byte, d: byte)
    ensures FoldXor(start, [a, b, c, d]) == Xor(Xor(Xor(Xor(start, a), b), c), d)
  {
    FoldOne(start, a);
    FoldOne(Xor(start, a), b);
    FoldAppend(start, [a], [b]);
    FoldOne(FoldXor(start, [a, b]), c);
    FoldAppend(start, [a, b], [c]);
    FoldOne(FoldXor(start, [a, b, c]), d);
    FoldAppend(start, [a, b, c], [d]);
    assert [a] + [b] == [a, b] && [a, b] + [c] == [a, b, c] && [a, b, c] + [d] == [a, b, c, d];
  }

  method FoldWord(start: byte, v: nat) returns (sum: byte)
    ensures sum == FoldXor(start, BE(4, v))
  {
    sum := start;
    sum := Xor(sum, ByteOf(v / 0x100_0000));
    sum := Xor(sum, ByteOf(v / 0x1_0000));
    sum := Xor(sum, ByteOf(v / 0x100));
    sum := Xor(sum, ByteOf(v));
    Shifts(v);
    FoldFour(start, ByteOf(v / 0x100_0000), ByteOf(v / 0x1_0000), ByteOf(v / 0x100), ByteOf(v));
  }

  method FoldBytes(start: byte, s: seq<byte>) returns (sum: byte)
    ensures sum == FoldXor(start, s)
  {
    sum := start;
    for i := 0 to |s|
      invariant sum == FoldXor(start, s[..i])
    {
      sum := Xor(sum, s[i]);
      assert s[..i + 1][..i] == s[..i];
    }
    assert s[..|s|] == s;
  }

  method FoldLong(start: byte, v: nat) returns (sum: byte)
    ensures sum == FoldXor(start, BE(8, v))
  {
    sum := FoldWord(start, v / 0x1_0000_0000);
    sum := FoldWord(sum, v);
    Shifts64(v);
    FoldAppend(start, BE(4, v / 0x1_0000_0000), BE(4, v));
  }

  method FoldHeader(h: Handshake) returns (sum: byte)
    ensures sum == FoldXor(0, Header(h))
  {
    var m := h.magic;
    sum := 0;
    sum := Xor(sum, Xor(Xor(Xor(m[0], m[1]), m[2]), m[3]));
    assert sum == FoldXor(0, m) by {
      XorLaws(Xor(Xor(Xor(m[0], m[1]), m[2]), m[3]), 0, 0);
      XorLaws(m[0], 0, 0);
      FoldFour(0, m[0], m[1], m[2], m[3]);
      assert m == [m[0], m[1], m[2], m[3]];
    }
    sum := Xor(sum, h.kind);
    FoldOne(FoldXor(0, m), h.kind);
    FoldAppend(0, m, [h.kind]);
    sum := Xor(sum, h.version);
    FoldOne(FoldXor(0, m + [h.kind]), h.version);
    FoldAppend(0, m + [h.kind], [h.version]);
    assert m + [h.kind] + [h.version] == m + [h.kind, h.version];
    sum := FoldWord(sum, h.switchInterval);
    FoldAppend(0, m + [h.kind, h.version], BE(4, h.switchInterval));
    sum := Xor(sum, h.modesCount);
    FoldOne(FoldXor(0, m + [h.kind, h.version] + BE(4, h.switchInterval)), h.modesCount);
    FoldAppend(0, m + [h.kind, h.version] + BE(4, h.switchInterval), [h.modesCount]);
  }

  method FoldModes(start: byte, modes: seq<int>) returns (sum: byte)
    ensures sum == FoldXor(start, LowBytes(modes))
  {
    sum := start;
    for i := 0 to |modes|
      invariant sum == FoldXor(start, LowBytes(modes[..i]))
    {
      sum := Xor(sum, ByteOf(modes[i]));
      assert modes[..i + 1][..i] == modes[..i];
      FoldOne(FoldXor(start, LowBytes(modes[..i])), ByteOf(modes[i]));
      FoldAppend(start, LowBytes(modes[..i]), [ByteOf(modes[i])]);
    }
    assert modes[..|modes|] == modes;
  }

  method FoldTrailer(start: byte, h: Handshake) returns (sum: byte)
    ensures sum == FoldXor(start, Trailer(h))
  {
    var word, seqs, time := BE(4, h.currentMode), BE(8, h.sequence), BE(8, h.timestamp);
    sum := FoldWord(start, h.currentMode);
    sum := FoldBytes(sum, h.nonce);
    FoldAppend(start, word, h.nonce);
    sum := FoldLong(sum, h.sequence);
    FoldAppend(start, word + h.nonce, seqs);
    sum := FoldLong(sum, h.timestamp);
    FoldAppend(start, word + h.nonce + seqs, time);
  }

  method CalcChecksum(h: Handshake) returns (sum: byte)
    ensures sum == Checksum(h)
  {
    sum := FoldHeader(h);
    sum := FoldModes(sum, h.modes);
    sum := FoldTrailer(sum, h);
    FoldAppend(0, Header(h), LowBytes(h.modes));
    FoldAppend(0, Header(h) + LowBytes(h.modes), Trailer(h));
  }

  method Verify(h: Handshake) returns (ok: bool)
    ensures ok == Verified(h)
  {
    if h.magic[0] != 0xDE || h.magic[1] != 0xAD || h.magic[2] != 0xBE || h.magic[3] != 0xEF {
      return false;
    }
    if h.version != 1 {
      return false;
    }
    var sum := CalcChecksum(h);
    return h.checksum == sum;
  }

  /** `interval` is in whole seconds, `clock` is `time.Now().UnixNano()`. */
  function NewHandshake(kind: byte, interval: u32, modes: seq<int>, currentMode: int,
                        sequence: u64, clock: u64, nonce: Nonce): (h: Handshake)
    ensures Verified(h)
    ensures h.magic == [0xDE, 0xAD, 0xBE, 0xEF] && h.version == 1 && h.kind == kind
    ensures h.switchInterval == interval && h.modes == modes && h.modesCount as int == |modes| % 256
    ensures h.currentMode as int == currentMode % 0x1_0000_0000
    ensures h.timestamp == clock && h.nonce == nonce && h.sequence == sequence
  {
    var h := Fields(MAGIC, kind, VERSION, interval, ByteOf(|modes|), modes, ModeWord(currentMode),
                    clock, nonce, sequence, 0);
    h.(checksum := Checksum(h))
  }

  method WriteHeader(buf: array<byte>, h: Handshake) returns (offset: nat)
    requires buf.Length >= HEADER_LEN
    modifies buf
    ensures offset == HEADER_LEN && buf[..offset] == Header(h)
  {
    offset := 0;
    Put(buf, offset, h.magic);
    offset := offset + 4;
    Put(buf, offset, [h.kind]);
    offset := offset + 1;
    Put(buf, offset, [h.version]);
    offset := offset + 1;
    assert buf[..offset] == h.magic + [h.kind, h.version];
    Put(buf, offset, BE(4, h.switchInterval));
    offset := offset + 4;
    Put(buf, offset, [h.modesCount]);
    offset := offset + 1;
  }

  method WriteTail(buf: array<byte>, start: nat, h: Handshake)
    requires buf.Length == start + TAIL_LEN
    modifies buf
    ensures buf[..] == old(buf[..start]) + Tail(h)
  {
    hide BE;
    var offset := start;
    Put(buf, offset, BE(4, h.currentMode));
    offset := offset + 4;
    Put(buf, offset, BE(8, h.timestamp));
    offset := offset + 8;
    Put(buf, offset, h.nonce);
    offset := offset + 16;
    Put(buf, offset, BE(8, h.sequence));
    offset := offset + 8;
    Put(buf, offset, [h.checksum]);
    assert buf[..offset + 1] == buf[..];
  }

  method Encode(h: Handshake) returns (out: array<byte>)
    ensures fresh(out)
    ensures out[..] == Encoding(h)
  {
    var modesLen := |h.modes| * 4;
    var buf := new byte[HEADER_LEN + modesLen](_ => 0);
    var offset := WriteHeader(buf, h);
    for i := 0 to |h.modes|
      invariant fresh(buf) && offset == HEADER_LEN + 4 * i
      invariant buf[..offset] == Header(h) + EncodedModes(h.modes[..i])
    {
      Put(buf, offset, BE(4, ModeWord(h.modes[i])));
      offset := offset + 4;
      assert h.modes[..i + 1][..i] == h.modes[..i];
    }
    assert h.modes[..|h.modes|] == h.modes;
    assert buf[..offset] == buf[..];
    if h.currentMode != 0 {
      var longer := new byte[buf.Length + TAIL_LEN](_ => 0);
      Put(longer, 0, buf[..]);
      buf := longer;
      assert buf[..offset] == Header(h) + EncodedModes(h.modes);
      WriteTail(buf, offset, h);
    }
    out := buf;
  }

  method ReadNumber(data: seq<byte>, offset: nat, size: nat, absent: nat) returns (v: nat, next: nat)
    requires offset <= |data|
    ensures v == Number(data[offset..], size, absent)
    ensures next <= |data| && data[next..] == Drop(data[offset..], size)
  {
    v, next := absent, offset;
    if |data| >= offset + size {
      assert data[offset..][..size] == data[offset..offset + size];
      v := UInt(data[offset..offset + size]);
      next := offset + size;
    }
  }

  method ReadModes(data: seq<byte>, n: nat) returns (modes: seq<int>, offset: nat)
    requires HEADER_LEN + 4 * n <= |data|
    ensures modes == DecodedModes(data, n) && offset == HEADER_LEN + 4 * n
  {
    modes, offset := [], HEADER_LEN;
    var i := 0;
    while i < n
      invariant i <= n && offset == HEADER_LEN + 4 * i
      invariant modes == DecodedModes(data, i)
    {
      modes := modes + [UInt(data[offset..offset + 4])];
      offset := offset + 4;
      i := i + 1;
    }
  }

  method ReadTail(data: seq<byte>, start: nat, first: u32)
    returns (currentMode: u32, timestamp: u64, nonce: Nonce, sequence: u64, checksum: byte)
    requires start <= |data|
    ensures TailFields(currentMode, timestamp, nonce, sequence, checksum) == ParsedTail(data[start..], first)
  {
    PowerValues();
    var offset := start;
    currentMode, offset := ReadNumber(data, offset, 4, first);
    timestamp, offset := ReadNumber(data, offset, 8, 0);
    nonce := Zeros(16);
    ghost var b2 := data[offset..];
    if |data| >= offset + 16 {
      nonce := data[offset..offset + 16];
      assert nonce == b2[..16];
      offset := offset + 16;
    }
    assert data[offset..] == Drop(b2, 16);
    sequence, offset := ReadNumber(data, offset, 8, 0);
    checksum := 0;
    if |data| > offset {
      checksum := data[offset];
      assert data[offset..][0] == checksum;
    }
  }

  method ReadFields(data: seq<byte>) returns (h: Handshake)
    requires HEADER_LEN <= |data|
    requires HEADER_LEN + 4 * (data[10] as int) <= |data|
    requires data[10] > 0 || |data| >= HEADER_LEN + 4
    ensures h == Parsed(data)
  {
    var n: nat := data[10];
    var modes, offset := ReadModes(data, n);
    if n > 0 {
      DecodedModeIndex(data, n, 0);
    }
    var currentMode, timestamp, nonce, sequence, checksum := ReadTail(data, offset, FirstMode(data));
    h := Fields(data[..4], data[4], data[5], Interval(data), data[10], modes,
                currentMode, timestamp, nonce, sequence, checksum);
  }

  method DecodeHandshake(data: seq<byte>) returns (r: Decoded)
    ensures r == Decode(data)
  {
    if |data| < 4 + 1 + 1 + 4 + 1 {
      return Rejected(InvalidMagic);
    }
    if |data| < HEADER_LEN + data[10] as int * 4 {
      return Rejected(InvalidMagic);
    }
    if data[10] == 0 && |data| < HEADER_LEN + 4 {
      return Panics;
    }
    var h := ReadFields(data);
    var ok := Verify(h);
    return if ok then Decoded(h) else Rejected(ChecksumMismatch);
  }
}
