/** The scan for a server name in internal/engine/client.go (`extractSNI`). Its loop
    over the extensions is bounded by their declared length and not by the packet. */
module Sni {
  import opened Bytes

  /** A name as sliced out, possibly empty; the empty string; or an index past the end. */
  datatype Scan = Name(bytes: seq<byte>) | NoName | Overruns

  function At16(data: seq<byte>, at: nat): nat
    requires at + 2 <= |data|
  {
    data[at] as int * 256 + data[at + 1]
  }

  function ScanExtensions(data: seq<byte>, offset: nat, end: nat): Scan
    decreases end - offset
  {
    if offset + 4 > end then NoName
    else if offset + 4 > |data| then Overruns
    else
      var kind, length, at := At16(data, offset), At16(data, offset + 2), offset + 4;
      if kind != 0 then ScanExtensions(data, at + length, end)
      else if at + 2 > |data| then NoName
      else
        var n := At16(data, at);
        if at + 2 + n <= |data| then Name(data[at + 2..at + 2 + n])
        else ScanExtensions(data, at + 2 + length, end)
  }

  /** Where the extensions begin, if the fields before them are all there. */
  function ExtensionsAt(data: seq<byte>): (at: int)
    requires |data| > 43
    ensures at == -1 || 2 <= at <= |data|
  {
    var a := 44 + data[43] as int;
    if a + 2 > |data| then -1 else
    var b := a + 2 + At16(data, a);
    if b + 1 > |data| then -1 else
    var c := b + 1 + data[b] as int;
    if c + 2 > |data| then -1 else c + 2
  }

  function ExtractSni(data: seq<byte>): Scan {
    if |data| < 43 then NoName
    else if |data| == 43 then Overruns
    else
      var at := ExtensionsAt(data);
      if at == -1 then NoName else ScanExtensions(data, at, at + At16(data, at - 2))
  }

  method ExtractSNI(data: seq<byte>) returns (r: Scan)
    ensures r == ExtractSni(data)
  {
    if |data| < 43 {
      return NoName;
    }
    if |data| == 43 {
      return Overruns;
    }
    var sessionIDLen: nat := data[43];
    var offset := 44 + sessionIDLen;
    if offset + 2 > |data| {
      return NoName;
    }
    var cipherSuitesLen := At16(data, offset);
    offset := offset + 2 + cipherSuitesLen;
    if offset + 1 > |data| {
      return NoName;
    }
    var compressionMethodsLen: nat := data[offset];
    offset := offset + 1 + compressionMethodsLen;
    if offset + 2 > |data| {
      return NoName;
    }
    var extensionsLen := At16(data, offset);
    offset := offset + 2;
    var endExt := offset + extensionsLen;
    while offset + 4 <= endExt
      invariant ScanExtensions(data, offset, endExt) == ExtractSni(data)
      decreases endExt - offset
    {
      if offset + 4 > |data| {
        return Overruns;
      }
      var extType, extLen := At16(data, offset), At16(data, offset + 2);
      offset := offset + 4;
      if extType == 0 {
        if offset + 2 > |data| {
          return NoName;
        }
        var sniLen := At16(data, offset);
        offset := offset + 2;
        if offset + sniLen <= |data| {
          return Name(data[offset..offset + sniLen]);
        }
      }
      offset := offset + extLen;
    }
    return NoName;
  }

  lemma {:induction false} InsideNeverOverruns(data: seq<byte>, offset: nat, end: nat)
    requires end <= |data|
    ensures !ScanExtensions(data, offset, end).Overruns?
    decreases end - offset
  {
    if offset + 4 <= end {
      var length, at := At16(data, offset + 2), offset + 4;
      InsideNeverOverruns(data, at + length, end);
      InsideNeverOverruns(data, at + 2 + length, end);
    }
  }

  /** The scan cannot overrun if the extensions end where the packet does or before. */
  lemma OverrunNeedsLongExtensions(data: seq<byte>)
    requires |data| > 43 && ExtractSni(data).Overruns?
    ensures ExtensionsAt(data) != -1
    ensures ExtensionsAt(data) + At16(data, ExtensionsAt(data) - 2) > |data|
  {
    var at := ExtensionsAt(data);
    if at != -1 {
      var end := at + At16(data, at - 2);
      if end <= |data| {
        InsideNeverOverruns(data, at, end);
      }
    }
  }

  /** With nothing after the declared length, it overruns exactly when that promises at
      least one extension. */
  lemma TruncatedExtensions(data: seq<byte>)
    requires |data| > 43 && ExtensionsAt(data) == |data|
    ensures ExtractSni(data).Overruns? <==> At16(data, |data| - 2) >= 4
  {}

  const FATAL_HELLO: seq<byte> := [0x16] + Zeros(46) + [0xFF, 0xFF]

  lemma FatalHelloOverruns()
    ensures |FATAL_HELLO| == 49 && FATAL_HELLO[0] == 0x16 && FATAL_HELLO[1] == 0
    ensures ExtractSni(FATAL_HELLO).Overruns?
  {
    var p := FATAL_HELLO;
    assert p[43] == p[44] == p[45] == p[46] == 0 && p[47] == p[48] == 0xFF;
    assert ExtensionsAt(p) == 49;
    TruncatedExtensions(p);
  }

  // ------------------------------------------------------------- what it finds

  lemma At16Of(data: seq<byte>, at: nat, v: u16)
    requires at + 2 <= |data| && data[at..at + 2] == BE(2, v)
    ensures At16(data, at) == v
  {
    assert BE(1, v / 256) == [ByteOf(v / 256)];
    assert BE(2, v) == [ByteOf(v / 256), ByteOf(v)];
    assert data[at] == data[at..at + 2][0] && data[at + 1] == data[at..at + 2][1];
  }

  datatype Extension = Extension(kind: u16, body: seq<byte>)

  function Written(exts: seq<Extension>): seq<byte> {
    if exts == [] then [] else
    BE(2, exts[0].kind) + BE(2, |exts[0].body| % 0x1_0000) + exts[0].body + Written(exts[1..])
  }

  ghost predicate OtherKinds(exts: seq<Extension>) {
    forall i :: 0 <= i < |exts| ==> exts[i].kind != 0 && |exts[i].body| < 0x1_0000
  }

  lemma ScanPastOne(data: seq<byte>, offset: nat, end: nat, e: Extension)
    requires e.kind != 0 && |e.body| < 0x1_0000 && offset + 4 + |e.body| <= |data|
    requires data[offset..offset + 2] == BE(2, e.kind) && data[offset + 2..offset + 4] == BE(2, |e.body|)
    requires offset + 4 <= end
    ensures ScanExtensions(data, offset, end) == ScanExtensions(data, offset + 4 + |e.body|, end)
  {
    At16Of(data, offset, e.kind);
    At16Of(data, offset + 2, |e.body|);
  }

  lemma PieceOf(data: seq<byte>, o: nat, w: seq<byte>, i: nat, j: nat)
    requires o + |w| <= |data| && data[o..o + |w|] == w && i <= j <= |w|
    ensures data[o + i..o + j] == w[i..j]
  {
    var piece := data[o..o + |w|];
    forall k | 0 <= k < j - i
      ensures data[o + i..o + j][k] == w[i..j][k]
    {
      assert piece[i + k] == data[o + i + k];
    }
  }

  lemma FourParts(a: seq<byte>, b: seq<byte>, c: seq<byte>, d: seq<byte>)
    requires |a| == |b| == 2
    ensures var (w, n) := (a + b + c + d, 4 + |c|);
            |w| == n + |d| && w[0..2] == a && w[2..4] == b && w[n..|w|] == d
  {}

  lemma WrittenFirst(exts: seq<Extension>)
    requires OtherKinds(exts) && exts != []
    ensures var (w, e) := (Written(exts), exts[0]);
            var n := 4 + |e.body|;
            && |w| == n + |Written(exts[1..])| && w[0..2] == BE(2, e.kind) && w[2..4] == BE(2, |e.body|)
            && w[n..|w|] == Written(exts[1..])
    ensures OtherKinds(exts[1..])
  {
    hide BE;
    var e := exts[0];
    DivUnique(|e.body|, 0x1_0000, 0, |e.body|);
    FourParts(BE(2, e.kind), BE(2, |e.body|), e.body, Written(exts[1..]));
  }

  /** Extensions of other kinds are passed over, whatever their bodies hold. */
  lemma {:induction false} ScanPast(data: seq<byte>, offset: nat, end: nat, exts: seq<Extension>)
    requires OtherKinds(exts)
    requires offset + |Written(exts)| <= |data| && data[offset..offset + |Written(exts)|] == Written(exts)
    requires offset + |Written(exts)| <= end
    ensures ScanExtensions(data, offset, end) == ScanExtensions(data, offset + |Written(exts)|, end)
    decreases exts
  {
    hide BE, ScanExtensions;
    if exts == [] {
      assert |Written(exts)| == 0;
    } else {
      var w, n := Written(exts), 4 + |exts[0].body|;
      WrittenFirst(exts);
      var later := exts[1..];
      assert exts[0].kind != 0 && |exts[0].body| < 0x1_0000;
      hide Written, OtherKinds;
      PieceOf(data, offset, w, 0, 2);
      PieceOf(data, offset, w, 2, 4);
      PieceOf(data, offset, w, n, |w|);
      var next, past := offset + n, offset + |w|;
      ScanPastOne(data, offset, end, exts[0]);
      assert ScanExtensions(data, offset, end) == ScanExtensions(data, next, end);
      assert past == next + |Written(later)|;
      ScanPast(data, next, end, later);
      assert ScanExtensions(data, next, end) == ScanExtensions(data, past, end);
    }
  }

  /** At a name extension, the bytes after the list's length are the name, as many as
      that says. */
  lemma ScanFinds(data: seq<byte>, offset: nat, end: nat, length: u16, name: seq<byte>)
    requires |name| < 0x1_0000 && offset + 6 + |name| <= |data| && offset + 4 <= end
    requires data[offset..offset + 2] == [0, 0] && data[offset + 2..offset + 4] == BE(2, length)
    requires data[offset + 4..offset + 6] == BE(2, |name|)
    requires data[offset + 6..offset + 6 + |name|] == name
    ensures ScanExtensions(data, offset, end) == Name(name)
  {
    assert data[offset] == data[offset..offset + 2][0] && data[offset + 1] == data[offset..offset + 2][1];
    At16Of(data, offset + 2, length);
    At16Of(data, offset + 4, |name|);
  }

  /** The fields of a hello before the extensions; `total` is what it says is their length. */
  function Before(head: seq<byte>, session: seq<byte>, ciphers: seq<byte>, methods: seq<byte>, total: u16): seq<byte>
    requires |session| < 256 && |ciphers| < 0x1_0000 && |methods| < 256
  {
    head + [|session|] + session + BE(2, |ciphers|) + ciphers + [|methods|] + methods + BE(2, total)
  }

  lemma BeginsAfter(head: seq<byte>, session: seq<byte>, ciphers: seq<byte>, methods: seq<byte>, total: u16,
                    rest: seq<byte>)
    requires |head| == 43 && |session| < 256 && |ciphers| < 0x1_0000 && |methods| < 256
    ensures var b := Before(head, session, ciphers, methods, total);
            |b + rest| > 43 && ExtensionsAt(b + rest) == |b| && At16(b + rest, |b| - 2) == total
  {
    var b := Before(head, session, ciphers, methods, total);
    var data := b + rest;
    var s, c, m := 44 + |session|, 46 + |session| + |ciphers|, 47 + |session| + |ciphers| + |methods|;
    assert data[43] == |session|;
    assert data[s..s + 2] == BE(2, |ciphers|);
    assert data[c] == |methods|;
    assert data[m..m + 2] == BE(2, total) && |b| == m + 2;
    hide BE, Before;
    At16Of(data, s, |ciphers|);
    At16Of(data, m, total);
  }

  lemma Pieces(b: seq<byte>, w: seq<byte>, length: seq<byte>, size: seq<byte>, name: seq<byte>, rest: seq<byte>)
    requires |length| == |size| == 2
    ensures var data := b + (w + [0, 0] + length + size + name + rest);
            var o := |b| + |w|;
            && |data| == o + 6 + |name| + |rest|
            && data[|b|..o] == w && data[o..o + 2] == [0, 0] && data[o + 2..o + 4] == length
            && data[o + 4..o + 6] == size && data[o + 6..o + 6 + |name|] == name
  {}

  lemma ShowsName(data: seq<byte>, at: nat, total: u16, exts: seq<Extension>, length: u16, name: seq<byte>)
    requires |data| > 43 && at >= 2 && ExtensionsAt(data) == at && At16(data, at - 2) == total
    requires OtherKinds(exts) && |name| < 0x1_0000 && |Written(exts)| + 4 <= total
    requires var o := at + |Written(exts)|;
             && o + 6 + |name| <= |data|
             && data[at..o] == Written(exts) && data[o..o + 2] == [0, 0] && data[o + 2..o + 4] == BE(2, length)
             && data[o + 4..o + 6] == BE(2, |name|) && data[o + 6..o + 6 + |name|] == name
    ensures ExtractSni(data) == Name(name)
  {
    hide BE, Written, ExtensionsAt, ScanExtensions, At16;
    ScanPast(data, at, at + total, exts);
    ScanFinds(data, at + |Written(exts)|, at + total, length, name);
  }

  /** Any hello with a name extension, whatever comes before and after it, shows the
      bytes of its list. */
  lemma HelloShowsName(head: seq<byte>, session: seq<byte>, ciphers: seq<byte>, methods: seq<byte>, total: u16,
                       exts: seq<Extension>, length: u16, name: seq<byte>, rest: seq<byte>)
    requires |head| == 43 && |session| < 256 && |ciphers| < 0x1_0000 && |methods| < 256
    requires OtherKinds(exts) && |name| < 0x1_0000 && |Written(exts)| + 4 <= total
    ensures ExtractSni(Before(head, session, ciphers, methods, total) +
                       (Written(exts) + [0, 0] + BE(2, length) + BE(2, |name|) + name + rest)) == Name(name)
  {
    var b, w := Before(head, session, ciphers, methods, total), Written(exts);
    var after := w + [0, 0] + BE(2, length) + BE(2, |name|) + name + rest;
    hide BE, Before, Written, ExtensionsAt, ExtractSni, At16;
    BeginsAfter(head, session, ciphers, methods, total, after);
    Pieces(b, w, BE(2, length), BE(2, |name|), name, rest);
    ShowsName(b + after, |b|, total, exts, length, name);
  }

  /** In the form of section 3 of RFC 6066, where each entry of the list has a type and
      a length of its own, these show up as the first three bytes of the name. */
  lemma EntryShowsItsHeader(head: seq<byte>, session: seq<byte>, ciphers: seq<byte>, methods: seq<byte>, total: u16,
                            exts: seq<Extension>, host: seq<byte>, rest: seq<byte>)
    requires |head| == 43 && |session| < 256 && |ciphers| < 0x1_0000 && |methods| < 256
    requires OtherKinds(exts) && |host| + 5 < 0x1_0000 && |Written(exts)| + 4 <= total
    ensures var entry := [0] + BE(2, |host|) + host;
            ExtractSni(Before(head, session, ciphers, methods, total) +
                       (Written(exts) + [0, 0] + BE(2, |entry| + 2) + BE(2, |entry|) + entry + rest)) == Name(entry)
  {
    var entry := [0] + BE(2, |host|) + host;
    HelloShowsName(head, session, ciphers, methods, total, exts, |entry| + 2, entry, rest);
  }
}
