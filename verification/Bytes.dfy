/** Bytes, fixed-width big-endian integers, exclusive-or sums and the buffer
    writes that the Go code does with `copy` and `binary.BigEndian.PutUintN`. */
module Bytes {
  type byte = x: nat | x < 0x100
  type u16 = x: nat | x < 0x1_0000
  type u32 = x: nat | x < 0x1_0000_0000
  type u64 = x: nat | x < 0x1_0000_0000_0000_0000

  /** Go's `byte(v)`: the low eight bits. */
  function ByteOf(v: int): byte {
    v % 256
  }

  // ---------------------------------------------------------------- integers

  function Pow256(n: nat): (p: nat)
    ensures p >= 1
  {
    if n == 0 then 1 else 256 * Pow256(n - 1)
  }

  lemma PowerValues()
    ensures Pow256(2) == 0x1_0000
    ensures Pow256(4) == 0x1_0000_0000
    ensures Pow256(8) == 0x1_0000_0000_0000_0000
  {
    assert Pow256(3) == 0x100_0000;
    assert Pow256(5) == 0x100_0000_0000 && Pow256(7) == 0x100_0000_0000_0000;
  }

  /** The last `n` bytes of `v`, most significant first. */
  function BE(n: nat, v: nat): (s: seq<byte>)
    ensures |s| == n
    decreases n, v
  {
    if n == 0 then [] else BE(n - 1, v / 256) + [ByteOf(v)]
  }

  /** The number that the first `k` bytes of `s` spell, most significant first. */
  function UIntTo(s: seq<byte>, k: nat): nat
    requires k <= |s|
  {
    if k == 0 then 0 else UIntTo(s, k - 1) * 256 + s[k - 1]
  }

  function UInt(s: seq<byte>): nat {
    UIntTo(s, |s|)
  }

  lemma {:induction false} UIntPrefix(s: seq<byte>, t: seq<byte>, k: nat)
    requires k <= |s| && k <= |t|
    requires forall i :: 0 <= i < k ==> s[i] == t[i]
    ensures UIntTo(s, k) == UIntTo(t, k)
  {
    if k > 0 {
      UIntPrefix(s, t, k - 1);
    }
  }

  lemma MulBounds(e: int, d: nat)
    ensures e >= 1 ==> e * d >= d
    ensures e <= -1 ==> e * d <= 0 - d
  {}

  lemma DivUnique(v: nat, d: nat, q: nat, r: nat)
    requires v == q * d + r && r < d
    ensures v % d == r && v / d == q
  {
    var e := v / d - q;
    assert v == (v / d) * d + v % d;
    assert e * d == (v / d) * d - q * d;
    assert e * d == r - v % d;
    MulBounds(e, d);
  }

  lemma ModSplit(v: nat, p: nat)
    requires p > 0
    ensures (v / 256) % p * 256 + v % 256 == v % (256 * p)
  {
    var q, r := (v / 256) / p, (v / 256) % p;
    var low := r * 256 + v % 256;
    assert v == (q * p + r) * 256 + v % 256;
    assert (q * p) * 256 == q * (256 * p);
    assert v == q * (256 * p) + low;
    assert r <= p - 1;
    assert 0 <= low < 256 * p;
    DivUnique(v, 256 * p, q, low);
  }

  lemma {:induction false} UIntOfBE(n: nat, v: nat)
    ensures UInt(BE(n, v)) == v % Pow256(n)
  {
    if n > 0 {
      UIntOfBE(n - 1, v / 256);
      ModSplit(v, Pow256(n - 1));
      UIntPrefix(BE(n, v), BE(n - 1, v / 256), n - 1);
    }
  }

  lemma {:induction false} BEOfUIntTo(s: seq<byte>, k: nat)
    requires k <= |s|
    ensures UIntTo(s, k) < Pow256(k)
    ensures BE(k, UIntTo(s, k)) == s[..k]
  {
    if k > 0 {
      BEOfUIntTo(s, k - 1);
      assert UIntTo(s, k) / 256 == UIntTo(s, k - 1) && UIntTo(s, k) % 256 == s[k - 1];
      assert s[..k] == s[..k - 1] + [s[k - 1]];
    }
  }

  lemma BEOfUInt(s: seq<byte>)
    ensures UInt(s) < Pow256(|s|)
    ensures BE(|s|, UInt(s)) == s
  {
    BEOfUIntTo(s, |s|);
    assert s[..|s|] == s;
  }

  /** Fixed-width fields read back what was written. */
  lemma FieldRoundTrip(n: nat, v: nat)
    requires v < Pow256(n)
    ensures UInt(BE(n, v)) == v
  {
    UIntOfBE(n, v);
    DivUnique(v, Pow256(n), 0, v);
  }

  lemma U16RoundTrip(v: u16)
    ensures UInt(BE(2, v)) == v
  {
    PowerValues();
    FieldRoundTrip(2, v);
  }

  lemma U32RoundTrip(v: u32)
    ensures UInt(BE(4, v)) == v
  {
    PowerValues();
    FieldRoundTrip(4, v);
  }

  lemma U64RoundTrip(v: u64)
    ensures UInt(BE(8, v)) == v
  {
    PowerValues();
    FieldRoundTrip(8, v);
  }

  // -------------------------------------------------------- exclusive-or sums

  function Pow2(n: nat): (p: nat)
    ensures p >= 1
  {
    if n == 0 then 1 else 2 * Pow2(n - 1)
  }

  lemma {:induction false} Pow2Grows(a: nat, b: nat)
    requires a <= b
    ensures Pow2(a) <= Pow2(b)
  {
    if a < b {
      Pow2Grows(a, b - 1);
    }
  }

  /** Exclusive or of the low `n` bits, bit by bit. */
  function XorBits(n: nat, a: nat, b: nat): (x: nat)
    ensures x < Pow2(n)
    decreases n, a, b
  {
    if n == 0 then 0 else 2 * XorBits(n - 1, a / 2, b / 2) + if a % 2 == b % 2 then 0 else 1
  }

  function Xor(a: byte, b: byte): byte {
    assert Pow2(4) == 16 && Pow2(8) == 256;
    XorBits(8, a, b)
  }

  lemma {:induction false} XorBitsLaws(n: nat, a: nat, b: nat)
    requires a < Pow2(n)
    ensures XorBits(n, a, b) == XorBits(n, b, a)
    ensures XorBits(n, 0, a) == a
  {
    if n > 0 {
      XorBitsLaws(n - 1, a / 2, b / 2);
    }
  }

  lemma XorUnfold(n: nat, a: nat, b: nat)
    requires n > 0
    ensures XorBits(n, a, b) / 2 == XorBits(n - 1, a / 2, b / 2)
    ensures XorBits(n, a, b) % 2 == if a % 2 == b % 2 then 0 else 1
  {
    var h, r := XorBits(n - 1, a / 2, b / 2), if a % 2 == b % 2 then 0 else 1;
    assert XorBits(n, a, b) == 2 * h + r;
  }

  lemma HalvesDetermine(n: nat, a: nat, b: nat, c: nat, d: nat)
    requires n > 0
    requires XorBits(n - 1, a / 2, b / 2) == XorBits(n - 1, c / 2, d / 2)
    requires (a % 2 == b % 2) == (c % 2 == d % 2)
    ensures XorBits(n, a, b) == XorBits(n, c, d)
  {}

  lemma {:induction false} XorBitsAssociative(n: nat, a: nat, b: nat, c: nat)
    ensures XorBits(n, XorBits(n, a, b), c) == XorBits(n, a, XorBits(n, b, c))
  {
    if n > 0 {
      XorUnfold(n, a, b);
      XorUnfold(n, b, c);
      XorBitsAssociative(n - 1, a / 2, b / 2, c / 2);
      HalvesDetermine(n, XorBits(n, a, b), c, a, XorBits(n, b, c));
    }
  }

  lemma {:induction false} XorBitsSelf(n: nat, a: nat)
    ensures XorBits(n, a, a) == 0
  {
    if n > 0 {
      XorBitsSelf(n - 1, a / 2);
    }
  }

  lemma ZeroLeft(n: nat, b: nat)
    requires b < Pow2(n)
    ensures XorBits(n, 0, b) == b
  {
    XorBitsLaws(n, b, 0);
  }

  lemma XorBitsCancel(n: nat, a: nat, b: nat, c: nat)
    requires a < Pow2(n) && b < Pow2(n) && c < Pow2(n)
    requires XorBits(n, a, b) == XorBits(n, a, c)
    ensures b == c
  {
    XorBitsAssociative(n, a, a, b);
    XorBitsAssociative(n, a, a, c);
    XorBitsSelf(n, a);
    ZeroLeft(n, b);
    ZeroLeft(n, c);
  }

  /** Exclusive or is a group operation as far as the checksum needs it. */
  lemma XorLaws(a: byte, b: byte, c: byte)
    ensures Xor(a, b) == Xor(b, a)
    ensures Xor(0, a) == a
    ensures Xor(a, b) == Xor(a, c) ==> b == c
    ensures Xor(b, a) == Xor(c, a) ==> b == c
  {
    assert Pow2(4) == 16 && Pow2(8) == 256;
    XorBitsLaws(8, a, b);
    XorBitsLaws(8, a, c);
    if Xor(a, b) == Xor(a, c) {
      XorBitsCancel(8, a, b, c);
    }
  }

  /** `sum ^= b` for each byte in turn. */
  function FoldXor(start: byte, s: seq<byte>): byte {
    if s == [] then start else Xor(FoldXor(start, s[..|s| - 1]), s[|s| - 1])
  }

  lemma {:induction false} FoldAppend(start: byte, a: seq<byte>, b: seq<byte>)
    ensures FoldXor(start, a + b) == FoldXor(FoldXor(start, a), b)
  {
    if b == [] {
      assert a + b == a;
    } else {
      var s := a + b;
      assert s[..|s| - 1] == a + b[..|b| - 1] && s[|s| - 1] == b[|b| - 1];
      FoldAppend(start, a, b[..|b| - 1]);
    }
  }

  /** The fold tells apart two lists that differ in exactly one place. */
  lemma {:induction false} FoldOneDifference(start: byte, s: seq<byte>, t: seq<byte>, j: nat)
    requires j < |s| == |t|
    requires s[j] != t[j]
    requires forall k :: 0 <= k < |s| && k != j ==> s[k] == t[k]
    ensures FoldXor(start, s) != FoldXor(start, t)
  {
    var n := |s| - 1;
    var a, b := FoldXor(start, s[..n]), FoldXor(start, t[..n]);
    if j == n {
      assert s[..n] == t[..n];
      XorLaws(a, s[n], t[n]);
    } else {
      FoldOneDifference(start, s[..n], t[..n], j);
      XorLaws(s[n], a, b);
    }
  }

  // ----------------------------------------------------------------- sequences

  function Flatten(parts: seq<seq<byte>>): seq<byte> {
    if parts == [] then [] else parts[0] + Flatten(parts[1..])
  }

  lemma Associate(a: seq<byte>, b: seq<byte>, c: seq<byte>)
    ensures a + (b + c) == a + b + c
  {}

  lemma {:induction false} FlattenAppend(a: seq<seq<byte>>, b: seq<seq<byte>>)
    ensures Flatten(a + b) == Flatten(a) + Flatten(b)
  {
    if a == [] {
      assert a + b == b;
    } else {
      FlattenAppend(a[1..], b);
      var s := a + b;
      assert s[0] == a[0] && s[1..] == a[1..] + b;
      Associate(a[0], Flatten(a[1..]), Flatten(b));
    }
  }

  lemma FlattenPush(a: seq<seq<byte>>, s: seq<byte>)
    ensures Flatten(a + [s]) == Flatten(a) + s
  {
    FlattenAppend(a, [s]);
    assert Flatten([s]) == s;
  }

  predicate Distinct<T(==)>(s: seq<T>) {
    forall i, j :: 0 <= i < j < |s| ==> s[i] != s[j]
  }

  function Zeros(n: nat): (s: seq<byte>)
    ensures |s| == n
  {
    seq(n, _ => 0)
  }

  // ------------------------------------------------------------------- buffers

  /** `copy(buf[at:], s)` and `PutUintN(buf[at:], ...)`. */
  method Put(buf: array<byte>, at: nat, s: seq<byte>)
    requires at + |s| <= buf.Length
    modifies buf
    ensures buf[..at + |s|] == old(buf[..at]) + s
    ensures buf[at + |s|..] == old(buf[at + |s|..])
  {
    for i := 0 to |s|
      invariant buf[..at] == old(buf[..at])
      invariant buf[at..at + i] == s[..i]
      invariant buf[at + |s|..] == old(buf[at + |s|..])
    {
      buf[at + i] := s[i];
      assert buf[at..at + i + 1] == buf[at..at + i] + [s[i]];
    }
    assert buf[..at + |s|] == buf[..at] + buf[at..at + |s|];
  }

  function Ascii(s: string): (b: seq<byte>)
    ensures |b| == |s|
  {
    seq(|s|, i requires 0 <= i < |s| => s[i] as int % 256)
  }
}
