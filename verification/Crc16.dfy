/** The checksum of internal/masks/winupdate.go (`calcCRC`), with the GF(2)
    algebra that gives it its error-detection power.  A state is a 16-bit word;
    doubling is taken modulo 2^16 because Go's `crc << 1` drops the top bit. */
module Crc16 {
  import opened Bytes

  const TOP := 0x8000
  const GENERATOR: u16 := 0x1021

  function Xor16(a: u16, b: u16): u16 {
    assert Pow2(4) == 16 && Pow2(8) == 256 && Pow2(12) == 4096 && Pow2(16) == 65536;
    XorBits(16, a, b)
  }

  function Double(crc: u16): u16 {
    2 * crc % 0x1_0000
  }

  /** One turn of the inner loop: multiply by x modulo x^16 + x^12 + x^5 + 1. */
  function Shift(crc: u16): u16 {
    if crc >= TOP then Xor16(Double(crc), GENERATOR) else Double(crc)
  }

  function ShiftBy(crc: u16, n: nat): u16
    decreases n, crc
  {
    if n == 0 then crc else Shift(ShiftBy(crc, n - 1))
  }

  /** One turn of the outer loop. */
  function Step(crc: u16, b: byte): u16 {
    ShiftBy(Xor16(crc, 256 * b as int), 8)
  }

  function CrcTo(start: u16, data: seq<byte>, k: nat): u16
    requires k <= |data|
  {
    if k == 0 then start else Step(CrcTo(start, data, k - 1), data[k - 1])
  }

  function CrcFrom(start: u16, data: seq<byte>): u16 {
    CrcTo(start, data, |data|)
  }

  function Crc(data: seq<byte>): u16 {
    CrcFrom(0, data)
  }

  method CalcCrc(data: seq<byte>) returns (crc: u16)
    ensures crc == Crc(data)
  {
    crc := 0;
    for k := 0 to |data|
      invariant crc == CrcTo(0, data, k)
    {
      crc := Xor16(crc, 256 * data[k] as int);
      ghost var mixed := crc;
      for i := 0 to 8
        invariant crc == ShiftBy(mixed, i)
      {
        if crc >= TOP {
          crc := Xor16(Double(crc), GENERATOR);
        } else {
          crc := Double(crc);
        }
      }
    }
  }

  // -------------------------------------------------------- exclusive or, 16 bits

  lemma Powers()
    ensures Pow2(8) == 256 && Pow2(15) == TOP && Pow2(16) == 65536
  {
    assert Pow2(4) == 16 && Pow2(12) == 4096;
  }

  lemma Group(a: u16, b: u16, c: u16)
    ensures Xor16(a, b) == Xor16(b, a)
    ensures Xor16(Xor16(a, b), c) == Xor16(a, Xor16(b, c))
    ensures Xor16(a, a) == 0 && Xor16(0, a) == a && Xor16(a, 0) == a
  {
    Powers();
    XorBitsLaws(16, a, b);
    XorBitsLaws(16, a, 0);
    XorBitsAssociative(16, a, b, c);
    XorBitsSelf(16, a);
  }

  lemma Exchange(a: u16, b: u16, c: u16, d: u16)
    ensures Xor16(Xor16(a, b), Xor16(c, d)) == Xor16(Xor16(a, c), Xor16(b, d))
  {
    Group(a, b, Xor16(c, d));
    Group(b, c, d);
    Group(b, c, 0);
    Group(c, b, d);
    Group(a, c, Xor16(b, d));
  }

  lemma ZeroSum(a: u16, b: u16)
    requires Xor16(a, b) == 0
    ensures a == b
  {
    Group(a, a, b);
    Group(b, 0, 0);
    Group(a, 0, 0);
  }

  lemma {:induction false} TopOfXor(n: nat, a: nat, b: nat)
    requires n > 0 && a < Pow2(n) && b < Pow2(n)
    ensures XorBits(n, a, b) >= Pow2(n - 1) <==> (a >= Pow2(n - 1)) != (b >= Pow2(n - 1))
  {
    if n > 1 {
      TopOfXor(n - 1, a / 2, b / 2);
    } else {
      assert Pow2(0) == 1 && XorBits(0, a / 2, b / 2) == 0;
    }
  }

  lemma HalfOfRemainder(a: nat, p: nat)
    requires p > 0
    ensures (a % (2 * p)) / 2 == (a / 2) % p
    ensures (a % (2 * p)) % 2 == a % 2
  {
    var q, r := (a / 2) / p, (a / 2) % p;
    assert a / 2 == q * p + r;
    assert a == 2 * (q * p + r) + a % 2;
    assert 2 * (q * p) == q * (2 * p);
    DivUnique(a, 2 * p, q, 2 * r + a % 2);
  }

  lemma {:induction false} XorDropsTop(n: nat, a: nat, b: nat)
    ensures XorBits(n, a % Pow2(n), b % Pow2(n)) == XorBits(n, a, b)
  {
    if n > 0 {
      var p := Pow2(n - 1);
      HalfOfRemainder(a, p);
      HalfOfRemainder(b, p);
      XorDropsTop(n - 1, a / 2, b / 2);
      HalvesDetermine(n, a % (2 * p), b % (2 * p), a, b);
    }
  }

  lemma SameHalves(x: nat, y: nat)
    requires x / 2 == y / 2 && x % 2 == y % 2
    ensures x == y
  {}

  lemma {:induction false} XorLower(n: nat, a: nat, b: nat)
    ensures XorBits(n + 1, a, b) % Pow2(n) == XorBits(n, a, b)
  {
    if n > 0 {
      var x, y, p := XorBits(n + 1, a, b), XorBits(n, a, b), Pow2(n - 1);
      XorLower(n - 1, a / 2, b / 2);
      XorUnfold(n + 1, a, b);
      XorUnfold(n, a, b);
      HalfOfRemainder(x, p);
      SameHalves(x % (2 * p), y);
    }
  }

  lemma XorOfDoubles(n: nat, a: nat, b: nat)
    ensures XorBits(n + 1, 2 * a, 2 * b) == 2 * XorBits(n, a, b)
  {
    assert (2 * a) / 2 == a && (2 * b) / 2 == b && (2 * a) % 2 == 0 && (2 * b) % 2 == 0;
  }

  // -------------------------------------------------------- bijective and linear

  lemma DoubleDropsTop(a: u16)
    ensures Double(a) == 2 * (a % TOP)
  {}

  lemma LowerDoubles(a: nat, b: nat)
    ensures XorBits(16, 2 * (a % TOP), 2 * (b % TOP)) == 2 * (XorBits(16, a, b) % TOP)
  {
    Powers();
    XorOfDoubles(15, a % TOP, b % TOP);
    XorDropsTop(15, a, b);
    XorLower(15, a, b);
  }

  lemma DoubleLinear(a: u16, b: u16)
    ensures Double(Xor16(a, b)) == Xor16(Double(a), Double(b))
  {
    Powers();
    DoubleDropsTop(a);
    DoubleDropsTop(b);
    DoubleDropsTop(Xor16(a, b));
    LowerDoubles(a, b);
  }

  lemma ShiftLinear(a: u16, b: u16)
    ensures Shift(Xor16(a, b)) == Xor16(Shift(a), Shift(b))
  {
    Powers();
    TopOfXor(16, a, b);
    DoubleLinear(a, b);
    var g, da, db := GENERATOR, Double(a), Double(b);
    var ga, gb := if a >= TOP then g else 0, if b >= TOP then g else 0;
    Group(da, 0, 0);
    Group(db, 0, 0);
    Group(Xor16(da, db), 0, 0);
    Group(g, 0, 0);
    Exchange(da, ga, db, gb);
    assert Shift(a) == Xor16(da, ga) && Shift(b) == Xor16(db, gb);
  }

  function Unshift(crc: u16): u16 {
    if crc % 2 == 1 then (Xor16(crc, GENERATOR) / 2 + TOP) % 0x1_0000 else crc / 2
  }

  lemma EvenQuotient(a: u16, g: u16)
    requires a % 2 == 1 && g % 2 == 1
    ensures Xor16(a, g) % 2 == 0
  {
    XorUnfold(16, a, g);
  }

  lemma SelfInverse(a: u16, g: u16)
    ensures Xor16(Xor16(a, g), g) == a
    ensures Xor16(a, Xor16(a, g)) == g
  {
    Group(a, g, g);
    Group(a, a, g);
    Group(g, 0, 0);
    Group(a, 0, 0);
  }

  lemma HalfThenDouble(e: u16)
    requires e % 2 == 0
    ensures TOP <= (e / 2 + TOP) % 0x1_0000
    ensures Double((e / 2 + TOP) % 0x1_0000) == e
  {}

  lemma ShiftOntoOdd(a: u16)
    requires a % 2 == 1
    ensures Shift(Unshift(a)) == a
  {
    var e := Xor16(a, GENERATOR);
    EvenQuotient(a, GENERATOR);
    SelfInverse(a, GENERATOR);
    HalfThenDouble(e);
    assert Unshift(a) == (e / 2 + TOP) % 0x1_0000;
  }

  lemma ShiftOnto(a: u16)
    ensures Shift(Unshift(a)) == a
  {
    if a % 2 == 1 {
      ShiftOntoOdd(a);
    } else {
      assert Unshift(a) == a / 2 < TOP && Double(a / 2) == a;
    }
  }

  lemma DoubleEven(a: u16)
    ensures Double(a) % 2 == 0
  {}

  lemma ShiftKernel(a: u16)
    requires Shift(a) == 0
    ensures a == 0
  {
    DoubleEven(a);
    if a >= TOP {
      ZeroSum(Double(a), GENERATOR);
    }
  }

  lemma ShiftInjective(a: u16, b: u16)
    requires Shift(a) == Shift(b)
    ensures a == b
  {
    ShiftLinear(a, b);
    Group(Shift(a), 0, 0);
    ShiftKernel(Xor16(a, b));
    ZeroSum(a, b);
  }

  /** The bit step is a bijection on 16-bit states. */
  lemma ShiftBijective(a: u16)
    ensures Shift(Unshift(a)) == a
    ensures Unshift(Shift(a)) == a
  {
    ShiftOnto(a);
    ShiftOnto(Shift(a));
    ShiftInjective(Unshift(Shift(a)), a);
  }

  lemma {:induction false} ShiftByLinear(a: u16, b: u16, n: nat)
    ensures ShiftBy(Xor16(a, b), n) == Xor16(ShiftBy(a, n), ShiftBy(b, n))
  {
    if n > 0 {
      ShiftByLinear(a, b, n - 1);
      ShiftLinear(ShiftBy(a, n - 1), ShiftBy(b, n - 1));
    }
  }

  lemma {:induction false} ShiftByInjective(a: u16, b: u16, n: nat)
    requires ShiftBy(a, n) == ShiftBy(b, n)
    ensures a == b
  {
    if n > 0 {
      ShiftInjective(ShiftBy(a, n - 1), ShiftBy(b, n - 1));
      ShiftByInjective(a, b, n - 1);
    }
  }

  lemma {:induction false} ShiftZero(n: nat)
    ensures ShiftBy(0, n) == 0
  {
    if n > 0 {
      ShiftZero(n - 1);
    }
  }

  lemma {:induction false} ShiftAdds(a: u16, m: nat, n: nat)
    ensures ShiftBy(ShiftBy(a, m), n) == ShiftBy(a, m + n)
  {
    if n > 0 {
      ShiftAdds(a, m, n - 1);
    }
  }

  function XorSeq(a: seq<byte>, b: seq<byte>): (s: seq<byte>)
    requires |a| == |b|
    ensures |s| == |a|
  {
    if a == [] then [] else XorSeq(a[..|a| - 1], b[..|b| - 1]) + [Xor(a[|a| - 1], b[|b| - 1])]
  }

  lemma {:induction false} XorSeqAt(a: seq<byte>, b: seq<byte>, i: nat)
    requires i < |a| == |b|
    ensures XorSeq(a, b)[i] == Xor(a[i], b[i])
  {
    if i < |a| - 1 {
      XorSeqAt(a[..|a| - 1], b[..|b| - 1], i);
    }
  }

  lemma ScaledDouble(p: nat, a: nat)
    ensures (2 * p) * a == 2 * (p * a)
  {}

  lemma HalfTop(m: nat, high: nat) returns (h: nat)
    requires m > 0
    ensures h == Pow2(m - 1) * high && Pow2(m) * high == 2 * h
  {
    ScaledDouble(Pow2(m - 1), high);
    h := Pow2(m - 1) * high;
  }

  lemma {:induction false} XorScaled(n: nat, m: nat, a: nat, b: nat)
    ensures XorBits(n + m, Pow2(m) * a, Pow2(m) * b) == Pow2(m) * XorBits(n, a, b)
  {
    if m > 0 {
      var x := HalfTop(m, a);
      var y := HalfTop(m, b);
      var z := HalfTop(m, XorBits(n, a, b));
      XorScaled(n, m - 1, a, b);
      XorOfDoubles(n + m - 1, x, y);
    }
  }

  lemma StepLinear(s: u16, t: u16, a: byte, b: byte)
    ensures Step(Xor16(s, t), Xor(a, b)) == Xor16(Step(s, a), Step(t, b))
  {
    var x: u16, y: u16 := 256 * a as int, 256 * b as int;
    Powers();
    XorScaled(8, 8, a, b);
    assert Xor16(x, y) == 256 * Xor(a, b) as int;
    Exchange(s, t, x, y);
    ShiftByLinear(Xor16(s, x), Xor16(t, y), 8);
  }

  lemma {:induction false} CrcToLinear(s: u16, t: u16, a: seq<byte>, b: seq<byte>, k: nat)
    requires k <= |a| == |b|
    ensures CrcTo(Xor16(s, t), XorSeq(a, b), k) == Xor16(CrcTo(s, a, k), CrcTo(t, b, k))
  {
    if k > 0 {
      CrcToLinear(s, t, a, b, k - 1);
      XorSeqAt(a, b, k - 1);
      StepLinear(CrcTo(s, a, k - 1), CrcTo(t, b, k - 1), a[k - 1], b[k - 1]);
    }
  }

  /** The checksum is linear over exclusive or, for inputs of any equal length. */
  lemma CrcLinear(s: u16, t: u16, a: seq<byte>, b: seq<byte>)
    requires |a| == |b|
    ensures CrcFrom(Xor16(s, t), XorSeq(a, b)) == Xor16(CrcFrom(s, a), CrcFrom(t, b))
  {
    CrcToLinear(s, t, a, b, |a|);
  }

  lemma StepInjective(s: u16, t: u16, b: byte)
    requires Step(s, b) == Step(t, b)
    ensures s == t
  {
    var x: u16 := 256 * b as int;
    ShiftByInjective(Xor16(s, x), Xor16(t, x), 8);
    Group(s, x, x);
    Group(t, x, x);
    Group(x, 0, 0);
    Group(s, 0, 0);
    Group(t, 0, 0);
  }

  lemma {:induction false} CrcToInjective(s: u16, t: u16, data: seq<byte>, k: nat)
    requires k <= |data| && CrcTo(s, data, k) == CrcTo(t, data, k)
    ensures s == t
  {
    if k > 0 {
      StepInjective(CrcTo(s, data, k - 1), CrcTo(t, data, k - 1), data[k - 1]);
      CrcToInjective(s, t, data, k - 1);
    }
  }

  lemma {:induction false} CrcPrefix(s: u16, a: seq<byte>, b: seq<byte>, k: nat)
    requires k <= |a|
    ensures CrcTo(s, a + b, k) == CrcTo(s, a, k)
  {
    if k > 0 {
      CrcPrefix(s, a, b, k - 1);
    }
  }

  lemma {:induction false} CrcContinues(s: u16, a: seq<byte>, b: seq<byte>, k: nat)
    requires k <= |b|
    ensures CrcTo(s, a + b, |a| + k) == CrcTo(CrcFrom(s, a), b, k)
  {
    if k == 0 {
      CrcPrefix(s, a, b, |a|);
    } else {
      CrcContinues(s, a, b, k - 1);
      assert (a + b)[|a| + k - 1] == b[k - 1];
    }
  }

  lemma CrcAppend(s: u16, a: seq<byte>, b: seq<byte>)
    ensures CrcFrom(s, a + b) == CrcFrom(CrcFrom(s, a), b)
  {
    CrcContinues(s, a, b, |b|);
  }

  // ------------------------------------------------------------------- bursts

  lemma ZeroStep()
    ensures Step(0, 0) == 0
  {
    Group(0, 0, 0);
    ShiftZero(8);
  }

  predicate IsZero(s: seq<byte>) {
    forall i :: 0 <= i < |s| ==> s[i] == 0
  }

  lemma {:induction false} CrcToOfZeros(data: seq<byte>, k: nat)
    requires k <= |data| && IsZero(data)
    ensures CrcTo(0, data, k) == 0
  {
    if k > 0 {
      CrcToOfZeros(data, k - 1);
      ZeroStep();
    }
  }

  /** Zero bytes around a difference neither create nor hide it. */
  lemma BurstInZeros(before: seq<byte>, burst: seq<byte>, after: seq<byte>)
    requires IsZero(before) && IsZero(after)
    ensures Crc(before + burst + after) == 0 <==> Crc(burst) == 0
  {
    CrcAppend(0, before + burst, after);
    CrcAppend(0, before, burst);
    CrcToOfZeros(before, |before|);
    CrcToOfZeros(after, |after|);
    if Crc(before + burst + after) == 0 {
      CrcToInjective(Crc(burst), 0, after, |after|);
    }
  }

  /** Shifting without reaching the top bit is plain doubling. */
  lemma ShiftLow(x: nat)
    requires 2 * x < 0x1_0000
    ensures Shift(x) == 2 * x
  {
    hide Xor16;
  }

  lemma DoubleProduct(p: nat, a: nat)
    ensures 2 * p * a == 2 * (p * a)
  {}

  lemma {:induction false} ShiftSmall(a: u16, n: nat)
    requires Pow2(n) * a < 0x1_0000
    ensures ShiftBy(a, n) == Pow2(n) * a
  {
    if n > 0 {
      var x := Pow2(n - 1) * a;
      DoubleProduct(Pow2(n - 1), a);
      assert Pow2(n) * a == 2 * x;
      ShiftSmall(a, n - 1);
      ShiftLow(x);
      hide Shift;
      assert ShiftBy(a, n) == Shift(x);
    }
  }

  lemma EvenAndLow(n: nat, h: nat, low: nat)
    requires n > 0
    ensures XorBits(n, 2 * h, low) == 2 * XorBits(n - 1, h, low / 2) + low % 2
  {
    assert (2 * h) / 2 == h && (2 * h) % 2 == 0;
  }

  lemma {:induction false} XorDisjoint(n: nat, m: nat, high: nat, low: nat)
    requires m <= n && low < Pow2(m) && Pow2(m) * high + low < Pow2(n)
    ensures XorBits(n, Pow2(m) * high, low) == Pow2(m) * high + low
  {
    if m == 0 {
      XorBitsLaws(n, high, 0);
    } else {
      var h := HalfTop(m, high);
      XorDisjoint(n - 1, m - 1, high, low / 2);
      EvenAndLow(n, h, low);
    }
  }

  /** Feeding a byte at the top and shifting is feeding it at the bottom, later. */
  lemma StepLate(s: u16, b: byte)
    ensures Step(s, b) == ShiftBy(Xor16(s, ShiftBy(b, 8)), 8)
  {
    Powers();
    ShiftSmall(b, 8);
  }

  lemma JoinBytes(a: byte, b: byte)
    ensures Xor16(256 * a as int, b) == 256 * a as int + b
  {
    Powers();
    XorDisjoint(16, 8, a, b);
  }

  lemma CrcOfTwo(a: byte, b: byte)
    ensures Crc([a, b]) == ShiftBy(256 * a as int + b, 16)
  {
    var x: u16 := 256 * a as int;
    var data := [a, b];
    Group(x, 0, 0);
    assert CrcTo(0, data, 1) == Step(0, a) == ShiftBy(x, 8);
    assert Crc(data) == Step(CrcTo(0, data, 1), b);
    StepLate(ShiftBy(x, 8), b);
    ShiftByLinear(x, b, 8);
    JoinBytes(a, b);
    ShiftAdds(Xor16(x, b), 8, 8);
  }

  lemma CrcOfThree(a: byte, b: byte, c: byte)
    ensures Crc([a, b, c]) == ShiftBy(Xor16(ShiftBy(256 * a as int + b, 8), c), 16)
  {
    var w: u16 := 256 * a as int + b;
    CrcOfTwo(a, b);
    CrcPrefix(0, [a, b], [c], 2);
    assert [a, b] + [c] == [a, b, c];
    assert Crc([a, b, c]) == Step(ShiftBy(w, 16), c);
    StepLate(ShiftBy(w, 16), c);
    ShiftAdds(w, 8, 8);
    ShiftByLinear(ShiftBy(w, 8), c, 8);
    ShiftAdds(Xor16(ShiftBy(w, 8), c), 8, 8);
  }

  /** Two adjacent bytes have checksum zero only if both are zero. */
  lemma TwoByteBurst(a: byte, b: byte)
    ensures Crc([a, b]) == 0 <==> a == 0 && b == 0
  {
    CrcOfTwo(a, b);
    ShiftZero(16);
    if Crc([a, b]) == 0 {
      ShiftByInjective(256 * a as int + b, 0, 16);
    }
  }

  /** A run of at most 16 bits, at any bit offset, across three bytes. */
  predicate IsBurst(a: byte, b: byte, c: byte, w: u16, k: nat) {
    k <= 8 && 65536 * a as int + 256 * b as int + c == Pow2(k) * w
  }

  lemma {:induction false} PowSplit(m: nat, n: nat)
    ensures Pow2(m) * Pow2(n) == Pow2(m + n)
  {
    if m > 0 {
      PowSplit(m - 1, n);
      assert Pow2(m) * Pow2(n) == 2 * (Pow2(m - 1) * Pow2(n));
    }
  }

  lemma ScaledSum(p: nat, q: nat, high: nat, low: nat)
    ensures p * (q * high + low) == (p * q) * high + p * low
  {}

  lemma ScaledBound(p: nat, q: nat, low: nat)
    requires low < q && p > 0
    ensures p * low < p * q
  {}

  lemma ScaledSplit(p: nat, q: nat, w: nat)
    requires p > 0 && q > 0
    ensures w == q * (w / q) + w % q
    ensures p * w == (p * q) * (w / q) + p * (w % q)
    ensures p * (w % q) < p * q
  {
    ScaledSum(p, q, w / q, w % q);
    ScaledBound(p, q, w % q);
  }

  lemma SameWords(x: nat, c: nat, y: nat, d: nat)
    requires 256 * x + c == 256 * y + d && c < 256 && d < 256
    ensures x == y && c == d
  {}

  lemma BurstParts(a: byte, b: byte, c: byte, w: u16, k: nat) returns (high: u16, low: u16)
    requires IsBurst(a, b, c, w, k)
    ensures low < Pow2(8 - k) && w == Pow2(8 - k) * high + low
    ensures 256 * a as int + b == high && c == Pow2(k) * low
  {
    var p, q := Pow2(k), Pow2(8 - k);
    PowSplit(k, 8 - k);
    Powers();
    ScaledSplit(p, q, w);
    SameWords(256 * a as int + b, c, w / q, p * (w % q));
    high := 256 * a as int + b;
    low := w - q * high;
  }

  /** Shifting a 16-bit run up by `k <= 8` bits and reducing: the part that leaves
      the low byte and the part that stays move together. */
  lemma MovesTogether(w: u16, high: u16, low: u16, up: u16, down: u16, k: nat)
    requires k <= 8 && low < Pow2(8 - k)
    requires up == Pow2(8 - k) * high && w == up + low
    requires down == Pow2(k) * low
    ensures ShiftBy(w, k) == Xor16(ShiftBy(high, 8), down)
  {
    assert Xor16(up, low) == w by {
      Powers();
      Pow2Grows(8 - k, 16);
      XorDisjoint(16, 8 - k, high, low);
    }
    ShiftByLinear(up, low, k);
    ShiftSmall(high, 8 - k);
    ShiftSmall(low, k);
    ShiftAdds(high, 8 - k, k);
  }

  lemma BurstIsShiftedRun(a: byte, b: byte, c: byte, w: u16, k: nat)
    requires IsBurst(a, b, c, w, k)
    ensures Crc([a, b, c]) == ShiftBy(w, k + 16)
  {
    var high, low := BurstParts(a, b, c, w, k);
    MovesTogether(w, high, low, w - low, c, k);
    CrcOfThree(a, b, c);
    ShiftAdds(w, k, 16);
  }

  lemma UnalignedBurst(a: byte, b: byte, c: byte, w: u16, k: nat)
    requires IsBurst(a, b, c, w, k)
    ensures Crc([a, b, c]) == 0 <==> w == 0
  {
    BurstIsShiftedRun(a, b, c, w, k);
    ShiftZero(k + 16);
    if ShiftBy(w, k + 16) == 0 {
      ShiftByInjective(w, 0, k + 16);
    }
  }

  lemma TopThenGenerator(a: u16, d: u16, low: u16, g: u16)
    requires a == 0x8800 && d == 0x1000 && low == 0x0021 && g == GENERATOR
    ensures Shift(a) == low
  {
    Powers();
    assert Pow2(12) == 4096;
    XorDisjoint(16, 12, 1, low);
    assert Xor16(d, low) == g;
    SelfInverse(d, low);
    assert a >= TOP && Double(a) == d;
  }

  /** Sixteen bits is the limit: the 17-bit generator itself goes unnoticed. */
  lemma GeneratorUndetected()
    ensures Crc([0x01, 0x10, 0x21]) == 0
  {
    CrcOfThree(0x01, 0x10, 0x21);
    ShiftAdds(0x0110, 7, 1);
    assert Pow2(3) == 8 && Pow2(7) == 128;
    ShiftSmall(0x0110, 7);
    assert ShiftBy(0x8800, 1) == Shift(ShiftBy(0x8800, 0));
    TopThenGenerator(0x8800, 0x1000, 0x0021, GENERATOR);
    Group(0x0021, 0, 0);
    ShiftZero(16);
  }
}
