/**
 The hand-written X25519 fallback of
 singbox-core/src/subcommands/reality-keygen.ts.

 `Multiple(x1, n)` is the reference: n times the point with u-coordinate x1 in
 projective (X:Z) form, by binary recursion on n with Montgomery's doubling and
 differential-addition formulas written out. The method runs the factored
 formulas under a lazily swapped, constant-structure ladder. The lemmas take
 the machine steps to the formulas, the lazy swap to a branching ladder, the
 branching ladder to `Multiple`, and `Multiple` to any family of points that
 obeys the curve's laws.
 */
module X25519 {
  import opened Modular

  // ---------- the field and the byte codecs ----------

  const BITS: nat := 255

  type Modulus = n: int | n > 9 witness 11

  /** 2^255 - 19. */
  const P: Modulus := FieldOrder()

  function FieldOrder(): (r: Modulus)
    ensures r == Pow(2, BITS) - 19
  {
    PowAdd(2, 5, BITS - 5);
    PowPositive(2, BITS - 5);
    assert Pow(2, 5) == 32;
    Pow(2, BITS) - 19
  }

  lemma PowerAfter(e: nat, x: int, f: nat)
    requires Pow(2, e) == x && f == 2 * e + 1
    ensures Pow(2, f) == 2 * (x * x)
  {
    PowAdd(2, e, e);
    assert Pow(2, f) == 2 * Pow(2, e + e);
  }

  /** The field order in decimal. */
  lemma FieldOrderValue()
    ensures P == 57896044618658097711785492504343953926634992332820282019728792003956564819949
  {
    PowerAfter(0, 1, 1);
    PowerAfter(1, 2, 3);
    PowerAfter(3, 8, 7);
    PowerAfter(7, 128, 15);
    PowerAfter(15, 32768, 31);
    PowerAfter(31, 2147483648, 63);
    PowerAfter(63, 9223372036854775808, 127);
    PowerAfter(127, 170141183460469231731687303715884105728, BITS);
  }

  /** `%` of the source: the remainder takes the sign of the dividend. */
  function TruncatedRemainder(n: int, m: int): int
    requires m > 0
  {
    if n >= 0 then n % m else -((-n) % m)
  }

  function Mod(n: int): (r: int)
    ensures 0 <= r < P && r == n % P && Cong(r, n, P)
  {
    var result := TruncatedRemainder(n, P);
    NegativeRemainder(n, P);
    RemainderTwice(n, P);
    if result >= 0 then result else result + P
  }

  lemma NegativeRemainder(n: int, m: int)
    requires m > 0
    ensures n % m == if (-n) % m == 0 then 0 else m - (-n) % m
  {
    var q, k := (-n) / m, (-n) % m;
    if k == 0 {
      RemainderUnique(n, -q, 0, m);
    } else {
      RemainderUnique(n, -q - 1, m - k, m);
    }
  }

  lemma RemainderTwice(n: int, m: int)
    requires m > 0
    ensures 0 <= n % m < m && (n % m) % m == n % m
  {
    RemainderUnique(n % m, 0, n % m, m);
  }

  /** The number a byte string denotes, least significant byte first. */
  function Value(bytes: seq<bv8>): (v: nat)
  {
    if bytes == [] then 0 else bytes[0] as int + 256 * Value(bytes[1..])
  }

  function LowByte(v: nat): (b: bv8)
    ensures b as int == v % 256
  {
    ByteOf(v % 256)
  }

  /** The byte of a value below 256, bit by bit. */
  function ByteOf(m: nat): (b: bv8)
    requires m < 256
    ensures b as int == m
  {
    if m == 0 then 0 else AppendBit(ByteOf(m / 2), m % 2 == 1)
  }

  function AppendBit(b: bv8, bit: bool): (c: bv8)
    requires b as int < 128
    ensures c as int == 2 * b as int + if bit then 1 else 0
  {
    if bit then b + b + 1 else b + b
  }

  /** The n low bytes of v, least significant first. */
  function Digits(v: nat, n: nat): (bytes: seq<bv8>)
    ensures |bytes| == n
  {
    if n == 0 then [] else [LowByte(v)] + Digits(v / 256, n - 1)
  }

  /** `decodeLittleEndian`. */
  method Decode(bytes: seq<bv8>) returns (value: nat)
    ensures value == Value(bytes)
  {
    value := 0;
    var i := |bytes| - 1;
    while i >= 0
      invariant -1 <= i < |bytes|
      invariant value == Value(bytes[i + 1..])
    {
      assert bytes[i..][1..] == bytes[i + 1..];
      value := value * 256 + bytes[i] as int;
      i := i - 1;
    }
    assert bytes[0..] == bytes;
  }

  /** `encodeLittleEndian`. */
  method Encode(value: int) returns (out: array<bv8>)
    ensures fresh(out) && out.Length == 32
    ensures out[..] == Digits(value % P, 32)
  {
    out := new bv8[32];
    var n := Mod(value);
    ghost var length, all := out.Length, Digits(n, out.Length);
    var i := 0;
    while i < out.Length
      invariant 0 <= i <= length == out.Length && n >= 0
      invariant out[..i] + Digits(n, length - i) == all
    {
      ghost var before := out[..i];
      EncodeStep(before, n, length - i, all);
      out[i] := LowByte(n);
      assert out[..i + 1] == before + [LowByte(n)];
      n := n / 256;
      i := i + 1;
    }
    assert out[..] == out[..i] == all;
  }

  // ---------- the codecs are inverse to each other ----------

  lemma EncodeStep(before: seq<bv8>, v: nat, n: nat, all: seq<bv8>)
    requires n > 0 && before + Digits(v, n) == all
    ensures (before + [LowByte(v)]) + Digits(v / 256, n - 1) == all
  {
    assert Digits(v, n) == [LowByte(v)] + Digits(v / 256, n - 1);
  }

  lemma {:induction false} ValueBound(bytes: seq<bv8>)
    ensures Value(bytes) < Pow(256, |bytes|)
  {
    if bytes == [] {
    } else {
      ValueBound(bytes[1..]);
    }
  }

  lemma ValueCons(b: bv8, rest: seq<bv8>)
    ensures Value([b] + rest) == b as int + 256 * Value(rest)
  {
    assert ([b] + rest)[1..] == rest;
  }

  lemma {:induction false} DigitsSplit(v: nat, n: nat) returns (q: nat)
    ensures v == Pow(256, n) * q + Value(Digits(v, n))
  {
    if n == 0 {
      q := v;
    } else {
      q := DigitsSplit(v / 256, n - 1);
      var m, d := Pow(256, n - 1), Digits(v / 256, n - 1);
      ValueCons(LowByte(v), d);
      SplitArithmetic(v, m, q, Value(d));
      assert Pow(256, n) == 256 * m;
    }
  }

  lemma SplitArithmetic(v: int, m: int, q: int, w: int)
    requires v / 256 == m * q + w
    ensures v == (256 * m) * q + (v % 256 + 256 * w)
  {
    assert 256 * (m * q) == (256 * m) * q;
  }

  /** Decoding the digits of v loses exactly the part above 256^n. */
  lemma ValueOfDigits(v: nat, n: nat)
    ensures Pow(256, n) > 0 && Value(Digits(v, n)) == v % Pow(256, n)
  {
    var q := DigitsSplit(v, n);
    PowPositive(256, n);
    ValueBound(Digits(v, n));
    RemainderUnique(v, q, Value(Digits(v, n)), Pow(256, n));
  }

  lemma {:induction false} DigitsOfValue(bytes: seq<bv8>)
    ensures Digits(Value(bytes), |bytes|) == bytes
  {
    if bytes == [] {
    } else {
      DigitsOfValue(bytes[1..]);
      var v := Value(bytes);
      assert v % 256 == bytes[0] as int && v / 256 == Value(bytes[1..]);
      assert (bytes[0] as int) as bv8 == bytes[0];
      assert bytes == [bytes[0]] + bytes[1..];
    }
  }

  lemma FieldFitsIn32Bytes()
    ensures P < Pow(256, 32)
  {
    BytesOfBits(32);
    PowAdd(2, 1, BITS);
    assert Pow(2, 1) == 2;
  }

  lemma {:induction false} BytesOfBits(n: nat)
    ensures Pow(256, n) == Pow(2, 8 * n)
  {
    if n == 0 {
    } else {
      BytesOfBits(n - 1);
      PowAdd(2, 8, 8 * n - 8);
      assert Pow(2, 8) == 256;
    }
  }

  lemma ValueOfDigitsBelow(v: nat, n: nat)
    requires v < Pow(256, n)
    ensures Value(Digits(v, n)) == v
  {
    ValueOfDigits(v, n);
    RemainderUnique(v, 0, v, Pow(256, n));
  }

  /** Decoding an encoded integer gives its remainder modulo 2^255 - 19. */
  lemma DecodeEncode(v: int, p: int)
    requires p == 57896044618658097711785492504343953926634992332820282019728792003956564819949
    ensures Value(Digits(v % p, 32)) == v % p
  {
    FieldOrderValue();
    DecodeReduced(v);
  }

  lemma DecodeReduced(v: int)
    ensures Value(Digits(v % P, 32)) == v % P
  {
    FieldFitsIn32Bytes();
    ValueOfDigitsBelow(v % P, 32);
  }

  /** Re-encoding 32 bytes is the identity exactly on canonical field elements. */
  lemma EncodeDecode(bytes: seq<bv8>)
    requires |bytes| == 32
    ensures Digits(Value(bytes) % P, 32) == bytes <==> Value(bytes) < P
  {
    var v := Value(bytes);
    DecodeReduced(v);
    if v < P {
      RemainderUnique(v, 0, v, P);
      DigitsOfValue(bytes);
    }
  }

  // ---------- the curve ----------

  /** A projective u-coordinate X/Z. */
  datatype Point = Point(x: int, z: int)

  const Infinity := Point(1, 0)

  /** Montgomery's doubling on v^2 = u^3 + 486662 u^2 + u. */
  function Double(p: Point): Point {
    var (x, z) := (p.x, p.z);
    Point(Mod((x * x - z * z) * (x * x - z * z)),
          Mod(4 * x * z * (x * x + 486662 * x * z + z * z)))
  }

  /** Montgomery's differential addition of p and q whose difference is x1. */
  function Add(x1: int, p: Point, q: Point): Point {
    var s, d := p.x * q.x - p.z * q.z, q.x * p.z - q.z * p.x;
    Point(Mod(4 * (s * s)), Mod(x1 * (4 * (d * d))))
  }

  function Multiple(x1: int, n: nat): Point {
    if n == 0 then Infinity
    else if n == 1 then Point(x1, 1)
    else if n % 2 == 0 then Double(Multiple(x1, n / 2))
    else Add(x1, Multiple(x1, n / 2), Multiple(x1, n / 2 + 1))
  }

  /** `k >> t` */
  function Shift(k: nat, t: nat): (r: nat)
    ensures Pow(2, t) > 0 && r == k / Pow(2, t)
  {
    PowPositive(2, t);
    k / Pow(2, t)
  }

  function Bit(k: nat, t: nat): (b: int)
    ensures b == 0 || b == 1
  {
    Shift(k, t) % 2
  }

  /** The ladder that branches on bits 254 down to t of k. */
  function Branching(x1: int, k: nat, t: nat): (Point, Point)
    requires t <= 255
    decreases 255 - t
  {
    if t == 255 then (Infinity, Point(x1, 1))
    else
      var (p, q) := Branching(x1, k, t + 1);
      if Bit(k, t) == 0 then (Double(p), Add(x1, p, q)) else (Add(x1, p, q), Double(q))
  }

  /** Clamping of section 5 of RFC 7748. */
  function Clamp(scalar: seq<bv8>): seq<bv8>
    requires |scalar| == 32
  {
    scalar[0 := scalar[0] & 248][31 := (scalar[31] & 127) | 64]
  }

  function ClampedValue(scalar: seq<bv8>): nat
    requires |scalar| == 32
  {
    Value(Clamp(scalar))
  }

  /** The number the ladder hands to the byte encoder. */
  function Quotient(p: Point): int {
    Mod(p.x * (Pow(p.z, P - 2) % P))
  }

  // ---------- the code ----------

  /** `modPow`. */
  method ModPow(base: int, exponent: int) returns (result: int)
    ensures exponent >= 0 ==> result == Pow(base, exponent) % P
    ensures exponent < 0 ==> result == 1
  {
    result := 1;
    var b := Mod(base);
    var e := exponent;
    PowCong(base, b, if exponent < 0 then 0 else exponent, P);
    while e > 0
      invariant exponent >= 0 ==> e >= 0
      invariant exponent < 0 ==> result == 1 && e == exponent
      invariant 0 <= result < P
      invariant exponent >= 0 ==> Cong(result * Pow(b, e), Pow(base, exponent), P)
    {
      ghost var r0, b0, e0 := result, b, e;
      if e % 2 == 1 {
        result := Mod(result * b);
      }
      b := Mod(b * b);
      e := e / 2;
      SquareAndMultiply(r0, b0, e0, result, b);
    }
    if exponent >= 0 {
      assert Pow(b, e) == 1;
      RemainderUnique(result, 0, result, P);
    }
  }

  /** Bit t of the scalar, read from its byte. */
  method BitAt(k: array<bv8>, t: nat) returns (kt: int)
    requires t / 8 < k.Length
    ensures kt == Bit(Value(k[..]), t)
  {
    BitOfBytes(k[..], t);
    kt := (k[t / 8] as int / TwoTo(t % 8)) % 2;
  }

  /** A round on the pair swapped by the bit is a branching round, up to that swap. */
  lemma Round(x1: int, k: nat, t: nat, a: Point, b: Point)
    requires t < 255
    requires var (p, q) := Branching(x1, k, t + 1);
             a == (if Bit(k, t) == 0 then p else q) && b == (if Bit(k, t) == 0 then q else p)
    ensures Branching(x1, k, t)
         == if Bit(k, t) == 0 then (Double(a), Add(x1, a, b)) else (Add(x1, a, b), Double(a))
  {
    AddSymmetric(x1, a, b);
  }

  /** The arithmetic of one round of the loop. */
  method LadderStep(x1: int, x2: int, z2: int, x3: int, z3: int)
    returns (x2': int, z2': int, x3': int, z3': int)
    ensures Point(x2', z2') == Double(Point(x2, z2))
    ensures Point(x3', z3') == Add(x1, Point(x2, z2), Point(x3, z3))
  {
    var a := Mod(x2 + z2);
    var aa := Mod(a * a);
    var b := Mod(x2 - z2);
    var bb := Mod(b * b);
    var e := Mod(aa - bb);
    var c := Mod(x3 + z3);
    var d := Mod(x3 - z3);
    var da := Mod(d * a);
    var cb := Mod(c * b);
    x3' := Mod((da + cb) * (da + cb));
    z3' := Mod(x1 * Mod((da - cb) * (da - cb)));
    x2' := Mod(aa * bb);
    z2' := Mod(e * Mod(aa + 121665 * e));
    FactoredDouble(Point(x2, z2), a, aa, b, bb, e);
    FactoredAdd(x1, Point(x2, z2), Point(x3, z3), a, b, c, d, da, cb);
  }

  /** The loop of `x25519` with its final swap, on the clamped bytes. */
  method Ladder(k: array<bv8>, x1: int) returns (x2: int, z2: int)
    requires k.Length == 32
    ensures Point(x2, z2) == Branching(x1, Value(k[..]), 0).0
  {
    x2, z2 := 1, 0;
    var x3, z3 := x1, 1;
    var swap := 0;
    ghost var n := Value(k[..]);
    ghost var pair := Branching(x1, n, 255);
    var t := 254;
    while t >= 0
      invariant -1 <= t <= 254
      invariant 0 <= swap <= 1
      invariant pair == Branching(x1, n, t + 1)
      invariant Unswap(swap, x2, z2, x3, z3) == pair
    {
      var kt := BitAt(k, t);
      swap := if swap == kt then 0 else 1;
      if swap == 1 {
        x2, x3 := x3, x2;
        z2, z3 := z3, z2;
      }
      swap := kt;
      Round(x1, n, t, Point(x2, z2), Point(x3, z3));
      pair := Branching(x1, n, t);
      x2, z2, x3, z3 := LadderStep(x1, x2, z2, x3, z3);
      t := t - 1;
    }
    if swap == 1 {
      x2, x3 := x3, x2;
      z2, z3 := z3, z2;
    }
  }

  /** `x25519`. */
  method ScalarMult(scalar: seq<bv8>, u: seq<bv8>) returns (out: array<bv8>)
    requires |scalar| == 32
    ensures fresh(out) && out.Length == 32
    ensures out[..] == Digits(Quotient(Branching(Value(u) % P, ClampedValue(scalar), 0).0), 32)
  {
    var k := new bv8[32](i requires 0 <= i < 32 => scalar[i]);
    k[0] := k[0] & 248;
    k[31] := k[31] & 127;
    k[31] := k[31] | 64;
    assert k[..] == Clamp(scalar);
    var x1 := Decode(u);
    x1 := TruncatedRemainder(x1, P);
    var x2, z2 := Ladder(k, x1);
    var inverse := ModPow(z2, P - 2);
    out := Encode(Mod(x2 * inverse));
    RemainderUnique(Mod(x2 * inverse), 0, Mod(x2 * inverse), P);
  }

  /** The ladder's registers with the pending swap carried out. */
  function Unswap(swap: int, x2: int, z2: int, x3: int, z3: int): (Point, Point) {
    if swap == 1 then (Point(x3, z3), Point(x2, z2)) else (Point(x2, z2), Point(x3, z3))
  }

  function TwoTo(j: nat): (r: nat)
    requires j < 8
    ensures r == Pow(2, j) && r > 0
  {
    PowPositive(2, j);
    Pow(2, j)
  }

  lemma SquareAndMultiply(r: int, b: int, e: nat, r': int, b': int)
    requires e > 0
    requires r' == if e % 2 == 1 then Mod(r * b) else r
    requires b' == Mod(b * b)
    ensures Cong(r' * Pow(b', e / 2), r * Pow(b, e), P)
  {
    var h := e / 2;
    var w := Pow(b, 2 * h);
    PowCong(b', b * b, h, P);
    PowSquare(b, h);
    if e % 2 == 1 {
      assert e == 2 * h + 1 && Pow(b, e) == b * w;
      CongMul(r', Pow(b', h), r * b, w, P);
      assert (r * b) * w == r * (b * w);
    } else {
      CongMul(r', Pow(b', h), r, w, P);
    }
  }

  // ---------- the bits the loop reads ----------

  lemma {:induction false} BitOfBytes(bytes: seq<bv8>, t: nat)
    requires t / 8 < |bytes|
    ensures (bytes[t / 8] as int / TwoTo(t % 8)) % 2 == Bit(Value(bytes), t)
  {
    if t < 8 {
      LowBit(bytes[0] as int, Value(bytes[1..]), t);
    } else {
      var rest := bytes[1..];
      BitOfBytes(rest, t - 8);
      EarlierByte(t);
      assert rest[(t - 8) / 8] == bytes[t / 8];
      HighBit(bytes[0] as int, Value(rest), t);
    }
  }

  lemma EarlierByte(t: nat)
    requires t >= 8
    ensures (t - 8) / 8 == t / 8 - 1 && (t - 8) % 8 == t % 8
  {}

  lemma HighBit(b: int, rest: nat, t: nat)
    requires 0 <= b < 256 && t >= 8
    ensures Bit(b + 256 * rest, t) == Bit(rest, t - 8)
  {
    RemainderUnique(b + 256 * rest, rest, b, 256);
    PowAdd(2, 8, t - 8);
    assert Pow(2, 8) == 256;
    PowPositive(2, t - 8);
    DivideTwice(b + 256 * rest, 256, Pow(2, t - 8));
  }

  lemma LowBit(b: int, rest: nat, t: nat)
    requires 0 <= b < 256 && t < 8
    ensures Bit(b + 256 * rest, t) == (b / TwoTo(t)) % 2
  {
    var m, c := Pow(2, t), Pow(2, 7 - t);
    PowPositive(2, t);
    PowAdd(2, t, 7 - t);
    assert Pow(2, 7) == 128;
    LowBitArithmetic(b, rest, m, c);
  }

  lemma LowBitArithmetic(b: int, rest: int, m: int, c: int)
    requires m > 0 && m * c == 128
    ensures ((b + 256 * rest) / m) % 2 == (b / m) % 2
  {
    assert b + 256 * rest == m * (b / m + 2 * (c * rest)) + b % m by {
      assert m * (2 * (c * rest)) == 2 * ((m * c) * rest);
    }
    RemainderUnique(b + 256 * rest, b / m + 2 * (c * rest), b % m, m);
    AddMultiple(b / m, c * rest, 2);
  }

  lemma DivideTwice(v: nat, m: int, n: int)
    requires m > 0 && n > 0
    ensures m * n > 0 && v / (m * n) == (v / m) / n
  {
    var a, r := v / m, v % m;
    var q, s := a / n, a % n;
    ProductNonNegative(m - 1, n);
    assert v == (m * n) * q + (m * s + r) by {
      assert a == n * q + s;
      assert m * (n * q) == (m * n) * q;
    }
    assert 0 <= m * s + r < m * n by {
      ProductNonNegative(m, s);
      ProductNonNegative(m, n - 1 - s);
      assert m * (n - 1 - s) == m * n - m - m * s;
    }
    RemainderUnique(v, q, m * s + r, m * n);
  }

  // ---------- one ladder step computes Montgomery's formulas ----------

  lemma FactoredDouble(p: Point, a: int, aa: int, b: int, bb: int, e: int)
    requires a == Mod(p.x + p.z) && aa == Mod(a * a)
    requires b == Mod(p.x - p.z) && bb == Mod(b * b)
    requires e == Mod(aa - bb)
    ensures Point(Mod(aa * bb), Mod(e * Mod(aa + 121665 * e))) == Double(p)
  {
    var (x, z) := (p.x, p.z);
    var s, f := x + z, x - z;
    ModProduct(s, s);
    ModProduct(f, f);
    DoubleIdentities(x, z);
    DoubleTail(aa, bb, e, s * s, f * f, 4 * x * z, x * x + 486662 * x * z + z * z);
  }

  lemma ModProduct(s: int, t: int)
    ensures Cong(Mod(Mod(s) * Mod(t)), s * t, P)
  {
    CongMul(Mod(s), Mod(t), s, t, P);
  }

  lemma DoubleTail(aa: int, bb: int, e: int, s2: int, f2: int, xz: int, w: int)
    requires Cong(aa, s2, P) && Cong(bb, f2, P) && e == Mod(aa - bb)
    requires s2 - f2 == xz && s2 + 121665 * xz == w
    ensures Mod(aa * bb) == Mod(s2 * f2)
    ensures Mod(e * Mod(aa + 121665 * e)) == Mod(xz * w)
  {
    assert Mod(aa * bb) == Mod(s2 * f2) by {
      CongMul(aa, bb, s2, f2, P);
    }
    assert Cong(e, xz, P) by {
      CongAdd(aa, bb, s2, f2, P);
    }
    DoubleTailZ(aa, e, s2, xz, w);
  }

  lemma DoubleTailZ(aa: int, e: int, s2: int, xz: int, w: int)
    requires Cong(aa, s2, P) && Cong(e, xz, P) && s2 + 121665 * xz == w
    ensures Mod(e * Mod(aa + 121665 * e)) == Mod(xz * w)
  {
    assert Cong(Mod(aa + 121665 * e), w, P) by {
      CongMul(121665, e, 121665, xz, P);
      CongAdd(aa, 121665 * e, s2, 121665 * xz, P);
    }
    CongMul(e, Mod(aa + 121665 * e), xz, w, P);
  }

  lemma DoubleIdentities(x: int, z: int)
    ensures ((x + z) * (x + z)) * ((x - z) * (x - z)) == (x * x - z * z) * (x * x - z * z)
    ensures (x + z) * (x + z) - (x - z) * (x - z) == 4 * x * z
    ensures (x + z) * (x + z) + 121665 * (4 * x * z) == x * x + 486662 * x * z + z * z
  {
    assert (x + z) * (x - z) == x * x - z * z;
    var s, f := x + z, x - z;
    assert (s * s) * (f * f) == (s * f) * (s * f);
  }

  lemma FactoredAdd(x1: int, p: Point, q: Point,
                    a: int, b: int, c: int, d: int, da: int, cb: int)
    requires a == Mod(p.x + p.z) && b == Mod(p.x - p.z)
    requires c == Mod(q.x + q.z) && d == Mod(q.x - q.z)
    requires da == Mod(d * a) && cb == Mod(c * b)
    ensures Point(Mod((da + cb) * (da + cb)), Mod(x1 * Mod((da - cb) * (da - cb)))) == Add(x1, p, q)
  {
    var s, f := p.x * q.x - p.z * q.z, q.x * p.z - q.z * p.x;
    ModProduct(q.x - q.z, p.x + p.z);
    ModProduct(q.x + q.z, p.x - p.z);
    AddIdentities(p.x, p.z, q.x, q.z);
    AddTail(x1, da, cb, (q.x - q.z) * (p.x + p.z), (q.x + q.z) * (p.x - p.z), s, f);
  }

  lemma AddTail(x1: int, da: int, cb: int, g: int, h: int, s: int, f: int)
    requires Cong(da, g, P) && Cong(cb, h, P) && g + h == 2 * s && g - h == 2 * f
    ensures Mod((da + cb) * (da + cb)) == Mod(4 * (s * s))
    ensures Mod(x1 * Mod((da - cb) * (da - cb))) == Mod(x1 * (4 * (f * f)))
  {
    CongAdd(da, cb, g, h, P);
    CongMul(da + cb, da + cb, 2 * s, 2 * s, P);
    CongMul(da - cb, da - cb, 2 * f, 2 * f, P);
    FourSquares(s);
    FourSquares(f);
    CongMul(x1, Mod((da - cb) * (da - cb)), x1, 4 * (f * f), P);
  }

  lemma FourSquares(s: int)
    ensures (2 * s) * (2 * s) == 4 * (s * s)
  {}

  lemma AddIdentities(x2: int, z2: int, x3: int, z3: int)
    ensures (x3 - z3) * (x2 + z2) + (x3 + z3) * (x2 - z2) == 2 * (x2 * x3 - z2 * z3)
    ensures (x3 - z3) * (x2 + z2) - (x3 + z3) * (x2 - z2) == 2 * (x3 * z2 - z3 * x2)
  {}

  /** Swapping the two points of a differential addition changes nothing. */
  lemma AddSymmetric(x1: int, p: Point, q: Point)
    ensures Add(x1, p, q) == Add(x1, q, p)
  {
    var d, d' := q.x * p.z - q.z * p.x, p.x * q.z - p.z * q.x;
    assert d' == -d;
    assert d' * d' == d * d;
  }
}
