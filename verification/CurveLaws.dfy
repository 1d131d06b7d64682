/**
 What the X25519 ladder computes. The only hypotheses are that 2^255 - 19 is
 prime and, for the statements about an arbitrary family of points, that the
 family obeys the curve's doubling and differential-addition laws up to the
 choice of projective representative.
 */
module CurveLaws {
  import opened Modular
  import opened X25519
  import Base64Url

  // ---------- projective equality ----------

  ghost predicate ScaledBy(p: Point, q: Point, l: int) {
    l % P != 0 && Cong(p.x, l * q.x, P) && Cong(p.z, l * q.z, P)
  }

  /** The same projective point: coordinates agree up to a unit of the field. */
  ghost predicate Same(p: Point, q: Point) {
    exists l :: ScaledBy(p, q, l)
  }

  /**
   S lists the multiples of the point x1: S(0) is the identity, S(1) the point,
   and doubling and differential addition lead from multiples to multiples.
   */
  ghost predicate Obeys(x1: int, S: nat -> Point) {
    && Same(Infinity, S(0))
    && Same(Point(x1, 1), S(1))
    && forall n: nat :: StepLaw(x1, S, n)
  }

  ghost predicate StepLaw(x1: int, S: nat -> Point, n: nat) {
    && Same(Double(S(n)), S(2 * n))
    && Same(Add(x1, S(n), S(n + 1)), S(2 * n + 1))
  }

  lemma SameRefl(p: Point)
    ensures Same(p, p)
  {
    assert ScaledBy(p, p, 1);
  }

  lemma SameTrans(p: Point, q: Point, r: Point)
    requires Prime(P) && Same(p, q) && Same(q, r)
    ensures Same(p, r)
  {
    var l :| ScaledBy(p, q, l);
    var m :| ScaledBy(q, r, m);
    ScaledTrans(p, q, r, l, m);
  }

  lemma ScaledTrans(p: Point, q: Point, r: Point, l: int, m: int)
    requires Prime(P) && ScaledBy(p, q, l) && ScaledBy(q, r, m)
    ensures ScaledBy(p, r, l * m)
  {
    UnitProduct(P, l, m);
    CongMul(l, q.x, l, m * r.x, P);
    CongMul(l, q.z, l, m * r.z, P);
    assert l * (m * r.x) == (l * m) * r.x && l * (m * r.z) == (l * m) * r.z;
  }

  // ---------- representation independence of one step ----------

  /** Scaling the input of a doubling by l scales its output by l^4. */
  lemma ScaledDouble(p: Point, q: Point, l: int)
    requires Prime(P) && ScaledBy(p, q, l)
    ensures ScaledBy(Double(p), Double(q), (l * l) * (l * l))
  {
    var l2, l4 := l * l, (l * l) * (l * l);
    UnitProduct(P, l, l);
    UnitProduct(P, l2, l2);
    ScaledProduct(p.x, q.x, l, p.x, q.x, l);
    ScaledProduct(p.x, q.x, l, p.z, q.z, l);
    ScaledProduct(p.z, q.z, l, p.z, q.z, l);
    var xx, xz, zz := p.x * p.x, p.x * p.z, p.z * p.z;
    var yy, yw, ww := q.x * q.x, q.x * q.z, q.z * q.z;
    ScaledSum(xx, yy, zz, ww, l2);
    ScaledProduct(xx - zz, yy - ww, l2, xx - zz, yy - ww, l2);
    ScaledTimes(4, xz, yw, l2);
    ScaledTimes(486662, xz, yw, l2);
    ScaledSum(xx, yy, 486662 * xz, 486662 * yw, l2);
    ScaledSum(xx + 486662 * xz, yy + 486662 * yw, zz, ww, l2);
    ScaledProduct(4 * xz, 4 * yw, l2, xx + 486662 * xz + zz, yy + 486662 * yw + ww, l2);
    DoubleByProducts(p);
    DoubleByProducts(q);
    ScaledMod((xx - zz) * (xx - zz), (yy - ww) * (yy - ww), l4);
    ScaledMod((4 * xz) * (xx + 486662 * xz + zz), (4 * yw) * (yy + 486662 * yw + ww), l4);
  }

  lemma DoubleByProducts(p: Point)
    ensures var xx, xz, zz := p.x * p.x, p.x * p.z, p.z * p.z;
            Double(p) == Point(Mod((xx - zz) * (xx - zz)), Mod((4 * xz) * (xx + 486662 * xz + zz)))
  {
    assert 4 * p.x * p.z == 4 * (p.x * p.z);
    assert 486662 * p.x * p.z == 486662 * (p.x * p.z);
  }

  /** Scaling the inputs of a differential addition by l and m scales its output by (l*m)^2. */
  lemma ScaledAdd(x1: int, p: Point, p': Point, l: int, q: Point, q': Point, m: int)
    requires Prime(P) && ScaledBy(p, p', l) && ScaledBy(q, q', m)
    ensures ScaledBy(Add(x1, p, q), Add(x1, p', q'), (l * m) * (l * m))
  {
    var c := l * m;
    UnitProduct(P, l, m);
    UnitProduct(P, c, c);
    var s, s' := p.x * q.x - p.z * q.z, p'.x * q'.x - p'.z * q'.z;
    var d, d' := q.x * p.z - q.z * p.x, q'.x * p'.z - q'.z * p'.x;
    assert Cong(s, c * s', P) by {
      ScaledProduct(p.x, p'.x, l, q.x, q'.x, m);
      ScaledProduct(p.z, p'.z, l, q.z, q'.z, m);
      ScaledSum(p.x * q.x, p'.x * q'.x, p.z * q.z, p'.z * q'.z, c);
    }
    assert Cong(d, c * d', P) by {
      ScaledProduct(p.z, p'.z, l, q.x, q'.x, m);
      ScaledProduct(p.x, p'.x, l, q.z, q'.z, m);
      ScaledSum(p.z * q.x, p'.z * q'.x, p.x * q.z, p'.x * q'.z, c);
      assert d == p.z * q.x - p.x * q.z && d' == p'.z * q'.x - p'.x * q'.z;
    }
    ScaledProduct(s, s', c, s, s', c);
    ScaledTimes(4, s * s, s' * s', c * c);
    ScaledMod(4 * (s * s), 4 * (s' * s'), c * c);
    ScaledProduct(d, d', c, d, d', c);
    ScaledTimes(4, d * d, d' * d', c * c);
    ScaledTimes(x1, 4 * (d * d), 4 * (d' * d'), c * c);
    ScaledMod(x1 * (4 * (d * d)), x1 * (4 * (d' * d')), c * c);
  }

  lemma ScaledProduct(a: int, a': int, l: int, b: int, b': int, m: int)
    requires Cong(a, l * a', P) && Cong(b, m * b', P)
    ensures Cong(a * b, (l * m) * (a' * b'), P)
  {
    CongMul(a, b, l * a', m * b', P);
    assert (l * a') * (m * b') == (l * m) * (a' * b');
  }

  lemma ScaledSum(a: int, a': int, b: int, b': int, l: int)
    requires Cong(a, l * a', P) && Cong(b, l * b', P)
    ensures Cong(a + b, l * (a' + b'), P) && Cong(a - b, l * (a' - b'), P)
  {
    CongAdd(a, b, l * a', l * b', P);
    assert l * a' + l * b' == l * (a' + b') && l * a' - l * b' == l * (a' - b');
  }

  lemma ScaledTimes(c: int, a: int, a': int, l: int)
    requires Cong(a, l * a', P)
    ensures Cong(c * a, l * (c * a'), P)
  {
    CongMul(c, a, c, l * a', P);
    assert c * (l * a') == l * (c * a');
  }

  lemma ScaledMod(a: int, a': int, l: int)
    requires Cong(a, l * a', P)
    ensures Cong(Mod(a), l * Mod(a'), P)
  {
    CongMul(l, a', l, Mod(a'), P);
  }

  lemma SameDouble(p: Point, q: Point)
    requires Prime(P) && Same(p, q)
    ensures Same(Double(p), Double(q))
  {
    var l :| ScaledBy(p, q, l);
    ScaledDouble(p, q, l);
  }

  lemma SameAdd(x1: int, p: Point, p': Point, q: Point, q': Point)
    requires Prime(P) && Same(p, p') && Same(q, q')
    ensures Same(Add(x1, p, q), Add(x1, p', q'))
  {
    var l :| ScaledBy(p, p', l);
    var m :| ScaledBy(q, q', m);
    ScaledAdd(x1, p, p', l, q, q', m);
  }

  // ---------- the ladder climbs through consecutive multiples ----------

  lemma {:induction false} BranchingClimbs(x1: int, S: nat -> Point, k: nat, t: nat, bits: nat)
    requires Prime(P) && Obeys(x1, S) && bits == 255 && k < Pow(2, bits) && t <= bits
    ensures Same(Branching(x1, k, t).0, S(Shift(k, t)))
    ensures Same(Branching(x1, k, t).1, S(Shift(k, t) + 1))
    decreases bits - t
  {
    if t == bits {
      RemainderUnique(k, 0, k, Pow(2, bits));
    } else {
      BranchingClimbs(x1, S, k, t + 1, bits);
      var (p, q) := Branching(x1, k, t + 1);
      ShiftOne(k, t);
      ClimbOne(x1, S, Shift(k, t + 1), p, q);
    }
  }

  lemma ShiftOne(k: nat, t: nat)
    ensures Shift(k, t) == 2 * Shift(k, t + 1) + Bit(k, t)
  {
    PowPositive(2, t);
    DivideTwice(k, Pow(2, t), 2);
  }

  lemma ClimbOne(x1: int, S: nat -> Point, n: nat, p: Point, q: Point)
    requires Prime(P) && Obeys(x1, S) && Same(p, S(n)) && Same(q, S(n + 1))
    ensures Same(Double(p), S(2 * n))
    ensures Same(Add(x1, p, q), S(2 * n + 1))
    ensures Same(Double(q), S(2 * n + 2))
  {
    assert StepLaw(x1, S, n) && StepLaw(x1, S, n + 1);
    SameDouble(p, S(n));
    SameTrans(Double(p), Double(S(n)), S(2 * n));
    SameAdd(x1, p, S(n), q, S(n + 1));
    SameTrans(Add(x1, p, q), Add(x1, S(n), S(n + 1)), S(2 * n + 1));
    SameDouble(q, S(n + 1));
    SameTrans(Double(q), Double(S(n + 1)), S(2 * (n + 1)));
  }

  /** The laws determine every multiple: any obeying family is `Multiple`. */
  lemma {:induction false} MultipleUnique(x1: int, S: nat -> Point, n: nat)
    requires Prime(P) && Obeys(x1, S)
    ensures Same(Multiple(x1, n), S(n))
  {
    if n >= 2 {
      var h := n / 2;
      assert StepLaw(x1, S, h);
      MultipleUnique(x1, S, h);
      MultipleUnique(x1, S, if n % 2 == 0 then h else h + 1);
      if n % 2 == 0 {
        SameDouble(Multiple(x1, h), S(h));
        SameTrans(Multiple(x1, n), Double(S(h)), S(2 * h));
      } else {
        SameAdd(x1, Multiple(x1, h), S(h), Multiple(x1, h + 1), S(h + 1));
        SameTrans(Multiple(x1, n), Add(x1, S(h), S(h + 1)), S(2 * h + 1));
      }
    }
  }

  /** `Multiple` obeys the laws itself, for every nonzero u-coordinate. */
  lemma MultipleObeys(x1: int)
    requires Prime(P) && x1 % P != 0
    ensures Obeys(x1, Multiples(x1))
  {
    SameRefl(Infinity);
    SameRefl(Point(x1, 1));
    forall n: nat
      ensures StepLaw(x1, Multiples(x1), n)
    {
      MultipleStep(x1, n);
    }
  }

  function Multiples(x1: int): nat -> Point {
    (n: nat) => Multiple(x1, n)
  }

  lemma DoubleOfInfinity()
    ensures Double(Infinity) == Infinity
  {
    RemainderUnique(1, 0, 1, P);
    RemainderUnique(0, 0, 0, P);
  }

  lemma MultipleStep(x1: int, n: nat)
    requires Prime(P) && x1 % P != 0
    ensures Same(Double(Multiple(x1, n)), Multiple(x1, 2 * n))
    ensures Same(Add(x1, Multiple(x1, n), Multiple(x1, n + 1)), Multiple(x1, 2 * n + 1))
  {
    if n == 0 {
      DoubleOfInfinity();
      SameRefl(Infinity);
      AddFromInfinity(x1);
    } else {
      var twice := 2 * n;
      assert twice / 2 == n && twice % 2 == 0 && (twice + 1) / 2 == n && (twice + 1) % 2 == 1;
      SameRefl(Double(Multiple(x1, n)));
      SameRefl(Add(x1, Multiple(x1, n), Multiple(x1, n + 1)));
    }
  }

  lemma AddFromInfinity(x1: int)
    requires Prime(P) && x1 % P != 0
    ensures ScaledBy(Add(x1, Infinity, Point(x1, 1)), Point(x1, 1), 4 * x1)
  {
    UnitProduct(P, 4, x1);
    assert 1 * x1 - 0 * 1 == x1 && x1 * 0 - 1 * 1 == -1;
    assert 4 * (x1 * x1) == (4 * x1) * x1 && x1 * (4 * (-1 * -1)) == 4 * x1;
  }

  // ---------- the affine result ----------

  /** `x2 * modPow(z2, P - 2)` is the quotient x/z of the field. */
  lemma QuotientDivides(p: Point)
    requires Prime(P) && p.z % P != 0
    ensures Cong(Quotient(p) * p.z, p.x, P)
  {
    var w := Pow(p.z, P - 2);
    Fermat(P, p.z);
    LastPower(p.z, P - 1);
    RemainderTwice(w, P);
    UndoInverse(p.x, p.z, w, w % P, Quotient(p));
  }

  lemma LastPower(b: int, e: nat)
    requires e > 0
    ensures Pow(b, e) == Pow(b, e - 1) * b
  {
  }

  lemma UndoInverse(x: int, z: int, w: int, inv: int, v: int)
    requires Cong(w * z, 1, P) && Cong(inv, w, P) && Cong(v, x * inv, P)
    ensures Cong(v * z, x, P)
  {
    CongMul(inv, z, w, z, P);
    CongMul(x, inv * z, x, 1, P);
    CongMul(v, z, x * inv, z, P);
    assert (x * inv) * z == x * (inv * z);
  }

  lemma QuotientOfInfinity(p: Point)
    requires p.z % P == 0
    ensures Quotient(p) == 0
  {
    PowCong(p.z, 0, P - 2, P);
    assert Pow(0, P - 2) == 0;
  }

  /** Division by a unit is unambiguous. */
  lemma QuotientUnique(z: int, v: int, w: int)
    requires Prime(P) && z % P != 0 && 0 <= v < P && 0 <= w < P && Cong(v * z, w * z, P)
    ensures v == w
  {
    CongIff(v * z, w * z, P);
    assert v * z - w * z == (v - w) * z;
    if (v - w) % P != 0 {
      UnitProduct(P, v - w, z);
    }
    CongIff(v, w, P);
    RemainderUnique(v, 0, v, P);
    RemainderUnique(w, 0, w, P);
  }

  /** The encoded result does not depend on the projective representative. */
  lemma QuotientInvariant(p: Point, q: Point)
    requires Prime(P) && Same(p, q)
    ensures Quotient(p) == Quotient(q)
  {
    var l :| ScaledBy(p, q, l);
    if q.z % P == 0 {
      CongMul(l, q.z, l, 0, P);
      QuotientOfInfinity(p);
      QuotientOfInfinity(q);
    } else {
      UnitProduct(P, l, q.z);
      QuotientDivides(p);
      QuotientDivides(q);
      SameQuotient(p, q, l, Quotient(p), Quotient(q));
    }
  }

  lemma SameQuotient(p: Point, q: Point, l: int, v: int, w: int)
    requires Prime(P) && ScaledBy(p, q, l) && (l * q.z) % P != 0
    requires 0 <= v < P && Cong(v * p.z, p.x, P)
    requires 0 <= w < P && Cong(w * q.z, q.x, P)
    ensures v == w
  {
    CongMul(v, p.z, v, l * q.z, P);
    CongMul(l, w * q.z, l, q.x, P);
    assert l * (w * q.z) == w * (l * q.z);
    QuotientUnique(l * q.z, v, w);
  }

  // ---------- clamping ----------

  /** Clamping keeps bits 3 to 253 of the scalar, clears the rest and sets bit 254. */
  lemma ClampMeaning(scalar: seq<bv8>)
    requires |scalar| == 32
    ensures Pow(2, 254) > 0
    ensures ClampedValue(scalar) == Pow(2, 254) + (Value(scalar) % Pow(2, 254)) / 8 * 8
    ensures Pow(2, 254) <= ClampedValue(scalar) < Pow(2, 255)
    ensures ClampedValue(scalar) % 8 == 0
  {
    Powers();
    PowPositive(256, 30);
    ClampBelow(scalar, Pow(256, 30), Pow(2, 254));
    assert Pow(2, 255) == 2 * Pow(2, 254);
  }

  lemma ClampBelow(scalar: seq<bv8>, m: nat, top: nat)
    requires |scalar| == 32 && m == Pow(256, 30) && top == 64 * (256 * m)
    ensures top > 0
    ensures ClampedValue(scalar) == top + (Value(scalar) % top) / 8 * 8
    ensures top <= ClampedValue(scalar) < 2 * top
    ensures ClampedValue(scalar) % 8 == 0
  {
    var y, low := ClampReduce(scalar, m, top);
    ClampFinish(ClampedValue(scalar), low, scalar[0] as int, y, m, top);
  }

  lemma ClampReduce(scalar: seq<bv8>, m: nat, top: nat) returns (y: nat, low: nat)
    requires |scalar| == 32 && m == Pow(256, 30) && top == 64 * (256 * m)
    ensures low == scalar[0] as int + 256 * y && 0 <= low < top && Value(scalar) % top == low
    ensures ClampedValue(scalar) == (scalar[0] as int - scalar[0] as int % 8) + 256 * (y + 64 * m)
  {
    ClampSplit(scalar);
    var mid, s31 := Value(scalar[1..31]), scalar[31] as int;
    ProductNonNegative(m, s31 % 64);
    y := mid + m * (s31 % 64);
    low := scalar[0] as int + 256 * y;
    DropHighBits(Value(scalar), low, scalar[0] as int, mid, s31, m, top);
    DistributeHigh(m, s31 % 64);
  }

  lemma DistributeHigh(m: int, r: int)
    ensures m * (r + 64) == m * r + 64 * m
  {}

  lemma ClampFinish(k: int, low: int, s0: nat, y: int, m: int, top: int)
    requires k == (s0 - s0 % 8) + 256 * (y + 64 * m)
    requires low == s0 + 256 * y && 0 <= low < top && top == 64 * (256 * m)
    ensures k == top + low / 8 * 8 && top <= k < 2 * top && k % 8 == 0
  {
    RemainderUnique(low, s0 / 8 + 32 * y, s0 % 8, 8);
    RemainderUnique(k, s0 / 8 + 32 * (y + 64 * m), 0, 8);
  }

  lemma ClampSplit(scalar: seq<bv8>)
    requires |scalar| == 32
    ensures var s0, s31 := scalar[0] as int, scalar[31] as int;
            var mid, m := Value(scalar[1..31]), Pow(256, 30);
            && mid < m
            && Value(scalar) == s0 + 256 * (mid + m * s31)
            && ClampedValue(scalar) == (s0 - s0 % 8) + 256 * (mid + m * (s31 % 64 + 64))
  {
    ValueEnds(scalar);
    ValueEnds(Clamp(scalar));
    ClampBytes(scalar);
    ValueBound(scalar[1..31]);
  }

  lemma ClampBytes(scalar: seq<bv8>)
    requires |scalar| == 32
    ensures Clamp(scalar)[0] as int == scalar[0] as int - scalar[0] as int % 8
    ensures Clamp(scalar)[1..31] == scalar[1..31]
    ensures Clamp(scalar)[31] as int == scalar[31] as int % 64 + 64
  {
    ClearLow(scalar[0]);
    SetHigh(scalar[31]);
  }

  lemma Powers()
    ensures Pow(256, 31) == 256 * Pow(256, 30)
    ensures Pow(2, 254) == 64 * (256 * Pow(256, 30))
  {
    BytesOfBits(30);
    PowAdd(2, 14, 240);
    assert Pow(2, 14) == 64 * 256;
  }

  lemma HighPart(m: int, h: int, r: int)
    ensures m * (64 * h + r) == 64 * (m * h) + m * r
    ensures 64 * (256 * m) * h == 64 * 256 * (m * h)
  {
  }

  lemma DropHighBits(v: nat, low: nat, s0: nat, mid: nat, s31: nat, m: nat, top: nat)
    requires s0 < 256 && s31 < 256 && mid < m && top == 64 * (256 * m)
    requires v == s0 + 256 * (mid + m * s31) && low == s0 + 256 * (mid + m * (s31 % 64))
    ensures 0 <= low < top && v % top == low
  {
    var h, r := s31 / 64, s31 % 64;
    HighPart(m, h, r);
    assert v == top * h + low;
    ProductNonNegative(m, r);
    ProductNonNegative(m, 63 - r);
    assert m * (63 - r) == 63 * m - m * r;
    RemainderUnique(v, h, low, top);
  }

  lemma ClearLow(b: bv8)
    ensures (b & 248) as int == b as int - b as int % 8
  {
    assert b & 248 == b - b % 8;
  }

  lemma SetHigh(b: bv8)
    ensures ((b & 127) | 64) as int == b as int % 64 + 64
  {
    assert (b & 127) | 64 == b % 64 + 64;
  }

  lemma {:induction false} ValueAppend(low: seq<bv8>, high: seq<bv8>)
    ensures Value(low + high) == Value(low) + Pow(256, |low|) * Value(high)
  {
    if low == [] {
      assert low + high == high;
    } else {
      ValueAppend(low[1..], high);
      assert (low + high)[1..] == low[1..] + high;
      AppendArithmetic(Pow(256, |low| - 1), Value(high));
    }
  }

  lemma AppendArithmetic(m: int, h: int)
    ensures 256 * (m * h) == (256 * m) * h
  {}

  lemma ValueEnds(bytes: seq<bv8>)
    requires |bytes| == 32
    ensures Value(bytes) ==
            bytes[0] as int + 256 * (Value(bytes[1..31]) + Pow(256, 30) * bytes[31] as int)
  {
    var low, high := bytes[1..31], [bytes[31]];
    assert bytes[1..] == low + high;
    ValueAppend(low, high);
    assert Value(high) == bytes[31] as int + 256 * Value([]);
  }

  // ---------- the public key ----------

  /** The number `x25519` returns, before it is written out in bytes. */
  function Result(scalar: seq<bv8>, u: seq<bv8>): int
    requires |scalar| == 32
  {
    Quotient(Branching(Value(u) % P, ClampedValue(scalar), 0).0)
  }

  /**
   For every family S of multiples of u, the bytes `x25519` returns decode to
   the affine u-coordinate of S(k), where k is the clamped scalar: the number v
   below 2^255 - 19 with v * z = x. The identity is returned as zero.
   */
  lemma ScalarMultMeaning(scalar: seq<bv8>, u: seq<bv8>, S: nat -> Point, p: int)
    requires p == 57896044618658097711785492504343953926634992332820282019728792003956564819949 && Prime(p)
    requires |scalar| == 32 && Obeys(Value(u) % p, S)
    ensures var v := Value(Digits(Result(scalar, u), 32));
            var q := S(ClampedValue(scalar));
            && 0 <= v < p
            && (q.z % p != 0 ==> (v * q.z) % p == q.x % p)
            && (q.z % p == 0 ==> v == 0)
  {
    FieldOrderValue();
    ResultQuotient(scalar, u, S);
  }

  lemma ResultQuotient(scalar: seq<bv8>, u: seq<bv8>, S: nat -> Point)
    requires |scalar| == 32 && Prime(P) && Obeys(Value(u) % P, S)
    ensures var v := Value(Digits(Result(scalar, u), 32));
            var q := S(ClampedValue(scalar));
            && v == Quotient(q)
            && (q.z % P != 0 ==> 0 <= v < P && Cong(v * q.z, q.x, P))
            && (q.z % P == 0 ==> v == 0)
  {
    var x1, k := Value(u) % P, ClampedValue(scalar);
    ClampMeaning(scalar);
    BranchingClimbs(x1, S, k, 0, 255);
    assert k / Pow(2, 0) == k;
    var p, q := Branching(x1, k, 0).0, S(k);
    QuotientInvariant(p, q);
    RemainderUnique(Quotient(p), 0, Quotient(p), P);
    DecodeReduced(Quotient(p));
    if q.z % P == 0 {
      QuotientOfInfinity(q);
    } else {
      QuotientDivides(q);
    }
  }

  /** Unconditionally on any family: for u nonzero the result is `Multiple`. */
  lemma ScalarMultIsMultiple(scalar: seq<bv8>, u: seq<bv8>)
    requires |scalar| == 32 && Prime(P) && Value(u) % P != 0
    ensures Value(Digits(Result(scalar, u), 32))
            == Quotient(Multiple(Value(u) % P, ClampedValue(scalar)))
  {
    var x1 := Value(u) % P;
    RemainderUnique(x1, 0, x1, P);
    MultipleObeys(x1);
    ResultQuotient(scalar, u, Multiples(x1));
  }

  /** The degenerate input: a u-coordinate of zero gives the all-zero result. */
  lemma ScalarMultOfZero(scalar: seq<bv8>, u: seq<bv8>)
    requires |scalar| == 32 && Value(u) % P == 0
    ensures Value(Digits(Result(scalar, u), 32)) == 0
  {
    var k := ClampedValue(scalar);
    ClampMeaning(scalar);
    RemainderUnique(k, 1, k - Pow(2, 254), Pow(2, 254));
    assert Bit(k, 254) == 1;
    ZeroStep(k, 0);
    var p := Branching(0, k, 0).0;
    QuotientOfInfinity(p);
    DecodeReduced(0);
  }

  lemma {:induction false} ZeroStep(k: nat, t: nat)
    requires Bit(k, 254) == 1 && t <= 254
    ensures Branching(0, k, t).0.z % P == 0 && Branching(0, k, t).1.z % P == 0
    decreases 255 - t
  {
    if t < 254 {
      ZeroStep(k, t + 1);
      var (p, q) := Branching(0, k, t + 1);
      DoubleOfZero(p);
      DoubleOfZero(q);
    } else {
      ZeroBase();
      assert Branching(0, k, 255) == (Infinity, Point(0, 1));
    }
  }

  lemma ZeroBase()
    ensures Add(0, Infinity, Point(0, 1)).z == 0 && Double(Point(0, 1)).z == 0 && 0 % P == 0
  {
    RemainderUnique(0, 0, 0, P);
  }

  lemma DoubleOfZero(p: Point)
    requires p.z % P == 0
    ensures Double(p).z % P == 0
  {
    var c, w := 4 * p.x, p.x * p.x + 486662 * p.x * p.z + p.z * p.z;
    CongMul(c, p.z, c, 0, P);
    CongMul(4 * p.x * p.z, w, 0, w, P);
  }

  // ---------- the fallback key pair ----------

  const BASEPOINT: seq<bv8> := [
    9, 0, 0, 0, 0, 0, 0, 0, 0, 0, 0, 0, 0, 0, 0, 0, 0, 0, 0, 0, 0, 0, 0, 0, 0, 0, 0, 0, 0, 0, 0, 0]

  function Octets(bytes: seq<bv8>): (r: seq<Base64Url.Byte>)
    ensures |r| == |bytes|
    ensures forall i :: 0 <= i < |bytes| ==> r[i] == bytes[i] as int
  {
    if bytes == [] then [] else [bytes[0] as int] + Octets(bytes[1..])
  }

  /** `generateRealityKeypairFallback`, the 32 random bytes given. */
  method GenerateFallback(random: seq<bv8>) returns (privateKey: string, publicKey: string)
    requires |random| == 32
    ensures privateKey == Base64Url.Encode(Octets(random))
    ensures publicKey == Base64Url.Encode(Octets(PublicBytes(random, BASEPOINT)))
    ensures Base64Url.AcceptedRealityKey(privateKey) && Base64Url.AcceptedRealityKey(publicKey)
  {
    var shared := ScalarMult(random, BASEPOINT);
    privateKey := Base64Url.Encode(Octets(random));
    publicKey := Base64Url.Encode(Octets(shared[..]));
    Base64Url.KeyAccepted(Octets(random));
    Base64Url.KeyAccepted(Octets(shared[..]));
  }

  lemma BasePoint()
    ensures Value(BASEPOINT) == 9
  {
    ZeroTail(BASEPOINT[1..]);
  }

  lemma {:induction false} ZeroTail(bytes: seq<bv8>)
    requires forall i :: 0 <= i < |bytes| ==> bytes[i] == 0
    ensures Value(bytes) == 0
  {
    if bytes == [] {
    } else {
      ZeroTail(bytes[1..]);
    }
  }

  /** The bytes of the public key, with u any encoding of the base point. */
  function PublicBytes(random: seq<bv8>, u: seq<bv8>): (key: seq<bv8>)
    requires |random| == 32
    ensures |key| == 32
  {
    Digits(Result(random, u), 32)
  }

  lemma PublicValue(random: seq<bv8>, u: seq<bv8>)
    requires |random| == 32 && Prime(P) && Value(u) == 9
    ensures var q := Multiple(9, ClampedValue(random));
            var v := Value(PublicBytes(random, u));
            && v == Quotient(q) && (q.z % P != 0 ==> Cong(v * q.z, q.x, P))
            && (q.z % P == 0 ==> v == 0)
  {
    RemainderUnique(9, 0, 9, P);
    ScalarMultIsMultiple(random, u);
    var q := Multiple(9, ClampedValue(random));
    if q.z % P != 0 {
      QuotientDivides(q);
    } else {
      QuotientOfInfinity(q);
    }
  }

  /**
   The printed public key is accepted by the configuration and, decoded, is the
   affine coordinate of the clamped multiple of the base point: the number v below
   2^255 - 19 with v * z = x for that multiple (x : z), and 0 if z is 0.
   */
  lemma PublicKeyMeaning(random: seq<bv8>, p: int)
    requires p == 57896044618658097711785492504343953926634992332820282019728792003956564819949 && Prime(p) && |random| == 32
    ensures var key := PublicBytes(random, BASEPOINT);
            var text, q := Base64Url.Encode(Octets(key)), Multiple(9, ClampedValue(random));
            && Base64Url.AcceptedRealityKey(text) && Base64Url.Decode(text) == Octets(key)
            && Value(key) < p
            && (q.z % p != 0 ==> (Value(key) * q.z) % p == q.x % p)
            && (q.z % p == 0 ==> Value(key) == 0)
  {
    FieldOrderValue();
    BasePoint();
    PublicValue(random, BASEPOINT);
    Base64Url.KeyAccepted(Octets(PublicBytes(random, BASEPOINT)));
  }
}
