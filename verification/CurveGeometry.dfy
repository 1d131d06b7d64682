/**
 The projective formulas against the curve itself: chords and tangents of
 v^2 = u^3 + 486662 u^2 + u over the field of 2^255 - 19 elements.
 */
module CurveGeometry {
  import opened Modular
  import opened X25519
  import opened CurveLaws

  /** (x, y) lies on Curve25519, section 4.1 of RFC 7748. */
  ghost predicate OnCurve(x: int, y: int) {
    Cong(y * y, Cubic(x, 486662), P)
  }

  function Cubic(x: int, a: int): int {
    x * x * x + a * (x * x) + x
  }

  /** The line of slope l through two points with abscissas x and x' meets the curve again above x3. */
  ghost predicate ThirdPoint(l: int, x: int, x': int, x3: int) {
    Cong(x3, l * l - (486662 + x + x'), P)
  }

  // ---------- substitution modulo P ----------

  lemma Substitute(c: int, a: int, b: int)
    requires Cong(a, b, P)
    ensures Cong(c * a, c * b, P) && Cong(a * c, b * c, P)
  {
    CongMul(c, a, c, b, P);
    CongMul(a, c, b, c, P);
  }

  /** A projective point with unit z represents x when x * z is its first coordinate. */
  lemma Represents(p: Point, x: int)
    requires p.z % P != 0 && Cong(p.z * x, p.x, P)
    ensures Same(p, Point(x, 1))
  {
    assert ScaledBy(p, Point(x, 1), p.z);
  }

  // ---------- tangents ----------

  lemma TangentIdentity(x: int, a: int, w: int)
    requires w == 3 * (x * x) + 2 * (a * x) + 1
    ensures w * w - (4 * Cubic(x, a)) * (a + 2 * x) == (x * x - 1) * (x * x - 1)
  {
    var s, t := x * x, a * x;
    assert Cubic(x, a) == x * (s + t + 1);
    assert (4 * (x * (s + t + 1))) * (a + 2 * x) == 4 * ((s + t + 1) * (t + 2 * s)) by {
      assert x * (a + 2 * x) == t + 2 * s;
      assert (4 * (x * (s + t + 1))) * (a + 2 * x) == 4 * ((s + t + 1) * (x * (a + 2 * x)));
    }
  }

  lemma TangentSquare(y: int, l: int, w: int)
    requires Cong(l * (2 * y), w, P)
    ensures Cong((4 * (y * y)) * (l * l), w * w, P)
  {
    CongMul(l * (2 * y), l * (2 * y), w, w, P);
    assert (l * (2 * y)) * (l * (2 * y)) == (4 * (y * y)) * (l * l);
  }

  lemma TangentAlgebra(x: int, a: int, y2: int, l2: int, w: int, x3: int)
    requires Cong(y2, Cubic(x, a), P) && w == 3 * (x * x) + 2 * (a * x) + 1
    requires Cong((4 * y2) * l2, w * w, P) && Cong(x3, l2 - (a + 2 * x), P)
    ensures Cong((4 * y2) * x3, (x * x - 1) * (x * x - 1), P)
  {
    var f, c := Cubic(x, a), a + 2 * x;
    Substitute(4 * y2, x3, l2 - c);
    assert (4 * y2) * (l2 - c) == (4 * y2) * l2 - (4 * y2) * c;
    Substitute(4, y2, f);
    Substitute(c, 4 * y2, 4 * f);
    CongAdd((4 * y2) * l2, (4 * y2) * c, w * w, (4 * f) * c, P);
    TangentIdentity(x, a, w);
  }

  lemma CubicFactors(x: int, a: int)
    ensures 4 * x * (x * x + a * x + 1) == 4 * Cubic(x, a)
  {
    var s := x * x;
    assert a * s == x * (a * x);
    assert 4 * x * (s + a * x + 1) == 4 * (x * (s + a * x + 1));
  }

  lemma DoubleAffine(x: int)
    ensures Double(Point(x, 1)) == Point(Mod((x * x - 1) * (x * x - 1)), Mod(4 * Cubic(x, 486662)))
  {
    CubicFactors(x, 486662);
    assert x * 1 == x && 4 * x * 1 == 4 * x && 486662 * x * 1 == 486662 * x;
  }

  /**
   Doubling is the tangent construction: above a point (x, y) of the curve with
   y nonzero the double represents the abscissa of the third intersection of
   the tangent, and with y zero it is the point at infinity.
   */
  lemma TangentLaw(p: Point, x: int, y: int, l: int, x3: int)
    requires Prime(P) && Same(p, Point(x, 1)) && OnCurve(x, y)
    requires Cong(l * (2 * y), 3 * (x * x) + 2 * (486662 * x) + 1, P) && ThirdPoint(l, x, x, x3)
    ensures y % P != 0 ==> Same(Double(p), Point(x3, 1))
  {
    var d := Double(Point(x, 1));
    SameDouble(p, Point(x, 1));
    DoubleAffine(x);
    TangentSquare(y, l, 3 * (x * x) + 2 * (486662 * x) + 1);
    TangentAlgebra(x, 486662, y * y, l * l, 3 * (x * x) + 2 * (486662 * x) + 1, x3);
    DoubleDenominator(x, y);
    if y % P != 0 {
      Substitute(x3, d.z, 4 * (y * y));
      Represents(d, x3);
      SameTrans(Double(p), d, Point(x3, 1));
    }
  }

  lemma DoubleDenominator(x: int, y: int)
    requires Prime(P) && OnCurve(x, y)
    ensures Cong(Double(Point(x, 1)).z, 4 * (y * y), P)
    ensures y % P != 0 ==> Double(Point(x, 1)).z % P != 0
    ensures y % P == 0 ==> Double(Point(x, 1)).z % P == 0
  {
    DoubleAffine(x);
    Substitute(4, y * y, Cubic(x, 486662));
    if y % P != 0 {
      UnitProduct(P, y, y);
      UnitProduct(P, 4, y * y);
    } else {
      CongMul(y, y, 0, 0, P);
      Substitute(4, y * y, 0);
    }
  }

  /** The points of order two: the double of (x, 0) is the point at infinity. */
  lemma VerticalTangent(p: Point, x: int, y: int)
    requires Prime(P) && Same(p, Point(x, 1)) && OnCurve(x, y)
    ensures Double(p).z % P == 0 <==> y % P == 0
  {
    SameDouble(p, Point(x, 1));
    var l :| ScaledBy(Double(p), Double(Point(x, 1)), l);
    DoubleDenominator(x, y);
    if y % P == 0 {
      Substitute(l, Double(Point(x, 1)).z, 0);
    } else {
      UnitProduct(P, l, Double(Point(x, 1)).z);
    }
  }

  // ---------- chords ----------

  /** f(x) + f(x') - (a + x + x')(x' - x)^2 in the sum and the product of x and x'. */
  lemma ChordSum(x: int, x': int, a: int, s: int, p: int)
    requires s == x + x' && p == x * x'
    ensures Cubic(x, a) + Cubic(x', a) - (a + s) * ((x' - x) * (x' - x)) == p * s + 2 * (a * p) + s
  {
    var u, u', d := x * x, x' * x', (x' - x) * (x' - x);
    assert d == u + u' - 2 * p;
    assert (a + s) * d == a * (u + u') - 2 * (a * p) + s * (u + u') - 2 * (s * p);
    assert s * (u + u') == x * u + x' * u' + p * s by {
      assert x * u' == p * x' && x' * u == p * x;
    }
    assert Cubic(x, a) == x * u + a * u + x && Cubic(x', a) == x' * u' + a * u' + x';
    assert a * (u + u') == a * u + a * u';
  }

  lemma ChordProduct(x: int, x': int, a: int, s: int, p: int)
    requires s == x + x' && p == x * x'
    ensures Cubic(x, a) * Cubic(x', a) == p * (p * p + (a * p) * s + s * s - 2 * p + a * (a * p) + a * s + 1)
  {
    CubicTimes(x, a);
    CubicTimes(x', a);
    Interchange(x, x', x * x + a * x + 1, x' * x' + a * x' + 1);
    QuadraticProduct(x, x', a, s, p);
  }

  lemma CubicTimes(x: int, a: int)
    ensures Cubic(x, a) == x * (x * x + a * x + 1)
  {}

  lemma QuadraticProduct(x: int, x': int, a: int, s: int, p: int)
    requires s == x + x' && p == x * x'
    ensures (x * x + a * x + 1) * (x' * x' + a * x' + 1)
         == p * p + (a * p) * s + s * s - 2 * p + a * (a * p) + a * s + 1
  {
    var u, u', t, t' := x * x, x' * x', a * x, a * x';
    assert (u + t + 1) * (u' + t' + 1) == u * u' + u * t' + u + t * u' + t * t' + t + u' + t' + 1;
    assert u * u' == p * p;
    assert u * t' + t * u' == (a * p) * s by {
      assert u * t' == (a * p) * x && t * u' == (a * p) * x';
    }
    assert u + u' == s * s - 2 * p;
    assert t * t' == a * (a * p);
    assert t + t' == a * s;
  }

  lemma ChordDiscriminant(s: int, p: int, b: int, e: int)
    requires e == p * s + 2 * b + s
    ensures e * e - 4 * (p * p * p + b * (p * s) + p * (s * s) - 2 * (p * p) + b * b + b * s + p)
         == (p - 1) * (p - 1) * (s * s - 4 * p)
  {
    var q, r := p * s + s, s * s;
    assert e * e == q * q + 4 * (b * q) + 4 * (b * b);
    assert b * q == b * (p * s) + b * s;
    assert q * q == r * (p * p + 2 * p + 1);
    assert (p - 1) * (p - 1) == p * p - 2 * p + 1;
    assert (p * p - 2 * p + 1) * (r - 4 * p) == r * (p * p) - 2 * (r * p) + r - 4 * (p * p * p) + 8 * (p * p) - 4 * p;
  }

  lemma ChordIdentity(x: int, x': int, a: int, e: int, d: int)
    requires d == (x' - x) * (x' - x) && e == Cubic(x, a) + Cubic(x', a) - (a + x + x') * d
    ensures e * e - 4 * (Cubic(x, a) * Cubic(x', a)) == (x * x' - 1) * (x * x' - 1) * d
  {
    var s, p := x + x', x * x';
    ChordSum(x, x', a, s, p);
    ChordProduct(x, x', a, s, p);
    ChordDiscriminant(s, p, a * p, e);
    Distribute(p, a, s, a * p);
    assert d == s * s - 4 * p;
  }

  lemma Distribute(p: int, a: int, s: int, b: int)
    requires b == a * p
    ensures p * (p * p + b * s + s * s - 2 * p + a * b + a * s + 1)
         == p * p * p + b * (p * s) + p * (s * s) - 2 * (p * p) + b * b + b * s + p
  {
    Commute(p, b, s);
    Commute(p, a, b);
    Commute(p, a, s);
    SevenTerms(p, p * p, b * s, s * s, a * b, a * s);
  }

  lemma Commute(p: int, a: int, s: int)
    ensures p * (a * s) == a * (p * s) == (a * p) * s
  {}

  lemma SevenTerms(p: int, t: int, u: int, v: int, w: int, x: int)
    ensures p * (t + u + v - 2 * p + w + x + 1) == p * t + p * u + p * v - 2 * (p * p) + p * w + p * x + p
  {}

  lemma SlopeSquare(l: int, h: int, y: int, y': int, f: int, f': int)
    requires Cong(y * y, f, P) && Cong(y' * y', f', P) && Cong(l * h, y' - y, P)
    ensures Cong((l * l) * (h * h), f + f' - 2 * (y * y'), P)
  {
    CongMul(l * h, l * h, y' - y, y' - y, P);
    SquareExpansions(l, h, y, y');
    CongAdd(y * y, y' * y', f, f', P);
    CongAdd(y * y + y' * y', 2 * (y * y'), f + f', 2 * (y * y'), P);
  }

  lemma SquareExpansions(l: int, h: int, y: int, y': int)
    ensures (l * h) * (l * h) == (l * l) * (h * h)
    ensures (y' - y) * (y' - y) == (y * y + y' * y') - 2 * (y * y')
  {}

  lemma TimesThird(x3: int, l2: int, c: int, d: int, r: int)
    requires Cong(x3, l2 - c, P) && Cong(l2 * d, r, P)
    ensures Cong(x3 * d, r - c * d, P)
  {
    Substitute(d, x3, l2 - c);
    assert (l2 - c) * d == l2 * d - c * d;
    CongAdd(l2 * d, c * d, r, c * d, P);
  }

  /** The abscissa above which a line of slope l through (x, y) and (x', y') ends, times (x' - x)^2. */
  lemma LineThrough(x: int, y: int, x': int, y': int, a: int, l: int, x3: int, f: int, f': int)
    requires Cong(y * y, f, P) && Cong(y' * y', f', P)
    requires Cong(l * (x' - x), y' - y, P) && Cong(x3, l * l - (a + x + x'), P)
    ensures var d := (x' - x) * (x' - x);
            Cong(x3 * d, f + f' - (a + x + x') * d - 2 * (y * y'), P)
  {
    SlopeSquare(l, x' - x, y, y', f, f');
    TimesThird(x3, l * l, a + x + x', (x' - x) * (x' - x), f + f' - 2 * (y * y'));
  }

  lemma TwoLines(d: int, e: int, m: int, n: int, x3: int, x4: int, g: int)
    requires Cong(x3 * d, e - 2 * m, P) && Cong(x4 * d, e + 2 * m, P) && Cong(m * m, n, P)
    requires e * e - 4 * n == g * d
    ensures Cong((x3 * (x4 * d)) * d, g * d, P)
  {
    CongMul(x3 * d, x4 * d, e - 2 * m, e + 2 * m, P);
    assert (x3 * d) * (x4 * d) == (x3 * (x4 * d)) * d;
    assert (e - 2 * m) * (e + 2 * m) == e * e - 4 * (m * m);
    Substitute(4, m * m, n);
    CongAdd(e * e, 4 * (m * m), e * e, 4 * n, P);
  }

  lemma CancelFactor(v: int, w: int, d: int)
    requires Prime(P) && d % P != 0 && Cong(v * d, w * d, P)
    ensures Cong(v, w, P)
  {
    DifferenceOfMultiples(v, w, d);
    CongIff(v, w, P);
    if (v - w) % P != 0 {
      UnitProduct(P, v - w, d);
    }
  }

  lemma DifferenceOfMultiples(v: int, w: int, d: int)
    requires Cong(v * d, w * d, P)
    ensures ((v - w) * d) % P == 0
  {
    CongIff(v * d, w * d, P);
    assert v * d - w * d == (v - w) * d;
  }

  /** The abscissas of the sum and of the difference of two points determine one another. */
  lemma SumTimesDifference(x: int, y: int, x': int, y': int, l: int, m: int, x3: int, x4: int)
    requires Prime(P) && OnCurve(x, y) && OnCurve(x', y') && (x' - x) % P != 0
    requires Cong(l * (x' - x), y' - y, P) && ThirdPoint(l, x, x', x3)
    requires Cong(m * (x' - x), y' + y, P) && ThirdPoint(m, x, x', x4)
    ensures Cong(x3 * (x4 * ((x' - x) * (x' - x))), (x * x' - 1) * (x * x' - 1), P)
  {
    var a := 486662;
    var f, f', d := Cubic(x, a), Cubic(x', a), (x' - x) * (x' - x);
    var e := f + f' - (a + x + x') * d;
    LineThrough(x, y, x', y', a, l, x3, f, f');
    assert (-y) * (-y) == y * y && (-y) * y' == -(y * y');
    LineThrough(x, -y, x', y', a, m, x4, f, f');
    CongMul(y * y, y' * y', f, f', P);
    assert (y * y') * (y * y') == (y * y) * (y' * y');
    ChordIdentity(x, x', a, e, d);
    TwoLines(d, e, y * y', f * f', x3, x4, (x * x' - 1) * (x * x' - 1));
    UnitProduct(P, x' - x, x' - x);
    CancelFactor(x3 * (x4 * d), (x * x' - 1) * (x * x' - 1), d);
  }

  lemma AddAffine(x: int, x': int, x4: int)
    ensures Add(x4, Point(x, 1), Point(x', 1))
         == Point(Mod(4 * ((x * x' - 1) * (x * x' - 1))), Mod(x4 * (4 * ((x' - x) * (x' - x)))))
  {}

  lemma ChordRepresents(x: int, x': int, x3: int, x4: int, d: int, g: int)
    requires Prime(P) && d == (x' - x) * (x' - x) && g == (x * x' - 1) * (x * x' - 1)
    requires (x' - x) % P != 0 && x4 % P != 0 && Cong(x3 * (x4 * d), g, P)
    ensures Same(Add(x4, Point(x, 1), Point(x', 1)), Point(x3, 1))
  {
    AddAffine(x, x', x4);
    UnitProduct(P, x' - x, x' - x);
    ChordUnit(x4, d);
    ChordNumerator(x3, x4, d, g);
    Represents(Add(x4, Point(x, 1), Point(x', 1)), x3);
  }

  lemma ChordUnit(x4: int, d: int)
    requires Prime(P) && d % P != 0 && x4 % P != 0
    ensures Mod(x4 * (4 * d)) % P != 0
  {
    UnitProduct(P, 4, d);
    UnitProduct(P, x4, 4 * d);
  }

  lemma ChordNumerator(x3: int, x4: int, d: int, g: int)
    requires Cong(x3 * (x4 * d), g, P)
    ensures Cong(Mod(x4 * (4 * d)) * x3, Mod(4 * g), P)
  {
    Substitute(4, x3 * (x4 * d), g);
    Substitute(x3, Mod(x4 * (4 * d)), x4 * (4 * d));
    PullFour(x3, x4, d);
  }

  lemma PullFour(x3: int, x4: int, d: int)
    ensures (x4 * (4 * d)) * x3 == 4 * (x3 * (x4 * d))
  {
    assert x4 * (4 * d) == 4 * (x4 * d);
  }

  /**
   Differential addition is the chord construction: l is the slope of the chord
   through (x, y) and (x', y') and m that of the chord through (x, -y) and (x', y'),
   so that x3 is the abscissa of the sum and x4 that of the difference. Given
   the difference, the formula represents the sum.
   */
  lemma ChordLaw(p: Point, q: Point, x: int, y: int, x': int, y': int, l: int, m: int, x3: int, x4: int)
    requires Prime(P) && Same(p, Point(x, 1)) && Same(q, Point(x', 1))
    requires OnCurve(x, y) && OnCurve(x', y') && (x' - x) % P != 0
    requires Cong(l * (x' - x), y' - y, P) && ThirdPoint(l, x, x', x3)
    requires Cong(m * (x' - x), y' + y, P) && ThirdPoint(m, x, x', x4)
    requires x4 % P != 0
    ensures Same(Add(x4, p, q), Point(x3, 1))
  {
    SameAdd(x4, p, Point(x, 1), q, Point(x', 1));
    SumTimesDifference(x, y, x', y', l, m, x3, x4);
    ChordRepresents(x, x', x3, x4, (x' - x) * (x' - x), (x * x' - 1) * (x * x' - 1));
    SameTrans(Add(x4, p, q), Add(x4, Point(x, 1), Point(x', 1)), Point(x3, 1));
  }
}
