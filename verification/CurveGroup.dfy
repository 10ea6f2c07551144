/** The complete addition law of the curve, and what the order of a base point means for
    its multiples: which of them can share an x coordinate, and which can be doubled. */
module CurveGroup {
  import opened Congruence
  import opened Curve
  import opened CurveLaw

  /** A point of the curve group: the point at infinity or an affine point. */
  datatype Elem = Inf | Fin(point: Point)

  ghost predicate Same(p: nat, a: Elem, b: Elem)
    requires p > 0
  {
    if a.Inf? || b.Inf? then a.Inf? && b.Inf? else Cong(p, a.point.x, b.point.x) && Cong(p, a.point.y, b.point.y)
  }

  /** The complete law: infinity is neutral, different x take the chord, opposite points
      add up to infinity, and what remains takes the tangent. */
  ghost predicate Law(p: nat, a: Elem, b: Elem, r: Elem)
    requires p > 0
  {
    if a.Inf? then Same(p, r, b)
    else if b.Inf? then Same(p, r, a)
    else if !Cong(p, b.point.x - a.point.x, 0) then r.Fin? && Chord(p, a.point, b.point, r.point)
    else if Cong(p, a.point.y + b.point.y, 0) then r.Inf?
    else r.Fin? && TangentLine(p, a.point, r.point)
  }

  ghost predicate LawAt(p: nat, mult: int -> Elem, i: int, j: int)
    requires p > 0
  {
    Law(p, mult(i), mult(j), mult(i + j))
  }

  /** `mult(i)` is the i-fold sum of the curve point `mult(1)`, whose order is at least `N`. */
  ghost predicate Multiples(c: BitCurve, mult: int -> Elem)
    requires c.P > 0
  {
    && mult(0) == Inf
    && (forall i, j {:trigger LawAt(c.P, mult, i, j)} :: LawAt(c.P, mult, i, j))
    && (forall i | 0 < i < c.N :: mult(i).Fin?)
    && (mult(1).Fin? ==> OnCurve(c, mult(1).point))
  }

  // ---- Staying on the curve ----

  lemma {:induction false} TangentStays(c: BitCurve, a: Point, r: Point)
    requires Field(c.P) && OnCurve(c, a) && TangentLine(c.P, a, r)
    ensures OnCurve(c, r)
  {
    var p := c.P;
    var l :| Cong(p, l * (2 * a.y), 3 * (a.x * a.x)) && OnLine(p, a, a, l, r);
    var t := l * l - 3 * a.x;
    TangentMeets(c, a, l, t);
    MirrorStays(c, a, l, r, Point(a.x + t, a.y + l * t));
  }

  lemma {:induction false} SumVanishes(p: nat, e: int, u: int, t: int, s: int)
    requires p > 0 && Cong(p, u, 0) && Cong(p, s, 0) && e == u + t * s
    ensures Cong(p, e, 0)
  {
    CongScale(p, t, s, 0);
    CongAdd(p, u, 0, t * s, 0);
  }

  lemma {:induction false} NoThirdTerm(t: int, s: int, u: int)
    requires u == 0
    ensures t * (s + t * u) == t * s
  {
  }

  lemma {:induction false} AlongTangent(a: Point, b: int, l: int, t: int, e: int, s: int)
    requires t == l * l - 3 * a.x && s == 2 * (a.y * l) - 3 * (a.x * a.x)
    requires e == (a.y + l * t) * (a.y + l * t) - (a.x + t) * (a.x + t) * (a.x + t) - b
    ensures e == (a.y * a.y - a.x * a.x * a.x - b) + t * s
  {
    AlongLine(a, b, l, t);
    NoThirdTerm(t, s, l * l - 3 * a.x - t);
  }

  lemma {:induction false} SlopeVanishes(p: nat, l: int, y: int, q: int, s: int)
    requires p > 0 && Cong(p, l * (2 * y), q) && s == 2 * (y * l) - q
    ensures Cong(p, s, 0)
  {
    assert l * (2 * y) == 2 * (y * l);
  }

  /** The tangent meets the curve once more. */
  lemma {:induction false} TangentMeets(c: BitCurve, a: Point, l: int, t: int)
    requires c.P > 0 && OnCurve(c, a) && Cong(c.P, l * (2 * a.y), 3 * (a.x * a.x)) && t == l * l - 3 * a.x
    ensures OnCurve(c, Point(a.x + t, a.y + l * t))
  {
    var s := 2 * (a.y * l) - 3 * (a.x * a.x);
    var e := (a.y + l * t) * (a.y + l * t) - (a.x + t) * (a.x + t) * (a.x + t) - c.B;
    SlopeVanishes(c.P, l, a.y, 3 * (a.x * a.x), s);
    AlongTangent(a, c.B, l, t, e, s);
    SumVanishes(c.P, e, a.y * a.y - a.x * a.x * a.x - c.B, t, s);
  }

  /** Every finite multiple below the order lies on the curve. */
  lemma {:induction false} MultipleOnCurve(c: BitCurve, mult: int -> Elem, m: int)
    requires Field(c.P) && Multiples(c, mult) && 0 < m < c.N
    ensures mult(m).Fin? && OnCurve(c, mult(m).point)
    decreases m
  {
    if m > 1 {
      MultipleOnCurve(c, mult, m - 1);
      MultipleOnCurve(c, mult, 1);
      assert LawAt(c.P, mult, 1, m - 1);
      var a, b, r := mult(1).point, mult(m - 1).point, mult(m).point;
      if !Cong(c.P, b.x - a.x, 0) {
        var l :| Cong(c.P, l * (b.x - a.x), b.y - a.y) && OnLine(c.P, a, b, l, r);
        ChordStays(c, a, b, l, r);
      } else {
        TangentStays(c, a, r);
      }
    }
  }

  // ---- What the order rules out ----

  lemma {:induction false} SquaresAgree(p: nat, u: int, v: int, s: int, t: int, b: int)
    requires p > 0 && Cong(p, s - u - b, 0) && Cong(p, t - v - b, 0) && Cong(p, u, v)
    ensures Cong(p, s - t, 0)
  {
    CongAdd(p, s - u - b, 0, t - v - b, 0);
    CongAdd(p, s - u - b - (t - v - b), 0, u, v);
    CongAdd(p, s - t + v, v, v, v);
  }

  /** Curve points with the same x are equal or opposite. */
  lemma {:induction false} SameXSameOrOpposite(c: BitCurve, a: Point, b: Point)
    requires Field(c.P) && OnCurve(c, a) && OnCurve(c, b) && Cong(c.P, b.x - a.x, 0)
    ensures Cong(c.P, a.y + b.y, 0) || Cong(c.P, b.y - a.y, 0)
  {
    var p := c.P;
    CubesAgree(p, b.x, a.x);
    SquaresAgree(p, b.x * b.x * b.x, a.x * a.x * a.x, b.y * b.y, a.y * a.y, c.B);
    assert (a.y + b.y) * (b.y - a.y) == b.y * b.y - a.y * a.y;
    if !Cong(p, a.y + b.y, 0) && !Cong(p, b.y - a.y, 0) {
      ProductNonZero(p, a.y + b.y, b.y - a.y);
    }
  }

  lemma {:induction false} CubesAgree(p: nat, x: int, y: int)
    requires p > 0 && Cong(p, x - y, 0)
    ensures Cong(p, x * x * x, y * y * y)
  {
    assert Cong(p, x, y);
    SixthCong(p, x, y);
  }

  /** The multiple at -1 is the mirror image of the base point. */
  lemma {:induction false} Negative(c: BitCurve, mult: int -> Elem)
    requires c.P > 0 && Multiples(c, mult) && c.N > 1
    ensures var a, n := mult(1).point, mult(-1);
            n.Fin? && Cong(c.P, n.point.x - a.x, 0) && Cong(c.P, a.y + n.point.y, 0)
  {
    assert LawAt(c.P, mult, 1, -1);
  }

  /** A multiple equal to the base point makes the one below it infinite. */
  lemma {:induction false} EqualToBase(c: BitCurve, mult: int -> Elem, m: int)
    requires c.P > 0 && Multiples(c, mult) && c.N > 1 && mult(m).Fin?
    requires Cong(c.P, mult(m).point.x - mult(1).point.x, 0) && Cong(c.P, mult(m).point.y - mult(1).point.y, 0)
    ensures mult(m - 1).Inf?
  {
    Negative(c, mult);
    var p, a, b, n := c.P, mult(1).point, mult(m).point, mult(-1).point;
    CongAdd(p, n.x - a.x, 0, b.x - a.x, 0);
    CongAdd(p, a.y + n.y, 0, b.y - a.y, 0);
    assert LawAt(p, mult, m, -1);
    assert m + -1 == m - 1;
  }

  /** A multiple opposite to the base point makes the one above it infinite. */
  lemma {:induction false} OppositeToBase(c: BitCurve, mult: int -> Elem, m: int)
    requires c.P > 0 && Multiples(c, mult) && c.N > 1 && mult(m).Fin?
    requires Cong(c.P, mult(m).point.x - mult(1).point.x, 0) && Cong(c.P, mult(1).point.y + mult(m).point.y, 0)
    ensures mult(m + 1).Inf?
  {
    assert LawAt(c.P, mult, 1, m);
    assert 1 + m == m + 1;
  }

  /** Below the order the base point and a higher multiple never share their x. */
  lemma {:induction false} DifferentFromBase(c: BitCurve, mult: int -> Elem, m: int)
    requires Field(c.P) && Multiples(c, mult) && 1 < m && m + 1 < c.N
    ensures !Cong(c.P, mult(m).point.x - mult(1).point.x, 0)
  {
    MultipleOnCurve(c, mult, 1);
    MultipleOnCurve(c, mult, m);
    var a, b := mult(1).point, mult(m).point;
    if Cong(c.P, b.x - a.x, 0) {
      SameXSameOrOpposite(c, a, b);
      if Cong(c.P, a.y + b.y, 0) {
        OppositeToBase(c, mult, m);
      } else {
        EqualToBase(c, mult, m);
      }
    }
  }

  /** Adding the base point to a multiple below the order takes the chord. */
  lemma {:induction false} AddsByChord(c: BitCurve, mult: int -> Elem, m: int)
    requires Field(c.P) && Multiples(c, mult) && 1 < m && m + 1 < c.N
    ensures mult(1).Fin? && mult(m).Fin? && mult(m + 1).Fin?
    ensures Chord(c.P, mult(1).point, mult(m).point, mult(m + 1).point)
  {
    DifferentFromBase(c, mult, m);
    assert LawAt(c.P, mult, 1, m);
    assert 1 + m == m + 1;
  }

  /** Doubling a multiple that stays below the order takes a proper tangent. */
  lemma {:induction false} DoublesByTangent(c: BitCurve, mult: int -> Elem, m: int)
    requires c.P > 0 && Multiples(c, mult) && 0 < m && 2 * m < c.N
    ensures mult(m).Fin? && mult(2 * m).Fin? && Tangent(c.P, mult(m).point, mult(2 * m).point)
  {
    assert LawAt(c.P, mult, m, m);
    assert m + m == 2 * m;
    var a := mult(m).point;
    assert a.y + a.y == 2 * a.y;
  }
}
