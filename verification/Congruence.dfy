/** Integers modulo a prime. */
module Congruence {

  ghost predicate Cong(p: nat, a: int, b: int)
    requires p > 0
  {
    (a - b) % p == 0
  }

  lemma {:induction false} CongWith(p: nat, a: int, b: int, k: int)
    requires p > 0 && a - b == p * k
    ensures Cong(p, a, b)
  {
    assert (p * k) % p == 0 by {
      ModMultiple(p, k);
    }
  }

  lemma {:induction false} ModMultiple(p: nat, k: int)
    requires p > 0
    ensures (p * k) % p == 0
  {
    var q, r := p * k / p, p * k % p;
    assert p * k == p * q + r;
    assert p * (k - q) == r;
    FarFromZero(p, k - q);
  }

  lemma {:induction false} FarFromZero(p: nat, t: int)
    ensures t >= 1 ==> p * t >= p
    ensures t <= -1 ==> p * t <= -(p as int)
  {
  }

  lemma {:induction false} CongGet(p: nat, a: int, b: int) returns (k: int)
    requires p > 0 && Cong(p, a, b)
    ensures a - b == p * k
  {
    k := (a - b) / p;
  }

  lemma {:induction false} CongMod(p: nat, a: int)
    requires p > 0
    ensures Cong(p, a % p, a)
  {
    CongWith(p, a % p, a, -(a / p));
  }

  lemma {:induction false} CongSym(p: nat, a: int, b: int)
    requires p > 0 && Cong(p, a, b)
    ensures Cong(p, b, a)
  {
    var k := CongGet(p, a, b);
    CongWith(p, b, a, -k);
  }

  lemma {:induction false} CongTrans(p: nat, a: int, b: int, c: int)
    requires p > 0 && Cong(p, a, b) && Cong(p, b, c)
    ensures Cong(p, a, c)
  {
    var k := CongGet(p, a, b);
    var l := CongGet(p, b, c);
    assert a - c == p * (k + l);
    CongWith(p, a, c, k + l);
  }

  lemma {:induction false} CongAdd(p: nat, a: int, b: int, c: int, d: int)
    requires p > 0 && Cong(p, a, b) && Cong(p, c, d)
    ensures Cong(p, a + c, b + d) && Cong(p, a - c, b - d)
  {
    var k := CongGet(p, a, b);
    var l := CongGet(p, c, d);
    assert (a + c) - (b + d) == p * (k + l);
    assert (a - c) - (b - d) == p * (k - l);
    CongWith(p, a + c, b + d, k + l);
    CongWith(p, a - c, b - d, k - l);
  }

  lemma {:induction false} CongMul(p: nat, a: int, b: int, c: int, d: int)
    requires p > 0 && Cong(p, a, b) && Cong(p, c, d)
    ensures Cong(p, a * c, b * d)
  {
    var k := CongGet(p, a, b);
    var l := CongGet(p, c, d);
    assert a * c - b * d == (a - b) * c + b * (c - d);
    assert (p * k) * c + b * (p * l) == p * (k * c + b * l);
    CongWith(p, a * c, b * d, k * c + b * l);
  }

  lemma {:induction false} CongScale(p: nat, k: int, a: int, b: int)
    requires p > 0 && Cong(p, a, b)
    ensures Cong(p, k * a, k * b)
  {
    CongMul(p, k, k, a, b);
  }

  ghost predicate Inverse(p: nat, a: int, inv: int)
    requires p > 0
  {
    Cong(p, a * inv, 1)
  }

  /** `p` is prime: everything that is not a multiple of it has an inverse. */
  ghost predicate Field(p: nat) {
    p > 1 && forall a {:trigger Cong(p, a, 0)} :: !Cong(p, a, 0) ==> exists inv :: Inverse(p, a, inv)
  }

  lemma {:induction false} CongZero(p: nat, a: int, b: int)
    requires p > 0 && Cong(p, a, b)
    ensures Cong(p, a, 0) <==> Cong(p, b, 0)
  {
    CongSym(p, a, b);
    if Cong(p, a, 0) {
      CongTrans(p, b, a, 0);
    }
    if Cong(p, b, 0) {
      CongTrans(p, a, b, 0);
    }
  }

  /** No zero divisors. */
  lemma {:induction false} ProductNonZero(p: nat, a: int, b: int)
    requires Field(p) && !Cong(p, a, 0) && !Cong(p, b, 0)
    ensures !Cong(p, a * b, 0)
  {
    if Cong(p, a * b, 0) {
      var inv :| Inverse(p, a, inv);
      CongScale(p, inv, a * b, 0);
      CongMul(p, a * inv, 1, b, b);
      assert inv * (a * b) == (a * inv) * b;
      CongZero(p, (a * inv) * b, b);
    }
  }

  lemma {:induction false} Swap(a: int, b: int, c: int, d: int)
    ensures (a * b) * (c * d) == (a * c) * (b * d)
  {
    assert a * b * (c * d) == a * (b * (c * d));
    assert b * (c * d) == c * (b * d);
    assert a * (c * (b * d)) == (a * c) * (b * d);
  }

  lemma {:induction false} Spread(a: int, b: int, c: int, f: int)
    ensures (a - b - c) * f == a * f - b * f - c * f
  {
  }

  lemma {:induction false} CongSameMod(p: nat, a: int, b: int)
    requires p > 0 && Cong(p, a, b)
    ensures a % p == b % p
  {
    CongMod(p, a);
    CongMod(p, b);
    CongSym(p, b % p, b);
    CongTrans(p, a % p, a, b);
    CongTrans(p, a % p, b, b % p);
    var k := CongGet(p, a % p, b % p);
    FarFromZero(p, k);
  }

  lemma {:induction false} InversePowers(p: nat, z: int, i: int)
    requires p > 0 && Inverse(p, z, i)
    ensures Cong(p, (z * z) * (i * i), 1) && Cong(p, (z * z * z) * (i * i * i), 1)
  {
    var zi := z * i;
    CongMul(p, zi, 1, zi, 1);
    Swap(z, i, z, i);
    CongMul(p, zi * zi, 1, zi, 1);
    Swap(z * z, i * i, z, i);
  }
}
