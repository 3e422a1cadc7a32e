/** Which 32-byte strings decode as Ed25519 points (section 5.1.3 of RFC 8032). */
module PointDecoding {
  import opened Prelude
  import opened FieldMath

  /** The field prime, the curve constant d, and a square root of -1 modulo p. */
  datatype Curve = Curve(p: Modulus, d: int, sqrtM1: int)

  const P: int := 57896044618658097711785492504343953926634992332820282019728792003956564819949
  const D: int := 37095705934669439343138083508754565189542113879843219016388785533085940283555
  const SQRT_M1: int := 19681161376707505956807079304988542015446066515923890162744021073123829784752

  const ED25519: Curve := Curve(P, D, SQRT_M1)

  const TWO_255: int := 57896044618658097711785492504343953926634992332820282019728792003956564819968

  // ---- the check, as written ----

  function PowMod(a: int, n: nat, p: Modulus): int {
    Pow(a, n) % p
  }

  function U(c: Curve, y: int): int {
    (y * y - 1) % c.p
  }

  function V(c: Curve, y: int): int {
    (c.d * y * y + 1) % c.p
  }

  /** The candidate square root of u/v. */
  function Candidate(c: Curve, u: int, v: int): int
    requires c.p >= 5
  {
    (u * PowMod(v, 3, c.p) * PowMod(u * PowMod(v, 7, c.p), (c.p - 5) / 8, c.p)) % c.p
  }

  /** The root of u/v the check is left with: the candidate, the candidate times the root of -1, or none. */
  function FinalRoot(c: Curve, u: int, v: int): Option<int>
    requires c.p >= 5
  {
    var x := Candidate(c, u, v);
    var vx2 := (v * x * x) % c.p;
    if vx2 == (-u) % c.p && vx2 != u then Some((x * c.sqrtM1) % c.p)
    else if vx2 != u then None
    else Some(x)
  }

  predicate DecodesAt(c: Curve, y: int, xSign: int)
    requires c.p >= 5
  {
    if y >= c.p then false
    else
      match FinalRoot(c, U(c, y), V(c, y))
      case None => false
      case Some(x) => !(x == 0 && xSign == 1)
  }

  predicate IsEd25519PointEncoding(publicKey: Bytes) {
    if |publicKey| != 32 then false
    else
      var y := FromLittleEndian(publicKey) % TWO_255;
      var xSign := publicKey[31] as int / 128;
      DecodesAt(ED25519, y, xSign)
  }

  // ---- what it means ----

  /** A point of the twisted Edwards curve -x^2 + y^2 = 1 + d x^2 y^2. */
  predicate OnCurve(c: Curve, x: int, y: int) {
    Cong(c.p, y * y - x * x, 1 + c.d * (x * x) * (y * y))
  }

  /** What section 5.1.3 asks for: y is reduced, and some reduced x of the parity the sign bit names
      makes (x, y) a point. */
  ghost predicate EncodesPoint(c: Curve, y: int, xSign: int) {
    0 <= y < c.p && exists x :: 0 <= x < c.p && x % 2 == xSign && OnCurve(c, x, y)
  }

  ghost predicate CurveOk(c: Curve) {
    && Prime(c.p) && c.p % 8 == 5
    && Cong(c.p, c.sqrtM1 * c.sqrtM1, -1)
    && !Square(c.p, c.d)
  }

  /** The published constants: p leaves remainder 5 modulo 8, d is -121665/121666, and the stored root
      squares to -1. */
  lemma PublishedConstants()
    ensures P == TWO_255 - 19 && P % 8 == 5
    ensures (121666 * D + 121665) % P == 0
    ensures Cong(P, SQRT_M1 * SQRT_M1, -1)
  {
  }

  /** A root of -1 is itself no square: its square root would have order 8, and 8 does not divide p - 1. */
  lemma RootOfMinusOneNotSquare(p: int, i: int)
    requires Prime(p) && p % 8 == 5 && Cong(p, i * i, -1)
    ensures !Square(p, i)
  {
    if Square(p, i) {
      var r :| Cong(p, r * r, i);
      var m := (p - 5) / 8;
      assert p - 1 == 4 * (2 * m + 1);
      FourthPower(p, i, r);
      CongPow(p, Pow(r, 4), -1, 2 * m + 1);
      PowMul(r, 4, 2 * m + 1);
      OddPowerOfMinusOne(m);
      FourthPowerNonzero(p, r);
      Fermat(p, r);
      CongSym(p, Pow(r, p - 1), 1);
      CongTrans(p, 1, Pow(r, p - 1), -1);
      MinusOneDiffers(p);
    }
  }

  lemma FourthPower(p: Modulus, i: int, r: int)
    requires Cong(p, r * r, i) && Cong(p, i * i, -1)
    ensures Cong(p, Pow(r, 4), -1)
  {
    PowSquare(r, 2);
    CongPow(p, r * r, i, 2);
    PowTwo(i);
    CongTrans(p, Pow(r, 4), i * i, -1);
  }

  lemma PowTwo(a: int)
    ensures Pow(a, 2) == a * a
  {
    assert Pow(a, 1) == a * Pow(a, 0) == a;
  }

  lemma FourthPowerNonzero(p: int, r: int)
    requires Prime(p) && p >= 3 && Cong(p, Pow(r, 4), -1)
    ensures !Cong(p, r, 0)
  {
    if Cong(p, r, 0) {
      CongPow(p, r, 0, 4);
      CongSym(p, Pow(r, 4), -1);
      CongTrans(p, -1, Pow(r, 4), 0);
      MinusOneDiffers(p);
    }
  }

  lemma {:induction false} OddPowerOfMinusOne(m: nat)
    ensures Pow(-1, 2 * m + 1) == -1
  {
    if m > 0 {
      OddPowerOfMinusOne(m - 1);
      assert Pow(-1, 2 * m + 1) == -1 * (-1 * Pow(-1, 2 * m - 1));
    }
  }

  lemma MinusOneDiffers(p: int)
    requires p >= 3
    ensures !Cong(p, 1, -1) && !Cong(p, -1, 0)
  {
    if Cong(p, 1, -1) {
      var k := CongElim(p, 1, -1);
      SmallMultiple(p, k);
    }
    if Cong(p, -1, 0) {
      var k := CongElim(p, -1, 0);
      SmallMultiple(p, k);
    }
  }

  /** d is the root of -1 times a square, so d is no square either. */
  const D_FACTOR: int := 170007211443151494959373814973514043121136719310127463349781978375369176171

  lemma DFactors()
    ensures Cong(P, SQRT_M1 * (D_FACTOR * D_FACTOR), D)
  {
    var t, q, k := 56859029415478757995342250604283985638464191833696045651929235657839735398672,
      499212893264940894976273381723277020627167711253862996195268054973678381,
      19328638787326774639218639224940531204648024216396875568302643931356312346161;
    assert D_FACTOR * D_FACTOR - t == q * P;
    CongIntro(P, D_FACTOR * D_FACTOR, t, q);
    assert SQRT_M1 * t - D == k * P;
    CongIntro(P, SQRT_M1 * t, D, k);
    CongIntro(P, SQRT_M1, SQRT_M1, 0);
    CongMul(P, SQRT_M1, SQRT_M1, D_FACTOR * D_FACTOR, t);
    CongTrans(P, SQRT_M1 * (D_FACTOR * D_FACTOR), SQRT_M1 * t, D);
  }

  /** If i s^2 were the square t^2, then i would be the square of t/s. */
  lemma DNotSquare()
    requires Prime(P)
    ensures !Square(P, D)
  {
    PublishedConstants();
    DFactors();
    RootOfMinusOneNotSquare(P, SQRT_M1);
    if Square(P, D) {
      var t :| Cong(P, t * t, D);
      assert SQRT_M1 * (D_FACTOR * D_FACTOR) == SQRT_M1 * D_FACTOR * D_FACTOR;
      FactorNotZero();
      InverseSquare(P, SQRT_M1, D_FACTOR, t, D);
    }
  }

  lemma FactorNotZero()
    ensures !Cong(P, D_FACTOR, 0)
  {
  }

  // ---- the curve equation as a square-root problem ----

  /** v x^2 = u says exactly that (x, y) is on the curve. */
  lemma CurveEquation(c: Curve, x: int, y: int)
    ensures OnCurve(c, x, y) <==> Cong(c.p, V(c, y) * (x * x), U(c, y))
  {
    hide Cong;
    var p, xx, yy := c.p, x * x, y * y;
    var u, v := yy - 1, c.d * yy + 1;
    assert c.d * y * y == c.d * yy by { Assoc(c.d, y, y); }
    CongMod(p, u);
    CongMod(p, v);
    CongRefl(p, xx);
    CongMul(p, v % p, v, xx, xx);
    CongMul(p, v, v % p, xx, xx);
    CurveIdentity(c.d, xx, yy);
    SameDifference(p, yy - xx, 1 + c.d * xx * yy, u, v * xx);
    if OnCurve(c, x, y) {
      CongSym(p, u, v * xx);
      CongTrans(p, (v % p) * xx, v * xx, u);
      CongTrans(p, (v % p) * xx, u, u % p);
    }
    if Cong(p, (v % p) * xx, u % p) {
      CongTrans(p, v * xx, (v % p) * xx, u % p);
      CongTrans(p, v * xx, u % p, u);
      CongSym(p, v * xx, u);
    }
  }

  lemma SameDifference(p: Modulus, a: int, b: int, c: int, d: int)
    requires a - b == c - d
    ensures Cong(p, a, b) <==> Cong(p, c, d)
  {
  }

  lemma CongRefl(p: Modulus, a: int)
    ensures Cong(p, a, a)
  {
    CongIntro(p, a, a, 0);
  }

  lemma CurveIdentity(d: int, xx: int, yy: int)
    ensures (yy - xx) - (1 + d * xx * yy) == (yy - 1) - (d * yy + 1) * xx
  {
    assert (d * yy + 1) * xx == d * yy * xx + xx;
    Commute(d, yy, xx);
  }

  lemma Commute(a: int, b: int, c: int)
    ensures a * b * c == a * c * b
  {
    assert b * c == c * b;
    assert a * (b * c) == a * b * c && a * (c * b) == a * c * b;
  }

  /** -1 is a square and d is not, so d y^2 is never -1. */
  lemma DenominatorNonzero(c: Curve, y: int)
    requires CurveOk(c)
    ensures !Cong(c.p, V(c, y), 0)
  {
    var p, i := c.p, c.sqrtM1;
    var v := c.d * y * y + 1;
    CongMod(p, v);
    if Cong(p, v % p, 0) {
      CongTrans(p, v, v % p, 0);
      assert v - 0 == c.d * y * y - -1;
      YNonzero(p, c.d, y);
      InverseSquare(p, c.d, y, i, -1);
    }
  }

  lemma YNonzero(p: Modulus, d: int, y: int)
    requires Cong(p, d * y * y, -1)
    ensures !Cong(p, y, 0)
  {
    if Cong(p, y, 0) {
      CongIntro(p, d * y, d * y, 0);
      CongMul(p, d * y, d * y, y, 0);
      CongSym(p, d * y * y, 0);
      CongTrans(p, 0, d * y * y, -1);
      Reduced(p, 1);
    }
  }

  /** If d y^2 = m = i^2 and y is invertible, then d is the square of i/y. */
  lemma InverseSquare(p: int, d: int, y: int, i: int, m: int)
    requires Prime(p) && !Cong(p, y, 0)
    requires Cong(p, d * y * y, m) && Cong(p, i * i, m)
    ensures Square(p, d)
  {
    var inv := Pow(y, p - 2);
    Fermat(p, y);
    assert y * inv == Pow(y, p - 1);
    CongMul(p, y * inv, 1, y * inv, 1);
    CongIntro(p, d, d, 0);
    CongMul(p, d, d, (y * inv) * (y * inv), 1);
    CongSym(p, d * y * y, m);
    CongTrans(p, i * i, m, d * y * y);
    CongIntro(p, inv * inv, inv * inv, 0);
    CongMul(p, i * i, d * y * y, inv * inv, inv * inv);
    assert (i * inv) * (i * inv) == (i * i) * (inv * inv) by { Regroup(i, inv, i, inv); }
    assert (d * y * y) * (inv * inv) == d * ((y * inv) * (y * inv)) by {
      Regroup(y, inv, y, inv);
      assert d * ((y * y) * (inv * inv)) == (d * y * y) * (inv * inv) by { Flatten(d, y, inv); }
    }
    CongTrans(p, (i * inv) * (i * inv), (d * y * y) * (inv * inv), d);
    var root := i * inv;
    assert Cong(p, root * root, d);
  }

  lemma Flatten(d: int, y: int, z: int)
    ensures d * ((y * y) * (z * z)) == (d * y * y) * (z * z)
  {
    assert d * (y * y) == d * y * y;
    assert d * ((y * y) * (z * z)) == (d * (y * y)) * (z * z);
  }

  // ---- the candidate root ----

  /** v x^2 = u (u v^7)^((p-1)/4) for the candidate x. */
  lemma CandidateSquared(c: Curve, u: int, v: int)
    requires c.p >= 5 && c.p % 8 == 5
    ensures var x := Candidate(c, u, v); Cong(c.p, v * x * x, u * Pow(u * Pow(v, 7), (c.p - 1) / 4))
  {
    var p: int, e := c.p, (c.p - 5) / 8;
    assert p == 8 * e + 5 && (p - 1) / 4 == 2 * e + 1;
    CandidateReduced(c, u, v);
    RootIdentity(u, v, e);
    SquareThrough(p, v, Candidate(c, u, v), u * Pow(v, 3) * Pow(u * Pow(v, 7), e));
  }

  lemma SquareThrough(p: Modulus, v: int, x: int, x0: int)
    requires Cong(p, x, x0)
    ensures Cong(p, v * x * x, v * x0 * x0)
  {
    CongIntro(p, v, v, 0);
    CongMul(p, v, v, x, x0);
    CongMul(p, v * x, v * x0, x, x0);
  }

  lemma CandidateReduced(c: Curve, u: int, v: int)
    requires c.p >= 5
    ensures Cong(c.p, Candidate(c, u, v), u * Pow(v, 3) * Pow(u * Pow(v, 7), (c.p - 5) / 8))
  {
    var p, e := c.p, (c.p - 5) / 8;
    var w, w' := u * Pow(v, 7), u * PowMod(v, 7, p);
    CongIntro(p, u, u, 0);
    CongMod(p, Pow(v, 3));
    CongMul(p, u, u, PowMod(v, 3, p), Pow(v, 3));
    CongMod(p, Pow(v, 7));
    CongMul(p, u, u, PowMod(v, 7, p), Pow(v, 7));
    CongPow(p, w', w, e);
    CongMod(p, Pow(w', e));
    CongTrans(p, PowMod(w', e, p), Pow(w', e), Pow(w, e));
    CongMul(p, u * PowMod(v, 3, p), u * Pow(v, 3), PowMod(w', e, p), Pow(w, e));
    var x := u * PowMod(v, 3, p) * PowMod(w', e, p);
    CongMod(p, x);
    CongTrans(p, x % p, x, u * Pow(v, 3) * Pow(w, e));
  }

  /** v (u v^3 w^e)^2 = u w^(2e+1) for w = u v^7, over the integers. */
  lemma RootIdentity(u: int, v: int, e: nat)
    ensures var w := u * Pow(v, 7); var x := u * Pow(v, 3) * Pow(w, e);
            v * x * x == u * Pow(w, 2 * e + 1)
  {
    var v3, w := Pow(v, 3), u * Pow(v, 7);
    var t := Pow(w, e);
    PowAdd(v, 4, 3);
    assert Pow(v, 4) == v * v3;
    PowAdd(w, e, e);
    assert Pow(w, 2 * e + 1) == w * (t * t);
    RootAlgebra(u, v, v3, t);
  }

  lemma RootAlgebra(u: int, v: int, v3: int, t: int)
    ensures v * (u * v3 * t) * (u * v3 * t) == u * (u * ((v * v3) * v3) * (t * t))
  {
    var a := u * v3;
    assert (a * t) * (a * t) == (a * a) * (t * t) by { Regroup(a, t, a, t); }
    assert a * a == (u * u) * (v3 * v3) by { Regroup(u, v3, u, v3); }
    var b, s := v3 * v3, t * t;
    assert v * (a * t) * (a * t) == v * ((a * t) * (a * t)) by { Assoc(v, a * t, a * t); }
    assert v * (((u * u) * b) * s) == u * (u * (v * b) * s) by { Pull(u, v, b, s); }
    assert (v * v3) * v3 == v * b by { Assoc(v, v3, v3); }
  }

  lemma Assoc(a: int, b: int, c: int)
    ensures a * b * c == a * (b * c)
  {
  }

  lemma Pull(u: int, v: int, b: int, s: int)
    ensures v * (((u * u) * b) * s) == u * (u * (v * b) * s)
  {
    var m := b * s;
    assert ((u * u) * b) * s == (u * u) * m by { Assoc(u * u, b, s); }
    assert v * ((u * u) * m) == (u * u) * (v * m) by { Swap(v, u * u, m); }
    assert (u * u) * (v * m) == u * (u * (v * m)) by { Assoc(u, u, v * m); }
    assert u * (v * b) * s == u * ((v * b) * s) by { Assoc(u, v * b, s); }
    assert (v * b) * s == v * m by { Assoc(v, b, s); }
  }

  /** If u = v s^2 has a nonzero solution, then (u v^7)^((p-1)/4) is 1 or -1. */
  lemma QuarterPowerIsSign(p: int, u: int, v: int, s: int)
    requires Prime(p) && p % 8 == 5
    requires !Cong(p, v, 0) && !Cong(p, s, 0) && Cong(p, v * (s * s), u)
    ensures var z := Pow(u * Pow(v, 7), (p - 1) / 4); Cong(p, z, 1) || Cong(p, z, -1)
  {
    var v4, n, w := Pow(v, 4), (p - 1) / 4, u * Pow(v, 7);
    var t := v4 * s;
    NonzeroPow(p, v, 4);
    NonzeroProduct(p, v4, s);
    FourthPowerSquare(p, u, v, s);
    CongPow(p, w, t * t, n);
    PowSquare(t, n);
    var z, r := Pow(w, n), Pow(t, 2 * n);
    CongMul(p, z, r, z, r);
    PowAdd(t, 2 * n, 2 * n);
    assert 4 * n == p - 1;
    Fermat(p, t);
    CongTrans(p, z * z, r * r, 1);
    RootsOfOne(p, z);
  }

  /** u v^7 = (v^4 s)^2 when u = v s^2. */
  lemma FourthPowerSquare(p: Modulus, u: int, v: int, s: int)
    requires Cong(p, v * (s * s), u)
    ensures var t := Pow(v, 4) * s; Cong(p, u * Pow(v, 7), t * t)
  {
    var v3, v4, v7 := Pow(v, 3), Pow(v, 4), Pow(v, 7);
    assert v4 == v * v3;
    PowAdd(v, 4, 3);
    CongSym(p, v * (s * s), u);
    CongIntro(p, v7, v7, 0);
    CongMul(p, u, v * (s * s), v7, v7);
    assert (v4 * s) * (v4 * s) == (v4 * v4) * (s * s) by { Regroup(v4, s, v4, s); }
    assert (v * (s * s)) * (v4 * v3) == (v4 * v4) * (s * s) by { Gather(v, v3, v4, s * s); }
  }

  lemma Gather(v: int, v3: int, v4: int, q: int)
    requires v4 == v * v3
    ensures (v * q) * (v4 * v3) == (v4 * v4) * q
  {
    Regroup(v, q, v3, v4);
    assert v4 * v3 == v3 * v4;
    assert (v * v3) * (q * v4) == v4 * (v4 * q) by { assert q * v4 == v4 * q; }
    Assoc(v4, v4, q);
  }

  // ---- the check is exact ----

  /** v x^2 for the candidate, when u/v has a nonzero root: u or -u. */
  lemma CandidateIsRootUpToSign(c: Curve, u: int, v: int, s: int)
    requires c.p >= 5 && c.p % 8 == 5 && Prime(c.p)
    requires !Cong(c.p, v, 0) && !Cong(c.p, s, 0) && Cong(c.p, v * (s * s), u)
    ensures var x := Candidate(c, u, v); Cong(c.p, v * x * x, u) || Cong(c.p, v * x * x, -u)
  {
    var p, x, z := c.p, Candidate(c, u, v), Pow(u * Pow(v, 7), (c.p - 1) / 4);
    CandidateSquared(c, u, v);
    QuarterPowerIsSign(p, u, v, s);
    CongIntro(p, u, u, 0);
    if Cong(p, z, 1) {
      CongMul(p, u, u, z, 1);
      CongTrans(p, v * x * x, u * z, u);
    } else {
      CongMul(p, u, u, z, -1);
      assert u * -1 == -u;
      CongTrans(p, v * x * x, u * z, -u);
    }
  }

  /** Multiplying a root of -u/v by a root of -1 gives a root of u/v. */
  lemma TwistRoot(p: Modulus, u: int, v: int, x: int, i: int)
    requires Cong(p, v * x * x, -u) && Cong(p, i * i, -1)
    ensures var r := (x * i) % p; Cong(p, v * (r * r), u)
  {
    var r := (x * i) % p;
    CongMod(p, x * i);
    SquareThrough(p, v, r, x * i);
    CongMul(p, v * x * x, -u, i * i, -1);
    assert -u * -1 == u;
    assert v * (x * i) * (x * i) == v * x * x * (i * i) by {
      Assoc(v, x * i, x * i);
      Regroup(x, i, x, i);
      Assoc(v, x * x, i * i);
      Assoc(v, x, x);
    }
    CongTrans(p, v * r * r, v * (x * i) * (x * i), u);
    Assoc(v, r, r);
  }

  /** The curve is symmetric in x. */
  lemma Mirror(c: Curve, y: int, x: int)
    requires OnCurve(c, x, y)
    ensures OnCurve(c, c.p - x, y)
  {
    var p: int, r, v, u := c.p, c.p - x, V(c, y), U(c, y);
    assert r * r - x * x == (p - 2 * x) * p by {
      assert (p - x) * (p - x) == p * p - 2 * (x * p) + x * x;
      assert (p - 2 * x) * p == p * p - 2 * (x * p);
    }
    CongIntro(c.p, r * r, x * x, p - 2 * x);
    CongIntro(c.p, v, v, 0);
    CongMul(c.p, v, v, r * r, x * x);
    CurveEquation(c, x, y);
    CongTrans(c.p, v * (r * r), v * (x * x), u);
    CurveEquation(c, r, y);
  }

  /** A root of either parity can be had from a nonzero root. */
  lemma ParityChoice(c: Curve, y: int, x: int, xSign: int)
    requires c.p % 2 == 1 && 0 <= x < c.p && 0 <= xSign <= 1 && (x != 0 || xSign == 0)
    requires OnCurve(c, x, y)
    ensures exists r :: 0 <= r < c.p && r % 2 == xSign && OnCurve(c, r, y)
  {
    hide OnCurve;
    if x % 2 != xSign {
      Mirror(c, y, x);
      assert (c.p - x) % 2 == xSign;
    }
  }

  /** Reduced numbers and their residues: the comparisons the check makes are congruences. */
  lemma Comparisons(p: Modulus, a: int, u: int)
    requires 0 <= u < p
    ensures a % p == u <==> Cong(p, a, u)
    ensures a % p == (-u) % p <==> Cong(p, a, -u)
  {
    Reduced(p, u);
    CongMod(p, a);
    CongMod(p, -u);
    if a % p == u {
      CongTrans(p, a, a % p, u);
    }
    if Cong(p, a, u) {
      CongSame(p, a, u);
    }
    if a % p == (-u) % p {
      CongTrans(p, a, a % p, -u);
    }
    if Cong(p, a, -u) {
      CongSame(p, a, -u);
    }
  }

  lemma FinalRootIsRoot(c: Curve, u: int, v: int)
    requires c.p >= 5 && CurveOk(c) && 0 <= u < c.p
    requires FinalRoot(c, u, v).Some?
    ensures var x := FinalRoot(c, u, v).value; 0 <= x < c.p && Cong(c.p, v * (x * x), u)
  {
    var x := Candidate(c, u, v);
    Comparisons(c.p, v * x * x, u);
    if (v * x * x) % c.p == u {
      Assoc(v, x, x);
    } else {
      TwistRoot(c.p, u, v, x, c.sqrtM1);
    }
  }

  lemma RootIsFound(c: Curve, u: int, v: int, s: int)
    requires c.p >= 5 && CurveOk(c) && 0 <= u < c.p
    requires !Cong(c.p, v, 0) && Cong(c.p, v * (s * s), u)
    ensures FinalRoot(c, u, v).Some?
  {
    var x := Candidate(c, u, v);
    Comparisons(c.p, v * x * x, u);
    if Cong(c.p, s, 0) {
      ZeroRoot(c.p, v, s, u);
      assert x == 0 by { CandidateOfZero(c, v); }
    } else {
      CandidateIsRootUpToSign(c, u, v, s);
    }
  }

  lemma ZeroRoot(p: Modulus, v: int, s: int, u: int)
    requires Cong(p, s, 0) && Cong(p, v * (s * s), u) && 0 <= u < p
    ensures u == 0
  {
    CongMul(p, s, 0, s, 0);
    CongIntro(p, v, v, 0);
    CongMul(p, v, v, s * s, 0);
    CongSym(p, v * (s * s), u);
    CongTrans(p, u, v * (s * s), 0);
    CongReduced(p, u, 0);
  }

  lemma CandidateOfZero(c: Curve, v: int)
    requires c.p >= 5
    ensures Candidate(c, 0, v) == 0
  {
    var a, b := PowMod(v, 3, c.p), PowMod(0 * PowMod(v, 7, c.p), (c.p - 5) / 8, c.p);
    assert 0 * a * b == 0;
    Reduced(c.p, 0);
  }

  /** A root is zero only when u is. */
  lemma ZeroOnlyForZero(c: Curve, u: int, v: int, s: int, x: int)
    requires Prime(c.p) && 0 <= u < c.p && !Cong(c.p, v, 0)
    requires Cong(c.p, v * (s * s), u) && Cong(c.p, v * (x * x), u)
    requires 0 <= s < c.p && x == 0
    ensures s == 0
  {
    Reduced(c.p, 0);
    ZeroRoot(c.p, v, x, u);
    Euclid(c.p, v, s * s);
    Euclid(c.p, s, s);
    CongReduced(c.p, s, 0);
  }

  /** The check accepts (y, sign) exactly when it encodes a point of the curve, for every prime that
      leaves remainder 5 modulo 8 and every nonsquare d. */
  lemma DecodingIsExact(c: Curve, y: int, xSign: int)
    requires CurveOk(c) && 0 <= y && 0 <= xSign <= 1
    ensures c.p >= 5
    ensures DecodesAt(c, y, xSign) <==> EncodesPoint(c, y, xSign)
  {
    assert c.p >= 5;
    if y < c.p {
      var u, v := U(c, y), V(c, y);
      DenominatorNonzero(c, y);
      var root := FinalRoot(c, u, v);
      if root.Some? {
        FinalRootIsRoot(c, u, v);
        CurveEquation(c, root.value, y);
        if !(root.value == 0 && xSign == 1) {
          ParityChoice(c, y, root.value, xSign);
        }
      }
      if EncodesPoint(c, y, xSign) {
        var s :| 0 <= s < c.p && s % 2 == xSign && OnCurve(c, s, y);
        CurveEquation(c, s, y);
        RootIsFound(c, u, v, s);
        if root.value == 0 {
          ZeroOnlyForZero(c, u, v, s, root.value);
        }
      }
    }
  }

  /** For the published constants: 32 bytes are accepted exactly when their low 255 bits are a reduced y
      and the top bit the parity of an x that makes a point. */
  lemma Ed25519DecodingIsExact(publicKey: Bytes)
    requires Prime(P)
    ensures IsEd25519PointEncoding(publicKey) <==>
            && |publicKey| == 32
            && EncodesPoint(ED25519, FromLittleEndian(publicKey) % TWO_255, publicKey[31] as int / 128)
  {
    PublishedConstants();
    DNotSquare();
    if |publicKey| == 32 {
      DecodingIsExact(ED25519, FromLittleEndian(publicKey) % TWO_255, publicKey[31] as int / 128);
    }
  }
}
