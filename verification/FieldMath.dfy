/** Arithmetic modulo a prime, up to Fermat's little theorem and square roots of one. */
module FieldMath {

  type Modulus = p: int | p >= 2 witness 2

  ghost predicate Prime(p: int) {
    p >= 2 && forall d :: 2 <= d < p ==> p % d != 0
  }

  // ---- congruence ----

  predicate Cong(p: Modulus, a: int, b: int) {
    (a - b) % p == 0
  }

  lemma SmallMultiple(p: int, k: int)
    requires p > 0 && -p < k * p < p
    ensures k == 0
  {
    assert k >= 1 ==> k * p >= p;
    assert k <= -1 ==> k * p <= -p;
  }

  lemma CongIntro(p: Modulus, a: int, b: int, k: int)
    requires a - b == k * p
    ensures Cong(p, a, b)
  {
    var q, r := (a - b) / p, (a - b) % p;
    assert (k - q) * p == r;
    SmallMultiple(p, k - q);
  }

  lemma CongElim(p: Modulus, a: int, b: int) returns (k: int)
    requires Cong(p, a, b)
    ensures a - b == k * p
  {
    k := (a - b) / p;
  }

  lemma CongMod(p: Modulus, a: int)
    ensures Cong(p, a % p, a) && Cong(p, a, a % p)
  {
    CongIntro(p, a, a % p, a / p);
    CongIntro(p, a % p, a, -(a / p));
  }

  lemma CongSym(p: Modulus, a: int, b: int)
    requires Cong(p, a, b)
    ensures Cong(p, b, a)
  {
    var k := CongElim(p, a, b);
    assert b - a == (-k) * p;
    CongIntro(p, b, a, -k);
  }

  lemma CongTrans(p: Modulus, a: int, b: int, c: int)
    requires Cong(p, a, b) && Cong(p, b, c)
    ensures Cong(p, a, c)
  {
    var k := CongElim(p, a, b);
    var m := CongElim(p, b, c);
    assert a - c == (k + m) * p;
    CongIntro(p, a, c, k + m);
  }

  lemma CongMul(p: Modulus, a: int, b: int, c: int, d: int)
    requires Cong(p, a, b) && Cong(p, c, d)
    ensures Cong(p, a * c, b * d)
  {
    var k := CongElim(p, a, b);
    var m := CongElim(p, c, d);
    MulSplit(p, a, b, c, d, k, m);
    CongIntro(p, a * c, b * d, k * c + b * m);
  }

  lemma MulSplit(p: int, a: int, b: int, c: int, d: int, k: int, m: int)
    requires a - b == k * p && c - d == m * p
    ensures a * c - b * d == (k * c + b * m) * p
  {
    assert a * c - b * d == (a - b) * c + b * (c - d);
    assert (k * p) * c == (k * c) * p;
    assert b * (m * p) == (b * m) * p;
    assert (k * c) * p + (b * m) * p == (k * c + b * m) * p;
  }

  /** Congruent values reduced to the same range are equal. */
  lemma CongSame(p: Modulus, a: int, b: int)
    requires Cong(p, a, b)
    ensures a % p == b % p
  {
    var k := CongElim(p, a, b);
    var q := a / p - b / p;
    assert a % p - b % p == (k - q) * p by {
      assert a == (a / p) * p + a % p && b == (b / p) * p + b % p;
      assert (a / p) * p - (b / p) * p == q * p;
      assert (k - q) * p == k * p - q * p;
    }
    SmallMultiple(p, k - q);
  }

  lemma Reduced(p: Modulus, a: int)
    requires 0 <= a < p
    ensures a % p == a
  {
    assert (a / p) * p == a - a % p;
    SmallMultiple(p, a / p);
  }

  lemma CongReduced(p: Modulus, a: int, b: int)
    requires Cong(p, a, b) && 0 <= a < p && 0 <= b < p
    ensures a == b
  {
    CongSame(p, a, b);
    Reduced(p, a);
    Reduced(p, b);
  }

  // ---- powers ----

  function Pow(a: int, n: nat): int {
    if n == 0 then 1 else a * Pow(a, n - 1)
  }

  lemma {:induction false} PowAdd(a: int, m: nat, n: nat)
    ensures Pow(a, m + n) == Pow(a, m) * Pow(a, n)
  {
    if m > 0 {
      PowAdd(a, m - 1, n);
      assert a * (Pow(a, m - 1) * Pow(a, n)) == (a * Pow(a, m - 1)) * Pow(a, n);
    }
  }

  lemma {:induction false} PowSquare(a: int, n: nat)
    ensures Pow(a * a, n) == Pow(a, 2 * n)
  {
    if n > 0 {
      PowSquare(a, n - 1);
      assert Pow(a, 2 * n) == a * (a * Pow(a, 2 * n - 2));
      assert a * (a * Pow(a, 2 * n - 2)) == (a * a) * Pow(a, 2 * n - 2);
    }
  }

  lemma {:induction false} PowMul(a: int, m: nat, n: nat)
    ensures Pow(a, m * n) == Pow(Pow(a, m), n)
  {
    if n == 0 {
      assert m * 0 == 0;
    } else {
      PowMul(a, m, n - 1);
      PowAdd(a, m, m * (n - 1));
      assert m * n == m + m * (n - 1);
    }
  }

  lemma {:induction false} CongPow(p: Modulus, a: int, b: int, n: nat)
    requires Cong(p, a, b)
    ensures Cong(p, Pow(a, n), Pow(b, n))
  {
    if n == 0 {
      CongIntro(p, 1, 1, 0);
    } else {
      CongPow(p, a, b, n - 1);
      CongMul(p, a, b, Pow(a, n - 1), Pow(b, n - 1));
    }
  }

  // ---- primes ----

  lemma {:induction false} EuclidBelow(p: int, a: int, b: int)
    requires Prime(p) && 0 < a < p
    requires Cong(p, a * b, 0)
    ensures Cong(p, b, 0)
    decreases a
  {
    if a > 1 {
      var q, r := p / a, p % a;
      assert 0 < r < a;
      var k := CongElim(p, a * b, 0);
      assert r * b == (b - q * k) * p by {
        assert r == p - q * a;
        assert (p - q * a) * b == p * b - q * (a * b);
        assert q * (k * p) == (q * k) * p;
        assert (b - q * k) * p == b * p - (q * k) * p;
      }
      CongIntro(p, r * b, 0, b - q * k);
      EuclidBelow(p, r, b);
    }
  }

  /** Euclid's lemma: a prime that divides a product divides a factor. */
  lemma Euclid(p: int, a: int, b: int)
    requires Prime(p) && Cong(p, a * b, 0)
    ensures Cong(p, a, 0) || Cong(p, b, 0)
  {
    var r := a % p;
    CongMod(p, a);
    if r != 0 {
      CongIntro(p, b, b, 0);
      CongMul(p, r, a, b, b);
      CongTrans(p, r * b, a * b, 0);
      EuclidBelow(p, r, b);
    }
  }

  lemma Cancel(p: int, c: int, x: int, y: int)
    requires Prime(p) && !Cong(p, c, 0) && Cong(p, c * x, c * y)
    ensures Cong(p, x, y)
  {
    assert c * x - c * y == c * (x - y);
    Euclid(p, c, x - y);
  }

  lemma NonzeroProduct(p: int, a: int, b: int)
    requires Prime(p) && !Cong(p, a, 0) && !Cong(p, b, 0)
    ensures !Cong(p, a * b, 0)
  {
    if Cong(p, a * b, 0) {
      Euclid(p, a, b);
    }
  }

  lemma {:induction false} NonzeroPow(p: int, a: int, n: nat)
    requires Prime(p) && !Cong(p, a, 0)
    ensures !Cong(p, Pow(a, n), 0)
  {
    if n == 0 {
      Reduced(p, 1);
    } else {
      NonzeroPow(p, a, n - 1);
      NonzeroProduct(p, a, Pow(a, n - 1));
    }
  }

  // ---- Fermat: multiplying 1..p-1 by a permutes it ----

  /** The product of the members of `s` between 1 and `top`. */
  ghost function Product(s: set<int>, top: nat): int {
    if top == 0 then 1 else (if top in s then top else 1) * Product(s, top - 1)
  }

  lemma {:induction false} ProductAdd(s: set<int>, y: int, top: nat)
    requires y !in s && 1 <= y
    ensures Product(s + {y}, top) == if y <= top then y * Product(s, top) else Product(s, top)
  {
    if top > 0 {
      ProductAdd(s, y, top - 1);
      if y < top && top in s {
        Swap(y, top, Product(s, top - 1));
      }
    }
  }

  lemma {:induction false} ProductNone(top: nat)
    ensures Product({}, top) == 1
  {
    if top > 0 {
      ProductNone(top - 1);
    }
  }

  lemma Swap(a: int, b: int, c: int)
    ensures a * (b * c) == b * (a * c)
  {
  }

  ghost function UpTo(n: nat): (s: set<int>)
    ensures forall x :: x in s <==> 1 <= x <= n
    ensures |s| == n
  {
    if n == 0 then {} else UpTo(n - 1) + {n as int}
  }

  function Multiple(p: Modulus, a: int, i: int): int {
    (a * i) % p
  }

  ghost function Multiples(p: Modulus, a: int, n: nat): set<int> {
    set i | 1 <= i <= n :: Multiple(p, a, i)
  }

  lemma FreshMultiple(p: int, a: int, n: nat)
    requires Prime(p) && !Cong(p, a, 0) && 0 < n < p
    ensures Multiple(p, a, n) !in Multiples(p, a, n - 1)
  {
    if Multiple(p, a, n) in Multiples(p, a, n - 1) {
      var i :| 1 <= i <= n - 1 && Multiple(p, a, i) == Multiple(p, a, n);
      CongMod(p, a * i);
      CongMod(p, a * n);
      CongTrans(p, a * i, (a * i) % p, a * n);
      Cancel(p, a, i, n);
      CongReduced(p, i, n);
    }
  }

  lemma MultiplesStep(p: Modulus, a: int, n: nat)
    requires n > 0
    ensures Multiples(p, a, n) == Multiples(p, a, n - 1) + {Multiple(p, a, n)}
    ensures UpTo(n) == UpTo(n - 1) + {n as int}
  {
  }

  lemma MultipleRange(p: int, a: int, n: nat)
    requires Prime(p) && !Cong(p, a, 0) && 0 < n < p
    ensures 1 <= Multiple(p, a, n) < p
  {
    Reduced(p, n);
    NonzeroProduct(p, a, n);
  }

  lemma {:induction false} MultiplesProduct(p: int, a: int, n: nat, top: nat)
    requires Prime(p) && !Cong(p, a, 0) && n <= top == p - 1
    ensures Cong(p, Product(Multiples(p, a, n), top), Pow(a, n) * Product(UpTo(n), top))
    ensures |Multiples(p, a, n)| == n
  {
    if n == 0 {
      assert Multiples(p, a, 0) == {} == UpTo(0);
      ProductNone(top);
      CongIntro(p, 1, 1, 0);
    } else {
      MultiplesProduct(p, a, n - 1, top);
      FreshMultiple(p, a, n);
      MultiplesStep(p, a, n);
      ProductStep(p, a, n, top);
    }
  }

  lemma ProductStep(p: int, a: int, n: nat, top: nat)
    requires Prime(p) && !Cong(p, a, 0) && 0 < n <= top == p - 1
    requires Cong(p, Product(Multiples(p, a, n - 1), top), Pow(a, n - 1) * Product(UpTo(n - 1), top))
    ensures Cong(p, Product(Multiples(p, a, n), top), Pow(a, n) * Product(UpTo(n), top))
  {
    MultipleRange(p, a, n);
    FreshMultiple(p, a, n);
    MultiplesStep(p, a, n);
    hide Product, Multiples, UpTo, Cong, Prime;
    var m, f, w := Multiple(p, a, n), Product(UpTo(n - 1), top), Pow(a, n - 1);
    ProductAdd(Multiples(p, a, n - 1), m, top);
    ProductAdd(UpTo(n - 1), n, top);
    CongMod(p, a * n);
    CongMul(p, m, a * n, Product(Multiples(p, a, n - 1), top), w * f);
    Regroup(a, n, w, f);
  }

  lemma Regroup(a: int, b: int, c: int, d: int)
    ensures (a * b) * (c * d) == (a * c) * (b * d)
  {
    Swap(b, c, d);
    assert (a * b) * (c * d) == a * (b * (c * d));
    assert (a * c) * (b * d) == a * (c * (b * d));
  }

  lemma {:induction false} FactorialNonzero(p: int, n: nat, top: nat)
    requires Prime(p) && n <= top == p - 1
    ensures !Cong(p, Product(UpTo(n), top), 0)
  {
    if n == 0 {
      ProductNone(top);
      Reduced(p, 1);
    } else {
      FactorialNonzero(p, n - 1, top);
      ProductAdd(UpTo(n - 1), n, top);
      Reduced(p, n);
      NonzeroProduct(p, n, Product(UpTo(n - 1), top));
    }
  }

  lemma MultiplesArePermutation(p: int, a: int, top: nat)
    requires Prime(p) && !Cong(p, a, 0) && top == p - 1
    ensures Multiples(p, a, top) == UpTo(top)
  {
    forall x: int | x in Multiples(p, a, top)
      ensures x in UpTo(top)
    {
      var i: int :| 1 <= i <= top && x == Multiple(p, a, i);
      MultipleRange(p, a, i);
    }
    MultiplesProduct(p, a, top, top);
    SameSize(Multiples(p, a, top), UpTo(top));
  }

  lemma SameSize(s: set<int>, t: set<int>)
    requires s <= t && |s| == |t|
    ensures s == t
  {
    assert t == s + (t - s);
    assert |t| == |s| + |t - s|;
  }

  /** Fermat's little theorem. */
  lemma Fermat(p: int, a: int)
    requires Prime(p) && !Cong(p, a, 0)
    ensures Cong(p, Pow(a, p - 1), 1)
  {
    var top := p - 1;
    MultiplesProduct(p, a, top, top);
    MultiplesArePermutation(p, a, top);
    FactorialNonzero(p, top, top);
    FermatCancel(p, Product(UpTo(top), top), Pow(a, top));
  }

  lemma FermatCancel(p: int, f: int, w: int)
    requires Prime(p) && !Cong(p, f, 0) && Cong(p, f, w * f)
    ensures Cong(p, w, 1)
  {
    CongSym(p, f, w * f);
    assert w * f == f * w && f == f * 1;
    Cancel(p, f, w, 1);
  }

  /** One has only the square roots 1 and -1. */
  lemma RootsOfOne(p: int, z: int)
    requires Prime(p) && Cong(p, z * z, 1)
    ensures Cong(p, z, 1) || Cong(p, z, -1)
  {
    assert z * z - 1 == (z - 1) * (z + 1);
    Euclid(p, z - 1, z + 1);
  }

  ghost predicate Square(p: Modulus, a: int) {
    exists s :: Cong(p, s * s, a)
  }
}
