/** Congruences, greatest common divisors and positional digits: the arithmetic behind the
    unique-code generator. */
module Numbers {

  /** `a` and `b` are `k` times `m` apart. */
  ghost predicate Apart(a: int, b: int, k: int, m: int) {
    a - b == k * m
  }

  /** `a` and `b` differ by a multiple of `m`. */
  ghost predicate Cong(a: int, b: int, m: int) {
    exists k :: Apart(a, b, k, m)
  }

  lemma CongBy(a: int, b: int, m: int, k: int)
    requires a - b == k * m
    ensures Cong(a, b, m)
  {
    assert Apart(a, b, k, m);
  }

  lemma CongSym(a: int, b: int, m: int)
    requires Cong(a, b, m)
    ensures Cong(b, a, m)
  {
    var k :| Apart(a, b, k, m);
    assert b - a == (-k) * m;
    CongBy(b, a, m, -k);
  }

  lemma CongTrans(a: int, b: int, c: int, m: int)
    requires Cong(a, b, m) && Cong(b, c, m)
    ensures Cong(a, c, m)
  {
    var j :| Apart(a, b, j, m);
    var k :| Apart(b, c, k, m);
    assert a - c == (j + k) * m;
    CongBy(a, c, m, j + k);
  }

  lemma CongMul(a: int, b: int, m: int, x: int)
    requires Cong(a, b, m)
    ensures Cong(x * a, x * b, m)
  {
    var k :| Apart(a, b, k, m);
    assert x * a - x * b == (x * k) * m by {
      assert x * a - x * b == x * (a - b) == x * (k * m) == (x * k) * m;
    }
    CongBy(x * a, x * b, m, x * k);
  }

  lemma CongShift(a: int, b: int, m: int, x: int)
    ensures Cong(a, b, m) <==> Cong(a + x, b + x, m)
  {
    if k :| Apart(a, b, k, m) {
      CongBy(a + x, b + x, m, k);
    }
    var p, q := a + x, b + x;
    if k :| Apart(p, q, k, m) {
      CongBy(a, b, m, k);
    }
  }

  lemma CongMod(a: int, m: int)
    requires m > 0
    ensures Cong(a, a % m, m)
  {
    assert a - a % m == (a / m) * m;
    CongBy(a, a % m, m, a / m);
  }

  lemma NearMultiple(k: int, m: int)
    requires m > 0 && -m < k * m < m
    ensures k == 0
  {
    MulSign(k - 1, m);
    MulSign(-k - 1, m);
    assert (k - 1) * m == k * m - m && (-k - 1) * m == -(k * m) - m;
  }

  lemma MulSign(x: int, m: int)
    requires m > 0
    ensures x >= 0 ==> x * m >= 0
  {
  }

  lemma CongSmall(a: int, b: int, m: int)
    requires m > 0 && Cong(a, b, m) && -m < a - b < m
    ensures a == b
  {
    var k :| Apart(a, b, k, m);
    NearMultiple(k, m);
  }

  /** Congruent is the same as equal remainders. */
  lemma CongIffMod(a: int, b: int, m: int)
    requires m > 0
    ensures Cong(a, b, m) <==> a % m == b % m
  {
    CongMod(a, m);
    CongMod(b, m);
    if Cong(a, b, m) {
      CongSym(a, a % m, m);
      CongTrans(a % m, a, b, m);
      CongTrans(a % m, b, b % m, m);
      CongSmall(a % m, b % m, m);
    } else if a % m == b % m {
      CongSym(b, b % m, m);
      CongTrans(a, a % m, b, m);
    }
  }

  // ---------- inverses ----------

  function Gcd(a: nat, b: nat): nat
    decreases b
  {
    if b == 0 then a else Gcd(b, a % b)
  }

  /** Bezout: the greatest common divisor as a combination of the two numbers. */
  function Bezout(a: nat, b: nat): (r: (int, int))
    ensures a * r.0 + b * r.1 == Gcd(a, b)
    decreases b
  {
    if b == 0 then (1, 0)
    else
      var q := Bezout(b, a % b);
      BezoutStep(a, b, a / b, a % b, q.0, q.1);
      (q.1, q.0 - (a / b) * q.1)
  }

  lemma BezoutStep(a: int, b: int, d: int, r: int, x: int, y: int)
    requires a == d * b + r
    ensures a * y + b * (x - d * y) == b * x + r * y
  {
    assert a * y == d * b * y + r * y;
    assert b * (d * y) == d * b * y;
  }

  function Pow(c: nat, l: nat): (r: nat)
    ensures c > 0 ==> r > 0
  {
    if l == 0 then 1 else c * Pow(c, l - 1)
  }

  /** The inverse of `a` modulo `c` to the power `l`, for `a` and `c` without a common divisor. */
  function Inverse(a: nat, c: nat, l: nat): (r: int)
    requires Gcd(a, c) == 1
    ensures Cong(a * r, 1, Pow(c, l))
  {
    if l == 0 then
      CongBy(0, 1, 1, -1);
      0
    else
      var u, v := Inverse(a, c, l - 1), Bezout(a, c).0;
      LiftInverse(a, c, Pow(c, l - 1), u, v);
      u + v - a * u * v
  }

  lemma LiftInverse(a: int, c: int, m: int, u: int, v: int)
    requires Cong(a * u, 1, m)
    requires exists y :: a * v + c * y == 1
    ensures Cong(a * (u + v - a * u * v), 1, c * m)
  {
    var k :| Apart(a * u, 1, k, m);
    var y :| a * v + c * y == 1;
    LiftProduct(a, u, v);
    LiftFactors(k, m, c, y);
    CongBy(a * (u + v - a * u * v), 1, c * m, k * y);
  }

  lemma LiftProduct(a: int, u: int, v: int)
    ensures a * (u + v - a * u * v) - 1 == -((a * u - 1) * (a * v - 1))
  {
    assert (a * u - 1) * (a * v - 1) == (a * u) * (a * v) - a * u - a * v + 1;
    assert a * (a * u * v) == (a * u) * (a * v);
    assert a * (u + v - a * u * v) == a * u + a * v - a * (a * u * v);
  }

  lemma LiftFactors(k: int, m: int, c: int, y: int)
    ensures (k * m) * -(c * y) == -((k * y) * (c * m))
  {
    assert (k * m) * (c * y) == (k * y) * (c * m);
  }

  lemma CongCancel(a: int, inv: int, x: int, y: int, m: int)
    requires Cong(a * inv, 1, m)
    ensures Cong(x, y, m) <==> Cong(x * a, y * a, m)
  {
    if Cong(x, y, m) {
      CongMul(x, y, m, a);
    } else if Cong(x * a, y * a, m) {
      CongMul(x * a, y * a, m, inv);
      UndoFactor(a, inv, x, m);
      UndoFactor(a, inv, y, m);
      CongSym(inv * (x * a), x, m);
      CongTrans(x, inv * (x * a), inv * (y * a), m);
      CongTrans(x, inv * (y * a), y, m);
    }
  }

  lemma UndoFactor(a: int, inv: int, x: int, m: int)
    requires Cong(a * inv, 1, m)
    ensures Cong(inv * (x * a), x, m)
  {
    CongMul(a * inv, 1, m, x);
    assert x * (a * inv) == inv * (x * a);
  }

  // ---------- digits ----------

  /** The `l` lowest digits of `e` in base `c`, units first. */
  function Digits(e: nat, c: nat, l: nat): (d: seq<nat>)
    requires c > 0
    ensures |d| == l && InBase(d, c)
    decreases l
  {
    if l == 0 then [] else [e % c] + Digits(e / c, c, l - 1)
  }

  function Value(d: seq<nat>, c: nat): nat {
    if d == [] then 0 else d[0] + c * Value(d[1..], c)
  }

  predicate InBase(d: seq<nat>, c: nat) {
    forall i :: 0 <= i < |d| ==> d[i] < c
  }

  lemma {:induction false} ValueSmall(d: seq<nat>, c: nat)
    requires c > 0 && InBase(d, c)
    ensures Value(d, c) < Pow(c, |d|)
    decreases |d|
  {
    if d != [] {
      ValueSmall(d[1..], c);
      var v, p := Value(d[1..], c), Pow(c, |d| - 1);
      assert d[0] < c;
      OneMoreDigit(d[0], v, p, c);
    }
  }

  lemma OneMoreDigit(x: nat, v: nat, p: nat, c: nat)
    requires x < c && v < p
    ensures x + c * v < c * p
  {
    MulSign(p - 1 - v, c);
    assert (p - 1 - v) * c == c * p - c - c * v;
  }

  /** Digits keep exactly the remainder modulo `c` to the power `l`. */
  lemma {:induction false} ValueOfDigits(e: nat, c: nat, l: nat)
    requires c > 0
    ensures Value(Digits(e, c, l), c) == e % Pow(c, l)
    decreases l
  {
    var d := Digits(e, c, l);
    if l > 0 {
      ValueOfDigits(e / c, c, l - 1);
      assert d[1..] == Digits(e / c, c, l - 1);
      ValueSmall(d, c);
      RemainderStep(e, c, Pow(c, l - 1));
    }
  }

  lemma RemainderStep(e: nat, c: nat, p: nat)
    requires c > 0 && p > 0 && e % c + c * ((e / c) % p) < c * p
    ensures e % c + c * ((e / c) % p) == e % (c * p)
  {
    var h := e / c;
    var v := e % c + c * (h % p);
    assert e == c * h + e % c;
    assert h == p * (h / p) + h % p;
    assert c * h == (c * p) * (h / p) + c * (h % p) by {
      assert c * (p * (h / p)) == (c * p) * (h / p);
      assert c * (p * (h / p) + h % p) == c * (p * (h / p)) + c * (h % p);
    }
    DivModUnique(e, c * p, h / p, v);
  }

  /** A digit sequence is the digits of its own value. */
  lemma {:induction false} DigitsOfValue(d: seq<nat>, c: nat)
    requires c > 0 && InBase(d, c)
    ensures Digits(Value(d, c), c, |d|) == d
    decreases |d|
  {
    if d != [] {
      var v := Value(d[1..], c);
      DigitsOfValue(d[1..], c);
      DivModUnique(d[0] + c * v, c, v, d[0]);
      assert d == [d[0]] + d[1..];
    }
  }

  lemma DivModUnique(e: int, c: int, q: int, r: int)
    requires c > 0 && e == r + c * q && 0 <= r < c
    ensures e / c == q && e % c == r
  {
    var k := e / c - q;
    assert k * c == r - e % c by {
      assert e == c * (e / c) + e % c;
      assert (e / c - q) * c == c * (e / c) - c * q;
    }
    NearMultiple(k, c);
  }

  /** Equal digits mean equal remainders, and the other way round. */
  lemma SameDigits(x: nat, y: nat, c: nat, l: nat)
    requires c > 0
    ensures Digits(x, c, l) == Digits(y, c, l) <==> x % Pow(c, l) == y % Pow(c, l)
  {
    ValueOfDigits(x, c, l);
    ValueOfDigits(y, c, l);
    DigitsOfValue(Digits(x, c, l), c);
    DigitsOfValue(Digits(y, c, l), c);
  }
}
