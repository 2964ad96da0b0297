/** Powers of two and the bitwise operations on natural numbers that word registers use. */
module BitArithmetic {

  function Pow2(n: nat): (r: nat)
    ensures r >= 1
  {
    if n == 0 then 1 else 2 * Pow2(n - 1)
  }

  lemma {:induction false} Pow2Add(a: nat, b: nat)
    ensures Pow2(a + b) == Pow2(a) * Pow2(b)
    decreases a
  {
    if a > 0 {
      Pow2Add(a - 1, b);
      MulAssoc(2, Pow2(a - 1), Pow2(b));
    }
  }

  lemma {:induction false} Pow2Mono(a: nat, b: nat)
    requires a <= b
    ensures Pow2(a) <= Pow2(b)
    decreases b
  {
    if a < b {
      Pow2Mono(a, b - 1);
    }
  }

  lemma MulAssoc(a: int, b: int, c: int)
    ensures (a * b) * c == a * (b * c)
  {
  }

  lemma DivUnique(x: int, m: int, q: int, r: int)
    requires m > 0 && x == m * q + r && 0 <= r < m
    ensures x / m == q && x % m == r
  {
    DivMod(x, m);
    var t := x / m - q;
    assert m * t == m * (x / m) - m * q;
    SmallMultiple(m, t);
  }

  lemma SmallMultiple(m: int, t: int)
    requires m > 0 && -m < m * t < m
    ensures t == 0
  {
    MulMono(m, 1, t);
    MulMono(m, t, -1);
  }

  lemma MulMono(m: int, a: int, b: int)
    requires m >= 0
    ensures a <= b ==> m * a <= m * b
  {
  }

  lemma DivMod(x: int, m: int)
    requires m > 0
    ensures x == m * (x / m) + x % m && 0 <= x % m < m
  {
  }

  lemma MixedRadix(a: nat, b: nat, high: nat, mid: nat, low: nat)
    requires mid < b && low < a
    ensures a * (b * high + mid) + low == (a * b) * high + (a * mid + low)
    ensures 0 <= a * mid + low < a * b
  {
    assert a * (b * high + mid) == a * (b * high) + a * mid;
    MulAssoc(a, b, high);
    assert a * mid <= a * (b - 1);
  }

  lemma DivDiv(x: nat, a: nat, b: nat)
    requires a > 0 && b > 0
    ensures a * b > 0 && x / a / b == x / (a * b)
  {
    DivMod(x, a);
    var q := x / a;
    DivMod(q, b);
    MixedRadix(a, b, q / b, q % b, x % a);
    DivUnique(x, a * b, q / b, a * (q % b) + x % a);
  }

  lemma DivShift(w: nat, p: nat, m: nat)
    requires p > 0
    ensures (w + p * m) / p == w / p + m
  {
    DivMod(w, p);
    assert p * (w / p + m) == p * (w / p) + p * m;
    DivUnique(w + p * m, p, w / p + m, w % p);
  }

  /** Bit `n` of `v`. */
  predicate Bit(v: nat, n: nat) {
    (v / Pow2(n)) % 2 == 1
  }

  function BitOr(a: nat, b: nat): nat
    decreases a + b
  {
    if a == 0 && b == 0 then 0
    else 2 * BitOr(a / 2, b / 2) + (if a % 2 == 1 || b % 2 == 1 then 1 else 0)
  }

  function BitAnd(a: nat, b: nat): nat
    decreases a + b
  {
    if a == 0 && b == 0 then 0
    else 2 * BitAnd(a / 2, b / 2) + (if a % 2 == 1 && b % 2 == 1 then 1 else 0)
  }

  lemma BitHalf(v: nat, n: nat)
    requires n > 0
    ensures Bit(v, n) == Bit(v / 2, n - 1)
  {
    DivDiv(v, 2, Pow2(n - 1));
  }

  /** The recursive bitwise or is the or of every bit. */
  lemma {:induction false} BitOrBits(a: nat, b: nat, n: nat)
    ensures Bit(BitOr(a, b), n) == (Bit(a, n) || Bit(b, n))
    decreases n
  {
    var r := BitOr(a, b);
    assert r / 2 == BitOr(a / 2, b / 2) && (r % 2 == 1 <==> a % 2 == 1 || b % 2 == 1);
    if n > 0 {
      BitOrBits(a / 2, b / 2, n - 1);
      BitHalf(r, n);
      BitHalf(a, n);
      BitHalf(b, n);
    }
  }

  lemma {:induction false} BitOrZero(a: nat)
    ensures BitOr(a, 0) == a
  {
    if a > 0 {
      BitOrZero(a / 2);
    }
  }

  lemma {:induction false} BitOrBound(a: nat, b: nat, n: nat)
    requires a < Pow2(n) && b < Pow2(n)
    ensures BitOr(a, b) < Pow2(n)
    decreases n
  {
    if n > 0 {
      BitOrBound(a / 2, b / 2, n - 1);
    }
  }

  /** Setting bit `k` adds its weight exactly when it was clear. */
  lemma {:induction false} BitOrPow2(a: nat, k: nat)
    ensures BitOr(a, Pow2(k)) == if Bit(a, k) then a else a + Pow2(k)
    decreases k
  {
    if k == 0 {
      BitOrZero(a / 2);
    } else {
      assert Pow2(k) / 2 == Pow2(k - 1) && Pow2(k) % 2 == 0;
      BitOrPow2(a / 2, k - 1);
      BitHalf(a, k);
    }
  }

  /** Keeping the low `k` bits is the remainder modulo 2^k. */
  lemma {:induction false} BitAndMask(a: nat, k: nat)
    ensures BitAnd(a, Pow2(k) - 1) == a % Pow2(k)
    decreases k
  {
    if k == 0 {
      BitAndZero(a);
    } else {
      var mask := Pow2(k) - 1;
      assert mask / 2 == Pow2(k - 1) - 1 && mask % 2 == 1;
      BitAndMask(a / 2, k - 1);
      ModDouble(a, Pow2(k - 1));
    }
  }

  lemma ModDouble(a: nat, p: nat)
    requires p > 0
    ensures a % (2 * p) == 2 * (a / 2 % p) + a % 2
  {
    DivMod(a / 2, p);
    MixedRadix(2, p, a / 2 / p, a / 2 % p, a % 2);
    DivUnique(a, 2 * p, a / 2 / p, 2 * (a / 2 % p) + a % 2);
  }

  lemma {:induction false} BitAndZero(a: nat)
    ensures BitAnd(a, 0) == 0
  {
    if a > 0 {
      BitAndZero(a / 2);
    }
  }

  lemma {:induction false} PowerBit(n: nat, m: nat)
    ensures Bit(Pow2(n), m) == (n == m)
    decreases n
  {
    if m > 0 {
      BitHalf(Pow2(n), m);
      if n > 0 {
        PowerBit(n - 1, m - 1);
      } else {
        assert Bit(0, m - 1) == false;
      }
    }
  }
}
