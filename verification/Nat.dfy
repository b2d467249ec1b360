/** Powers of two and the bits of an integer, as used by every module that
    moves between wires and numbers. */
module Nat {

  function Pow2(n: nat): (p: nat)
    ensures p > 0
  {
    if n == 0 then 1 else 2 * Pow2(n - 1)
  }

  function Max(a: nat, b: nat): nat {
    if a > b then a else b
  }

  function Min(a: nat, b: nat): nat {
    if a < b then a else b
  }

  function Bit(b: bool): nat {
    if b then 1 else 0
  }

  /** The number written by `bits`, least significant bit first. */
  function FromBits(bits: seq<bool>): nat {
    if bits == [] then 0
    else FromBits(bits[..|bits| - 1]) + Bit(bits[|bits| - 1]) * Pow2(|bits| - 1)
  }

  /** Bit `i` of `v` in two's complement, as big.Int.Bit answers it. */
  predicate BitOf(v: int, i: nat) {
    (v / Pow2(i)) % 2 == 1
  }

  /** The low `n` bits of `v`. */
  function ToBits(v: int, n: nat): (bits: seq<bool>)
    ensures |bits| == n
  {
    seq(n, i requires 0 <= i => BitOf(v, i))
  }

  lemma {:induction false} Pow2Add(m: nat, n: nat)
    ensures Pow2(m + n) == Pow2(m) * Pow2(n)
  {
    if n > 0 {
      Pow2Add(m, n - 1);
      assert Pow2(m + n) == 2 * Pow2(m + n - 1);
      assert 2 * (Pow2(m) * Pow2(n - 1)) == Pow2(m) * (2 * Pow2(n - 1));
    }
  }

  lemma {:induction false} Pow2Mono(m: nat, n: nat)
    requires m <= n
    ensures Pow2(m) <= Pow2(n)
    decreases n - m
  {
    if m < n {
      Pow2Mono(m + 1, n);
    }
  }

  lemma {:induction false} FromBitsBound(bits: seq<bool>)
    ensures FromBits(bits) < Pow2(|bits|)
  {
    if bits != [] {
      FromBitsBound(bits[..|bits| - 1]);
    }
  }

  // ----- Division with remainder -----

  lemma DivModDef(n: int, m: int)
    requires m > 0
    ensures n == m * (n / m) + n % m && 0 <= n % m < m
  {
  }

  lemma QuotientUnique(m: int, q: int, r: int, p: int, s: int)
    requires 0 <= r < m && 0 <= s < m && m * q + r == m * p + s
    ensures q == p && r == s
  {
    assert m * (q - p) == s - r;
    if q > p {
      MulGrows(m, q - p);
    } else if q < p {
      MulGrows(m, p - q);
    }
  }

  lemma MulGrows(m: int, d: int)
    requires m > 0 && d >= 1
    ensures m * d >= m
  {
  }

  /** A quotient and a remainder in range are the quotient and the remainder. */
  lemma DivModUnique(n: int, m: int, q: int, r: int)
    requires 0 <= r < m && n == m * q + r
    ensures n / m == q && n % m == r
  {
    DivModDef(n, m);
    QuotientUnique(m, q, r, n / m, n % m);
  }

  lemma ModAddMultiple(n: int, m: int, k: int)
    requires m > 0
    ensures (n + m * k) % m == n % m
  {
    DivModDef(n, m);
    assert n + m * k == m * (n / m + k) + n % m;
    DivModUnique(n + m * k, m, n / m + k, n % m);
  }

  lemma ModSmall(n: int, m: int)
    requires 0 <= n < m
    ensures n % m == n && n / m == 0
  {
    DivModUnique(n, m, 0, n);
  }

  lemma Distribute(p: int, a: int, b: int, q: int)
    ensures p * a + b * (p * q) == p * (a + b * q)
  {
  }

  lemma MulMono(p: nat, a: nat, b: nat)
    requires a < b && p > 0
    ensures p * a < p * b
  {
  }

  lemma MulAssoc(a: int, b: int, c: int)
    ensures a * (b * c) == (a * b) * c
  {
  }

  lemma MulDist(p: int, a: int, b: int)
    ensures p * (a + b) == p * a + p * b
  {
  }

  lemma ScaledMod(p: nat, t: nat, v: nat, u: nat)
    requires p > 0 && v < t
    ensures p * t > 0 && (p * (v + t * u)) % (p * t) == p * v
  {
    MulMono(p, v, t);
    MulDist(p, v, t * u);
    MulAssoc(p, t, u);
    DivModUnique(p * (v + t * u), p * t, u, p * v);
  }

  lemma SameMod(u: int, v: int, m: int, p: int)
    requires u == v && m == p > 0
    ensures u % m == v % p
  {
  }

  /** Of two reductions modulo powers of two the smaller one remains. */
  lemma ModTwice(v: int, m: nat, n: nat)
    ensures (v % Pow2(m)) % Pow2(n) == v % Pow2(Min(m, n))
    ensures (v % Pow2(m)) % Pow2(n) == v % Pow2(Min(n, m))
  {
    if n <= m {
      Pow2Add(n, m - n);
      DivModDef(v, Pow2(m));
      MulAssoc(Pow2(n), Pow2(m - n), v / Pow2(m));
      ModAddMultiple(v % Pow2(m), Pow2(n), Pow2(m - n) * (v / Pow2(m)));
    } else {
      Pow2Mono(m, n);
      ModSmall(v % Pow2(m), Pow2(n));
    }
  }

  lemma ModSum(a: int, b: int, m: int)
    requires m > 0
    ensures (a % m + b % m) % m == (a + b) % m
  {
    DivModDef(a, m);
    DivModDef(b, m);
    MulDist(m, a / m, b / m);
    ModAddMultiple(a % m + b % m, m, a / m + b / m);
  }

  lemma ModDiff(a: int, b: int, m: int)
    requires m > 0
    ensures (a % m - b % m) % m == (a - b) % m
  {
    DivModDef(a, m);
    DivModDef(b, m);
    MulDist(m, a / m, -(b / m));
    ModAddMultiple(a % m - b % m, m, a / m - b / m);
  }

  lemma ModMul(a: nat, b: nat, m: nat)
    requires m > 0
    ensures ((a % m) * (b % m)) % m == (a * b) % m
  {
    DivModDef(a, m);
    DivModDef(b, m);
    var q, r, s, t := a / m, a % m, b / m, b % m;
    assert a * b == r * t + m * (q * b + r * s) by {
      assert (m * q + r) * b == m * (q * b) + r * b;
      assert r * (m * s + t) == m * (r * s) + r * t;
      MulDist(m, q * b, r * s);
    }
    ModAddMultiple(r * t, m, q * b + r * s);
  }

  // ----- Congruence -----

  predicate Cong(a: int, b: int, m: int)
    requires m > 0
  {
    a % m == b % m
  }

  lemma CongAdd(a: int, b: int, c: int, d: int, m: int)
    requires m > 0 && Cong(a, b, m) && Cong(c, d, m)
    ensures Cong(a + c, b + d, m)
  {
    ModSum(a, c, m);
    ModSum(b, d, m);
  }

  lemma CongSub(a: int, b: int, c: int, d: int, m: int)
    requires m > 0 && Cong(a, b, m) && Cong(c, d, m)
    ensures Cong(a - c, b - d, m)
  {
    ModDiff(a, c, m);
    ModDiff(b, d, m);
  }

  lemma CongScale(p: int, a: int, b: int, m: int)
    requires m > 0 && Cong(a, b, m)
    ensures Cong(p * a, p * b, m)
  {
    DivModDef(a, m);
    DivModDef(b, m);
    var k := a / m - b / m;
    assert a == b + m * k by {
      MulDist(m, b / m, k);
    }
    assert p * a == p * b + m * (p * k) by {
      MulDist(p, b, m * k);
      assert p * (m * k) == m * (p * k);
    }
    ModAddMultiple(p * b, m, p * k);
  }

  lemma CongMod(a: int, m: int)
    requires m > 0
    ensures Cong(a % m, a, m)
  {
    DivModDef(a, m);
    ModSmall(a % m, m);
  }

  lemma MulMonoLe(p: nat, a: nat, b: nat)
    requires a <= b
    ensures p * a <= p * b
  {
  }

  /** Multiplication under a name, so that proofs can keep it folded. */
  function Times(a: nat, b: nat): nat {
    a * b
  }

  lemma QuotientBound(a: nat, b: nat, q: int, r: nat)
    requires r < b && a == b * q + r
    ensures 0 <= q <= a
  {
    if q < 0 {
      MulGrows(b, 0 - q);
    } else {
      MulMonoLe(q, 1, b);
    }
  }

  // ----- Numbers and their bits -----

  /** A number that was put together from bits has those bits. */
  lemma {:induction false} BitsOfNumber(bits: seq<bool>, i: nat)
    requires i < |bits|
    ensures BitOf(FromBits(bits), i) == bits[i]
  {
    hide BitOf;
    var n := |bits| - 1;
    var low, p := FromBits(bits[..n]), Pow2(n);
    FromBitsBound(bits[..n]);
    if i == n {
      TopBit(low, Bit(bits[n]), n);
    } else {
      BitsOfNumber(bits[..n], i);
      LowBit(low, Bit(bits[n]), n, i);
    }
  }

  lemma TopBit(low: nat, bit: nat, n: nat)
    requires low < Pow2(n) && bit <= 1
    ensures BitOf(low + bit * Pow2(n), n) <==> bit == 1
  {
    DivModUnique(low + bit * Pow2(n), Pow2(n), bit, low);
  }

  lemma AddEven(w: int, v: int, p: int, k: int)
    requires p > 0 && w == v + p * (2 * k)
    ensures (w / p) % 2 == (v / p) % 2
  {
    DivModDef(v, p);
    MulDist(p, v / p, 2 * k);
    DivModUnique(w, p, v / p + 2 * k, v % p);
    ModAddMultiple(v / p, 2, k);
  }

  /** Adding a multiple of a higher power of two leaves a bit alone. */
  lemma LowBit(low: nat, bit: nat, n: nat, i: nat)
    requires i < n
    ensures BitOf(low + bit * Pow2(n), i) == BitOf(low, i)
  {
    var h := Pow2(n - i - 1);
    Pow2Add(i, n - i - 1);
    Regroup(bit, Pow2(i), h, Pow2(n));
    AddEven(low + bit * Pow2(n), low, Pow2(i), bit * h);
  }

  lemma Regroup(bit: nat, p: nat, h: nat, q: nat)
    requires q == 2 * (p * h)
    ensures bit * q == p * (2 * (bit * h))
  {
    assert bit * (2 * (p * h)) == p * (2 * (bit * h));
  }

  lemma NumberOfBits(bits: seq<bool>)
    ensures ToBits(FromBits(bits), |bits|) == bits
  {
    hide BitOf, FromBits;
    forall i | 0 <= i < |bits| ensures ToBits(FromBits(bits), |bits|)[i] == bits[i] {
      BitsOfNumber(bits, i);
    }
  }
}
