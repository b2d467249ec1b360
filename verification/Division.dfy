/** The arithmetic behind the bit-serial dividers: what one step does to the
    partial quotient and remainder, for every divisor including zero. */
module Division {
  import opened Nat
  import opened Circuit
  import opened Graph

  /** Quotient of a k-bit dividend; all ones when the divisor is zero. */
  function Quot(a: nat, b: nat, k: nat): nat {
    if b == 0 then Pow2(k) - 1 else a / b
  }

  /** Remainder; the dividend itself when the divisor is zero. */
  function Rem(a: nat, b: nat): nat {
    if b == 0 then a else a % b
  }

  /** Quotient and remainder mean what they should. */
  lemma QuotRem(a: nat, b: nat, k: nat)
    requires b > 0
    ensures a == Quot(a, b, k) * b + Rem(a, b) && Rem(a, b) < b
  {
    DivModDef(a, b);
  }

  lemma RemBound(a: nat, b: nat)
    ensures Rem(a, b) <= a
  {
    if b > 0 {
      DivModDef(a, b);
      QuotientBound(a, b, a / b, a % b);
      MulMonoLe(b, 0, a / b);
    }
  }

  /** Bringing down one dividend bit. */
  lemma DivStep(a: nat, bit: nat, b: nat, k: nat)
    requires bit <= 1
    ensures var r := 2 * Rem(a, b) + bit;
            && Quot(2 * a + bit, b, k + 1) == 2 * Quot(a, b, k) + (if r >= b then 1 else 0)
            && Rem(2 * a + bit, b) == if r >= b then r - b else r
  {
    if b > 0 {
      DivModDef(a, b);
      var q, r := a / b, 2 * (a % b) + bit;
      if r >= b {
        assert 2 * a + bit == b * (2 * q + 1) + (r - b) by {
          MulDist(b, 2 * q, 1);
          assert b * (2 * q) == 2 * (b * q);
        }
        DivModUnique(2 * a + bit, b, 2 * q + 1, r - b);
      } else {
        assert b * (2 * q) == 2 * (b * q);
        DivModUnique(2 * a + bit, b, 2 * q, r);
      }
    }
  }

  /** The dividend bits from `i` up, as a number. */
  function High(asg: Asg, a: seq<nat>, i: nat): nat
    requires i <= |a|
  {
    Num(asg, a[i..])
  }

  lemma HighStep(asg: Asg, a: seq<nat>, i: nat)
    requires i < |a|
    ensures High(asg, a, i) == 2 * High(asg, a, i + 1) + B(asg, a[i])
    ensures High(asg, a, i) < Pow2(|a| - i)
  {
    assert a[i..] == [a[i]] + a[i + 1..];
    HeadValue(asg, a[i], a[i + 1..]);
    NumBound(asg, a[i..]);
  }

  /** The value the quotient has after the dividend bits from `i` up. */
  function QuotAt(asg: Asg, a: seq<nat>, d: nat, i: nat): nat
    requires i <= |a|
  {
    Quot(High(asg, a, i), d, |a| - i)
  }

  function RemAt(asg: Asg, a: seq<nat>, d: nat, i: nat): nat
    requires i <= |a|
  {
    Rem(High(asg, a, i), d)
  }

  /** Bit `i` of the quotient is 1 exactly when the shifted remainder reaches
      the divisor. */
  predicate QuotBit(asg: Asg, a: seq<nat>, d: nat, i: nat, w: nat)
    requires i < |a|
  {
    w in asg <==> 2 * RemAt(asg, a, d, i + 1) + B(asg, a[i]) >= d
  }

  lemma RemAtStep(asg: Asg, a: seq<nat>, d: nat, i: nat)
    requires i < |a|
    ensures var r := 2 * RemAt(asg, a, d, i + 1) + B(asg, a[i]);
            && RemAt(asg, a, d, i) == (if r >= d then r - d else r)
            && QuotAt(asg, a, d, i) == 2 * QuotAt(asg, a, d, i + 1) + (if r >= d then 1 else 0)
            && RemAt(asg, a, d, i) < Pow2(|a| - i)
  {
    HighStep(asg, a, i);
    DivStep(High(asg, a, i + 1), B(asg, a[i]), d, |a| - i - 1);
    RemBound(High(asg, a, i), d);
  }

  /** The quotient bits together are the low bits of the quotient. */
  lemma {:induction false} QuotLow(asg: Asg, a: seq<nat>, d: nat, q: seq<nat>, m: nat)
    requires m <= |a| && m <= |q|
    requires forall i :: 0 <= i < m ==> QuotBit(asg, a, d, i, q[i])
    ensures Num(asg, q[..m]) + Pow2(m) * QuotAt(asg, a, d, m) == QuotAt(asg, a, d, 0)
  {
    if m > 0 {
      QuotLow(asg, a, d, q, m - 1);
      NumSnoc(asg, q, m - 1);
      RemAtStep(asg, a, d, m - 1);
      LowArith(Num(asg, q[..m - 1]), Pow2(m - 1), QuotAt(asg, a, d, m - 1), QuotAt(asg, a, d, m), B(asg, q[m - 1]));
    }
  }

  lemma LowArith(v: nat, p: nat, q: nat, q1: nat, bit: nat)
    requires q == 2 * q1 + bit
    ensures v + bit * p + (2 * p) * q1 == v + p * q
  {
    assert p * (2 * q1 + bit) == (2 * p) * q1 + bit * p;
  }

  /** All the quotient bits a divider drives, as a number. */
  lemma QuotValue(asg: Asg, a: seq<nat>, d: nat, q: seq<nat>)
    requires |q| <= |a|
    requires forall i :: 0 <= i < |q| ==> QuotBit(asg, a, d, i, q[i])
    ensures Num(asg, q) == Quot(Num(asg, a), d, |a|) % Pow2(|q|)
  {
    hide Num, Pow2;
    QuotLow(asg, a, d, q, |q|);
    assert q[..|q|] == q && a[0..] == a;
    NumBound(asg, q);
    DivModUnique(Quot(Num(asg, a), d, |a|), Pow2(|q|), QuotAt(asg, a, d, |q|), Num(asg, q));
  }
}
