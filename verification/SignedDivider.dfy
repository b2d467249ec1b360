/** The signed divider (compiler/circuits/circ_divider.go). */
module SignedDivider {
  import opened Nat
  import opened Circuit
  import opened Graph
  import opened Compiler
  import opened Subtractor
  import opened Mux
  import opened Division
  import opened Divider

  // ----- Two's complement -----

  function Abs(x: int): nat {
    if x < 0 then 0 - x else x
  }

  /** Division truncated toward zero; a zero divisor gives all ones with the
      sign of the dividend. */
  function TruncQuot(a: int, b: int, n: nat): int {
    var q := Quot(Abs(a), Abs(b), n);
    if (a < 0) != (b < 0) then 0 - q else q
  }

  /** What truncation means: the quotient times the divisor stays within one
      divisor of the dividend, on the side of zero. */
  lemma TruncMeans(a: int, b: int, n: nat)
    requires b != 0
    ensures var r := Rem(Abs(a), Abs(b));
            && r < Abs(b)
            && a == TruncQuot(a, b, n) * b + (if a < 0 then 0 - r else r)
  {
    QuotRem(Abs(a), Abs(b), n);
    SignedProduct(Quot(Abs(a), Abs(b), n), b);
  }

  /** A zero divisor: all ones, with the sign of the dividend, and the size of the
      dividend as remainder. */
  lemma ZeroDivisor(a: int, n: nat)
    requires n > 0
    ensures TruncQuot(a, 0, n) % Pow2(n) == if a < 0 then 1 else Pow2(n) - 1
    ensures Rem(Abs(a), Abs(0)) == if a < 0 then 0 - a else a
  {
    if a < 0 {
      DivModUnique(1 - Pow2(n), Pow2(n), -1, 1);
    } else {
      ModSmall(Pow2(n) - 1, Pow2(n));
    }
  }

  lemma SignedProduct(q: int, b: int)
    ensures (0 - q) * b == 0 - q * b && q * (0 - b) == 0 - q * b && (0 - q) * (0 - b) == q * b
  {
  }

  /** The one overflow: the most negative number over -1 wraps to itself. */
  lemma MostNegativeWraps(n: nat)
    requires n > 0
    ensures var least := 0 - Pow2(n - 1);
            && TruncQuot(least, -1, n) == Pow2(n - 1)
            && Signed(TruncQuot(least, -1, n) % Pow2(n), n) == least
  {
    DivModUnique(Pow2(n - 1), 1, Pow2(n - 1), 0);
    ModSmall(Pow2(n - 1), Pow2(n));
  }

  /** An operand narrower than the other is zero-extended, so it keeps its
      signed value exactly when its own sign bit is clear. */
  lemma NarrowOperand(v: nat, m: nat, n: nat)
    requires 0 < m < n && v < Pow2(m)
    ensures Signed(v, n) == Signed(v, m) <==> v < Pow2(m - 1)
  {
    Pow2Mono(m, n - 1);
  }

  // ----- The remainder -----

  /** At width m the remainder of the absolute values is the truncated remainder
      exactly when the dividend is not negative or twice the remainder is 0. */
  lemma RemainderAtWidth(a: int, b: int, n: nat, m: nat)
    requires b != 0
    ensures var r := Rem(Abs(a), Abs(b));
            r % Pow2(m) == (a - TruncQuot(a, b, n) * b) % Pow2(m) <==> a >= 0 || (2 * r) % Pow2(m) == 0
  {
    TruncMeans(a, b, n);
    var r, p := Rem(Abs(a), Abs(b)), Pow2(m);
    if a < 0 {
      OppositeMod(r, p);
    }
  }

  lemma OppositeMod(r: nat, p: nat)
    requires p > 0
    ensures r % p == (0 - r) % p <==> (2 * r) % p == 0
  {
    DivModDef(r, p);
    var q, s := r / p, r % p;
    var d := 2 * s;
    if s == 0 {
      DivModUnique(0 - r, p, 0 - q, 0);
      DivModUnique(2 * r, p, 2 * q, 0);
    } else {
      DivModUnique(0 - r, p, 0 - q - 1, p - s);
      if d < p {
        DivModUnique(2 * r, p, 2 * q, d);
      } else {
        DivModUnique(2 * r, p, 2 * q + 1, d - p);
      }
    }
  }

  /** For n-bit operands and n remainder wires: exactly when the dividend is not
      negative or the division leaves nothing. */
  lemma RemainderIsTruncated(a: int, b: int, n: nat)
    requires n > 0 && 0 - Pow2(n - 1) <= b < Pow2(n - 1) && b != 0
    ensures var r := Rem(Abs(a), Abs(b));
            r % Pow2(n) == (a - TruncQuot(a, b, n) * b) % Pow2(n) <==> a >= 0 || r == 0
  {
    TruncMeans(a, b, n);
    var r := Rem(Abs(a), Abs(b));
    RemainderAtWidth(a, b, n, n);
    assert 2 * r < Pow2(n) == 2 * Pow2(n - 1);
    ModSmall(2 * r, Pow2(n));
  }

  /** The same on the wires that the divider leaves. */
  lemma RemainderOnWires(asg: Asg, a: nat, b: nat, n: nat, q: seq<nat>, r: seq<nat>)
    requires n > 0 && a < Pow2(n) && b < Pow2(n) && b != 0 && |r| == n
    requires SignedDivides(asg, a, b, n, q, r)
    ensures var sa, sb := Signed(a, n), Signed(b, n);
            Num(asg, r) == (sa - TruncQuot(sa, sb, n) * sb) % Pow2(n) <==> sa >= 0 || Rem(Abs(sa), Abs(sb)) == 0
  {
    RemainderIsTruncated(Signed(a, n), Signed(b, n), n);
  }

  /** -7 / 2 on four bits: the quotient is -3, and the remainder wires hold 1
      where -1 is due. */
  lemma NegativeDividend(asg: Asg, q: seq<nat>, r: seq<nat>)
    requires |q| == |r| == 4 && SignedDivides(asg, 9, 2, 4, q, r)
    ensures Signed(9, 4) == -7 && Num(asg, q) == 13 == (-3) % 16 && Num(asg, r) == 1 != (-7 - -3 * 2) % 16
  {
    assert Pow2(4) == 16 && Pow2(3) == 8;
    DivModUnique(7, 2, 3, 1);
    assert Quot(7, 2, 4) == 3 && Rem(7, 2) == 1;
    DivModUnique(-3, 16, -1, 13);
    DivModUnique(-1, 16, -1, 15);
  }

  // ----- The circuit -----

  /** x2 = |x|, and neg toggled when x is negative. */
  predicate Folded(asg: Asg, x: seq<nat>, neg: nat, neg2: nat, x2: seq<nat>) {
    && |x| > 0
    && Num(asg, x2) == Abs(Signed(Num(asg, x), |x|))
    && (neg2 in asg <==> ((neg in asg) != (Signed(Num(asg, x), |x|) < 0)))
  }

  lemma FoldedValue(asg: Asg, x: seq<nat>, neg: nat, flip: nat, neg2: nat, minus: seq<nat>, x2: seq<nat>)
    requires |x| > 0 && |minus| == |x|
    requires flip in asg <==> neg !in asg
    requires Num(asg, minus) == (0 - Num(asg, x)) % Pow2(|x|)
    requires B(asg, neg2) == if x[|x| - 1] in asg then B(asg, flip) else B(asg, neg)
    requires Num(asg, x2) == if x[|x| - 1] in asg then Num(asg, minus) else Num(asg, x)
    ensures Folded(asg, x, neg, neg2, x2)
  {
    hide Num;
    SignBit(asg, x);
    if x[|x| - 1] in asg {
      DivModUnique(0 - Num(asg, x), Pow2(|x|), -1, Pow2(|x|) - Num(asg, x));
    }
  }

  /** Makes x positive and keeps track of the sign. */
  method FoldSign(cc: Compiler, x: seq<nat>, zero: nat, neg: nat) returns (neg2: nat, x2: seq<nat>)
    requires cc.G().Built() && cc.G().AllDriven(x) && cc.G().Driven(neg) && cc.G().Driven(zero) && |x| > 0
    requires forall asg :: Sat(cc.table, asg) ==> zero !in asg
    modifies cc
    ensures cc.G().Built() && Grows(old(cc.G()), cc.G(), {}) && cc.G().Driven(neg2) && cc.G().AllDriven(x2) && |x2| == |x|
    ensures forall asg :: Sat(cc.table, asg) ==> Folded(asg, x, neg, neg2, x2)
  {
    hide State.Built, Sat, Num, Pow2, State.Driven, Grows, Folded;
    ghost var s0 := cc.G();
    var flip := cc.NewWire();
    ghost var s1 := cc.G();
    KeepAll(s0, s1, x, [neg], [zero]);
    assert [neg][0] == neg && [zero][0] == zero;
    cc.Invert(neg, flip);
    ghost var s2 := cc.G();
    KeepAllOuts(s1, s2, {flip}, x, [neg], [zero]);
    FreshWire(s0, s0, s1, s2, flip) by { GrowsRefl(s0); }
    var minus := FreshDifference(cc, [zero], x, |x|);
    ghost var s3 := cc.G();
    KeepAll(s2, s3, x, [neg], [flip]);
    assert [flip][0] == flip;
    GrowsTrans(s0, s2, s3, {}, {});
    var sign := x[|x| - 1..];
    var ns := FreshMux(cc, sign, [flip], [neg]);
    ghost var s4 := cc.G();
    KeepAll(s3, s4, x, sign, minus);
    GrowsTrans(s0, s3, s4, {}, {});
    x2 := FreshMux(cc, sign, minus, x);
    KeepAll(s4, cc.G(), ns);
    GrowsTrans(s0, s4, cc.G(), {}, {});
    neg2 := ns[0];
    forall asg | Sat(cc.table, asg)
      ensures Folded(asg, x, neg, neg2, x2)
    {
      SatPrefix(s4.table, cc.table, asg);
      SatPrefix(s3.table, s4.table, asg);
      SatPrefix(s2.table, s3.table, asg);
      SatPrefix(s0.table, s2.table, asg);
      NumOne(asg, zero);
      NumOne(asg, flip);
      NumOne(asg, neg);
      assert ns == [neg2] && sign[0] == x[|x| - 1];
      NumOne(asg, neg2);
      FoldedValue(asg, x, neg, flip, neg2, minus, x2);
    }
  }

  /** A multiplexer onto fresh wires. */
  method FreshMux(cc: Compiler, cond: seq<nat>, t: seq<nat>, f: seq<nat>) returns (out: seq<nat>)
    requires cc.G().Built() && cc.G().AllDriven(cond) && cc.G().AllDriven(t) && cc.G().AllDriven(f)
    requires |cond| == 1
    modifies cc
    ensures cc.G().Built() && Grows(old(cc.G()), cc.G(), {}) && cc.G().AllDriven(out) && |out| == Max(|t|, |f|)
    ensures forall asg :: Sat(cc.table, asg) ==> Num(asg, out) == if cond[0] in asg then Num(asg, t) else Num(asg, f)
  {
    hide State.Built, Sat, Num, State.Driven, Grows;
    ghost var s0 := cc.G();
    var ws := NewWires(cc, Max(|t|, |f|));
    ghost var s1 := cc.G();
    KeepAll(s0, s1, cond, t, f);
    out := ws[..];
    var ok := NewMUX(cc, cond, t, f, out);
    GrowsFresh(s0, s1, cc.G(), out);
  }

  predicate SignedOn(asg: Asg, sa: int, sb: int, n: nat, q: seq<nat>, r: seq<nat>) {
    && Num(asg, q) == TruncQuot(sa, sb, n) % Pow2(|q|)
    && Num(asg, r) == Rem(Abs(sa), Abs(sb)) % Pow2(|r|)
  }

  /** What the signed divider leaves on q and r, for n-bit operands a and b:
      the truncated quotient, and |a| mod |b| without any sign correction. */
  predicate SignedDivides(asg: Asg, a: nat, b: nat, n: nat, q: seq<nat>, r: seq<nat>)
    requires n > 0
  {
    var sa, sb := Signed(a, n), Signed(b, n);
    SignedOn(asg, sa, sb, n, q, r)
  }

  /** Both operands made positive, the sign of the quotient on neg4. */
  predicate BothFolded(asg: Asg, a: seq<nat>, b: seq<nat>, zero: nat, neg2: nat, neg4: nat, a2: seq<nat>, b2: seq<nat>) {
    zero !in asg && Folded(asg, a, zero, neg2, a2) && Folded(asg, b, neg2, neg4, b2)
  }

  method FoldBoth(cc: Compiler, a: seq<nat>, b: seq<nat>) returns (zero: nat, neg2: nat, neg4: nat, a2: seq<nat>, b2: seq<nat>)
    requires cc.G().Built() && cc.G().AllDriven(a) && cc.G().AllDriven(b) && 0 < |a| == |b|
    modifies cc
    ensures cc.G().Built() && Grows(old(cc.G()), cc.G(), {})
    ensures cc.G().Driven(zero) && cc.G().Driven(neg4) && cc.G().AllDriven(a2) && cc.G().AllDriven(b2) && |a2| == |b2| == |a|
    ensures forall asg :: Sat(cc.table, asg) ==> BothFolded(asg, a, b, zero, neg2, neg4, a2, b2)
  {
    hide State.Built, Sat, Num, Pow2, State.Driven, Grows, Folded;
    ghost var s1 := cc.G();
    zero := cc.ZeroWire();
    ghost var s2 := cc.G();
    KeepAll(s1, s2, a, b);
    neg2, a2 := FoldSign(cc, a, zero, zero);
    ghost var s3 := cc.G();
    KeepAll(s2, s3, b, [zero]);
    assert [zero][0] == zero;
    forall asg | Sat(cc.table, asg) ensures zero !in asg {
      SatPrefix(s2.table, s3.table, asg);
    }
    neg4, b2 := FoldSign(cc, b, zero, neg2);
    ghost var s4 := cc.G();
    KeepAll(s3, s4, a2, [zero]);
    GrowsTrans(s1, s2, s3, {}, {});
    GrowsTrans(s1, s3, s4, {}, {});
    forall asg | Sat(cc.table, asg) ensures BothFolded(asg, a, b, zero, neg2, neg4, a2, b2) {
      SatPrefix(s3.table, s4.table, asg);
      SatPrefix(s2.table, s3.table, asg);
    }
  }

  /** Unsigned division of the positive operands, and the quotient negated when
      the sign wire is 1. */
  method DivideAndNegate(cc: Compiler, zero: nat, neg4: nat, a2: seq<nat>, b2: seq<nat>, q: seq<nat>, r: seq<nat>) returns (ghost q0: seq<nat>)
    requires cc.G().Built() && cc.G().Driven(zero) && cc.G().Driven(neg4) && cc.G().AllDriven(a2) && cc.G().AllDriven(b2)
    requires cc.G().Free(q + r) && 0 < |q| <= |a2| == |b2|
    requires forall asg :: Sat(cc.table, asg) ==> zero !in asg
    modifies cc
    ensures var rlow := r[..Min(|r|, |a2|)];
            && cc.G().Built() && Grows(old(cc.G()), cc.G(), SetOf(q) + SetOf(rlow)) && cc.G().AllDriven(q)
            && (cc.G().AllDriven(r) <==> |r| <= |a2|)
            && forall asg :: Sat(cc.table, asg) ==> exists q1 ::
                 Divides(asg, Num(asg, a2), Num(asg, b2), |a2|, q0, rlow) && NegatedWhen(asg, neg4, q0, q1, q)
    ensures old(cc.G()).table <= cc.table && |q0| == |q|
  {
    hide State.Built, Sat, Num, Pow2, State.Driven, Grows, Divides, NegatedWhen;
    ghost var s4 := cc.G();
    var n := |a2|;
    ghost var rlow := r[..Min(|r|, n)];
    var ws := NewWires(cc, |q|);
    var qw := ws[..];
    q0 := qw;
    ghost var s5 := cc.G();
    KeepAll(s4, s5, a2, b2, [zero], [neg4]);
    assert [neg4][0] == neg4 && [zero][0] == zero;
    QuotientWires(s4, s5, q, r, qw);
    NewUDivider(cc, a2, b2, qw, r);
    ghost var s6 := cc.G();
    assert qw[..Min(|qw|, n)] == qw;
    QuotientGrows(s4, s4, s5, s6, q, r, qw, rlow) by { GrowsRefl(s4); }
    KeepAllOuts(s5, s6, SetOf(qw) + SetOf(rlow), [zero], [neg4], []);
    var q1 := FreshDifference(cc, [zero], qw, |q|);
    ghost var s7 := cc.G();
    KeepAll(s6, s7, qw, rlow, [neg4]);
    KeepsFree(s6, s7, {}, q);
    var ok := NewMUX(cc, [neg4], q1, qw, q);
    KeepsDriven(s7, cc.G(), SetOf(q), rlow);
    NegateGrows(s4, s6, s7, cc.G(), q, r, rlow);
    forall asg | Sat(cc.table, asg)
      ensures Divides(asg, Num(asg, a2), Num(asg, b2), n, q0, rlow) && NegatedWhen(asg, neg4, q0, q1, q)
    {
      SatPrefix(s7.table, cc.table, asg);
      SatPrefix(s6.table, s7.table, asg);
      SatPrefix(s5.table, s6.table, asg);
      SatPrefix(s4.table, s5.table, asg);
      NumOne(asg, zero);
      MakeNegated(asg, [zero], neg4, qw, q1, q);
    }
  }

  /** Signed division: both operands made positive, unsigned division, and the
      quotient negated when exactly one of them was negative.  The quotient may
      not be wider than the operands: its upper wires would be read undriven. */
  method NewIDivider(cc: Compiler, a0: seq<nat>, b0: seq<nat>, q: seq<nat>, r: seq<nat>)
    requires cc.G().Built() && cc.G().AllDriven(a0) && cc.G().AllDriven(b0) && cc.G().Free(q + r)
    requires 0 < Max(|a0|, |b0|) && |q| <= Max(|a0|, |b0|)
    modifies cc
    ensures var n := Max(|a0|, |b0|);
            cc.G().Built() && Grows(old(cc.G()), cc.G(), SetOf(q) + SetOf(r[..Min(|r|, n)]))
    ensures cc.G().AllDriven(q) && (cc.G().AllDriven(r) <==> |r| <= Max(|a0|, |b0|))
    ensures var n := Max(|a0|, |b0|);
            forall asg :: Sat(cc.table, asg) ==> SignedDivides(asg, Num(asg, a0), Num(asg, b0), n, q, r[..Min(|r|, n)])
  {
    hide State.Built, Sat, Num, Pow2, State.Driven, Grows, Folded, Divides, SignedDivides, NegatedWhen;
    ghost var s0 := cc.G();
    var a, b := cc.ZeroPad(a0, b0);
    ghost var s1 := cc.G();
    var n := |a|;
    var zero, neg2, neg4, a2, b2 := FoldBoth(cc, a, b);
    ghost var s4 := cc.G();
    GrowsTrans(s0, s1, s4, {}, {});
    KeepsFree(s0, s4, {}, q + r);
    ghost var rlow := r[..Min(|r|, n)];
    TableStays(s1, s4, {});
    if |q| == 0 {
      // Modulo operation.
      NewUDivider(cc, a2, b2, q, r);
      EmptyQuotient(s0, s4, cc.G(), q, rlow);
      forall asg | Sat(cc.table, asg)
        ensures SignedDivides(asg, Num(asg, a0), Num(asg, b0), n, q, rlow)
      {
        SatPrefix(s4.table, cc.table, asg);
        SatPrefix(s1.table, s4.table, asg);
        ModuloValue(asg, a, b, zero, neg2, neg4, a2, b2, q, rlow);
      }
      return;
    }
    ghost var q0 := DivideAndNegate(cc, zero, neg4, a2, b2, q, r);
    GrowsWiden(s0, s4, SetOf(q) + SetOf(rlow));
    GrowsTrans(s0, s4, cc.G(), SetOf(q) + SetOf(rlow), SetOf(q) + SetOf(rlow));
    forall asg | Sat(cc.table, asg)
      ensures SignedDivides(asg, Num(asg, a0), Num(asg, b0), n, q, rlow)
    {
      SatPrefix(s4.table, cc.table, asg);
      SatPrefix(s1.table, s4.table, asg);
      var q1 :| Divides(asg, Num(asg, a2), Num(asg, b2), n, q0, rlow) && NegatedWhen(asg, neg4, q0, q1, q);
      QuotientValue(asg, a, b, zero, neg2, neg4, a2, b2, q0, q1, q, rlow);
    }
  }

  lemma TableStays(s: State, t: State, outs: set<nat>)
    requires Grows(s, t, outs)
    ensures s.table <= t.table
  {
  }

  lemma EmptyQuotient(s0: State, s4: State, t: State, q: seq<nat>, rlow: seq<nat>)
    requires |q| == 0 && Grows(s0, s4, {}) && Grows(s4, t, SetOf(q[..0]) + SetOf(rlow))
    ensures Grows(s0, t, SetOf(q) + SetOf(rlow)) && t.AllDriven(q) && s4.table <= t.table
  {
    GrowsWiden(s0, s4, SetOf(q) + SetOf(rlow));
    GrowsTrans(s0, s4, t, SetOf(q) + SetOf(rlow), SetOf(q[..0]) + SetOf(rlow));
  }

  lemma QuotientWires(s4: State, s5: State, q: seq<nat>, r: seq<nat>, q0: seq<nat>)
    requires Grows(s4, s5, {}) && s4.Free(q + r) && s5.Free(q0)
    requires forall i :: 0 <= i < |q0| ==> q0[i] >= |s4.wires|
    ensures s5.Free(q0 + r)
  {
    assert forall i :: 0 <= i < |r| ==> (q + r)[|q| + i] == r[i];
  }

  lemma QuotientGrows(s0: State, s4: State, s5: State, s6: State, q: seq<nat>, r: seq<nat>, q0: seq<nat>, rlow: seq<nat>)
    requires Grows(s0, s4, {}) && Grows(s4, s5, {}) && s4.Free(q + r) && rlow <= r
    requires forall i :: 0 <= i < |q0| ==> q0[i] >= |s4.wires|
    requires Grows(s5, s6, SetOf(q0) + SetOf(rlow))
    ensures Grows(s0, s6, SetOf(rlow)) && s6.Free(q)
    ensures s4.table <= s5.table <= s6.table
  {
    assert forall i :: 0 <= i < |q| ==> (q + r)[i] == q[i];
    assert forall i :: 0 <= i < |r| ==> (q + r)[|q| + i] == r[i];
    GrowsTrans(s0, s4, s5, {}, {});
    GrowsWiden(s0, s5, SetOf(rlow));
    GrowsTrans(s0, s5, s6, SetOf(rlow), SetOf(q0) + SetOf(rlow));
  }

  lemma NegateGrows(s0: State, s6: State, s7: State, t: State, q: seq<nat>, r: seq<nat>, rlow: seq<nat>)
    requires Grows(s0, s6, SetOf(rlow)) && Grows(s6, s7, {}) && Grows(s7, t, SetOf(q))
    requires s0.Free(q + r) && rlow <= r && t.AllDriven(q) && t.AllDriven(rlow)
    ensures Grows(s0, t, SetOf(q) + SetOf(rlow)) && s6.table <= s7.table <= t.table
    ensures t.AllDriven(r) <==> |r| == |rlow|
  {
    var outs := SetOf(q) + SetOf(rlow);
    GrowsTrans(s0, s6, s7, outs, {});
    GrowsTrans(s0, s7, t, outs, SetOf(q));
    HighOpen(s0, t, q, r, q, rlow);
  }

  lemma ModuloValue(asg: Asg, a: seq<nat>, b: seq<nat>, zero: nat, neg2: nat, neg4: nat, a2: seq<nat>, b2: seq<nat>, q: seq<nat>, r: seq<nat>)
    requires |a| == |b| > 0 && |q| == 0
    requires Folded(asg, a, zero, neg2, a2) && Folded(asg, b, neg2, neg4, b2)
    requires Divides(asg, Num(asg, a2), Num(asg, b2), |a|, q, r)
    ensures SignedDivides(asg, Num(asg, a), Num(asg, b), |a|, q, r)
  {
    hide TruncQuot;
    ModOne(TruncQuot(Signed(Num(asg, a), |a|), Signed(Num(asg, b), |a|), |a|));
  }

  lemma ModOne(v: int)
    ensures v % Pow2(0) == 0
  {
  }

  /** q is q0, negated when neg is set. */
  predicate NegatedWhen(asg: Asg, neg: nat, q0: seq<nat>, q1: seq<nat>, q: seq<nat>) {
    && |q0| == |q|
    && Num(asg, q1) == (0 - Num(asg, q0)) % Pow2(|q|)
    && Num(asg, q) == if neg in asg then Num(asg, q1) else Num(asg, q0)
  }

  lemma MakeNegated(asg: Asg, zero: seq<nat>, neg: nat, q0: seq<nat>, q1: seq<nat>, q: seq<nat>)
    requires |q0| == |q| && Num(asg, zero) == 0
    requires Num(asg, q1) == (Num(asg, zero) - Num(asg, q0)) % Pow2(|q|)
    requires Num(asg, q) == if neg in asg then Num(asg, q1) else Num(asg, q0)
    ensures NegatedWhen(asg, neg, q0, q1, q)
  {
    hide Num, Pow2;
    SameMod(Num(asg, zero) - Num(asg, q0), 0 - Num(asg, q0), Pow2(|q|), Pow2(|q|));
  }

  lemma QuotientValue(asg: Asg, a: seq<nat>, b: seq<nat>, zero: nat, neg2: nat, neg4: nat, a2: seq<nat>, b2: seq<nat>,
                      q0: seq<nat>, q1: seq<nat>, q: seq<nat>, r: seq<nat>)
    requires |a| == |b| > 0 && zero !in asg
    requires Folded(asg, a, zero, neg2, a2) && Folded(asg, b, neg2, neg4, b2)
    requires Divides(asg, Num(asg, a2), Num(asg, b2), |a|, q0, r) && NegatedWhen(asg, neg4, q0, q1, q)
    ensures SignedDivides(asg, Num(asg, a), Num(asg, b), |a|, q, r)
  {
    hide Num, Pow2, Quot, Rem, Signed, Abs, TruncQuot, Folded, Divides, SignedDivides, NegatedWhen;
    var sa, sb := Signed(Num(asg, a), |a|), Signed(Num(asg, b), |a|);
    UseFolded(asg, a, zero, neg2, a2, sa);
    UseFolded(asg, b, neg2, neg4, b2, sb);
    WithSign(asg, sa, sb, |a|, neg4, q0, q1, q, r, Pow2(|q|), Num(asg, q0), Num(asg, q1), Num(asg, q));
    MakeSigned(asg, Num(asg, a), Num(asg, b), |a|, q, r, sa, sb);
  }

  lemma UseFolded(asg: Asg, x: seq<nat>, neg: nat, neg2: nat, x2: seq<nat>, s: int)
    requires Folded(asg, x, neg, neg2, x2) && s == Signed(Num(asg, x), |x|)
    ensures Num(asg, x2) == Abs(s) && (neg2 in asg <==> ((neg in asg) != (s < 0)))
  {
  }

  lemma WithSign(asg: Asg, sa: int, sb: int, n: nat, neg: nat, q0: seq<nat>, q1: seq<nat>, q: seq<nat>, r: seq<nat>,
                 p: nat, v0: nat, v1: nat, v: nat)
    requires Divides(asg, Abs(sa), Abs(sb), n, q0, r) && NegatedWhen(asg, neg, q0, q1, q)
    requires neg in asg <==> ((sa < 0) != (sb < 0))
    requires p == Pow2(|q|) && v0 == Num(asg, q0) && v1 == Num(asg, q1) && v == Num(asg, q)
    ensures SignedOn(asg, sa, sb, n, q, r)
  {
    hide Num, Pow2, Quot, Rem, Abs, TruncQuot;
    SameMod(Quot(Abs(sa), Abs(sb), n), Quot(Abs(sa), Abs(sb), n), Pow2(|q0|), p);
    SameMod(0 - Num(asg, q0), 0 - v0, Pow2(|q|), p);
    Negated(sa, sb, n, p, v0, v1, v, neg in asg);
    SameMod(TruncQuot(sa, sb, n), TruncQuot(sa, sb, n), p, Pow2(|q|));
  }

  lemma MakeSigned(asg: Asg, a: nat, b: nat, n: nat, q: seq<nat>, r: seq<nat>, sa: int, sb: int)
    requires n > 0 && sa == Signed(a, n) && sb == Signed(b, n) && SignedOn(asg, sa, sb, n, q, r)
    ensures SignedDivides(asg, a, b, n, q, r)
  {
  }

  lemma Negated(a: int, b: int, n: nat, p: nat, q0: nat, q1: nat, q: nat, neg: bool)
    requires p > 0 && q0 == Quot(Abs(a), Abs(b), n) % p && q1 == (0 - q0) % p
    requires q == (if neg then q1 else q0) && neg == ((a < 0) != (b < 0))
    ensures q == TruncQuot(a, b, n) % p
  {
    hide Quot, Abs;
    var m := Quot(Abs(a), Abs(b), n);
    ModSmall(0, p);
    ModDiff(0, m, p);
    assert 0 % p - m % p == 0 - q0;
  }
}
