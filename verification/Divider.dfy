/** Unsigned and signed dividers (compiler/circuits/circ_divider.go). */
module Divider {
  import opened Nat
  import opened Circuit
  import opened Graph
  import opened Compiler
  import opened Adder
  import opened Subtractor
  import opened Mux
  import opened Division

  // ----- One trial subtraction -----

  /** nr = r - d and qi = 1 when r >= d, else nr = r and qi = 0. */
  predicate Trial(asg: Asg, r: seq<nat>, d: seq<nat>, qi: Opt<nat>, nr: seq<nat>) {
    var ge := Num(asg, r) >= Num(asg, d);
    && (qi.Some? ==> (qi.value in asg <==> ge))
    && Num(asg, nr) == if ge then Num(asg, r) - Num(asg, d) else Num(asg, r)
  }

  /** The borrow on top of r - d says whether r is smaller. */
  lemma BorrowSays(asg: Asg, r: seq<nat>, d: seq<nat>, diff: seq<nat>)
    requires |diff| == |r| + 1 && |d| <= |r|
    requires Num(asg, diff) == (Num(asg, r) - Num(asg, d)) % Pow2(|r| + 1)
    ensures diff[|r|] in asg <==> Num(asg, r) < Num(asg, d)
    ensures Num(asg, r) >= Num(asg, d) ==> Num(asg, diff[..|r|]) == Num(asg, r) - Num(asg, d)
  {
    hide Num;
    var n := |r|;
    NumBound(asg, r);
    NumBound(asg, d);
    Pow2Mono(|d|, n);
    NumSnoc(asg, diff, n);
    assert diff[..n + 1] == diff;
    NumBound(asg, diff[..n]);
    var v := Num(asg, r) - Num(asg, d);
    DivModUnique(v, Pow2(n + 1), if v < 0 then -1 else 0, if v < 0 then v + Pow2(n + 1) else v);
  }

  /** diff = r - d, then two multiplexers steered by the borrow. */
  method TrialSubtract(cc: Compiler, r: seq<nat>, d: seq<nat>, qi: Opt<nat>, nr: seq<nat>)
    requires cc.G().Built() && cc.G().AllDriven(r) && cc.G().AllDriven(d) && 0 < |d| <= |r| == |nr|
    requires cc.G().Free(nr) && (qi.Some? ==> cc.G().Open(qi.value) && qi.value !in SetOf(nr))
    modifies cc
    ensures cc.G().Built() && Grows(old(cc.G()), cc.G(), SetOf(nr) + Wires(qi))
    ensures cc.G().AllDriven(nr) && (qi.Some? ==> cc.G().Driven(qi.value))
    ensures forall asg :: Sat(cc.table, asg) ==> Trial(asg, r, d, qi, nr)
  {
    hide State.Built, Sat, Num, Pow2, State.Driven, Grows, Trial;
    ghost var s0, outs := cc.G(), SetOf(nr) + Wires(qi);
    var diff := NewWires(cc, |r| + 1);
    ghost var s1, ws := cc.G(), diff[..];
    KeepAll(s0, s1, r, d);
    NewSubtractor(cc, r, d, diff);
    ghost var s2 := cc.G();
    GrowsFresh(s0, s1, s2, ws);
    KeepsDriven(s1, s2, SetOf(ws), r);
    KeepsFree(s0, s2, {}, nr);
    GrowsWiden(s0, s2, outs);
    var ds := diff[..];
    assert s2.AllDriven(ds[|r|..]) && s2.AllDriven(ds[..|r|]);
    QuotientMux(cc, ds[|r|], qi, nr, s2);
    ghost var s3 := cc.G();
    GrowsTrans(s0, s2, s3, outs, Wires(qi));
    KeepsDriven(s2, s3, Wires(qi), r);
    KeepsDriven(s2, s3, Wires(qi), ds[..|r|]);
    KeepsDriven(s2, s3, Wires(qi), ds[|r|..]);
    var ok := NewMUX(cc, ds[|r|..], r, ds[..|r|], nr);
    GrowsTrans(s0, s3, cc.G(), outs, SetOf(nr));
    KeepsDriven(s3, cc.G(), SetOf(nr), if qi.Some? then [qi.value] else []);
    assert qi.Some? ==> [qi.value][0] == qi.value;
    forall asg | Sat(cc.table, asg)
      ensures Trial(asg, r, d, qi, nr)
    {
      SatPrefix(s3.table, cc.table, asg);
      SatPrefix(s2.table, s3.table, asg);
      BorrowSays(asg, r, d, ds);
      assert ds[|r|..][0] == ds[|r|];
      MakeTrial(asg, r, d, qi, nr, ds);
    }
  }

  lemma MakeTrial(asg: Asg, r: seq<nat>, d: seq<nat>, qi: Opt<nat>, nr: seq<nat>, diff: seq<nat>)
    requires |diff| == |r| + 1
    requires diff[|r|] in asg <==> Num(asg, r) < Num(asg, d)
    requires Num(asg, r) >= Num(asg, d) ==> Num(asg, diff[..|r|]) == Num(asg, r) - Num(asg, d)
    requires qi.Some? ==> (qi.value in asg <==> diff[|r|] !in asg)
    requires Num(asg, nr) == if diff[|r|] in asg then Num(asg, r) else Num(asg, diff[..|r|])
    ensures Trial(asg, r, d, qi, nr)
  {
  }

  /** The quotient bit: 0 when the borrow is set, else 1. */
  method QuotientMux(cc: Compiler, borrow: nat, qi: Opt<nat>, ghost nr: seq<nat>, ghost s2: State)
    requires cc.G() == s2 && s2.Built() && s2.Driven(borrow) && s2.Free(nr)
    requires qi.Some? ==> s2.Open(qi.value) && qi.value !in SetOf(nr)
    modifies cc
    ensures cc.G().Built() && Grows(s2, cc.G(), Wires(qi)) && cc.G().Free(nr)
    ensures s2.table <= cc.table && (qi.Some? ==> cc.G().Driven(qi.value))
    ensures qi.Some? ==> forall asg :: Sat(cc.table, asg) ==> (qi.value in asg <==> borrow !in asg)
  {
    hide State.Built, Sat, Num, Pow2;
    GrowsRefl(s2);
    if qi.Some? {
      var zero := cc.ZeroWire();
      ghost var s3 := cc.G();
      var one := cc.OneWire();
      ghost var s4 := cc.G();
      GrowsTrans(s2, s3, s4, {}, {});
      var ok := NewMUX(cc, [borrow], [zero], [one], [qi.value]);
      GrowsWiden(s2, s4, Wires(qi));
      GrowsTrans(s2, s4, cc.G(), Wires(qi), SetOf([qi.value]));
      assert [qi.value][0] == qi.value;
      forall asg | Sat(cc.table, asg)
        ensures qi.value in asg <==> borrow !in asg
      {
        SatPrefix(s4.table, cc.table, asg);
        SatPrefix(s3.table, s4.table, asg);
        NumOne(asg, zero);
        NumOne(asg, one);
        NumOne(asg, qi.value);
      }
    }
    assert forall i :: 0 <= i < |nr| ==> nr[i] in SetOf(nr);
  }

  // ----- Long division -----

  /** r << 1 in place, with `w` coming in at the bottom; the top wire is lost. */
  method ShiftIn(r: array<nat>, w: nat)
    requires r.Length > 0
    modifies r
    ensures r[..] == [w] + old(r[..r.Length - 1])
  {
    var j := r.Length - 1;
    while j > 0
      invariant 0 <= j < r.Length
      invariant forall k :: 0 <= k <= j ==> r[k] == old(r[k])
      invariant forall k :: j < k < r.Length ==> r[k] == old(r[k - 1])
    {
      r[j] := r[j - 1];
      j := j - 1;
    }
    r[0] := w;
  }

  method CopyInto(r: array<nat>, ws: seq<nat>)
    requires r.Length == |ws|
    modifies r
    ensures r[..] == ws
  {
    for j := 0 to r.Length
      invariant forall k :: 0 <= k < j ==> r[k] == ws[k]
    {
      r[j] := ws[j];
    }
  }

  /** The shift in long division never loses a set bit: the remainder is at
      most the dividend bits read so far. */
  lemma ShiftKeepsValue(asg: Asg, a: seq<nat>, d: nat, i: nat, r: seq<nat>)
    requires i < |a| == |r| && Num(asg, r) == RemAt(asg, a, d, i + 1)
    ensures r[|r| - 1] !in asg
    ensures Num(asg, [a[i]] + r[..|r| - 1]) == 2 * RemAt(asg, a, d, i + 1) + B(asg, a[i])
  {
    hide Num;
    var n := |r|;
    RemFits(asg, a, d, i + 1);
    Pow2Mono(n - i - 1, n - 1);
    NumSnoc(asg, r, n - 1);
    assert r[..n] == r;
    HeadValue(asg, a[i], r[..n - 1]);
  }

  lemma RemFits(asg: Asg, a: seq<nat>, d: nat, i: nat)
    requires i <= |a|
    ensures RemAt(asg, a, d, i) < Pow2(|a| - i)
  {
    NumBound(asg, a[i..]);
    RemBound(High(asg, a, i), d);
  }

  /** What a divider step leaves: remainder and quotient bit of position i. */
  lemma StepValue(asg: Asg, a: seq<nat>, b: seq<nat>, i: nat, r: seq<nat>, qi: Opt<nat>, nr: seq<nat>)
    requires i < |a| && Num(asg, r) == 2 * RemAt(asg, a, Num(asg, b), i + 1) + B(asg, a[i])
    requires Trial(asg, r, b, qi, nr)
    ensures Num(asg, nr) == RemAt(asg, a, Num(asg, b), i)
    ensures qi.Some? ==> QuotBit(asg, a, Num(asg, b), i, qi.value)
  {
    hide Num;
    RemAtStep(asg, a, Num(asg, b), i);
  }

  /** `last`, then as many fresh wires as needed to have `n`. */
  method Pad(cc: Compiler, last: seq<nat>, n: nat) returns (ws: seq<nat>)
    requires cc.G().Built() && cc.G().Free(last) && |last| <= n
    modifies cc
    ensures cc.G().Built() && Grows(old(cc.G()), cc.G(), {}) && cc.G().Free(ws)
    ensures |ws| == n && ws[..|last|] == last
    ensures forall j :: |last| <= j < n ==> ws[j] >= |old(cc.G()).wires|
  {
    hide State.Built, Grows;
    ghost var s0 := cc.G();
    var more := NewWires(cc, n - |last|);
    ws := last + more[..];
    KeepsFree(s0, cc.G(), {}, last);
    JoinFree(cc.G(), last, more[..], |s0.wires|);
  }

  lemma JoinFree(s: State, a: seq<nat>, b: seq<nat>, n: nat)
    requires s.Free(a) && s.Free(b)
    requires (forall i :: 0 <= i < |a| ==> a[i] < n) && forall i :: 0 <= i < |b| ==> b[i] >= n
    ensures s.Free(a + b) && (a + b)[..|a|] == a
    ensures forall i :: |a| <= i < |a + b| ==> (a + b)[i] >= n
  {
  }

  /** One position of long division. */
  method LongStep(cc: Compiler, a: seq<nat>, b: seq<nat>, i: nat, r: array<nat>, qi: Opt<nat>, last: seq<nat>)
    requires cc.G().Built() && cc.G().AllDriven(a) && cc.G().AllDriven(b) && cc.G().AllDriven(r[..])
    requires |a| == |b| == r.Length && i < |a| && |last| <= |a|
    requires cc.G().Free(last) && (qi.Some? ==> cc.G().Open(qi.value) && qi.value !in SetOf(last))
    requires forall asg :: Sat(cc.table, asg) ==> Num(asg, r[..]) == RemAt(asg, a, Num(asg, b), i + 1)
    modifies cc, r
    ensures cc.G().Built() && Grows(old(cc.G()), cc.G(), SetOf(last) + Wires(qi))
    ensures cc.G().AllDriven(r[..]) && r[..|last|] == last && (qi.Some? ==> cc.G().Driven(qi.value))
    ensures forall asg :: Sat(cc.table, asg) ==> Num(asg, r[..]) == RemAt(asg, a, Num(asg, b), i)
    ensures qi.Some? ==> forall asg :: Sat(cc.table, asg) ==> QuotBit(asg, a, Num(asg, b), i, qi.value)
  {
    hide State.Built, Sat, Num, Pow2, State.Driven, Grows, Trial, RemAt, QuotBit;
    ghost var s0, outs := cc.G(), SetOf(last) + Wires(qi);
    ghost var before := r[..];
    ShiftIn(r, a[i]);
    var rs := r[..];
    assert s0.AllDriven(rs);
    var nr := Pad(cc, last, |a|);
    ghost var s1 := cc.G();
    KeepAll(s0, s1, rs, b);
    if qi.Some? {
      KeepsOpen(s0, s1, {}, qi.value);
      PadMisses(s0, last, nr, qi.value);
    }
    TrialSubtract(cc, rs, b, qi, nr);
    KeepsDriven(s1, cc.G(), SetOf(nr) + Wires(qi), []);
    PadGrows(s0, s1, cc.G(), last, nr, Wires(qi));
    CopyInto(r, nr);
    forall asg | Sat(cc.table, asg)
      ensures Num(asg, nr) == RemAt(asg, a, Num(asg, b), i)
      ensures qi.Some? ==> QuotBit(asg, a, Num(asg, b), i, qi.value)
    {
      SatPrefix(s1.table, cc.table, asg);
      SatPrefix(s0.table, s1.table, asg);
      ShiftKeepsValue(asg, a, Num(asg, b), i, before);
      StepValue(asg, a, b, i, rs, qi, nr);
    }
  }

  lemma PadMisses(s: State, last: seq<nat>, ws: seq<nat>, w: nat)
    requires |last| <= |ws| && ws[..|last|] == last && w < |s.wires| && w !in SetOf(last)
    requires forall j :: |last| <= j < |ws| ==> ws[j] >= |s.wires|
    ensures w !in SetOf(ws)
  {
    assert forall j :: 0 <= j < |last| ==> ws[j] == last[j];
  }

  lemma PadGrows(s: State, t: State, u: State, last: seq<nat>, ws: seq<nat>, more: set<nat>)
    requires Grows(s, t, {}) && Grows(t, u, SetOf(ws) + more)
    requires |last| <= |ws| && ws[..|last|] == last
    requires forall j :: |last| <= j < |ws| ==> ws[j] >= |s.wires|
    ensures Grows(s, u, SetOf(last) + more)
  {
    assert forall j :: 0 <= j < |last| ==> ws[j] == last[j];
    GrowsWiden(s, t, SetOf(last) + more);
    GrowsTrans(s, t, u, SetOf(last) + more, SetOf(ws) + more);
  }

  /** The quotient bits from position i up. */
  predicate QuotDone(asg: Asg, a: seq<nat>, d: nat, q: seq<nat>, i: nat) {
    forall j :: i <= j < |q| && j < |a| ==> QuotBit(asg, a, d, j, q[j])
  }

  lemma QuotMore(asg: Asg, a: seq<nat>, d: nat, q: seq<nat>, i: nat)
    requires QuotDone(asg, a, d, q, i + 1) && i < |a| && (i < |q| ==> QuotBit(asg, a, d, i, q[i]))
    ensures QuotDone(asg, a, d, q, i)
  {
  }

  /** The invariant of the position loop shared by the serial dividers. */
  ghost predicate Positions(s0: State, t: State, q: seq<nat>, r: seq<nat>, i: nat) {
    && Grows(s0, t, SetOf(q) + SetOf(r))
    && (forall j :: 0 <= j < i && j < |q| ==> t.Open(q[j]))
    && (forall j :: i <= j < |q| ==> t.Driven(q[j]))
    && (i > 0 ==> t.Free(r))
  }

  lemma PositionsStart(s: State, q: seq<nat>, r: seq<nat>, n: nat)
    requires s.Free(q + r) && |q| <= n
    ensures Positions(s, s, q, r, n) && s.Free(r)
  {
    assert forall i :: 0 <= i < |q| ==> (q + r)[i] == q[i];
    assert forall i :: 0 <= i < |r| ==> (q + r)[|q| + i] == r[i];
  }

  /** The wires one position may drive. */
  function QuotWire(q: seq<nat>, i: nat): Opt<nat> {
    if i < |q| then Some(q[i]) else None
  }

  function LastWires(r: seq<nat>, i: nat): seq<nat> {
    if i == 0 then r else []
  }

  lemma PositionReady(s0: State, t: State, q: seq<nat>, r: seq<nat>, i: nat)
    requires s0.Free(q + r) && Positions(s0, t, q, r, i + 1)
    ensures t.Free(LastWires(r, i))
    ensures QuotWire(q, i).Some? ==> t.Open(q[i]) && q[i] !in SetOf(LastWires(r, i))
  {
    assert i < |q| ==> (q + r)[i] == q[i];
    assert forall j :: 0 <= j < |r| ==> (q + r)[|q| + j] == r[j];
  }

  lemma PositionsStep(s0: State, t: State, u: State, q: seq<nat>, r: seq<nat>, i: nat)
    requires s0.Free(q + r) && Positions(s0, t, q, r, i + 1)
    requires Grows(t, u, SetOf(LastWires(r, i)) + Wires(QuotWire(q, i)))
    requires i < |q| ==> u.Driven(q[i])
    ensures Positions(s0, u, q, r, i)
  {
    assert forall j :: 0 <= j < |q| ==> (q + r)[j] == q[j];
    assert forall j :: 0 <= j < |r| ==> (q + r)[|q| + j] == r[j];
    var step, outs := SetOf(LastWires(r, i)) + Wires(QuotWire(q, i)), SetOf(q) + SetOf(r);
    assert step <= outs;
    GrowsTrans(s0, t, u, outs, step);
  }

  method LongLoop(cc: Compiler, a: seq<nat>, b: seq<nat>, q: seq<nat>, r: seq<nat>)
    requires cc.G().Built() && cc.G().AllDriven(a) && cc.G().AllDriven(b) && cc.G().Free(q + r)
    requires |a| == |b| && |q| <= |a| && |r| <= |a|
    modifies cc
    ensures cc.G().Built() && Grows(old(cc.G()), cc.G(), SetOf(q) + SetOf(r))
    ensures cc.G().AllDriven(q) && cc.G().AllDriven(r)
    ensures forall asg :: Sat(cc.table, asg) ==> Divides(asg, Num(asg, a), Num(asg, b), |a|, q, r)
  {
    hide State.Built, Sat, Num, Pow2, State.Driven, Grows, RemAt, QuotDone, Divides, Positions, QuotBit;
    ghost var s0 := cc.G();
    var n := |a|;
    var zeros := cc.Extend([], n);
    var ra := new nat[n](i requires 0 <= i < n => zeros[i]);
    assert ra[..] == zeros;
    KeepsFree(s0, cc.G(), {}, q + r);
    ghost var s1 := cc.G();
    KeepAll(s0, s1, a, b);
    PositionsStart(s1, q, r, n);
    forall asg | Sat(cc.table, asg)
      ensures Num(asg, ra[..]) == RemAt(asg, a, Num(asg, b), n) && QuotDone(asg, a, Num(asg, b), q, n)
    {
      assert zeros[0..] == zeros;
      DivisionStart(asg, a, Num(asg, b), q, zeros);
    }
    var i := n;
    while i > 0
      invariant 0 <= i <= n
      invariant cc.G().Built() && Positions(s1, cc.G(), q, r, i)
      invariant cc.G().AllDriven(a) && cc.G().AllDriven(b) && cc.G().AllDriven(ra[..])
      invariant i == 0 && n > 0 ==> ra[..|r|] == r
      invariant forall asg :: Sat(cc.table, asg) ==> Num(asg, ra[..]) == RemAt(asg, a, Num(asg, b), i)
      invariant forall asg :: Sat(cc.table, asg) ==> QuotDone(asg, a, Num(asg, b), q, i)
    {
      i := i - 1;
      ghost var s2 := cc.G();
      PositionReady(s1, s2, q, r, i);
      LongStep(cc, a, b, i, ra, QuotWire(q, i), LastWires(r, i));
      ghost var step := SetOf(LastWires(r, i)) + Wires(QuotWire(q, i));
      KeepsDriven(s2, cc.G(), step, a);
      KeepsDriven(s2, cc.G(), step, b);
      PositionsStep(s1, s2, cc.G(), q, r, i);
      forall asg | Sat(cc.table, asg)
        ensures QuotDone(asg, a, Num(asg, b), q, i)
      {
        SatPrefix(s2.table, cc.table, asg);
        QuotMore(asg, a, Num(asg, b), q, i);
      }
    }
    PositionsEnd(s0, s1, cc.G(), q, r, ra[..], n);
    forall asg | Sat(cc.table, asg)
      ensures Divides(asg, Num(asg, a), Num(asg, b), n, q, r)
    {
      DivisionEnd(asg, a, Num(asg, b), q, r, ra[..]);
    }
  }

  lemma PositionsEnd(s0: State, s1: State, t: State, q: seq<nat>, r: seq<nat>, ra: seq<nat>, n: nat)
    requires Grows(s0, s1, {}) && Positions(s1, t, q, r, 0) && t.AllDriven(ra)
    requires |r| <= |ra| == n && (n > 0 ==> ra[..|r|] == r)
    ensures Grows(s0, t, SetOf(q) + SetOf(r)) && t.AllDriven(q) && t.AllDriven(r)
  {
    GrowsWiden(s0, s1, SetOf(q) + SetOf(r));
    GrowsTrans(s0, s1, t, SetOf(q) + SetOf(r), SetOf(q) + SetOf(r));
    assert forall i :: 0 <= i < |r| ==> ra[..|r|][i] == ra[i];
  }

  lemma DivisionStart(asg: Asg, a: seq<nat>, d: nat, q: seq<nat>, zeros: seq<nat>)
    requires |zeros| == |a| && AllLow(asg, zeros)
    ensures Num(asg, zeros) == RemAt(asg, a, d, |a|) && QuotDone(asg, a, d, q, |a|)
  {
    hide Num;
    NumLow(asg, zeros);
    RemFits(asg, a, d, |a|);
    assert Pow2(0) == 1;
  }

  lemma DivisionEnd(asg: Asg, a: seq<nat>, d: nat, q: seq<nat>, r: seq<nat>, ra: seq<nat>)
    requires |ra| == |a| && |q| <= |a| && |r| <= |a| && (|a| > 0 ==> ra[..|r|] == r)
    requires Num(asg, ra) == RemAt(asg, a, d, 0) && QuotDone(asg, a, d, q, 0)
    ensures Divides(asg, Num(asg, a), d, |a|, q, r)
  {
    hide Num, QuotBit;
    QuotValue(asg, a, d, q);
    assert a[0..] == a;
    assert ra[..|r|] == r;
    NumTake(asg, ra, |r|);
  }

  /** Long division.  q and rret are driven exactly when they are no wider than
      the operands; the low bits that are driven hold the quotient and the
      remainder. */
  method NewUDividerLong(cc: Compiler, a0: seq<nat>, b0: seq<nat>, q: seq<nat>, rret: seq<nat>)
    requires cc.G().Built() && cc.G().AllDriven(a0) && cc.G().AllDriven(b0) && cc.G().Free(q + rret)
    modifies cc
    ensures var n := Max(|a0|, |b0|);
            cc.G().Built() && Grows(old(cc.G()), cc.G(), SetOf(q[..Min(|q|, n)]) + SetOf(rret[..Min(|rret|, n)]))
    ensures cc.G().AllDriven(q) <==> |q| <= Max(|a0|, |b0|)
    ensures cc.G().AllDriven(rret) <==> |rret| <= Max(|a0|, |b0|)
    ensures var n := Max(|a0|, |b0|); cc.G().AllDriven(q[..Min(|q|, n)]) && cc.G().AllDriven(rret[..Min(|rret|, n)])
    ensures var n := Max(|a0|, |b0|);
            forall asg :: Sat(cc.table, asg) ==> Divides(asg, Num(asg, a0), Num(asg, b0), n, q[..Min(|q|, n)], rret[..Min(|rret|, n)])
  {
    hide State.Built, Sat, Num, Pow2, State.Driven, Grows, RemAt, QuotDone, Divides;
    ghost var s0 := cc.G();
    var a, b := cc.ZeroPad(a0, b0);
    ghost var s1 := cc.G();
    var n := |a|;
    var qs, rs := q[..Min(|q|, n)], rret[..Min(|rret|, n)];
    KeepsFree(s0, s1, {}, q + rret);
    SplitFree(s1, q, rret, |qs|, |rs|);
    LongLoop(cc, a, b, qs, rs);
    GrowsWiden(s0, s1, SetOf(qs) + SetOf(rs));
    GrowsTrans(s0, s1, cc.G(), SetOf(qs) + SetOf(rs), SetOf(qs) + SetOf(rs));
    KeepsDriven(s1, cc.G(), SetOf(qs) + SetOf(rs), []);
    HighOpen(s1, cc.G(), q, rret, qs, rs);
    forall asg | Sat(cc.table, asg)
      ensures Divides(asg, Num(asg, a0), Num(asg, b0), n, qs, rs)
    {
      SatPrefix(s1.table, cc.table, asg);
    }
  }

  /** q and r hold the low bits of quotient and remainder of an n-bit division. */
  predicate Divides(asg: Asg, a: nat, b: nat, n: nat, q: seq<nat>, r: seq<nat>) {
    && Num(asg, q) == Quot(a, b, n) % Pow2(|q|)
    && Num(asg, r) == Rem(a, b) % Pow2(|r|)
  }

  lemma SplitFree(s: State, q: seq<nat>, r: seq<nat>, m: nat, k: nat)
    requires s.Free(q + r) && m <= |q| && k <= |r|
    ensures s.Free(q[..m] + r[..k])
  {
    var ws := q[..m] + r[..k];
    assert forall i :: 0 <= i < |q| ==> (q + r)[i] == q[i];
    assert forall i :: 0 <= i < |r| ==> (q + r)[|q| + i] == r[i];
    forall i, j | 0 <= i < j < |ws|
      ensures ws[i] != ws[j]
    {
      var x, y := if i < m then i else |q| + (i - m), if j < m then j else |q| + (j - m);
      assert ws[i] == (q + r)[x] && ws[j] == (q + r)[y];
    }
  }

  /** Wires beyond the driven ones stay open. */
  lemma HighOpen(s: State, t: State, q: seq<nat>, r: seq<nat>, qs: seq<nat>, rs: seq<nat>)
    requires s.Free(q + r) && qs <= q && rs <= r
    requires Grows(s, t, SetOf(qs) + SetOf(rs)) && t.AllDriven(qs) && t.AllDriven(rs)
    ensures t.AllDriven(q) <==> |q| == |qs|
    ensures t.AllDriven(r) <==> |r| == |rs|
  {
    assert forall i :: 0 <= i < |q| ==> (q + r)[i] == q[i];
    assert forall i :: 0 <= i < |r| ==> (q + r)[|q| + i] == r[i];
    if |qs| < |q| {
      assert s.Open(q[|qs|]) && q[|qs|] !in SetOf(qs) + SetOf(rs);
    }
    if |rs| < |r| {
      assert s.Open(r[|rs|]) && r[|rs|] !in SetOf(qs) + SetOf(rs);
    }
  }

  // ----- Restoring division -----

  /** The dividend bits still to come, at the top of the lower half. */
  function ToCome(asg: Asg, a: seq<nat>, i: nat): nat
    requires i <= |a|
  {
    Times(Num(asg, a[..i]), Pow2(|a| - i))
  }

  /** The double-width register before position i - 1: the remainder so far in
      the upper half, the bits still to come in the lower. */
  function RegisterAt(asg: Asg, a: seq<nat>, d: nat, i: nat): nat
    requires i <= |a|
  {
    Times(RemAt(asg, a, d, i), Pow2(|a|)) + ToCome(asg, a, i)
  }

  lemma ToComeBound(asg: Asg, a: seq<nat>, i: nat)
    requires i <= |a|
    ensures ToCome(asg, a, i) < Pow2(|a|)
  {
    hide Num, Pow2;
    NumBound(asg, a[..i]);
    Pow2Add(i, |a| - i);
    LowBound(Num(asg, a[..i]), Pow2(i), Pow2(|a| - i));
  }

  lemma LowBound(low: nat, q: nat, s: nat)
    requires low < q && s > 0
    ensures Times(low, s) < q * s
  {
    MulMono(s, low, q);
  }

  /** One shift of the register: the next dividend bit joins the remainder. */
  lemma RegisterShift(asg: Asg, a: seq<nat>, d: nat, i: nat)
    requires i < |a|
    ensures 2 * RegisterAt(asg, a, d, i + 1)
            == Times(2 * RemAt(asg, a, d, i + 1) + B(asg, a[i]), Pow2(|a|)) + ToCome(asg, a, i)
  {
    hide Num, RemAt, B;
    var n := |a|;
    NumSnoc(asg, a, i);
    Pow2Add(i + 1, n - i - 1);
    ShiftArith(RemAt(asg, a, d, i + 1), Pow2(n), Num(asg, a[..i]), Num(asg, a[..i + 1]), B(asg, a[i]), Pow2(i), Pow2(n - i - 1), Pow2(n - i));
  }

  lemma ShiftArith(rem: nat, p: nat, low: nat, low1: nat, bit: nat, pi: nat, s: nat, s2: nat)
    requires low1 == low + bit * pi && p == (2 * pi) * s && s2 == 2 * s
    ensures 2 * (Times(rem, p) + Times(low1, s)) == Times(2 * rem + bit, p) + Times(low, s2)
  {
    assert low1 * s == low * s + bit * (pi * s);
    assert (2 * rem + bit) * p == 2 * (rem * p) + bit * p;
    assert bit * p == 2 * (bit * (pi * s));
  }

  /** ... and no set bit is shifted out. */
  lemma RegisterFits(asg: Asg, a: seq<nat>, d: nat, i: nat)
    requires i < |a|
    ensures RegisterAt(asg, a, d, i + 1) < Pow2(2 * |a| - 1)
  {
    hide Num, RemAt, Pow2, ToCome;
    var n := |a|;
    RemFits(asg, a, d, i + 1);
    ToComeBound(asg, a, i + 1);
    Pow2Add(n - i - 1, n);
    Pow2Mono(n - i - 1 + n, 2 * n - 1);
    RegisterBound(RemAt(asg, a, d, i + 1), Pow2(n - i - 1), Pow2(n));
  }

  lemma RegisterBound(rem: nat, s: nat, p: nat)
    requires rem < s
    ensures Times(rem, p) + p <= s * p
  {
    MulMonoLe(p, rem + 1, s);
    assert p * (rem + 1) == rem * p + p;
  }

  /** The trial subtraction on the register is the one on its upper half. */
  lemma RegisterTrial(x: nat, d: nat, p: nat, low: nat)
    requires low < p
    ensures Times(x, p) + low >= Times(p, d) <==> x >= d
    ensures x >= d ==> Times(x, p) + low - Times(p, d) == Times(x - d, p) + low
  {
    if x >= d {
      assert (x - d) * p == x * p - p * d;
      MulMonoLe(p, d, x);
    } else {
      MulMonoLe(p, x + 1, d);
      assert p * (x + 1) == x * p + p;
    }
  }

  lemma RegisterStep(asg: Asg, a: seq<nat>, b: seq<nat>, i: nat, r: seq<nat>, d: seq<nat>, qi: Opt<nat>, nr: seq<nat>)
    requires i < |a| == |b|
    requires Num(asg, r) == Times(2 * RemAt(asg, a, Num(asg, b), i + 1) + B(asg, a[i]), Pow2(|a|)) + ToCome(asg, a, i)
    requires Num(asg, d) == Times(Pow2(|a|), Num(asg, b))
    requires Trial(asg, r, d, qi, nr)
    ensures Num(asg, nr) == RegisterAt(asg, a, Num(asg, b), i)
    ensures qi.Some? ==> QuotBit(asg, a, Num(asg, b), i, qi.value)
  {
    hide Num, RemAt, Pow2, Times, ToCome, B;
    RemNext(asg, a, Num(asg, b), i);
    ToComeBound(asg, a, i);
    RegisterTrial(2 * RemAt(asg, a, Num(asg, b), i + 1) + B(asg, a[i]), Num(asg, b), Pow2(|a|), ToCome(asg, a, i));
  }

  lemma RemNext(asg: Asg, a: seq<nat>, d: nat, i: nat)
    requires i < |a|
    ensures RemAt(asg, a, d, i) == Reduced(2 * RemAt(asg, a, d, i + 1) + B(asg, a[i]), d)
  {
    RemAtStep(asg, a, d, i);
  }

  function Reduced(r: nat, d: nat): nat {
    if r >= d then r - d else r
  }

  lemma ShiftedRegister(asg: Asg, a: seq<nat>, dv: nat, i: nat, r: seq<nat>, zero: nat)
    requires i < |a| && |r| == 2 * |a| && zero !in asg && Num(asg, r) == RegisterAt(asg, a, dv, i + 1)
    ensures Num(asg, [zero] + r[..|r| - 1]) == Times(2 * RemAt(asg, a, dv, i + 1) + B(asg, a[i]), Pow2(|a|)) + ToCome(asg, a, i)
  {
    hide Num, RemAt, Pow2, Times, ToCome, RegisterAt;
    RegisterShift(asg, a, dv, i);
    RegisterFits(asg, a, dv, i);
    TopIsLow(asg, r);
    HeadValue(asg, zero, r[..|r| - 1]);
  }

  lemma TopIsLow(asg: Asg, r: seq<nat>)
    requires |r| > 0 && Num(asg, r) < Pow2(|r| - 1)
    ensures Num(asg, r[..|r| - 1]) == Num(asg, r)
  {
  }

  /** One position of restoring division. */
  method RestoringStep(cc: Compiler, a: seq<nat>, b: seq<nat>, d: seq<nat>, i: nat, r: array<nat>, qi: Opt<nat>, last: seq<nat>)
    requires cc.G().Built() && cc.G().AllDriven(d) && cc.G().AllDriven(r[..])
    requires |a| == |b| && r.Length == |d| == 2 * |a| && i < |a| && |last| <= |a|
    requires cc.G().Free(last) && (qi.Some? ==> cc.G().Open(qi.value) && qi.value !in SetOf(last))
    requires forall asg :: Sat(cc.table, asg) ==> Num(asg, r[..]) == RegisterAt(asg, a, Num(asg, b), i + 1)
    requires forall asg :: Sat(cc.table, asg) ==> Num(asg, d) == Times(Pow2(|a|), Num(asg, b))
    modifies cc, r
    ensures cc.G().Built() && Grows(old(cc.G()), cc.G(), SetOf(last) + Wires(qi))
    ensures cc.G().AllDriven(r[..]) && r[|a|..|a| + |last|] == last && (qi.Some? ==> cc.G().Driven(qi.value))
    ensures forall asg :: Sat(cc.table, asg) ==> Num(asg, r[..]) == RegisterAt(asg, a, Num(asg, b), i)
    ensures qi.Some? ==> forall asg :: Sat(cc.table, asg) ==> QuotBit(asg, a, Num(asg, b), i, qi.value)
  {
    hide State.Built, Sat, Num, Pow2, State.Driven, Grows, Trial, RegisterAt, QuotBit, Times;
    ghost var s0 := cc.G();
    ghost var before := r[..];
    var zero := cc.ZeroWire();
    ghost var s1 := cc.G();
    KeepAll(s0, s1, before, d);
    KeepsFree(s0, s1, {}, last);
    ShiftIn(r, zero);
    var rs := r[..];
    assert s1.AllDriven(rs);
    var low := NewWires(cc, |a|);
    ghost var s2 := cc.G();
    KeepsFree(s1, s2, {}, last);
    var high := Pad(cc, last, |a|);
    var nr := low[..] + high;
    ghost var s3 := cc.G();
    GrowsTrans(s0, s1, s2, {}, {});
    GrowsTrans(s0, s2, s3, {}, {});
    KeepAll(s1, s2, rs, d);
    KeepAll(s2, s3, rs, d);
    RegisterWires(s0, s1, s2, s3, low[..], high, last, nr, qi);
    TrialSubtract(cc, rs, d, qi, nr);
    KeepsDriven(s3, cc.G(), SetOf(nr) + Wires(qi), []);
    RegisterGrows(s0, s3, cc.G(), low[..], high, last, nr, Wires(qi));
    CopyInto(r, nr);
    forall asg | Sat(cc.table, asg)
      ensures Num(asg, nr) == RegisterAt(asg, a, Num(asg, b), i)
      ensures qi.Some? ==> QuotBit(asg, a, Num(asg, b), i, qi.value)
    {
      SatPrefix(s3.table, cc.table, asg);
      SatPrefix(s1.table, s3.table, asg);
      SatPrefix(s0.table, s1.table, asg);
      ShiftedRegister(asg, a, Num(asg, b), i, before, zero);
      RegisterStep(asg, a, b, i, rs, d, qi, nr);
    }
  }

  lemma RegisterWires(s0: State, s1: State, s2: State, s3: State, low: seq<nat>, high: seq<nat>, last: seq<nat>, nr: seq<nat>, qi: Opt<nat>)
    requires Grows(s0, s1, {}) && Grows(s1, s2, {}) && Grows(s2, s3, {}) && s2.Free(low) && s3.Free(high) && nr == low + high
    requires (forall i :: 0 <= i < |low| ==> low[i] >= |s1.wires|) && |last| <= |high| && high[..|last|] == last
    requires forall i :: |last| <= i < |high| ==> high[i] >= |s2.wires|
    requires s0.Free(last) && (qi.Some? ==> s0.Open(qi.value) && qi.value !in SetOf(last))
    ensures s3.Free(nr) && s1.table <= s3.table && s0.table <= s1.table && |s0.wires| <= |s1.wires| <= |s2.wires|
    ensures qi.Some? ==> s3.Open(qi.value) && qi.value !in SetOf(nr)
  {
    assert forall i :: 0 <= i < |last| ==> high[i] == last[i] && last[i] < |s0.wires|;
  }

  lemma RegisterGrows(s: State, t: State, u: State, low: seq<nat>, high: seq<nat>, last: seq<nat>, nr: seq<nat>, more: set<nat>)
    requires Grows(s, t, {}) && Grows(t, u, SetOf(nr) + more) && nr == low + high
    requires (forall i :: 0 <= i < |low| ==> low[i] >= |s.wires|) && |last| <= |high| && high[..|last|] == last
    requires forall i :: |last| <= i < |high| ==> high[i] >= |s.wires|
    ensures Grows(s, u, SetOf(last) + more) && nr[|low|..|low| + |last|] == last
  {
    assert forall i :: 0 <= i < |last| ==> high[i] == last[i];
    GrowsWiden(s, t, SetOf(last) + more);
    GrowsTrans(s, t, u, SetOf(last) + more, SetOf(nr) + more);
  }

  /** Restoring division, with the same contract as long division. */
  method NewUDividerRestoring(cc: Compiler, a0: seq<nat>, b0: seq<nat>, q: seq<nat>, rret: seq<nat>)
    requires cc.G().Built() && cc.G().AllDriven(a0) && cc.G().AllDriven(b0) && cc.G().Free(q + rret)
    modifies cc
    ensures var n := Max(|a0|, |b0|);
            cc.G().Built() && Grows(old(cc.G()), cc.G(), SetOf(q[..Min(|q|, n)]) + SetOf(rret[..Min(|rret|, n)]))
    ensures cc.G().AllDriven(q) <==> |q| <= Max(|a0|, |b0|)
    ensures cc.G().AllDriven(rret) <==> |rret| <= Max(|a0|, |b0|)
    ensures var n := Max(|a0|, |b0|); cc.G().AllDriven(q[..Min(|q|, n)]) && cc.G().AllDriven(rret[..Min(|rret|, n)])
    ensures var n := Max(|a0|, |b0|);
            forall asg :: Sat(cc.table, asg) ==> Divides(asg, Num(asg, a0), Num(asg, b0), n, q[..Min(|q|, n)], rret[..Min(|rret|, n)])
  {
    hide State.Built, Sat, Num, Pow2, State.Driven, Grows, RemAt, QuotDone, Divides;
    ghost var s0 := cc.G();
    var a, b := cc.ZeroPad(a0, b0);
    ghost var s1 := cc.G();
    var n := |a|;
    var qs, rs := q[..Min(|q|, n)], rret[..Min(|rret|, n)];
    KeepsFree(s0, s1, {}, q + rret);
    SplitFree(s1, q, rret, |qs|, |rs|);
    RestoringLoop(cc, a, b, qs, rs);
    GrowsWiden(s0, s1, SetOf(qs) + SetOf(rs));
    GrowsTrans(s0, s1, cc.G(), SetOf(qs) + SetOf(rs), SetOf(qs) + SetOf(rs));
    KeepsDriven(s1, cc.G(), SetOf(qs) + SetOf(rs), []);
    HighOpen(s1, cc.G(), q, rret, qs, rs);
    forall asg | Sat(cc.table, asg)
      ensures Divides(asg, Num(asg, a0), Num(asg, b0), n, qs, rs)
    {
      SatPrefix(s1.table, cc.table, asg);
    }
  }

  method RestoringLoop(cc: Compiler, a: seq<nat>, b: seq<nat>, q: seq<nat>, r: seq<nat>)
    requires cc.G().Built() && cc.G().AllDriven(a) && cc.G().AllDriven(b) && cc.G().Free(q + r)
    requires |a| == |b| && |q| <= |a| && |r| <= |a|
    modifies cc
    ensures cc.G().Built() && Grows(old(cc.G()), cc.G(), SetOf(q) + SetOf(r))
    ensures cc.G().AllDriven(q) && cc.G().AllDriven(r)
    ensures forall asg :: Sat(cc.table, asg) ==> Divides(asg, Num(asg, a), Num(asg, b), |a|, q, r)
  {
    hide State.Built, Sat, Num, Pow2, State.Driven, Grows, RegisterAt, QuotDone, Divides, Positions, QuotBit, Times;
    ghost var s0 := cc.G();
    var n := |a|;
    var reg := cc.Extend(a, 2 * n);
    ghost var t0 := cc.G();
    KeepAll(s0, t0, a, b);
    var zeros := cc.Extend([], n);
    var d := zeros + b;
    ghost var s1 := cc.G();
    GrowsTrans(s0, t0, s1, {}, {});
    KeepAll(t0, s1, reg, b);
    KeepsFree(s0, s1, {}, q + r);
    var ra := new nat[2 * n](i requires 0 <= i < 2 * n => reg[i]);
    assert ra[..] == reg;
    PositionsStart(s1, q, r, n);
    forall asg | Sat(cc.table, asg)
      ensures Num(asg, ra[..]) == RegisterAt(asg, a, Num(asg, b), n) && QuotDone(asg, a, Num(asg, b), q, n)
      ensures Num(asg, d) == Times(Pow2(n), Num(asg, b))
    {
      SatPrefix(t0.table, s1.table, asg);
      assert zeros[0..] == zeros;
      RestoringStart(asg, a, b, q, reg, zeros);
    }
    var i := n;
    while i > 0
      invariant 0 <= i <= n
      invariant cc.G().Built() && Positions(s1, cc.G(), q, r, i)
      invariant cc.G().AllDriven(d) && cc.G().AllDriven(ra[..])
      invariant i == 0 && n > 0 ==> ra[n..n + |r|] == r
      invariant forall asg :: Sat(cc.table, asg) ==> Num(asg, d) == Times(Pow2(n), Num(asg, b))
      invariant forall asg :: Sat(cc.table, asg) ==> Num(asg, ra[..]) == RegisterAt(asg, a, Num(asg, b), i)
      invariant forall asg :: Sat(cc.table, asg) ==> QuotDone(asg, a, Num(asg, b), q, i)
    {
      i := i - 1;
      ghost var s2 := cc.G();
      PositionReady(s1, s2, q, r, i);
      RestoringStep(cc, a, b, d, i, ra, QuotWire(q, i), LastWires(r, i));
      ghost var step := SetOf(LastWires(r, i)) + Wires(QuotWire(q, i));
      KeepsDriven(s2, cc.G(), step, d);
      PositionsStep(s1, s2, cc.G(), q, r, i);
      forall asg | Sat(cc.table, asg)
        ensures Num(asg, d) == Times(Pow2(n), Num(asg, b))
        ensures QuotDone(asg, a, Num(asg, b), q, i)
      {
        SatPrefix(s2.table, cc.table, asg);
        QuotMore(asg, a, Num(asg, b), q, i);
      }
    }
    var high := ra[n..];
    PositionsEnd(s0, s1, cc.G(), q, r, high, n);
    forall asg | Sat(cc.table, asg)
      ensures Divides(asg, Num(asg, a), Num(asg, b), n, q, r)
    {
      RestoringEnd(asg, a, Num(asg, b), ra[..]);
      DivisionEnd(asg, a, Num(asg, b), q, r, high);
    }
  }

  lemma RestoringStart(asg: Asg, a: seq<nat>, b: seq<nat>, q: seq<nat>, reg: seq<nat>, zeros: seq<nat>)
    requires |reg| == 2 * |a| && reg[..|a|] == a && AllLow(asg, reg[|a|..])
    requires |zeros| == |a| && AllLow(asg, zeros)
    ensures Num(asg, reg) == RegisterAt(asg, a, Num(asg, b), |a|) && QuotDone(asg, a, Num(asg, b), q, |a|)
    ensures Num(asg, zeros + b) == Times(Pow2(|a|), Num(asg, b))
  {
    hide Num;
    NumExtend(asg, reg, |a|);
    assert a[..|a|] == a && Pow2(0) == 1;
    RemFits(asg, a, Num(asg, b), |a|);
    NumConcat(asg, zeros, b);
    NumLow(asg, zeros);
  }

  lemma RestoringEnd(asg: Asg, a: seq<nat>, d: nat, reg: seq<nat>)
    requires |reg| == 2 * |a| && Num(asg, reg) == RegisterAt(asg, a, d, 0)
    ensures Num(asg, reg[|a|..]) == RemAt(asg, a, d, 0)
  {
    hide Num, RemAt, Pow2, ToCome;
    NumSplit(asg, reg, |a|);
    NumBound(asg, reg[..|a|]);
    NothingLeft(asg, a);
    QuotientUnique(Pow2(|a|), Num(asg, reg[|a|..]), Num(asg, reg[..|a|]), RemAt(asg, a, d, 0), 0);
  }

  lemma NothingLeft(asg: Asg, a: seq<nat>)
    ensures ToCome(asg, a, 0) == 0
  {
  }

  // ----- Array division -----

  /** `i` columns of x + y + 1 are on z, with the carry on `c`. */
  predicate RowSum(asg: Asg, x: seq<nat>, y: seq<nat>, z: seq<nat>, i: nat, c: nat)
    requires i <= |x| && i <= |y|
  {
    |z| == i && Num(asg, z) + B(asg, c) * Pow2(i) == Num(asg, x[..i]) + Num(asg, y[..i]) + 1
  }

  lemma RowSumStep(asg: Asg, x: seq<nat>, y: seq<nat>, z: seq<nat>, i: nat, c: nat, s: nat, cout: nat)
    requires i < |x| && i < |y| && RowSum(asg, x, y, z, i, c)
    requires Sums(asg, B(asg, x[i]) + B(asg, y[i]) + B(asg, c), s, Some(cout))
    ensures RowSum(asg, x, y, z + [s], i + 1, cout)
  {
    hide Num, B;
    NumSnoc(asg, x, i);
    NumSnoc(asg, y, i);
    SnocValue(asg, z, s);
    CarryStep(Pow2(i), Num(asg, z), Num(asg, x[..i]) + 1, Num(asg, y[..i]), B(asg, x[i]), B(asg, y[i]), B(asg, c), B(asg, s), B(asg, cout));
  }

  /** The adders of one row, with carry in 1. */
  method AdderRow(cc: Compiler, x: seq<nat>, y: seq<nat>) returns (z: seq<nat>, c: nat)
    requires cc.G().Built() && cc.G().AllDriven(x) && cc.G().AllDriven(y) && |x| == |y|
    modifies cc
    ensures cc.G().Built() && Grows(old(cc.G()), cc.G(), {}) && cc.G().AllDriven(z) && cc.G().Driven(c) && |z| == |x|
    ensures forall asg :: Sat(cc.table, asg) ==> RowSum(asg, x, y, z, |x|, c)
  {
    hide State.Built, Sat, Num, Pow2, State.Driven, Grows, RowSum, Sums;
    ghost var s0 := cc.G();
    c := cc.OneWire();
    z := [];
    forall asg | Sat(cc.table, asg)
      ensures RowSum(asg, x, y, [], 0, c)
    {
      RowSumStart(asg, x, y, c);
    }
    for i := 0 to |x|
      invariant cc.G().Built() && Grows(s0, cc.G(), {}) && cc.G().AllDriven(z) && cc.G().Driven(c) && |z| == i
      invariant forall asg :: Sat(cc.table, asg) ==> RowSum(asg, x, y, z, i, c)
    {
      ghost var s1 := cc.G();
      KeepAll(s0, s1, x, y);
      var co := cc.NewWire();
      ghost var s2 := cc.G();
      var ro := cc.NewWire();
      ghost var s3 := cc.G();
      GrowsTrans(s1, s2, s3, {}, {});
      KeepAll(s1, s3, x, y, z, [c]);
      assert [c][0] == c;
      KeepsOpen(s2, s3, {}, co);
      NewFullAdder(cc, x[i], y[i], c, ro, Some(co));
      GrowsTrans(s0, s1, s3, {}, {});
      KeepsDriven(s3, cc.G(), {ro} + Wires(Some(co)), z);
      FreshOuts(s0, s1, s3, cc.G(), ro, co);
      forall asg | Sat(cc.table, asg)
        ensures RowSum(asg, x, y, z + [ro], i + 1, co)
      {
        SatPrefix(s1.table, cc.table, asg);
        RowSumStep(asg, x, y, z, i, c, ro, co);
      }
      z, c := z + [ro], co;
    }
  }

  lemma RowSumStart(asg: Asg, x: seq<nat>, y: seq<nat>, c: nat)
    requires c in asg
    ensures RowSum(asg, x, y, [], 0, c)
  {
  }

  lemma FreshOuts(s0: State, s1: State, s3: State, t: State, ro: nat, co: nat)
    requires Grows(s0, s1, {}) && Grows(s0, s3, {}) && Grows(s1, s3, {}) && Grows(s3, t, {ro} + Wires(Some(co)))
    requires ro >= |s1.wires| && co >= |s1.wires|
    ensures Grows(s0, t, {}) && s1.table <= t.table
  {
    GrowsTrans(s0, s3, t, {}, {ro} + Wires(Some(co)));
  }

  lemma {:induction false} InvertedNum(asg: Asg, b: seq<nat>, v: seq<nat>)
    requires |v| == |b| && forall i :: 0 <= i < |b| ==> (v[i] in asg <==> b[i] !in asg)
    ensures Num(asg, v) == Pow2(|b|) - 1 - Num(asg, b)
  {
    if b != [] {
      InvertedNum(asg, b[..|b| - 1], v[..|v| - 1]);
    }
  }

  /** Adding the inverted divisor and 1: the carry says r >= b, the low bits
      are the difference. */
  lemma RowMeans(asg: Asg, x: seq<nat>, b: seq<nat>, v: seq<nat>, z: seq<nat>, c: nat)
    requires |x| == |b| + 1 == |v| && RowSum(asg, x, v, z, |x|, c)
    requires Num(asg, v) == Pow2(|b| + 1) - 1 - Num(asg, b)
    ensures c in asg <==> Num(asg, x) >= Num(asg, b)
    ensures c in asg ==> Num(asg, z) == Num(asg, x) - Num(asg, b)
  {
    hide Num, Pow2;
    assert x[..|x|] == x && v[..|v|] == v && z[..|z|] == z;
    NumBound(asg, z);
    CarrySays(Num(asg, x), Num(asg, b), Num(asg, z), B(asg, c), Pow2(|b| + 1));
  }

  /** Adding the complement and one: the carry says whether x reaches b. */
  lemma CarrySays(x: nat, b: nat, z: nat, c: nat, p: nat)
    requires c <= 1 && z < p && z + c * p == x + (p - 1 - b) + 1
    ensures c == 1 <==> x >= b
    ensures c == 1 ==> z == x - b
  {
  }

  /** The row of multiplexers, from the high bit down, reading the wires of the
      adders and of the row input; `ro[x]` becomes the new remainder wire. */
  method MuxRow(cc: Compiler, c: nat, t: seq<nat>, f: seq<nat>, out: seq<nat>)
    requires cc.G().Built() && cc.G().Driven(c) && cc.G().AllDriven(t) && cc.G().AllDriven(f)
    requires |t| == |f| == |out| && cc.G().Free(out)
    modifies cc
    ensures cc.G().Built() && Grows(old(cc.G()), cc.G(), SetOf(out)) && cc.G().AllDriven(out)
    ensures forall asg :: Sat(cc.table, asg) ==> Num(asg, out) == if c in asg then Num(asg, t) else Num(asg, f)
  {
    hide State.Built, Sat, Num, Pow2, State.Driven, Grows, Picked;
    ghost var s0 := cc.G();
    GrowsRefl(s0);
    GrowsWiden(s0, s0, SetOf(out));
    forall asg ensures Picked(asg, c, t, f, out, |out|) {
      NonePicked(asg, c, t, f, out);
    }
    var x := |out|;
    while x > 0
      invariant 0 <= x <= |out|
      invariant cc.G().Built() && Grows(s0, cc.G(), SetOf(out))
      invariant forall j :: 0 <= j < x ==> cc.G().Open(out[j])
      invariant forall j :: x <= j < |out| ==> cc.G().Driven(out[j])
      invariant forall asg :: Sat(cc.table, asg) ==> Picked(asg, c, t, f, out, x)
    {
      x := x - 1;
      ghost var s1 := cc.G();
      KeepsDriven(s0, s1, SetOf(out), t);
      KeepsDriven(s0, s1, SetOf(out), f);
      KeepsDriven(s0, s1, SetOf(out), [c]);
      assert [c][0] == c;
      var ok := NewMUX(cc, [c], t[x..x + 1], f[x..x + 1], [out[x]]);
      ghost var one := SetOf([out[x]]);
      SetOfOne(out[x]);
      GrowsTrans(s0, s1, cc.G(), SetOf(out), one);
      KeepsDriven(s1, cc.G(), one, out[x + 1..]);
      forall j | 0 <= j < x ensures cc.G().Open(out[j]) {
        KeepsOpen(s1, cc.G(), one, out[j]);
      }
      DrivenFrom(cc.G(), out, x);
      forall asg | Sat(cc.table, asg)
        ensures Picked(asg, c, t, f, out, x)
      {
        SatPrefix(s1.table, cc.table, asg);
        assert t[x..x + 1] == [t[x]] && f[x..x + 1] == [f[x]];
        NumOne(asg, t[x]);
        NumOne(asg, f[x]);
        NumOne(asg, out[x]);
        PickMore(asg, c, t, f, out, x);
      }
    }
    DrivenAll(cc.G(), out);
    forall asg | Sat(cc.table, asg)
      ensures Num(asg, out) == if c in asg then Num(asg, t) else Num(asg, f)
    {
      PickedAll(asg, c, t, f, out);
    }
  }

  lemma DrivenFrom(s: State, ws: seq<nat>, x: nat)
    requires x < |ws| && s.AllDriven(ws[x + 1..]) && s.AllDriven([ws[x]])
    ensures forall j :: x <= j < |ws| ==> s.Driven(ws[j])
  {
    assert [ws[x]][0] == ws[x];
    assert forall j :: x < j < |ws| ==> ws[x + 1..][j - x - 1] == ws[j];
  }

  lemma DrivenAll(s: State, ws: seq<nat>)
    requires forall j :: 0 <= j < |ws| ==> s.Driven(ws[j])
    ensures s.AllDriven(ws)
  {
  }

  /** The output bits from `x` up are those of the chosen row. */
  predicate Picked(asg: Asg, c: nat, t: seq<nat>, f: seq<nat>, out: seq<nat>, x: nat)
    requires x <= |t| == |f| == |out|
  {
    forall j :: x <= j < |out| ==> B(asg, out[j]) == if c in asg then B(asg, t[j]) else B(asg, f[j])
  }

  lemma NonePicked(asg: Asg, c: nat, t: seq<nat>, f: seq<nat>, out: seq<nat>)
    requires |t| == |f| == |out|
    ensures Picked(asg, c, t, f, out, |out|)
  {
  }

  lemma PickMore(asg: Asg, c: nat, t: seq<nat>, f: seq<nat>, out: seq<nat>, x: nat)
    requires x < |t| == |f| == |out| && Picked(asg, c, t, f, out, x + 1)
    requires B(asg, out[x]) == if c in asg then B(asg, t[x]) else B(asg, f[x])
    ensures Picked(asg, c, t, f, out, x)
  {
  }

  lemma PickedAll(asg: Asg, c: nat, t: seq<nat>, f: seq<nat>, out: seq<nat>)
    requires |t| == |f| == |out| && Picked(asg, c, t, f, out, 0)
    ensures Num(asg, out) == if c in asg then Num(asg, t) else Num(asg, f)
  {
    SameNum(asg, out, if c in asg then t else f);
  }

  lemma {:induction false} SameNum(asg: Asg, u: seq<nat>, v: seq<nat>)
    requires |u| == |v| && forall j :: 0 <= j < |u| ==> B(asg, u[j]) == B(asg, v[j])
    ensures Num(asg, u) == Num(asg, v)
  {
    if u != [] {
      SameNum(asg, u[..|u| - 1], v[..|v| - 1]);
    }
  }

  lemma SetOfOne(w: nat)
    ensures SetOf([w]) == {w}
  {
    assert [w][0] == w;
  }

  /** The inverted divisor under a high 1: INV(b[0..n)), INV(0). */
  method InvertDivisor(cc: Compiler, b: seq<nat>) returns (v: seq<nat>)
    requires cc.G().Built() && cc.G().AllDriven(b)
    modifies cc
    ensures cc.G().Built() && Grows(old(cc.G()), cc.G(), {}) && cc.G().AllDriven(v) && |v| == |b| + 1
    ensures forall asg :: Sat(cc.table, asg) ==> Num(asg, v) == Pow2(|b| + 1) - 1 - Num(asg, b)
  {
    hide State.Built, Sat, Num, Pow2, State.Driven, Grows, Inverted;
    ghost var s0 := cc.G();
    GrowsRefl(s0);
    v := [];
    forall asg ensures Inverted(asg, b, [], 0) {
      NoneInverted(asg, b);
    }
    for i := 0 to |b|
      invariant cc.G().Built() && Grows(s0, cc.G(), {}) && cc.G().AllDriven(v) && |v| == i
      invariant forall asg :: Sat(cc.table, asg) ==> Inverted(asg, b, v, i)
    {
      ghost var s1 := cc.G();
      KeepsDriven(s0, s1, {}, b);
      var w := cc.NewWire();
      ghost var s2 := cc.G();
      KeepAll(s1, s2, b, v);
      cc.Invert(b[i], w);
      GrowsTrans(s0, s1, s2, {}, {});
      KeepsDriven(s2, cc.G(), {w}, v);
      FreshWire(s0, s1, s2, cc.G(), w);
      forall asg | Sat(cc.table, asg)
        ensures Inverted(asg, b, v + [w], i + 1)
      {
        SatPrefix(s1.table, cc.table, asg);
        InvertMore(asg, b, v, i, w);
      }
      v := v + [w];
    }
    ghost var s3 := cc.G();
    var one := cc.OneWire();
    GrowsTrans(s0, s3, cc.G(), {}, {});
    KeepsDriven(s3, cc.G(), {}, v);
    ghost var low := v;
    v := v + [one];
    forall asg | Sat(cc.table, asg)
      ensures Num(asg, v) == Pow2(|b| + 1) - 1 - Num(asg, b)
    {
      SatPrefix(s3.table, cc.table, asg);
      HighOne(asg, b, low, one);
    }
  }

  predicate Inverted(asg: Asg, b: seq<nat>, v: seq<nat>, i: nat) {
    |v| == i <= |b| && forall j :: 0 <= j < i ==> (v[j] in asg <==> b[j] !in asg)
  }

  lemma NoneInverted(asg: Asg, b: seq<nat>)
    ensures Inverted(asg, b, [], 0)
  {
  }

  lemma InvertMore(asg: Asg, b: seq<nat>, v: seq<nat>, i: nat, w: nat)
    requires i < |b| && Inverted(asg, b, v, i) && (w in asg <==> b[i] !in asg)
    ensures Inverted(asg, b, v + [w], i + 1)
  {
  }

  lemma HighOne(asg: Asg, b: seq<nat>, v: seq<nat>, one: nat)
    requires Inverted(asg, b, v, |b|) && one in asg
    ensures Num(asg, v + [one]) == Pow2(|b| + 1) - 1 - Num(asg, b)
  {
    hide Num;
    InvertedNum(asg, b, v);
    SnocValue(asg, v, one);
  }

  lemma FreshWire(s0: State, s1: State, s2: State, t: State, w: nat)
    requires Grows(s0, s1, {}) && Grows(s0, s2, {}) && Grows(s1, s2, {}) && Grows(s2, t, {w}) && w >= |s1.wires|
    ensures Grows(s0, t, {}) && s1.table <= t.table
  {
    GrowsTrans(s0, s2, t, {}, {w});
  }

  /** One row of the array: adders, quotient bit, multiplexers. */
  method ArrayStep(cc: Compiler, a: seq<nat>, b: seq<nat>, bw: seq<nat>, i: nat, rs: seq<nat>, qi: Opt<nat>, last: seq<nat>) returns (out: seq<nat>)
    requires cc.G().Built() && cc.G().AllDriven(a) && cc.G().AllDriven(bw) && cc.G().AllDriven(rs)
    requires |a| == |b| == |rs| && |bw| == |a| + 1 && i < |a| && |last| <= |a| + 1
    requires cc.G().Free(last) && (qi.Some? ==> cc.G().Open(qi.value) && qi.value !in SetOf(last))
    requires forall asg :: Sat(cc.table, asg) ==> Num(asg, bw) == Pow2(|b| + 1) - 1 - Num(asg, b)
    requires forall asg :: Sat(cc.table, asg) ==> Num(asg, rs) == RemAt(asg, a, Num(asg, b), i + 1)
    modifies cc
    ensures cc.G().Built() && Grows(old(cc.G()), cc.G(), SetOf(last) + Wires(qi))
    ensures cc.G().AllDriven(out) && |out| == |a| + 1 && out[..|last|] == last && (qi.Some? ==> cc.G().Driven(qi.value))
    ensures forall asg :: Sat(cc.table, asg) ==> Num(asg, out[..|a|]) == RemAt(asg, a, Num(asg, b), i)
    ensures qi.Some? ==> forall asg :: Sat(cc.table, asg) ==> QuotBit(asg, a, Num(asg, b), i, qi.value)
  {
    hide State.Built, Sat, Num, Pow2, State.Driven, Grows, RowSum, RemAt, QuotBit;
    ghost var s0, outs := cc.G(), SetOf(last) + Wires(qi);
    var rin := [a[i]] + rs;
    assert s0.AllDriven(rin);
    var z, c := AdderRow(cc, rin, bw);
    ghost var s1 := cc.G();
    KeepsDriven(s0, s1, {}, rin);
    KeepsFree(s0, s1, {}, last);
    if qi.Some? {
      KeepsOpen(s0, s1, {}, qi.value);
    }
    QuotientBit(cc, c, qi);
    ghost var s2 := cc.G();
    KeepAllOuts(s1, s2, Wires(qi), rin, z, [c]);
    assert [c][0] == c;
    FreeBeside(s1, s2, last, qi);
    out := Pad(cc, last, |a| + 1);
    ghost var s3 := cc.G();
    KeepAll(s2, s3, rin, z, [c], if qi.Some? then [qi.value] else []);
    MuxRow(cc, c, z, rin, out);
    ghost var s4 := cc.G();
    KeepsDriven(s3, s4, SetOf(out), if qi.Some? then [qi.value] else []);
    assert qi.Some? ==> [qi.value][0] == qi.value;
    ArrayGrows(s0, s1, s2, s3, s4, last, out, qi);
    forall asg | Sat(cc.table, asg)
      ensures Num(asg, out[..|a|]) == RemAt(asg, a, Num(asg, b), i)
      ensures qi.Some? ==> QuotBit(asg, a, Num(asg, b), i, qi.value)
    {
      SatPrefix(s3.table, s4.table, asg);
      SatPrefix(s2.table, s3.table, asg);
      SatPrefix(s1.table, s2.table, asg);
      SatPrefix(s0.table, s1.table, asg);
      HeadValue(asg, a[i], rs);
      RowMeans(asg, rin, b, bw, z, c);
      ArrayValue(asg, a, b, i, Num(asg, rin), Num(asg, z), c, qi, out);
    }
  }

  lemma KeepAllOuts(s: State, t: State, outs: set<nat>, a: seq<nat>, b: seq<nat>, c: seq<nat>)
    requires Grows(s, t, outs) && s.AllDriven(a) && s.AllDriven(b) && s.AllDriven(c)
    ensures s.table <= t.table && t.AllDriven(a) && t.AllDriven(b) && t.AllDriven(c)
  {
  }

  lemma FreeBeside(s: State, t: State, last: seq<nat>, qi: Opt<nat>)
    requires Grows(s, t, Wires(qi)) && s.Free(last) && (qi.Some? ==> qi.value !in SetOf(last))
    ensures t.Free(last)
  {
    assert forall i :: 0 <= i < |last| ==> last[i] in SetOf(last);
  }

  lemma ArrayGrows(s0: State, s1: State, s2: State, s3: State, s4: State, last: seq<nat>, out: seq<nat>, qi: Opt<nat>)
    requires Grows(s0, s1, {}) && Grows(s1, s2, Wires(qi)) && Grows(s2, s3, {}) && Grows(s3, s4, SetOf(out))
    requires |last| <= |out| && out[..|last|] == last && forall j :: |last| <= j < |out| ==> out[j] >= |s2.wires|
    ensures Grows(s0, s4, SetOf(last) + Wires(qi))
    ensures s0.table <= s1.table <= s2.table <= s3.table <= s4.table
  {
    var outs := SetOf(last) + Wires(qi);
    assert forall j :: 0 <= j < |last| ==> out[j] == last[j];
    GrowsWiden(s0, s1, outs);
    GrowsTrans(s0, s1, s2, outs, Wires(qi));
    GrowsTrans(s0, s2, s3, outs, {});
    GrowsTrans(s0, s3, s4, outs, SetOf(out));
  }

  lemma ArrayValue(asg: Asg, a: seq<nat>, b: seq<nat>, i: nat, x: nat, zv: nat, c: nat, qi: Opt<nat>, out: seq<nat>)
    requires i < |a| == |b| && |out| == |a| + 1
    requires x == B(asg, a[i]) + 2 * RemAt(asg, a, Num(asg, b), i + 1)
    requires c in asg <==> x >= Num(asg, b)
    requires c in asg ==> zv == x - Num(asg, b)
    requires Num(asg, out) == if c in asg then zv else x
    requires qi.Some? ==> (qi.value in asg <==> c in asg)
    ensures Num(asg, out[..|a|]) == RemAt(asg, a, Num(asg, b), i)
    ensures qi.Some? ==> QuotBit(asg, a, Num(asg, b), i, qi.value)
  {
    hide Num, RemAt;
    RemNext(asg, a, Num(asg, b), i);
    RemFits(asg, a, Num(asg, b), i);
    Pow2Mono(|a| - i, |a|);
    TopIsLow(asg, out);
  }

  /** The quotient bit is the carry, through two inverters. */
  method QuotientBit(cc: Compiler, c: nat, qi: Opt<nat>)
    requires cc.G().Built() && cc.G().Driven(c) && (qi.Some? ==> cc.G().Open(qi.value))
    modifies cc
    ensures cc.G().Built() && Grows(old(cc.G()), cc.G(), Wires(qi)) && (qi.Some? ==> cc.G().Driven(qi.value))
    ensures qi.Some? ==> forall asg :: Sat(cc.table, asg) ==> (qi.value in asg <==> c in asg)
  {
    hide State.Built, Sat;
    ghost var s0 := cc.G();
    GrowsRefl(s0);
    if qi.Some? {
      var w := cc.NewWire();
      ghost var s1 := cc.G();
      cc.Invert(c, w);
      ghost var s2 := cc.G();
      GrowsTrans(s0, s1, s2, {}, {w});
      cc.Invert(w, qi.value);
      GrowsWiden(s0, s2, Wires(qi));
      GrowsTrans(s0, s2, cc.G(), Wires(qi), {qi.value});
      forall asg | Sat(cc.table, asg)
        ensures qi.value in asg <==> c in asg
      {
        SatPrefix(s2.table, cc.table, asg);
      }
    }
  }

  method ArrayLoop(cc: Compiler, a: seq<nat>, b: seq<nat>, q: seq<nat>, r: seq<nat>)
    requires cc.G().Built() && cc.G().AllDriven(a) && cc.G().AllDriven(b) && cc.G().Free(q + r)
    requires 0 < |a| == |b| && |q| <= |a| && |r| <= |a| + 1
    modifies cc
    ensures cc.G().Built() && Grows(old(cc.G()), cc.G(), SetOf(q) + SetOf(r))
    ensures cc.G().AllDriven(q) && cc.G().AllDriven(r)
    ensures forall asg :: Sat(cc.table, asg) ==> Divides(asg, Num(asg, a), Num(asg, b), |a|, q, r[..Min(|r|, |a|)])
  {
    hide State.Built, Sat, Num, Pow2, State.Driven, Grows, RemAt, QuotDone, Divides, Positions, QuotBit;
    ghost var s0 := cc.G();
    var n := |a|;
    var bw := InvertDivisor(cc, b);
    ghost var t0 := cc.G();
    KeepAll(s0, t0, a, b);
    var rOut := cc.Extend([], n);
    ghost var s1 := cc.G();
    GrowsTrans(s0, t0, s1, {}, {});
    KeepAll(t0, s1, a, b, bw);
    KeepsFree(s0, s1, {}, q + r);
    PositionsStart(s1, q, r, n);
    forall asg | Sat(cc.table, asg)
      ensures Num(asg, rOut[..n]) == RemAt(asg, a, Num(asg, b), n) && QuotDone(asg, a, Num(asg, b), q, n)
      ensures Num(asg, bw) == Pow2(n + 1) - 1 - Num(asg, b)
    {
      SatPrefix(t0.table, s1.table, asg);
      assert rOut[0..] == rOut == rOut[..n];
      DivisionStart(asg, a, Num(asg, b), q, rOut);
    }
    var i := n;
    while i > 0
      invariant 0 <= i <= n <= |rOut|
      invariant cc.G().Built() && Positions(s1, cc.G(), q, r, i)
      invariant cc.G().AllDriven(a) && cc.G().AllDriven(bw) && cc.G().AllDriven(rOut)
      invariant i == 0 ==> |rOut| == n + 1 && rOut[..|r|] == r
      invariant forall asg :: Sat(cc.table, asg) ==> Num(asg, bw) == Pow2(n + 1) - 1 - Num(asg, b)
      invariant forall asg :: Sat(cc.table, asg) ==> Num(asg, rOut[..n]) == RemAt(asg, a, Num(asg, b), i)
      invariant forall asg :: Sat(cc.table, asg) ==> QuotDone(asg, a, Num(asg, b), q, i)
    {
      i := i - 1;
      ghost var s2 := cc.G();
      PositionReady(s1, s2, q, r, i);
      assert s2.AllDriven(rOut[..n]);
      rOut := ArrayStep(cc, a, b, bw, i, rOut[..n], QuotWire(q, i), LastWires(r, i));
      ghost var step := SetOf(LastWires(r, i)) + Wires(QuotWire(q, i));
      KeepAllOuts(s2, cc.G(), step, a, bw, []);
      PositionsStep(s1, s2, cc.G(), q, r, i);
      forall asg | Sat(cc.table, asg)
        ensures Num(asg, bw) == Pow2(n + 1) - 1 - Num(asg, b)
        ensures QuotDone(asg, a, Num(asg, b), q, i)
      {
        SatPrefix(s2.table, cc.table, asg);
        QuotMore(asg, a, Num(asg, b), q, i);
      }
    }
    PositionsEnd(s0, s1, cc.G(), q, r, rOut, n + 1);
    forall asg | Sat(cc.table, asg)
      ensures Divides(asg, Num(asg, a), Num(asg, b), n, q, r[..Min(|r|, n)])
    {
      assert rOut[..n][..Min(|r|, n)] == r[..Min(|r|, n)];
      DivisionEnd(asg, a, Num(asg, b), q, r[..Min(|r|, n)], rOut[..n]);
    }
  }

  /** Array division: right on every width, because what lies above the
      operands is replaced by the zero wire. */
  method NewUDividerArray(cc: Compiler, a0: seq<nat>, b0: seq<nat>, q: array<nat>, r: array<nat>)
    requires cc.G().Built() && cc.G().AllDriven(a0) && cc.G().AllDriven(b0) && cc.G().Free(q[..] + r[..]) && q != r
    modifies cc, q, r
    ensures cc.G().Built() && Grows(old(cc.G()), cc.G(), SetOf(old(q[..])) + SetOf(old(r[..])))
    ensures cc.G().AllDriven(q[..]) && cc.G().AllDriven(r[..])
    ensures forall i :: 0 <= i < q.Length && i < Max(|a0|, |b0|) ==> q[i] == old(q[i])
    ensures forall i :: 0 <= i < r.Length && i < Max(|a0|, |b0|) ==> r[i] == old(r[i])
    ensures forall asg :: Sat(cc.table, asg) ==>
              Divides(asg, Num(asg, a0), Num(asg, b0), Max(|a0|, |b0|), q[..], r[..])
  {
    hide State.Built, Sat, Num, Pow2, State.Driven, Grows, Divides;
    ghost var s0, outs := cc.G(), SetOf(q[..]) + SetOf(r[..]);
    var a, b := cc.ZeroPad(a0, b0);
    ghost var s1 := cc.G();
    var n := |a|;
    var q0, r0 := q[..], r[..];
    var qs, rs := q0[..Min(|q0|, n)], r0[..Min(|r0|, if n == 0 then 0 else n + 1)];
    KeepsFree(s0, s1, {}, q0 + r0);
    SplitFree(s1, q0, r0, |qs|, |rs|);
    GrowsWiden(s0, s1, outs);
    GrowsRefl(s1);
    GrowsWiden(s1, s1, SetOf(qs) + SetOf(rs));
    if n > 0 {
      ArrayLoop(cc, a, b, qs, rs);
    } else {
      forall asg | Sat(cc.table, asg) ensures Divides(asg, Num(asg, a), Num(asg, b), n, qs, rs) {
        NothingDivided(asg, a, b);
      }
    }
    ghost var s2 := cc.G();
    SubOuts(q0, r0, qs, rs);
    GrowsTrans(s0, s1, s2, outs, SetOf(qs) + SetOf(rs));
    KeepsDriven(s1, s2, SetOf(qs) + SetOf(rs), []);
    ghost var rlow := rs[..Min(|rs|, n)];
    assert s2.AllDriven(rlow) && rlow == r0[..Min(|r0|, n)];
    ZeroFill(cc, q, n);
    ghost var s3 := cc.G();
    KeepAll(s2, s3, rlow);
    ZeroFill(cc, r, n);
    ghost var s4 := cc.G();
    KeepAll(s3, s4, q[..]);
    GrowsTrans(s0, s2, s3, outs, {});
    GrowsTrans(s0, s3, s4, outs, {});
    forall asg | Sat(cc.table, asg)
      ensures Divides(asg, Num(asg, a0), Num(asg, b0), n, q[..], r[..])
    {
      SatPrefix(s3.table, s4.table, asg);
      SatPrefix(s2.table, s3.table, asg);
      SatPrefix(s1.table, s2.table, asg);
      assert q[..][..Min(q.Length, n)] == qs && r[..][..Min(r.Length, n)] == rlow;
      NumBound(asg, a);
      DividesExtended(asg, Num(asg, a), Num(asg, b), n, q[..], r[..]);
    }
  }

  lemma SubOuts(q: seq<nat>, r: seq<nat>, qs: seq<nat>, rs: seq<nat>)
    requires qs <= q && rs <= r
    ensures SetOf(qs) + SetOf(rs) <= SetOf(q) + SetOf(r)
  {
    assert forall i :: 0 <= i < |qs| ==> qs[i] == q[i];
    assert forall i :: 0 <= i < |rs| ==> rs[i] == r[i];
  }

  lemma NothingDivided(asg: Asg, a: seq<nat>, b: seq<nat>)
    ensures Divides(asg, Num(asg, a), Num(asg, b), 0, [], [])
  {
  }

  /** Zeros above the operand width do not change quotient and remainder. */
  lemma DividesExtended(asg: Asg, a: nat, b: nat, n: nat, q: seq<nat>, r: seq<nat>)
    requires a < Pow2(n) && Divides(asg, a, b, n, q[..Min(|q|, n)], r[..Min(|r|, n)])
    requires n <= |q| ==> AllLow(asg, q[n..])
    requires n <= |r| ==> AllLow(asg, r[n..])
    ensures Divides(asg, a, b, n, q, r)
  {
    hide Num, Pow2, Quot, Rem;
    QuotFits(a, b, n);
    RemBound(a, b);
    WiderMod(asg, q, n, Quot(a, b, n));
    WiderMod(asg, r, n, Rem(a, b));
  }

  lemma QuotFits(a: nat, b: nat, n: nat)
    requires a < Pow2(n)
    ensures Quot(a, b, n) < Pow2(n)
  {
    if b > 0 {
      DivModDef(a, b);
      QuotientBound(a, b, a / b, a % b);
    }
  }

  lemma WiderMod(asg: Asg, ws: seq<nat>, n: nat, v: nat)
    requires v < Pow2(n) && Num(asg, ws[..Min(|ws|, n)]) == v % Pow2(Min(|ws|, n))
    requires n <= |ws| ==> AllLow(asg, ws[n..])
    ensures Num(asg, ws) == v % Pow2(|ws|)
  {
    hide Num, Pow2;
    if n <= |ws| {
      NumExtend(asg, ws, n);
      Pow2Mono(n, |ws|);
      ModSmall(v, Pow2(n));
      ModSmall(v, Pow2(|ws|));
    } else {
      assert ws[..|ws|] == ws;
    }
  }

  // ----- The divider that is used -----

  /** NewUDivider is long division. */
  method NewUDivider(cc: Compiler, a0: seq<nat>, b0: seq<nat>, q: seq<nat>, r: seq<nat>)
    requires cc.G().Built() && cc.G().AllDriven(a0) && cc.G().AllDriven(b0) && cc.G().Free(q + r)
    modifies cc
    ensures var n := Max(|a0|, |b0|);
            cc.G().Built() && Grows(old(cc.G()), cc.G(), SetOf(q[..Min(|q|, n)]) + SetOf(r[..Min(|r|, n)]))
    ensures cc.G().AllDriven(q) <==> |q| <= Max(|a0|, |b0|)
    ensures cc.G().AllDriven(r) <==> |r| <= Max(|a0|, |b0|)
    ensures cc.G().AllDriven(r[..Min(|r|, Max(|a0|, |b0|))])
    ensures var n := Max(|a0|, |b0|);
            forall asg :: Sat(cc.table, asg) ==> Divides(asg, Num(asg, a0), Num(asg, b0), n, q[..Min(|q|, n)], r[..Min(|r|, n)])
  {
    hide State.Built, Sat, Divides, Grows;
    NewUDividerLong(cc, a0, b0, q, r);
  }

  /** Two dividers that meet the same contract put the same numbers on wires of
      the same width: a = q * b + r with r < b, and all ones and a when b = 0. */
  lemma DividersAgree(asg: Asg, a: nat, b: nat, n: nat, q: seq<nat>, r: seq<nat>, q1: seq<nat>, r1: seq<nat>)
    requires a < Pow2(n) && b < Pow2(n)
    requires Divides(asg, a, b, n, q, r) && Divides(asg, a, b, n, q1, r1)
    ensures |q| == |q1| ==> Num(asg, q) == Num(asg, q1)
    ensures |r| == |r1| ==> Num(asg, r) == Num(asg, r1)
    ensures |q| == |r| == n && b > 0 ==> a == Num(asg, q) * b + Num(asg, r) && Num(asg, r) < b
    ensures |q| == |r| == n && b == 0 ==> Num(asg, q) == Pow2(n) - 1 && Num(asg, r) == a
  {
    hide Num, Pow2, Quot, Rem;
    if |q| == |r| == n {
      QuotFits(a, b, n);
      RemBound(a, b);
      ModSmall(Quot(a, b, n), Pow2(n));
      ModSmall(Rem(a, b), Pow2(n));
      DivisionLaw(a, b, n, Num(asg, q), Num(asg, r));
    }
  }

  lemma DivisionLaw(a: nat, b: nat, n: nat, q: nat, r: nat)
    requires q == Quot(a, b, n) && r == Rem(a, b)
    ensures if b > 0 then a == q * b + r && r < b else q == Pow2(n) - 1 && r == a
  {
    if b > 0 {
      DivModDef(a, b);
    }
  }
}
