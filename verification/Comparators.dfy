/** Comparison of two numbers (compiler/circuits/circ_comparators.go). */
module Comparators {
  import opened Nat
  import opened Circuit
  import opened Graph
  import opened Compiler
  import opened Mux

  /** One bit: equal bits pass the verdict on, different bits decide it. */
  method CompareBit(cc: Compiler, cin: nat, x: nat, y: nat, cout: nat)
    requires cc.G().Built() && cc.G().Driven(cin) && cc.G().Driven(x) && cc.G().Driven(y) && cc.G().Open(cout)
    modifies cc
    ensures cc.G().Built() && Grows(old(cc.G()), cc.G(), {cout}) && cc.G().Driven(cout)
    ensures forall asg :: Sat(cc.table, asg) ==> Decides(asg, cin, x, y, cout)
  {
    hide State.Built, Sat, State.Driven;
    ghost var s0 := cc.G();
    var w1 := cc.Emit(XNOR, cin, y);
    ghost var s1 := cc.G();
    var w2 := cc.Emit(XOR, cin, x);
    ghost var s2 := cc.G();
    GrowsTrans(s0, s1, s2, {}, {});
    var w3 := cc.Emit(AND, w1, w2);
    ghost var s3 := cc.G();
    GrowsTrans(s0, s2, s3, {}, {});
    cc.Binary(XOR, cin, w3, cout);
    GrowsWiden(s0, s3, {cout});
    GrowsTrans(s0, s3, cc.G(), {cout}, {cout});
    forall asg | Sat(cc.table, asg)
      ensures Decides(asg, cin, x, y, cout)
    {
      LastGate(s3.table, cc.table, NewNode(XOR, cin, w3, cout), asg);
      LastGate(s2.table, s3.table, NewNode(AND, w1, w2, w3), asg);
      LastGate(s1.table, s2.table, NewNode(XOR, cin, x, w2), asg);
      LastGate(s0.table, s1.table, NewNode(XNOR, cin, y, w1), asg);
    }
  }

  predicate Decides(asg: Asg, cin: nat, x: nat, y: nat, cout: nat) {
    cout in asg <==> if (x in asg) == (y in asg) then cin in asg else x in asg
  }

  /** The verdict after the low `i` bits: x > y, or x >= y when e is 1. */
  predicate Verdict(asg: Asg, x: seq<nat>, y: seq<nat>, i: nat, e: nat, c: nat)
    requires i <= |x| && i <= |y|
  {
    c in asg <==> Num(asg, x[..i]) + B(asg, e) > Num(asg, y[..i])
  }

  lemma VerdictStep(asg: Asg, x: seq<nat>, y: seq<nat>, i: nat, e: nat, cin: nat, cout: nat)
    requires i < |x| && i < |y| && Verdict(asg, x, y, i, e, cin) && Decides(asg, cin, x[i], y[i], cout)
    ensures Verdict(asg, x, y, i + 1, e, cout)
  {
    hide Num, Pow2;
    NumSnoc(asg, x, i);
    NumSnoc(asg, y, i);
    NumBound(asg, x[..i]);
    NumBound(asg, y[..i]);
  }

  /** The ripple from bit `i` on; the last verdict goes to `r` if there is one. */
  method CompareBits(cc: Compiler, e: nat, x: seq<nat>, y: seq<nat>, r: Opt<nat>) returns (c: nat)
    requires cc.G().Built() && cc.G().Driven(e) && cc.G().AllDriven(x) && cc.G().AllDriven(y)
    requires |x| == |y| && (r.Some? ==> cc.G().Open(r.value))
    modifies cc
    ensures cc.G().Built() && Grows(old(cc.G()), cc.G(), if |x| > 0 then Wires(r) else {}) && cc.G().Driven(c)
    ensures |x| > 0 && r.Some? ==> c == r.value
    ensures forall asg :: Sat(cc.table, asg) ==> Verdict(asg, x, y, |x|, e, c)
  {
    hide State.Built, Sat, Decides, Verdict, State.Driven, Grows;
    ghost var s0 := cc.G();
    GrowsRefl(s0);
    c := e;
    forall asg ensures Verdict(asg, x, y, 0, e, c) {
      FirstVerdict(asg, x, y, e);
    }
    var n := |x|;
    var i := 0;
    while i < n
      invariant 0 <= i <= n
      invariant cc.G().Built() && Grows(s0, cc.G(), if 0 < i == n then Wires(r) else {}) && cc.G().Driven(c)
      invariant 0 < i == n && r.Some? ==> c == r.value
      invariant forall asg :: Sat(cc.table, asg) ==> Verdict(asg, x, y, i, e, c)
    {
      ghost var s1, cin := cc.G(), c;
      var cout;
      if i + 1 < n || r.None? {
        cout := cc.NewWire();
      } else {
        cout := r.value;
      }
      ghost var s2 := cc.G();
      BeforeBit(s0, s1, s2, x, y, c, r, i + 1 == n, cout);
      CompareBit(cc, c, x[i], y[i], cout);
      AfterBit(s0, s1, s2, cc.G(), if i + 1 == n then r else None, cout);
      c := cout;
      forall asg | Sat(cc.table, asg)
        ensures Verdict(asg, x, y, i + 1, e, c)
      {
        SatPrefix(s1.table, cc.table, asg);
        VerdictStep(asg, x, y, i, e, cin, c);
      }
      i := i + 1;
    }
  }

  lemma FirstVerdict(asg: Asg, x: seq<nat>, y: seq<nat>, e: nat)
    ensures Verdict(asg, x, y, 0, e, e)
  {
  }

  lemma BeforeBit(s0: State, s1: State, s2: State, x: seq<nat>, y: seq<nat>, c: nat, r: Opt<nat>, last: bool, cout: nat)
    requires Grows(s0, s1, {}) && s0.AllDriven(x) && s0.AllDriven(y) && s1.Driven(c)
    requires r.Some? ==> s0.Open(r.value)
    requires if last && r.Some? then s2 == s1 && cout == r.value
             else Grows(s1, s2, {}) && s2.Open(cout)
    ensures s2.AllDriven(x) && s2.AllDriven(y) && s2.Driven(c) && s2.Open(cout)
    ensures Grows(s1, s2, {})
  {
    GrowsRefl(s1);
  }

  lemma AfterBit(s0: State, s1: State, s2: State, t: State, r: Opt<nat>, cout: nat)
    requires Grows(s0, s1, {}) && Grows(s1, s2, {}) && Grows(s2, t, {cout})
    requires r == Some(cout) || cout >= |s1.wires|
    ensures Grows(s0, t, Wires(r)) && s1.table <= t.table
  {
    GrowsTrans(s0, s1, s2, {}, {});
    GrowsWiden(s0, s2, Wires(r));
    GrowsTrans(s0, s2, t, Wires(r), {cout});
  }

  /** uintComparator: r = x > y when `cin` is 0 and x >= y when it is 1, on
      unsigned numbers.  Without any operand bit nothing drives `r`. */
  method UintComparator(cc: Compiler, cin: nat, x0: seq<nat>, y0: seq<nat>, r: seq<nat>) returns (ok: bool)
    requires cc.G().Built() && cc.G().Driven(cin) && cc.G().AllDriven(x0) && cc.G().AllDriven(y0) && cc.G().Free(r)
    modifies cc
    ensures ok <==> |r| == 1
    ensures cc.G().Built() && Grows(old(cc.G()), cc.G(), if ok then SetOf(r) else {})
    ensures ok ==> (cc.G().Driven(r[0]) <==> Max(|x0|, |y0|) > 0)
    ensures ok && Max(|x0|, |y0|) > 0 ==> forall asg :: Sat(cc.table, asg) ==>
              (r[0] in asg <==> Num(asg, x0) + B(asg, cin) > Num(asg, y0))
  {
    hide State.Built, Sat, Num;
    ghost var s0 := cc.G();
    var x, y := cc.ZeroPad(x0, y0);
    ghost var s1 := cc.G();
    if |r| != 1 {
      return false;
    }
    var c := CompareBits(cc, cin, x, y, Some(r[0]));
    assert r == [r[0]] && SetOf(r) == {r[0]};
    GrowsWiden(s0, s1, SetOf(r));
    GrowsTrans(s0, s1, cc.G(), SetOf(r), if |x| > 0 then {r[0]} else {});
    forall asg | Sat(cc.table, asg) && |x| > 0
      ensures r[0] in asg <==> Num(asg, x0) + B(asg, cin) > Num(asg, y0)
    {
      SatPrefix(s1.table, cc.table, asg);
      assert x[..|x|] == x && y[..|y|] == y;
      assert Verdict(asg, x, y, |x|, cin, c);
    }
    return true;
  }

  /** intComparator: the same on two's complement numbers of the wider width;
      refuses empty operands. */
  method IntComparator(cc: Compiler, cin: nat, x0: seq<nat>, y0: seq<nat>, r: seq<nat>) returns (ok: bool)
    requires cc.G().Built() && cc.G().Driven(cin) && cc.G().AllDriven(x0) && cc.G().AllDriven(y0) && cc.G().Free(r)
    modifies cc
    ensures ok <==> Max(|x0|, |y0|) > 0 && |r| == 1
    ensures cc.G().Built() && Grows(old(cc.G()), cc.G(), if ok then SetOf(r) else {}) && (ok ==> cc.G().AllDriven(r))
    ensures ok ==> var n := Max(|x0|, |y0|); forall asg :: Sat(cc.table, asg) ==>
              (r[0] in asg <==> Signed(Num(asg, x0), n) + B(asg, cin) > Signed(Num(asg, y0), n))
  {
    hide State.Built, Sat, Num, State.Driven, Grows, Signed, Verdict, State.Open;
    ghost var s0 := cc.G();
    var x, y := cc.ZeroPad(x0, y0);
    ghost var s1 := cc.G();
    if |x| == 0 || |r| != 1 {
      return false;
    }
    KeepAll(s0, s1, [cin]);
    assert [cin][0] == cin;
    var cout := CompareBits(cc, cin, x, y, None);
    ghost var s2 := cc.G();
    var top := |y| - 1;
    KeepAll(s1, s2, x, y);
    var cond := cc.Emit(XOR, x[top], y[top]);
    ghost var s3 := cc.G();
    KeepAll(s2, s3, y, [cout]);
    assert [cout][0] == cout;
    GrowsTrans(s0, s1, s2, {}, {});
    GrowsTrans(s0, s2, s3, {}, {});
    KeepsFree(s0, s3, {}, r);
    ok := NewMUX(cc, [cond], [y[top]], [cout], r);
    GrowsWiden(s0, s3, SetOf(r));
    GrowsTrans(s0, s3, cc.G(), SetOf(r), SetOf(r));
    KeepAllTables(s3, cc.G(), SetOf(r));
    forall asg | Sat(cc.table, asg)
      ensures r[0] in asg <==> Signed(Num(asg, x0), |x|) + B(asg, cin) > Signed(Num(asg, y0), |x|)
    {
      SatPrefix(s3.table, cc.table, asg);
      LastGate(s2.table, s3.table, NewNode(XOR, x[top], y[top], cond), asg);
      SatPrefix(s1.table, s2.table, asg);
      assert r == [r[0]];
      NumOne(asg, r[0]);
      NumOne(asg, y[top]);
      NumOne(asg, cout);
      SignedVerdict(asg, x, y, cin, cout, cond, r[0]);
    }
  }

  lemma KeepAllTables(s: State, t: State, outs: set<nat>)
    requires Grows(s, t, outs)
    ensures s.table <= t.table
  {
  }

  /** With equal signs the unsigned verdict stands; with different signs the
      number that is not negative is the greater. */
  lemma SignedVerdict(asg: Asg, x: seq<nat>, y: seq<nat>, e: nat, cout: nat, cond: nat, r: nat)
    requires |x| == |y| > 0 && Verdict(asg, x, y, |x|, e, cout)
    requires cond in asg <==> ((x[|x| - 1] in asg) != (y[|x| - 1] in asg))
    requires B(asg, r) == if cond in asg then B(asg, y[|x| - 1]) else B(asg, cout)
    ensures r in asg <==> Signed(Num(asg, x), |x|) + B(asg, e) > Signed(Num(asg, y), |x|)
  {
    hide Num, Pow2;
    assert x[..|x|] == x && y[..|y|] == y;
    SignBit(asg, x);
    SignBit(asg, y);
  }

  // ----- Equality -----

  predicate Differs(asg: Asg, x: seq<nat>, y: seq<nat>, i: nat, c: nat)
    requires i <= |x| && i <= |y|
  {
    c in asg <==> Num(asg, x[..i]) != Num(asg, y[..i])
  }

  lemma DiffersStart(asg: Asg, x: seq<nat>, y: seq<nat>, c: nat)
    requires |x| > 0 && |y| > 0 && (c in asg <==> ((x[0] in asg) != (y[0] in asg)))
    ensures Differs(asg, x, y, 1, c)
  {
    NumSnoc(asg, x, 0);
    NumSnoc(asg, y, 0);
  }

  lemma DiffersStep(asg: Asg, x: seq<nat>, y: seq<nat>, i: nat, cin: nat, cout: nat)
    requires i < |x| && i < |y| && Differs(asg, x, y, i, cin)
    requires cout in asg <==> cin in asg || ((x[i] in asg) != (y[i] in asg))
    ensures Differs(asg, x, y, i + 1, cout)
  {
    hide Num, Pow2;
    NumSnoc(asg, x, i);
    NumSnoc(asg, y, i);
    NumBound(asg, x[..i]);
    NumBound(asg, y[..i]);
  }

  /** r = x != y.  Empty operands make the source index out of range. */
  method NewNeqComparator(cc: Compiler, x0: seq<nat>, y0: seq<nat>, r: seq<nat>) returns (ok: bool)
    requires cc.G().Built() && cc.G().AllDriven(x0) && cc.G().AllDriven(y0) && cc.G().Free(r)
    requires Max(|x0|, |y0|) > 0
    modifies cc
    ensures ok <==> |r| == 1
    ensures cc.G().Built() && Grows(old(cc.G()), cc.G(), if ok then SetOf(r) else {}) && (ok ==> cc.G().AllDriven(r))
    ensures ok ==> forall asg :: Sat(cc.table, asg) ==> (r[0] in asg <==> Num(asg, x0) != Num(asg, y0))
  {
    hide State.Built, Sat, Num, State.Driven, Grows, Differs;
    ghost var s0 := cc.G();
    var x, y := cc.ZeroPad(x0, y0);
    ghost var s1 := cc.G();
    if |r| != 1 {
      return false;
    }
    KeepsFree(s0, s1, {}, r);
    assert s1.Open(r[0]);
    assert r == [r[0]] && SetOf(r) == {r[0]};
    DifferBits(cc, x, y, r[0]);
    GrowsWiden(s0, s1, SetOf(r));
    GrowsTrans(s0, s1, cc.G(), SetOf(r), {r[0]});
    KeepAllTables(s1, cc.G(), {r[0]});
    forall asg | Sat(cc.table, asg)
      ensures r[0] in asg <==> Num(asg, x0) != Num(asg, y0)
    {
      SatPrefix(s1.table, cc.table, asg);
      assert x[..|x|] == x && y[..|y|] == y;
      UseDiffers(asg, x, y, r[0]);
    }
    return true;
  }

  lemma UseDiffers(asg: Asg, x: seq<nat>, y: seq<nat>, c: nat)
    requires |x| == |y| && Differs(asg, x, y, |x|, c)
    ensures c in asg <==> Num(asg, x) != Num(asg, y)
  {
    assert x[..|x|] == x && y[..|y|] == y;
  }

  method DifferBits(cc: Compiler, x: seq<nat>, y: seq<nat>, r: nat)
    requires cc.G().Built() && cc.G().AllDriven(x) && cc.G().AllDriven(y) && cc.G().Open(r) && 0 < |x| == |y|
    modifies cc
    ensures cc.G().Built() && Grows(old(cc.G()), cc.G(), {r}) && cc.G().Driven(r)
    ensures forall asg :: Sat(cc.table, asg) ==> Differs(asg, x, y, |x|, r)
  {
    hide State.Built, Sat, Differs, State.Driven, Grows;
    ghost var s0 := cc.G();
    if |x| == 1 {
      cc.Binary(XOR, x[0], y[0], r);
      forall asg | Sat(cc.table, asg) ensures Differs(asg, x, y, 1, r) {
        LastGate(s0.table, cc.table, NewNode(XOR, x[0], y[0], r), asg);
        DiffersStart(asg, x, y, r);
      }
      return;
    }
    var c := cc.Emit(XOR, x[0], y[0]);
    forall asg | Sat(cc.table, asg) ensures Differs(asg, x, y, 1, c) {
      LastGate(s0.table, cc.table, NewNode(XOR, x[0], y[0], c), asg);
      DiffersStart(asg, x, y, c);
    }
    var n := |x|;
    var i := 1;
    while i < n
      invariant 1 <= i <= n
      invariant cc.G().Built() && Grows(s0, cc.G(), if i == n then {r} else {}) && cc.G().Driven(c)
      invariant i == n ==> c == r
      invariant forall asg :: Sat(cc.table, asg) ==> Differs(asg, x, y, i, c)
    {
      ghost var s1, cin := cc.G(), c;
      KeepAll(s0, s1, x, y);
      KeepsOpen(s0, s1, {}, r);
      var xor := cc.Emit(XOR, x[i], y[i]);
      ghost var s2 := cc.G();
      KeepAll(s1, s2, [c]);
      assert [c][0] == c;
      GrowsTrans(s0, s1, s2, {}, {});
      if i + 1 >= n {
        KeepsOpen(s0, s2, {}, r);
        cc.Binary(OR, c, xor, r);
        GrowsWiden(s0, s2, {r});
        GrowsTrans(s0, s2, cc.G(), {r}, {r});
        c := r;
      } else {
        c := cc.Emit(OR, c, xor);
        GrowsTrans(s0, s2, cc.G(), {}, {});
      }
      forall asg | Sat(cc.table, asg)
        ensures Differs(asg, x, y, i + 1, c)
      {
        LastGate(s2.table, cc.table, NewNode(OR, cin, xor, c), asg);
        LastGate(s1.table, s2.table, NewNode(XOR, x[i], y[i], xor), asg);
        DiffersStep(asg, x, y, i, cin, c);
      }
      i := i + 1;
    }
  }

  /** r = x == y, as the inverse of x != y. */
  method NewEqComparator(cc: Compiler, x: seq<nat>, y: seq<nat>, r: seq<nat>) returns (ok: bool)
    requires cc.G().Built() && cc.G().AllDriven(x) && cc.G().AllDriven(y) && cc.G().Free(r)
    requires Max(|x|, |y|) > 0
    modifies cc
    ensures ok <==> |r| == 1
    ensures cc.G().Built() && Grows(old(cc.G()), cc.G(), if ok then SetOf(r) else {}) && (ok ==> cc.G().AllDriven(r))
    ensures ok ==> forall asg :: Sat(cc.table, asg) ==> (r[0] in asg <==> Num(asg, x) == Num(asg, y))
  {
    hide State.Built, Sat, Num;
    ghost var s0 := cc.G();
    GrowsRefl(s0);
    if |r| != 1 {
      return false;
    }
    var w := cc.NewWire();
    ghost var s1 := cc.G();
    ok := NewNeqComparator(cc, x, y, [w]);
    ghost var s2 := cc.G();
    assert [w][0] == w;
    assert SetOf([w]) == {w};
    GrowsTrans(s0, s1, s2, {}, {w});
    cc.Invert(w, r[0]);
    assert SetOf(r) == {r[0]};
    GrowsWiden(s0, s2, SetOf(r));
    GrowsTrans(s0, s2, cc.G(), SetOf(r), {r[0]});
    forall asg | Sat(cc.table, asg)
      ensures r[0] in asg <==> Num(asg, x) == Num(asg, y)
    {
      SatPrefix(s2.table, cc.table, asg);
    }
  }
}
