/** Bitwise operations (compiler/circuits/circ_binary.go) and the single-bit
    logic and bit tests of compiler/circuits/circ_comparators.go. */
module Bitwise {
  import opened Nat
  import opened Circuit
  import opened Graph
  import opened Compiler

  datatype BitOp = BitAnd | BitClear | BitOr | BitXor

  /** One bit of the result. */
  predicate BitMeans(op: BitOp, x: bool, y: bool) {
    match op
    case BitAnd => x && y
    case BitClear => x && !y
    case BitOr => x || y
    case BitXor => x != y
  }

  /** The bit at place `i`, zero beyond the end. */
  predicate BitAt(asg: Asg, ws: seq<nat>, i: nat) {
    i < |ws| && ws[i] in asg
  }

  lemma {:induction false} ZeroIsLow(asg: Asg, ws: seq<nat>)
    requires Num(asg, ws) == 0
    ensures AllLow(asg, ws)
  {
    if ws != [] {
      ZeroIsLow(asg, ws[..|ws| - 1]);
    }
  }

  lemma ZeroFactor(p: nat, n: nat)
    requires p > 0 && p * n == 0
    ensures n == 0
  {
  }

  /** Padding with zeros leaves every bit as it is. */
  lemma PaddedBits(asg: Asg, x: seq<nat>, rx: seq<nat>, i: nat)
    requires x <= rx && Num(asg, rx) == Num(asg, x) && i < |rx|
    ensures rx[i] in asg <==> BitAt(asg, x, i)
  {
    hide Num, Pow2;
    NumSplit(asg, rx, |x|);
    assert rx[..|x|] == x;
    ZeroFactor(Pow2(|x|), Num(asg, rx[|x|..]));
    ZeroIsLow(asg, rx[|x|..]);
    if i >= |x| {
      assert rx[|x|..][i - |x|] == rx[i];
    }
  }

  /** One gate, or an inverter and a gate. */
  method BitGate(cc: Compiler, op: BitOp, x: nat, y: nat, r: nat)
    requires cc.G().Built() && cc.G().Driven(x) && cc.G().Driven(y) && cc.G().Open(r)
    modifies cc
    ensures cc.G().Built() && Grows(old(cc.G()), cc.G(), {r}) && cc.G().Driven(r)
    ensures forall asg :: Sat(cc.table, asg) ==> (r in asg <==> BitMeans(op, x in asg, y in asg))
  {
    hide State.Built, Sat;
    ghost var s0 := cc.G();
    match op
    case BitAnd =>
      cc.Binary(AND, x, y, r);
      forall asg | Sat(cc.table, asg) ensures r in asg <==> BitMeans(op, x in asg, y in asg) {
        LastGate(s0.table, cc.table, NewNode(AND, x, y, r), asg);
      }
    case BitOr =>
      cc.Binary(OR, x, y, r);
      forall asg | Sat(cc.table, asg) ensures r in asg <==> BitMeans(op, x in asg, y in asg) {
        LastGate(s0.table, cc.table, NewNode(OR, x, y, r), asg);
      }
    case BitXor =>
      cc.Binary(XOR, x, y, r);
      forall asg | Sat(cc.table, asg) ensures r in asg <==> BitMeans(op, x in asg, y in asg) {
        LastGate(s0.table, cc.table, NewNode(XOR, x, y, r), asg);
      }
    case BitClear =>
      var w := cc.NewWire();
      ghost var s1 := cc.G();
      cc.Invert(y, w);
      ghost var s2 := cc.G();
      KeepsDriven(s0, s1, {}, [x]);
      KeepsDriven(s1, s2, {w}, [x]);
      KeepsOpen(s0, s1, {}, r);
      KeepsOpen(s1, s2, {w}, r);
      GrowsTrans(s0, s1, s2, {}, {w});
      assert s2.Driven([x][0]);
      cc.Binary(AND, x, w, r);
      GrowsWiden(s0, s2, {r});
      GrowsTrans(s0, s2, cc.G(), {r}, {r});
      forall asg | Sat(cc.table, asg) ensures r in asg <==> BitMeans(op, x in asg, y in asg) {
        LastGate(s2.table, cc.table, NewNode(AND, x, w, r), asg);
      }
  }

  /** NewBinaryAND, NewBinaryClear, NewBinaryOR and NewBinaryXOR: the wires of r
      up to the wider operand are driven, the others are not. */
  method NewBinary(cc: Compiler, op: BitOp, x0: seq<nat>, y0: seq<nat>, r: seq<nat>)
    requires cc.G().Built() && cc.G().AllDriven(x0) && cc.G().AllDriven(y0) && cc.G().Free(r)
    modifies cc
    ensures var m := Min(|r|, Max(|x0|, |y0|));
            cc.G().Built() && Grows(old(cc.G()), cc.G(), SetOf(r[..m])) && cc.G().AllDriven(r[..m])
    ensures cc.G().AllDriven(r) <==> |r| <= Max(|x0|, |y0|)
    ensures forall asg, i :: Sat(cc.table, asg) && 0 <= i < |r| && i < Max(|x0|, |y0|) ==>
              (r[i] in asg <==> BitMeans(op, BitAt(asg, x0, i), BitAt(asg, y0, i)))
  {
    hide State.Built, Sat, Num, State.Driven, State.Open, Grows, BitMeans;
    ghost var s0 := cc.G();
    var x, y := cc.ZeroPad(x0, y0);
    ghost var s1 := cc.G();
    KeepsFree(s0, s1, {}, r);
    var m := Min(|r|, |x|);
    ghost var outs := SetOf(r[..m]);
    GrowsRefl(s1);
    GrowsWiden(s1, s1, outs);
    var i := 0;
    while i < m
      invariant 0 <= i <= m && cc.G().Built() && Grows(s1, cc.G(), outs) && cc.G().AllDriven(r[..i])
      invariant forall j :: i <= j < |r| ==> cc.G().Open(r[j])
      invariant forall asg, j :: Sat(cc.table, asg) && 0 <= j < i ==> (r[j] in asg <==> BitMeans(op, x[j] in asg, y[j] in asg))
    {
      ghost var s2 := cc.G();
      KeepsDriven(s1, s2, outs, x);
      KeepsDriven(s1, s2, outs, y);
      BitGate(cc, op, x[i], y[i], r[i]);
      NextDriven(s1, s2, cc.G(), outs, r, i, m);
      forall asg, j | Sat(cc.table, asg) && 0 <= j < i + 1
        ensures r[j] in asg <==> BitMeans(op, x[j] in asg, y[j] in asg)
      {
        SatPrefix(s2.table, cc.table, asg);
      }
      i := i + 1;
    }
    GrowsWiden(s0, s1, outs);
    GrowsTrans(s0, s1, cc.G(), outs, outs);
    KeepsDriven(s1, cc.G(), outs, []);
    forall asg, i | Sat(cc.table, asg) && 0 <= i < |r| && i < |x|
      ensures r[i] in asg <==> BitMeans(op, BitAt(asg, x0, i), BitAt(asg, y0, i))
    {
      SatPrefix(s1.table, cc.table, asg);
      PaddedBits(asg, x0, x, i);
      PaddedBits(asg, y0, y, i);
    }
    WhichDriven(cc.G(), r, m);
  }

  lemma NextDriven(s1: State, s2: State, t: State, outs: set<nat>, r: seq<nat>, i: nat, m: nat)
    requires i < m <= |r| && outs == SetOf(r[..m]) && s1.Free(r)
    requires Grows(s1, s2, outs) && Grows(s2, t, {r[i]}) && t.Driven(r[i])
    requires s2.AllDriven(r[..i]) && forall j :: i <= j < |r| ==> s2.Open(r[j])
    ensures Grows(s1, t, outs) && t.AllDriven(r[..i + 1]) && s2.table <= t.table
    ensures forall j :: i + 1 <= j < |r| ==> t.Open(r[j])
  {
    assert r[i] == r[..m][i];
    GrowsTrans(s1, s2, t, outs, {r[i]});
    KeepsDriven(s2, t, {r[i]}, r[..i]);
    assert r[..i + 1] == r[..i] + [r[i]];
  }

  lemma WhichDriven(s: State, r: seq<nat>, m: nat)
    requires m <= |r| && s.AllDriven(r[..m]) && forall j :: m <= j < |r| ==> s.Open(r[j])
    ensures s.AllDriven(r) <==> |r| == m
  {
    if |r| > m {
      assert s.Open(r[m]) && !s.Driven(r[m]);
    } else {
      assert r[..m] == r;
    }
  }

  /** NewBitSetTest and NewBitClrTest; a place beyond the operand makes the
      result a constant wire. */
  method NewBitTest(cc: Compiler, x: seq<nat>, index: nat, wanted: bool, r: array<nat>) returns (ok: bool)
    requires cc.G().Built() && cc.G().AllDriven(x) && cc.G().Free(r[..])
    modifies cc, r
    ensures ok <==> r.Length == 1
    ensures cc.G().Built() && Grows(old(cc.G()), cc.G(), if ok then SetOf(old(r[..])) else {}) && (ok ==> cc.G().AllDriven(r[..]))
    ensures index < |x| ==> r[..] == old(r[..])
    ensures ok ==> forall asg :: Sat(cc.table, asg) ==> (r[0] in asg <==> (BitAt(asg, x, index) <==> wanted))
  {
    hide State.Built, Sat;
    ghost var s0 := cc.G();
    GrowsRefl(s0);
    if r.Length != 1 {
      return false;
    }
    ghost var outs := SetOf(r[..]);
    assert outs == {r[0]};
    var w;
    if wanted {
      w := cc.ZeroWire();
    } else {
      w := cc.OneWire();
    }
    ghost var s1 := cc.G();
    GrowsWiden(s0, s1, outs);
    if index < |x| {
      KeepsDriven(s0, s1, {}, x);
      KeepsOpen(s0, s1, {}, r[0]);
      cc.Binary(XOR, x[index], w, r[0]);
      GrowsTrans(s0, s1, cc.G(), outs, {r[0]});
      forall asg | Sat(cc.table, asg) ensures r[0] in asg <==> (BitAt(asg, x, index) <==> wanted) {
        LastGate(s1.table, cc.table, NewNode(XOR, x[index], w, r[0]), asg);
      }
    } else {
      r[0] := w;
    }
    return true;
  }

  /** The Not instruction: an inverter for each output bit. */
  method InvertBits(cc: Compiler, x: seq<nat>, r: seq<nat>)
    requires cc.G().Built() && cc.G().AllDriven(x) && cc.G().Free(r) && |r| <= |x|
    modifies cc
    ensures cc.G().Built() && Grows(old(cc.G()), cc.G(), SetOf(r)) && cc.G().AllDriven(r)
    ensures forall asg, i :: Sat(cc.table, asg) && 0 <= i < |r| ==> (r[i] in asg <==> x[i] !in asg)
  {
    hide State.Built, Sat, State.Driven, State.Open, Grows;
    ghost var s0, outs := cc.G(), SetOf(r);
    GrowsRefl(s0);
    GrowsWiden(s0, s0, outs);
    assert r[..|r|] == r;
    for i := 0 to |r|
      invariant cc.G().Built() && Grows(s0, cc.G(), outs) && cc.G().AllDriven(r[..i])
      invariant forall j :: i <= j < |r| ==> cc.G().Open(r[j])
      invariant forall asg, j :: Sat(cc.table, asg) && 0 <= j < i ==> (r[j] in asg <==> x[j] !in asg)
    {
      ghost var s2 := cc.G();
      KeepsDriven(s0, s2, outs, x);
      cc.Invert(x[i], r[i]);
      NextDriven(s0, s2, cc.G(), outs, r, i, |r|);
      forall asg, j | Sat(cc.table, asg) && 0 <= j < i + 1 ensures r[j] in asg <==> x[j] !in asg {
        SatPrefix(s2.table, cc.table, asg);
      }
    }
  }
}
