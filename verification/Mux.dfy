/** The two-way multiplexer (compiler/circuits/circ_mux.go). */
module Mux {
  import opened Nat
  import opened Circuit
  import opened Graph
  import opened Compiler

  /** Builds out = if cond then t else f, zero-extending the shorter input;
      refuses arguments whose widths do not fit, before adding any gate. */
  method NewMUX(cc: Compiler, cond: seq<nat>, t0: seq<nat>, f0: seq<nat>, out: seq<nat>) returns (ok: bool)
    requires cc.G().Built() && cc.G().AllDriven(cond) && cc.G().AllDriven(t0) && cc.G().AllDriven(f0)
    requires cc.G().Free(out)
    modifies cc
    ensures ok <==> |cond| == 1 && |out| == Max(|t0|, |f0|)
    ensures cc.G().Built() && Grows(old(cc.G()), cc.G(), if ok then SetOf(out) else {})
    ensures ok ==> cc.G().AllDriven(out)
    ensures ok ==> forall asg :: Sat(cc.table, asg) ==>
              Num(asg, out) == if cond[0] in asg then Num(asg, t0) else Num(asg, f0)
  {
    hide State.Built, Sat, Num;
    ghost var s0 := cc.G();
    var t, f := cc.ZeroPad(t0, f0);
    if |cond| != 1 || |t| != |f| || |t| != |out| {
      return false;
    }
    ghost var s1 := cc.G();
    MuxBits(cc, cond[0], t, f, out);
    GrowsWiden(s0, s1, SetOf(out));
    GrowsTrans(s0, s1, cc.G(), SetOf(out), SetOf(out));
    forall asg | Sat(cc.table, asg)
      ensures Num(asg, out) == if cond[0] in asg then Num(asg, t0) else Num(asg, f0)
    {
      SatPrefix(s1.table, cc.table, asg);
      assert out[..|out|] == out && t[..|t|] == t && f[..|f|] == f;
    }
    return true;
  }

  /** The low `i` output bits are those of the chosen input. */
  predicate Chosen(asg: Asg, c: nat, t: seq<nat>, f: seq<nat>, out: seq<nat>, i: nat)
    requires i <= |t| && i <= |f| && i <= |out|
  {
    Num(asg, out[..i]) == if c in asg then Num(asg, t[..i]) else Num(asg, f[..i])
  }

  method MuxBits(cc: Compiler, c: nat, t: seq<nat>, f: seq<nat>, out: seq<nat>)
    requires cc.G().Built() && cc.G().Driven(c) && cc.G().AllDriven(t) && cc.G().AllDriven(f)
    requires cc.G().Free(out) && |t| == |f| == |out|
    modifies cc
    ensures cc.G().Built() && Grows(old(cc.G()), cc.G(), SetOf(out)) && cc.G().AllDriven(out)
    ensures forall asg :: Sat(cc.table, asg) ==> Chosen(asg, c, t, f, out, |out|)
  {
    hide State.Built, Sat, Num, State.Driven;
    ghost var s0 := cc.G();
    GrowsRefl(s0);
    GrowsWiden(s0, s0, SetOf(out));
    for i := 0 to |out|
      invariant cc.G().Built() && Grows(s0, cc.G(), SetOf(out)) && cc.G().AllDriven(out[..i])
      invariant forall j :: i <= j < |out| ==> cc.G().Open(out[j])
      invariant forall asg :: Sat(cc.table, asg) ==> Chosen(asg, c, t, f, out, i)
    {
      ghost var s1 := cc.G();
      MuxBit(cc, c, t[i], f[i], out[i]);
      GrowsTrans(s0, s1, cc.G(), SetOf(out), {out[i]});
      forall asg | Sat(cc.table, asg)
        ensures Chosen(asg, c, t, f, out, i + 1)
      {
        SatPrefix(s1.table, cc.table, asg);
        NumSnoc(asg, t, i);
        NumSnoc(asg, f, i);
        NumSnoc(asg, out, i);
      }
    }
  }

  /** out = ((f xor t) and c) xor f */
  method MuxBit(cc: Compiler, c: nat, t: nat, f: nat, out: nat)
    requires cc.G().Built() && cc.G().Driven(c) && cc.G().Driven(t) && cc.G().Driven(f) && cc.G().Open(out)
    modifies cc
    ensures cc.G().Built() && Grows(old(cc.G()), cc.G(), {out}) && cc.G().Driven(out)
    ensures forall asg :: Sat(cc.table, asg) ==> B(asg, out) == if c in asg then B(asg, t) else B(asg, f)
  {
    hide State.Built, Sat, State.Driven;
    ghost var s0 := cc.G();
    var w1 := cc.Emit(XOR, f, t);
    ghost var s1 := cc.G();
    var w2 := cc.Emit(AND, w1, c);
    ghost var s2 := cc.G();
    GrowsTrans(s0, s1, s2, {}, {});
    cc.Binary(XOR, w2, f, out);
    GrowsWiden(s0, s2, {out});
    GrowsTrans(s0, s2, cc.G(), {out}, {out});
    forall asg | Sat(cc.table, asg)
      ensures B(asg, out) == if c in asg then B(asg, t) else B(asg, f)
    {
      LastGate(s2.table, cc.table, NewNode(XOR, w2, f, out), asg);
      LastGate(s1.table, s2.table, NewNode(AND, w1, c, w2), asg);
      LastGate(s0.table, s1.table, NewNode(XOR, f, t, w1), asg);
    }
  }
}
