/** Native circuits: the Circ instruction of compiler/ssa/circuitgen.go, which
    copies the gates of a finished circuit into the graph. */
module Native {
  import opened Nat
  import opened Circuit
  import opened Graph
  import opened Compiler
  import opened Garble

  /** What the instruction needs of the circuit: gates in topological order that
      write each wire once and no input, and outputs apart from the inputs. */
  ghost predicate Embeddable(c: Circuit) {
    && Runnable(c) && InputsUntouched(c.gates, Size(c.inputs)) && WrittenOnce(c.gates)
    && Size(c.inputs) + Size(c.outputs) <= c.numWires
  }

  /** The input bits of the circuit: each argument, then zeros up to its width. */
  function Filled(inputs: seq<IOArg>, args: seq<seq<bool>>): (bits: seq<bool>)
    requires |args| == |inputs| && forall i :: 0 <= i < |args| ==> |args[i]| <= inputs[i].bits
    ensures |bits| == Size(inputs)
  {
    if args == [] then []
    else
      var n := |args| - 1;
      Filled(inputs[..n], args[..n]) + args[n] + seq(inputs[n].bits - |args[n]|, i => false)
  }

  function AllBits(asg: Asg, ins: seq<seq<nat>>): (bits: seq<seq<bool>>)
    ensures |bits| == |ins| && forall i :: 0 <= i < |ins| ==> bits[i] == Bits(asg, ins[i])
  {
    seq(|ins|, i requires 0 <= i < |ins| => Bits(asg, ins[i]))
  }

  /** The input wires one after the other, with the zero wire for unset bits. */
  method FlattenInputs(cc: Compiler, inputs: seq<IOArg>, ins: seq<seq<nat>>) returns (ws: seq<nat>)
    requires cc.G().Built() && |ins| == |inputs|
    requires forall i :: 0 <= i < |ins| ==> cc.G().AllDriven(ins[i]) && |ins[i]| <= inputs[i].bits
    modifies cc
    ensures cc.G().Built() && Grows(old(cc.G()), cc.G(), {}) && cc.G().AllDriven(ws) && |ws| == Size(inputs)
    ensures forall asg :: Sat(cc.table, asg) ==> Bits(asg, ws) == Filled(inputs, AllBits(asg, ins))
  {
    hide State.Built, Sat, Grows, State.Driven;
    ghost var s0 := cc.G();
    GrowsRefl(s0);
    ws := [];
    assert inputs[..0] == [] && ins[..0] == [];
    for i := 0 to |ins|
      invariant cc.G().Built() && Grows(s0, cc.G(), {}) && cc.G().AllDriven(ws) && |ws| == Size(inputs[..i])
      invariant forall asg :: Sat(cc.table, asg) ==> Bits(asg, ws) == Filled(inputs[..i], AllBits(asg, ins[..i]))
    {
      ghost var s1, before := cc.G(), ws;
      KeepsDriven(s0, s1, {}, ins[i]);
      var part := cc.Extend(ins[i], inputs[i].bits);
      KeepAll(s1, cc.G(), ws);
      GrowsTrans(s0, s1, cc.G(), {}, {});
      ws := ws + part;
      assert inputs[..i + 1][..i] == inputs[..i];
      forall asg | Sat(cc.table, asg) ensures Bits(asg, ws) == Filled(inputs[..i + 1], AllBits(asg, ins[..i + 1])) {
        SatPrefix(s1.table, cc.table, asg);
        OneMore(asg, inputs, ins, i, before, part);
      }
    }
    assert inputs[..|ins|] == inputs && ins[..|ins|] == ins;
  }

  lemma OneMore(asg: Asg, inputs: seq<IOArg>, ins: seq<seq<nat>>, i: nat, ws: seq<nat>, part: seq<nat>)
    requires i < |ins| == |inputs| && forall i :: 0 <= i < |ins| ==> |ins[i]| <= inputs[i].bits
    requires Bits(asg, ws) == Filled(inputs[..i], AllBits(asg, ins[..i]))
    requires |part| == inputs[i].bits && part[..|ins[i]|] == ins[i] && AllLow(asg, part[|ins[i]|..])
    ensures Bits(asg, ws + part) == Filled(inputs[..i + 1], AllBits(asg, ins[..i + 1]))
  {
    var more, all := inputs[..i + 1], AllBits(asg, ins[..i + 1]);
    assert more[..i] == inputs[..i] && all[..i] == AllBits(asg, ins[..i]);
    var pad := seq(inputs[i].bits - |ins[i]|, i => false);
    assert forall j :: 0 <= j < |ins[i]| ==> part[j] == part[..|ins[i]|][j];
    assert forall j :: |ins[i]| <= j < |part| ==> part[j] == part[|ins[i]|..][j - |ins[i]|];
    assert Bits(asg, part) == Bits(asg, ins[i]) + pad;
    assert Bits(asg, ws + part) == Bits(asg, ws) + Bits(asg, part);
  }

  // ----- The gates -----

  /** Wire `w` of the circuit is wire `all[w]` of the graph; those assigned by
      the first `x` gates are driven, the others still open. */
  ghost predicate Placed(s: State, c: Circuit, all: seq<nat>, x: nat)
    requires |all| == c.numWires && x <= |c.gates|
  {
    forall w :: 0 <= w < |all| ==> if Assigned(c.gates[..x], Size(c.inputs), w) then s.Driven(all[w]) else s.Open(all[w])
  }

  /** The assigned wires carry what running the gates leaves on them. */
  ghost predicate Runs(asg: Asg, c: Circuit, all: seq<nat>, x: nat)
    requires Runnable(c) && |all| == c.numWires && x <= |c.gates|
  {
    FirstGates(c, x);
    var ws := RunGates(c.gates[..x], InitialWires(c, Bits(asg, all[..Size(c.inputs)])));
    forall w :: 0 <= w < |all| && Assigned(c.gates[..x], Size(c.inputs), w) ==> (all[w] in asg <==> ws[w])
  }

  lemma FirstGates(c: Circuit, x: nat)
    requires Runnable(c) && x <= |c.gates|
    ensures forall g :: g in c.gates[..x] ==> g in c.gates && g.input0 < c.numWires && g.input1 < c.numWires && g.output < c.numWires
  {
  }

  /** Different wires of the circuit are different wires of the graph, except
      that inputs may coincide. */
  predicate Apart(all: seq<nat>, k: nat) {
    forall v, w :: 0 <= v < |all| && k <= w < |all| && v != w ==> all[v] != all[w]
  }

  method InlineGate(cc: Compiler, g: Gate, a: nat, b: nat, o: nat)
    requires cc.G().Built() && !g.op.Other? && cc.G().Driven(a) && (g.op != INV ==> cc.G().Driven(b)) && cc.G().Open(o)
    modifies cc
    ensures cc.G().Built() && Grows(old(cc.G()), cc.G(), {o}) && cc.G().Driven(o)
    ensures forall asg :: Sat(cc.table, asg) ==> (o in asg <==> Apply(g.op, a in asg, b in asg))
  {
    hide State.Built, Sat;
    ghost var s0 := cc.G();
    if g.op == INV {
      cc.Invert(a, o);
    } else {
      cc.Binary(g.op, a, b, o);
      forall asg | Sat(cc.table, asg) ensures o in asg <==> Apply(g.op, a in asg, b in asg) {
        LastGate(s0.table, cc.table, NewNode(g.op, a, b, o), asg);
      }
    }
  }

  lemma GateReady(c: Circuit, s: State, all: seq<nat>, x: nat)
    requires Embeddable(c) && |all| == c.numWires && x < |c.gates| && Placed(s, c, all, x)
    ensures var g := c.gates[x];
            && g.input0 < |all| && g.input1 < |all| && g.output < |all| && !g.op.Other? && g.output >= Size(c.inputs)
            && s.Driven(all[g.input0]) && (g.op != INV ==> s.Driven(all[g.input1])) && s.Open(all[g.output])
  {
    hide State.Driven, State.Open, Size;
    var g := c.gates[x];
    assert g in c.gates;
    assert !Assigned(c.gates[..x], Size(c.inputs), g.output);
  }

  lemma GatePlaced(c: Circuit, s: State, t: State, all: seq<nat>, x: nat)
    requires Embeddable(c) && |all| == c.numWires && x < |c.gates| && Placed(s, c, all, x) && Apart(all, Size(c.inputs))
    requires c.gates[x].output < |all| && c.gates[x].output >= Size(c.inputs)
    requires Grows(s, t, {all[c.gates[x].output]}) && t.Driven(all[c.gates[x].output])
    ensures Placed(t, c, all, x + 1)
  {
    hide State.Driven, State.Open, Size;
    var o, k := c.gates[x].output, Size(c.inputs);
    assert c.gates[..x + 1] == c.gates[..x] + [c.gates[x]];
    forall w | 0 <= w < |all|
      ensures if Assigned(c.gates[..x + 1], k, w) then t.Driven(all[w]) else t.Open(all[w])
    {
      AssignedNext(c.gates, k, x, w);
      if Assigned(c.gates[..x], k, w) {
        KeepsDriven(s, t, {all[o]}, [all[w]]);
        assert t.Driven([all[w]][0]);
      } else if w != o {
        KeepsOpen(s, t, {all[o]}, all[w]);
      }
    }
  }

  lemma AssignedNext(gates: seq<Gate>, k: nat, x: nat, w: nat)
    requires x < |gates|
    ensures Assigned(gates[..x + 1], k, w) <==> Assigned(gates[..x], k, w) || gates[x].output == w
  {
    assert gates[..x + 1] == gates[..x] + [gates[x]];
    assert gates[x] in gates[..x + 1];
  }

  lemma GateRuns(asg: Asg, c: Circuit, all: seq<nat>, x: nat)
    requires Embeddable(c) && |all| == c.numWires && x < |c.gates| && Runs(asg, c, all, x) && Apart(all, Size(c.inputs))
    requires var g := c.gates[x];
             && g.input0 < |all| && g.input1 < |all| && Size(c.inputs) <= g.output < |all|
             && (all[g.output] in asg <==> Apply(g.op, all[g.input0] in asg, all[g.input1] in asg))
    ensures Runs(asg, c, all, x + 1)
  {
    hide Size, Bits;
    var g, k := c.gates[x], Size(c.inputs);
    FirstGates(c, x);
    FirstGates(c, x + 1);
    var init := InitialWires(c, Bits(asg, all[..k]));
    var ws := RunGates(c.gates[..x], init);
    assert c.gates[..x + 1][..x] == c.gates[..x];
    assert RunGates(c.gates[..x + 1], init) == ws[g.output := Apply(g.op, ws[g.input0], ws[g.input1])];
    assert Assigned(c.gates[..x], k, g.input0) && (g.op != INV ==> Assigned(c.gates[..x], k, g.input1));
    forall w | 0 <= w < |all| && Assigned(c.gates[..x + 1], k, w)
      ensures all[w] in asg <==> RunGates(c.gates[..x + 1], init)[w]
    {
      AssignedNext(c.gates, k, x, w);
    }
  }

  /** All gates, onto fresh wires. */
  method InlineGates(cc: Compiler, c: Circuit, ws: seq<nat>, more: seq<nat>)
    requires cc.G().Built() && Embeddable(c) && |ws| == Size(c.inputs) && |ws + more| == c.numWires
    requires cc.G().AllDriven(ws) && cc.G().Free(more) && Placed(cc.G(), c, ws + more, 0) && Apart(ws + more, Size(c.inputs))
    modifies cc
    ensures cc.G().Built() && Grows(old(cc.G()), cc.G(), SetOf(more)) && Placed(cc.G(), c, ws + more, |c.gates|)
    ensures forall asg :: Sat(cc.table, asg) ==> Runs(asg, c, ws + more, |c.gates|)
  {
    hide State.Built, Sat, Grows, State.Driven, State.Open, Size, Runs, Placed, Apart, Runnable;
    ghost var s2 := cc.G();
    var all := ws + more;
    GrowsRefl(s2);
    GrowsWiden(s2, s2, SetOf(more));
    forall asg ensures Runs(asg, c, all, 0) { RunsStart(asg, c, all); }
    var x := 0;
    while x < |c.gates|
      invariant 0 <= x <= |c.gates| && cc.G().Built() && Grows(s2, cc.G(), SetOf(more)) && Placed(cc.G(), c, all, x)
      invariant forall asg :: Sat(cc.table, asg) ==> Runs(asg, c, all, x)
    {
      ghost var s3 := cc.G();
      var g := c.gates[x];
      GateReady(c, s3, all, x);
      InlineGate(cc, g, all[g.input0], all[g.input1], all[g.output]);
      GatePlaced(c, s3, cc.G(), all, x);
      Among(all, ws, more, g.output);
      GrowsTrans(s2, s3, cc.G(), SetOf(more), {all[g.output]});
      TableGrows(s3, cc.G(), {all[g.output]});
      forall asg | Sat(cc.table, asg) ensures Runs(asg, c, all, x + 1) {
        SatPrefix(s3.table, cc.table, asg);
        GateRuns(asg, c, all, x);
      }
      x := x + 1;
    }
  }

  /** The whole circuit in the graph: its output wires carry its meaning on the
      bits of the input wires. */
  method InlineCircuit(cc: Compiler, c: Circuit, ins: seq<seq<nat>>) returns (o: seq<nat>)
    requires cc.G().Built() && Embeddable(c) && |ins| == |c.inputs|
    requires forall i :: 0 <= i < |ins| ==> cc.G().AllDriven(ins[i]) && |ins[i]| <= c.inputs[i].bits
    modifies cc
    ensures cc.G().Built() && Grows(old(cc.G()), cc.G(), {}) && cc.G().AllDriven(o) && |o| == Size(c.outputs)
    ensures forall asg :: Sat(cc.table, asg) ==> Bits(asg, o) == Meaning(c, Filled(c.inputs, AllBits(asg, ins)))
  {
    hide State.Built, Sat, Grows, State.Driven, State.Open, Size, Filled, Runs, Placed, Apart, Bits, AllBits, Runnable, Meaning;
    ghost var s0 := cc.G();
    Fits(c);
    var ws := FlattenInputs(cc, c.inputs, ins);
    ghost var s1 := cc.G();
    var unused := NewWires(cc, c.numWires - |ws|);
    ghost var s2 := cc.G();
    var more := unused[..];
    var all := ws + more;
    KeepAll(s1, s2, ws);
    Start(c, s1, s2, ws, more);
    InlineGates(cc, c, ws, more);
    GrowsFresh(s1, s2, cc.G(), more);
    GrowsTrans(s0, s1, cc.G(), {}, {});
    TableGrows(s1, cc.G(), {});
    o := all[c.numWires - Size(c.outputs)..];
    OutputsPlaced(c, cc.G(), all);
    forall asg | Sat(cc.table, asg) ensures Bits(asg, o) == Meaning(c, Filled(c.inputs, AllBits(asg, ins))) {
      SatPrefix(s1.table, cc.table, asg);
      assert all[..Size(c.inputs)] == ws;
      OutputsMean(asg, c, all);
    }
  }

  lemma Fits(c: Circuit)
    requires Embeddable(c)
    ensures Size(c.inputs) <= c.numWires && Size(c.outputs) <= c.numWires && c.InRange()
  {
  }

  lemma TableGrows(s: State, t: State, outs: set<nat>)
    requires Grows(s, t, outs)
    ensures s.table <= t.table
  {
  }

  lemma Among(all: seq<nat>, ws: seq<nat>, more: seq<nat>, w: nat)
    requires all == ws + more && |ws| <= w < |all|
    ensures {all[w]} <= SetOf(more)
  {
    assert all[w] == more[w - |ws|];
  }

  lemma Start(c: Circuit, s1: State, s2: State, ws: seq<nat>, more: seq<nat>)
    requires Embeddable(c) && |ws| == Size(c.inputs) && |ws + more| == c.numWires
    requires s1.AllDriven(ws) && s2.AllDriven(ws) && s2.Free(more) && forall i :: 0 <= i < |more| ==> more[i] >= |s1.wires|
    ensures Placed(s2, c, ws + more, 0) && Apart(ws + more, Size(c.inputs))
  {
    hide Size;
    assert c.gates[..0] == [];
  }

  lemma RunsStart(asg: Asg, c: Circuit, all: seq<nat>)
    requires Embeddable(c) && |all| == c.numWires
    ensures Runs(asg, c, all, 0)
  {
    assert c.gates[..0] == [];
  }

  lemma OutputsPlaced(c: Circuit, s: State, all: seq<nat>)
    requires Embeddable(c) && |all| == c.numWires && Placed(s, c, all, |c.gates|)
    ensures Size(c.outputs) <= c.numWires && s.AllDriven(all[c.numWires - Size(c.outputs)..])
  {
    hide Size, State.Driven, State.Open;
    assert c.gates[..|c.gates|] == c.gates;
    var outs := all[c.numWires - Size(c.outputs)..];
    forall j | 0 <= j < |outs| ensures s.Driven(outs[j]) {
      assert Assigned(c.gates, Size(c.inputs), OutputWire(c, j));
    }
  }

  lemma OutputsMean(asg: Asg, c: Circuit, all: seq<nat>)
    requires Embeddable(c) && |all| == c.numWires && Runs(asg, c, all, |c.gates|)
    ensures Size(c.outputs) <= c.numWires && Size(c.inputs) <= c.numWires
    ensures Bits(asg, all[c.numWires - Size(c.outputs)..]) == Meaning(c, Bits(asg, all[..Size(c.inputs)]))
  {
    hide Size;
    assert c.gates[..|c.gates|] == c.gates;
    var outs, bits := all[c.numWires - Size(c.outputs)..], Meaning(c, Bits(asg, all[..Size(c.inputs)]));
    forall j | 0 <= j < |outs| ensures outs[j] in asg <==> bits[j] {
      assert Assigned(c.gates, Size(c.inputs), OutputWire(c, j));
    }
    assert Bits(asg, outs) == bits;
  }
}
