/** From a built graph to a circuit (compiler/ssa/circuitgen.go): the constant
    wires, the output wires, the three passes, numbering and emission. */
module Pipeline {
  import opened Circuit
  import opened Graph
  import opened Compiler
  import opened Propagate
  import opened ShortXor
  import opened Prune
  import opened Numbering
  import opened Garble
  import opened Labels

  // ----- The graph has exactly one meaning -----

  /** The assignment after the gates of `t` have been evaluated in order. */
  function Evaluate(t: seq<Node>, asg: Asg): Asg {
    if t == [] then asg
    else
      var g := t[|t| - 1];
      var u := Evaluate(t[..|t| - 1], asg);
      if Apply(g.op, g.a in u, g.b in u) then u + {g.o} else u - {g.o}
  }

  /** No gate drives a wire that it or an earlier gate mentions. */
  ghost predicate Acyclic(t: seq<Node>, k: nat) {
    && (forall i :: 0 <= i < |t| ==> k <= t[i].o && t[i].o != t[i].a && t[i].o != t[i].b)
    && (forall i, j :: 0 <= j < i < |t| ==> t[i].o != t[j].o && t[i].o != t[j].a && t[i].o != t[j].b)
  }

  lemma {:induction false} EvaluateObeys(t: seq<Node>, k: nat, asg: Asg)
    requires Acyclic(t, k)
    ensures Sat(t, Evaluate(t, asg)) && Agree(asg, Evaluate(t, asg), k)
  {
    if t != [] {
      var n := |t| - 1;
      EvaluateObeys(t[..n], k, asg);
      var u := Evaluate(t[..n], asg);
      forall i | 0 <= i < n ensures Holds(t[i], Evaluate(t, asg)) {
        assert Holds(t[..n][i], u);
      }
    }
  }

  lemma BuiltAcyclic(s: State)
    requires s.Built()
    ensures Acyclic(s.table, s.k)
  {
    forall i | 0 <= i < |s.table|
      ensures s.k <= s.table[i].o && s.table[i].o != s.table[i].a && s.table[i].o != s.table[i].b
    {
      assert s.Placed(i);
    }
    forall i, j | 0 <= j < i < |s.table|
      ensures s.table[i].o != s.table[j].o && s.table[i].o != s.table[j].a && s.table[i].o != s.table[j].b
    {
      assert s.Placed(i) && s.Placed(j);
    }
  }

  /** For all input bits the graph has an assignment. */
  lemma EveryInputHasMeaning(s: State, inputs: Asg)
    requires s.Built()
    ensures exists asg :: Sat(s.table, asg) && Agree(inputs, asg, s.k)
  {
    BuiltAcyclic(s);
    EvaluateObeys(s.table, s.k, inputs);
  }

  // ----- The result of numbering computes the graph -----

  /** What the wires carry once the first `x` gates have run. */
  ghost predicate Carries(s: State, drv: Drivers, order: seq<nat>, owner: seq<nat>, x: nat, u: Asg, ws: seq<bool>)
    requires x <= |order|
  {
    |ws| == |owner| && forall i :: 0 <= i < |owner| && From(s, drv, order[..x], owner[i]) ==> (ws[i] <==> owner[i] in u)
  }

  lemma {:induction false} RunCarries(s: State, drv: Drivers, outs: seq<nat>, gates: seq<Gate>, order: seq<nat>, owner: seq<nat>,
                                      u: Asg, init: seq<bool>, x: nat)
    requires Compiled(s, drv, outs, gates, order, owner) && DrivenBy(s, drv) && Sat(s.table, u)
    requires |init| == |owner| && (forall i :: 0 <= i < s.k ==> (init[i] <==> i in u)) && x <= |gates|
    ensures forall g :: g in gates[..x] ==> g.input0 < |init| && g.input1 < |init| && g.output < |init|
    ensures Carries(s, drv, order, owner, x, u, RunGates(gates[..x], init))
    decreases x
  {
    forall g | g in gates[..x] ensures g.input0 < |init| && g.input1 < |init| && g.output < |init| {
      var y :| 0 <= y < x && gates[y] == g;
      assert Renamed(s, owner, order[y], gates[y]);
    }
    if x == 0 {
      forall i | 0 <= i < |owner| && From(s, drv, order[..0], owner[i]) ensures init[i] <==> owner[i] in u {
        InputOwner(s, owner, i);
      }
    } else {
      hide Compiled;
      RunCarries(s, drv, outs, gates, order, owner, u, init, x - 1);
      assert gates[..x][..x - 1] == gates[..x - 1];
      var ws := RunGates(gates[..x - 1], init);
      OneGate(s, drv, outs, gates, order, owner, u, x - 1, ws);
    }
  }

  lemma InputOwner(s: State, owner: seq<nat>, i: nat)
    requires s.k <= |owner| && IsCount(owner[..s.k], s.k) && i < |owner|
    requires forall i, j :: 0 <= i < j < |owner| ==> owner[i] != owner[j]
    ensures owner[i] < s.k <==> i < s.k
    ensures i < s.k ==> owner[i] == i
  {
    assert forall j :: 0 <= j < s.k ==> owner[..s.k][j] == owner[j];
    if owner[i] < s.k {
      assert owner[owner[i]] == owner[i];
    }
  }

  lemma OneGate(s: State, drv: Drivers, outs: seq<nat>, gates: seq<Gate>, order: seq<nat>, owner: seq<nat>, u: Asg, x: nat, ws: seq<bool>)
    requires Compiled(s, drv, outs, gates, order, owner) && DrivenBy(s, drv) && Sat(s.table, u) && x < |gates|
    requires Carries(s, drv, order, owner, x, u, ws)
    ensures var e := gates[x]; e.input0 < |ws| && e.input1 < |ws| && e.output < |ws|
    ensures var e := gates[x];
            Carries(s, drv, order, owner, x + 1, u, ws[e.output := Apply(e.op, ws[e.input0], ws[e.input1])])
  {
    var e, j := gates[x], order[x];
    assert Renamed(s, owner, j, e) && GateFrom(s, drv, order[..x], j) && Holds(s.table[j], u);
    var vs := ws[e.output := Apply(e.op, ws[e.input0], ws[e.input1])];
    assert order[..x + 1] == order[..x] + [j];
    assert From(s, drv, order[..x], owner[e.input0]) && (ws[e.input0] <==> s.table[j].a in u);
    if e.op != INV {
      assert From(s, drv, order[..x], owner[e.input1]) && (ws[e.input1] <==> s.table[j].b in u);
    }
    assert Apply(e.op, ws[e.input0], ws[e.input1]) <==> owner[e.output] in u;
    forall i | 0 <= i < |owner| && From(s, drv, order[..x + 1], owner[i]) ensures vs[i] <==> owner[i] in u {
      if i != e.output {
        assert owner[i] != owner[e.output];
        assert From(s, drv, order[..x], owner[i]);
      }
    }
  }

  /** The driver of an output is emitted. */
  lemma OutputEmitted(s: State, drv: Drivers, outs: seq<nat>, gates: seq<Gate>, order: seq<nat>, owner: seq<nat>, w: nat)
    requires Compiled(s, drv, outs, gates, order, owner) && Compilable(s, drv)
    requires w < |s.wires| && s.wires[w].output && drv[w].Some?
    ensures drv[w].value in order && From(s, drv, order, w)
  {
    hide Count, Covered;
    var h := drv[w].value;
    assert s.table[h].o == w && !Loose(s, h) && ReadsFine(s, drv, h);
    assert Grounded(s, drv, h);
  }

  lemma CompiledMeaning(s: State, drv: Drivers, outs: seq<nat>, c: Circuit, order: seq<nat>, owner: seq<nat>, u: Asg, bits: seq<bool>)
    requires Compiled(s, drv, outs, c.gates, order, owner) && Compilable(s, drv) && Sat(s.table, u)
    requires c.numWires == |owner| && c.InRange() && Size(c.outputs) == |outs|
    requires |bits| == s.k && forall i :: 0 <= i < s.k ==> (bits[i] <==> i in u)
    requires OutsOk(s, outs) && OutsDriven(s, drv, outs)
    ensures Meaning(c, bits) == OutputBits(outs, u)
  {
    hide Compilable, Carries, RunGates, Sat, DrivenBy;
    var init := InitialWires(c, bits);
    assert DrivenBy(s, drv) by { OpenCompilable(s, drv); }
    WidthOk(s, drv, outs, c.gates, order, owner);
    RunCarries(s, drv, outs, c.gates, order, owner, u, init, |c.gates|);
    assert c.gates[..|c.gates|] == c.gates;
    var ws := RunGates(c.gates, init);
    forall j | 0 <= j < |outs| ensures Meaning(c, bits)[j] == (outs[j] in u) {
      CarriesOutput(s, drv, outs, c.gates, order, owner, u, ws, j);
    }
  }

  lemma WidthOk(s: State, drv: Drivers, outs: seq<nat>, gates: seq<Gate>, order: seq<nat>, owner: seq<nat>)
    requires Compiled(s, drv, outs, gates, order, owner)
    ensures |gates| == |order| && s.k + |outs| <= |owner|
  {
  }

  lemma CarriesOutput(s: State, drv: Drivers, outs: seq<nat>, gates: seq<Gate>, order: seq<nat>, owner: seq<nat>, u: Asg, ws: seq<bool>, j: nat)
    requires Compiled(s, drv, outs, gates, order, owner) && Compilable(s, drv)
    requires OutsOk(s, outs) && OutsDriven(s, drv, outs) && j < |outs|
    requires Carries(s, drv, order, owner, |order|, u, ws)
    ensures |ws| == |owner| && |outs| <= |owner| && (ws[|owner| - |outs| + j] <==> outs[j] in u)
  {
    hide Compilable;
    OutputFrom(s, drv, outs, gates, order, owner, j);
    assert order[..|order|] == order;
  }

  lemma OutputFrom(s: State, drv: Drivers, outs: seq<nat>, gates: seq<Gate>, order: seq<nat>, owner: seq<nat>, j: nat)
    requires Compiled(s, drv, outs, gates, order, owner) && Compilable(s, drv)
    requires OutsOk(s, outs) && OutsDriven(s, drv, outs) && j < |outs|
    ensures |outs| <= |owner| && owner[|owner| - |outs| + j] == outs[j] && From(s, drv, order, outs[j])
  {
    hide Compilable;
    OutputEmitted(s, drv, outs, gates, order, owner, outs[j]);
    assert owner[|owner| - |outs|..][j] == owner[|owner| - |outs| + j];
  }

  lemma OpenCompilable(s: State, drv: Drivers)
    requires Compilable(s, drv)
    ensures DrivenBy(s, drv) && 0 < s.k <= |s.wires|
  {
  }

  /** The bits on the output wires. */
  function OutputBits(outs: seq<nat>, asg: Asg): (bits: seq<bool>)
    ensures |bits| == |outs|
  {
    seq(|outs|, i requires 0 <= i < |outs| => outs[i] in asg)
  }

  /** The result is in order, in range and leaves its input wires alone, which
      is all that garbling asks for. */
  lemma CompiledRuns(s: State, drv: Drivers, outs: seq<nat>, c: Circuit, order: seq<nat>, owner: seq<nat>)
    requires Compiled(s, drv, outs, c.gates, order, owner) && Compilable(s, drv)
    requires c.numWires == |owner| && Size(c.outputs) == |outs| && Size(c.inputs) == s.k == Sum(Flatten(c.inputs))
    requires OutsOk(s, outs) && OutsDriven(s, drv, outs)
    ensures Runnable(c) && InputsUntouched(c.gates, Size(c.inputs))
  {
    hide Compilable, Compiled, DrivenBy, OutsOk, OutsDriven, Assigned, From;
    assert DrivenBy(s, drv) by { OpenCompilable(s, drv); }
    WidthOk(s, drv, outs, c.gates, order, owner);
    forall g | g in c.gates
      ensures g.input0 < c.numWires && g.input1 < c.numWires && g.output < c.numWires && !g.op.Other? && g.output >= s.k
    {
      var x :| 0 <= x < |c.gates| && c.gates[x] == g;
      GateRuns(s, drv, outs, c.gates, order, owner, x);
    }
    forall x | 0 <= x < |c.gates|
      ensures Assigned(c.gates[..x], s.k, c.gates[x].input0)
      ensures c.gates[x].op != INV ==> Assigned(c.gates[..x], s.k, c.gates[x].input1)
    {
      GateRuns(s, drv, outs, c.gates, order, owner, x);
    }
    forall j | 0 <= j < Size(c.outputs) ensures Assigned(c.gates, s.k, Garble.OutputWire(c, j)) {
      OutputFrom(s, drv, outs, c.gates, order, owner, j);
      assert order[..|order|] == order && c.gates[..|c.gates|] == c.gates;
      FromAssigned(s, drv, outs, c.gates, order, owner, |order|, Garble.OutputWire(c, j));
    }
  }

  lemma GateRuns(s: State, drv: Drivers, outs: seq<nat>, gates: seq<Gate>, order: seq<nat>, owner: seq<nat>, x: nat)
    requires Compiled(s, drv, outs, gates, order, owner) && DrivenBy(s, drv) && x < |gates|
    ensures var e := gates[x];
            && e.input0 < |owner| && e.input1 < |owner| && s.k <= e.output < |owner| && !e.op.Other?
            && Assigned(gates[..x], s.k, e.input0) && (e.op != INV ==> Assigned(gates[..x], s.k, e.input1))
  {
    hide Assigned;
    var e := gates[x];
    assert Renamed(s, owner, order[x], e) && GateFrom(s, drv, order[..x], order[x]);
    InputOwner(s, owner, e.output);
    FromAssigned(s, drv, outs, gates, order, owner, x, e.input0);
    if e.op != INV {
      FromAssigned(s, drv, outs, gates, order, owner, x, e.input1);
    }
  }

  lemma FromAssigned(s: State, drv: Drivers, outs: seq<nat>, gates: seq<Gate>, order: seq<nat>, owner: seq<nat>, x: nat, i: nat)
    requires Compiled(s, drv, outs, gates, order, owner) && DrivenBy(s, drv) && x <= |gates| && i < |owner|
    requires From(s, drv, order[..x], owner[i])
    ensures Assigned(gates[..x], s.k, i)
  {
    InputOwner(s, owner, i);
    if owner[i] >= s.k {
      var y :| 0 <= y < x && order[..x][y] == drv[owner[i]].value;
      assert Renamed(s, owner, order[y], gates[y]);
      assert owner[gates[y].output] == owner[i];
      assert gates[..x][y] == gates[y];
    }
  }

  // ----- Before the passes -----

  ghost predicate NoOutputs(s: State) {
    forall w :: 0 <= w < |s.wires| ==> !s.wires[w].output
  }

  /** A new compiler, with the constant wires made first. */
  method NewCompiler(k: nat) returns (cc: Compiler)
    requires k > 0
    ensures fresh(cc) && cc.k == k && cc.G().Built() && ConstantsFirst(cc.G()) && NoOutputs(cc.G())
    ensures forall w :: 0 <= w < k ==> cc.G().Driven(w)
  {
    hide State.Built;
    cc := new Compiler(k);
    ghost var s := cc.G();
    assert NoOutputs(s);
    var zero := cc.ZeroWire();
    ghost var t := cc.G();
    var one := cc.OneWire();
    assert cc.table == [NewNode(INV, 0, 0, cc.inv.value), NewNode(AND, 0, cc.inv.value, zero), NewNode(OR, 0, cc.inv.value, one)];
    ThreeGates(cc.G());
    GrowsTrans(s, t, cc.G(), {}, {});
    OutputsStay(s, cc.G(), {});
    forall w | 0 <= w < k ensures cc.G().Driven(w) {}
  }

  lemma ThreeGates(s: State)
    requires s.Built() && s.inv.Some? && s.zero.Some? && s.one.Some? && |s.table| >= 3
    requires s.table[0] == NewNode(INV, 0, 0, s.inv.value)
    requires s.table[1] == NewNode(AND, 0, s.inv.value, s.zero.value)
    requires s.table[2] == NewNode(OR, 0, s.inv.value, s.one.value)
    ensures ConstantsFirst(s)
  {
    hide Ports, Sat;
    assert s.Placed(0) && s.Placed(1) && s.Placed(2) && s.WireOk(0);
  }

  lemma OutputsStay(s: State, t: State, outs: set<nat>)
    requires Grows(s, t, outs) && NoOutputs(s)
    ensures NoOutputs(t)
  {
  }

  /** Generators keep the constants where they are. */
  lemma ConstantsStay(s: State, t: State, outs: set<nat>)
    requires ConstantsFirst(s) && Grows(s, t, outs) && t.Built()
    ensures ConstantsFirst(t)
  {
    assert s.table[0] == t.table[0] && s.table[1] == t.table[1] && s.table[2] == t.table[2];
    ThreeGates(t);
  }

  /** Nothing reads wire `w`. */
  ghost predicate Unread(s: State, w: nat) {
    forall j :: 0 <= j < |s.table| ==> s.table[j].a != w && s.table[j].b != w
  }

  /** The Ret instruction: a fresh output wire with the value of each returned
      wire, marked as output. */
  method Return(cc: Compiler, ws: seq<nat>) returns (outs: seq<nat>)
    requires cc.G().Built() && ConstantsFirst(cc.G()) && NoOutputs(cc.G()) && cc.G().AllDriven(ws)
    modifies cc
    ensures cc.G().Built() && ConstantsFirst(cc.G()) && old(cc.G()).table <= cc.table && |outs| == |ws|
    ensures Finishable(cc.G(), outs)
    ensures forall asg :: Sat(cc.table, asg) ==> forall i :: 0 <= i < |ws| ==> (outs[i] in asg <==> ws[i] in asg)
  {
    hide State.Built, Sat, ConstantsFirst, Unread;
    ghost var s0 := cc.G();
    outs := CopyWires(cc, ws);
    ghost var s1 := cc.G();
    var n := |outs|;
    var i := 0;
    while i < n
      invariant 0 <= i <= n && |cc.wires| == |s1.wires| && cc.G() == s1.(wires := cc.wires)
      invariant forall w :: 0 <= w < |cc.wires| ==> cc.wires[w] == s1.wires[w].(output := w in outs[..i])
    {
      ghost var before := cc.wires;
      cc.wires := cc.wires[outs[i] := cc.wires[outs[i]].(output := true)];
      assert outs[..i + 1] == outs[..i] + [outs[i]];
      i := i + 1;
    }
    assert outs[..i] == outs;
    MarkedOutputs(s0, s1, cc.G(), outs);
  }

  /** What the passes ask of the graph: the output wires are exactly those
      marked, driven, and read by no gate; none is an input or a constant. */
  ghost predicate Finishable(s: State, outs: seq<nat>) {
    OutsOk(s, outs) && OutputsApart(s) && InputsApart(s) && s.AllDriven(outs)
  }

  method CopyWires(cc: Compiler, ws: seq<nat>) returns (outs: seq<nat>)
    requires cc.G().Built() && ConstantsFirst(cc.G()) && cc.G().AllDriven(ws)
    modifies cc
    ensures cc.G().Built() && ConstantsFirst(cc.G()) && Grows(old(cc.G()), cc.G(), {}) && |outs| == |ws|
    ensures Copies(old(cc.G()), cc.G(), outs)
    ensures forall asg :: Sat(cc.table, asg) ==> forall i :: 0 <= i < |ws| ==> (outs[i] in asg <==> ws[i] in asg)
  {
    hide State.Built, Sat, ConstantsFirst, Grows, State.Driven, Unread, State.Open;
    ghost var s0 := cc.G();
    GrowsRefl(s0);
    ConstantsAre(s0);
    outs := [];
    var n := |ws|;
    var i := 0;
    while i < n
      invariant 0 <= i <= n && |outs| == i
      invariant cc.G().Built() && ConstantsFirst(cc.G()) && Grows(s0, cc.G(), {}) && cc.zero == s0.zero && Copies(s0, cc.G(), outs)
      invariant forall asg :: Sat(cc.table, asg) ==> forall j :: 0 <= j < i ==> (outs[j] in asg <==> ws[j] in asg)
    {
      ghost var s1 := cc.G();
      KeepAll(s0, s1, ws);
      ConstantsAre(s1);
      var o := cc.NewWire();
      ghost var s2 := cc.G();
      KeepAll(s1, s2, ws);
      cc.Identity(ws[i], o);
      ghost var s3 := cc.G();
      GrowsTrans(s1, s2, s3, {}, {o});
      GrowsTrans(s0, s1, s3, {}, {});
      ConstantsStay(s1, s3, {});
      TableStays(s1, s3, {});
      TableStays(s2, s3, {o});
      DrivenInRange(s0, ws, i);
      CopyOne(s0, s1, s2, s3, outs, ws[i], o);
      forall asg, j | Sat(cc.table, asg) && 0 <= j < i + 1 ensures (outs + [o])[j] in asg <==> ws[j] in asg {
        SatPrefix(s1.table, s3.table, asg);
      }
      outs := outs + [o];
      i := i + 1;
    }
  }

  lemma DrivenInRange(s: State, ws: seq<nat>, i: nat)
    requires s.AllDriven(ws) && i < |ws|
    ensures ws[i] < |s.wires|
  {
  }

  lemma TableStays(s: State, t: State, outs: set<nat>)
    requires Grows(s, t, outs)
    ensures s.table <= t.table && |s.wires| <= |t.wires|
  {
  }

  lemma ConstantsAre(s: State)
    requires ConstantsFirst(s) && s.Built()
    ensures s.zero.Some? && s.one.Some? && 0 < s.k <= |s.wires|
    ensures s.zero.value < |s.wires| && s.one.value < |s.wires|
  {
  }

  /** `outs` are distinct new wires, driven and unread. */
  ghost predicate Copies(s0: State, s: State, outs: seq<nat>) {
    && s.zero == s0.zero && s.one == s0.one && s.zero.Some? && s.one.Some? && s.zero.value < |s0.wires| && s.one.value < |s0.wires|
    && s0.k <= |s0.wires| <= |s.wires| && s.k == s0.k
    && (forall i :: 0 <= i < |outs| ==> |s0.wires| <= outs[i] < |s.wires| && s.Driven(outs[i]) && Unread(s, outs[i]))
    && (forall i, j :: 0 <= i < j < |outs| ==> outs[i] != outs[j])
  }

  lemma CopyOne(s0: State, s1: State, s2: State, s3: State, outs: seq<nat>, w: nat, o: nat)
    requires Copies(s0, s1, outs) && s1.Built() && Grows(s1, s3, {}) && o == |s1.wires| && |s2.wires| == o + 1 && |s2.wires| <= |s3.wires|
    requires s2.table == s1.table && s2.zero == s1.zero && w < |s0.wires| && s3.Driven(o)
    requires s3.zero == s1.zero && s3.table == s2.table + [NewNode(XOR, w, s1.zero.value, o)]
    ensures Copies(s0, s3, outs + [o])
  {
    forall j | 0 <= j < |s1.table| ensures s1.table[j].a < o && s1.table[j].b < o {
      assert s1.Placed(j);
    }
    forall i | 0 <= i < |outs + [o]|
      ensures |s0.wires| <= (outs + [o])[i] < |s3.wires| && s3.Driven((outs + [o])[i]) && Unread(s3, (outs + [o])[i])
    {
      if i < |outs| {
        assert Unread(s1, outs[i]);
      }
    }
  }

  lemma MarkedOutputs(s0: State, s: State, t: State, outs: seq<nat>)
    requires NoOutputs(s0) && Grows(s0, s, {}) && Copies(s0, s, outs) && s.Built() && ConstantsFirst(s)
    requires t == s.(wires := t.wires) && |t.wires| == |s.wires|
    requires forall w :: 0 <= w < |t.wires| ==> t.wires[w] == s.wires[w].(output := w in outs)
    ensures t.Built() && ConstantsFirst(t) && Finishable(t, outs)
  {
    forall j | 0 <= j < |t.table| ensures t.Placed(j) {
      assert s.Placed(j);
    }
    forall w | 0 <= w < |t.wires| ensures t.WireOk(w) {
      assert s.WireOk(w);
    }
    forall w | 0 <= w < |t.wires| && t.wires[w].output ensures t.wires[w].num == 0 && NotConstant(t, w) && t.k <= w {
      var i :| 0 <= i < |outs| && outs[i] == w;
      assert s.WireOk(w) && Unread(s, w);
      UnreadPorts(s.table, w);
    }
    ThreeGates(t);
  }

  lemma {:induction false} UnreadPorts(t: seq<Node>, w: nat)
    requires forall j :: 0 <= j < |t| ==> t[j].a != w && t[j].b != w
    ensures Ports(t, w) == []
  {
    if t != [] {
      UnreadPorts(t[..|t| - 1], w);
    }
  }

  // ----- The passes one after the other -----

  lemma AfterPropagation(s0: State, s1: State, outs: seq<nat>)
    requires s0.Built() && Finishable(s0, outs) && Progress(s0, s1, |s1.table|) && OutputsApart(s1)
    ensures s0.k <= |s0.wires|
    ensures Fresh(s0.table, s1) && Covered(s1) && Plain(s1) && OutsKept(s0, s1, outs)
  {
    hide Count, ExactList, Sat, Ports, Propagate.Counted, Sourced, CoveredGate, ListOk, FlagHolds;
    forall w | 0 <= w < |s1.wires|
      ensures s1.wires[w].output == s0.wires[w].output && s1.wires[w].id.None?
      ensures s1.wires[w].input.Some? ==> PointsBack(s1, w)
      ensures s1.wires[w].output ==> s1.wires[w].input.Some?
    {
      assert SameButReaders(s1.wires[w], s0.wires[w]) && s0.WireOk(w);
      if s1.wires[w].input.Some? {
        assert SameButPorts(s1.table[s0.wires[w].input.value], s0.table[s0.wires[w].input.value]);
      }
      if s0.wires[w].output {
        assert s0.Driven(w) by {
          var i :| 0 <= i < |outs| && outs[i] == w;
        }
      }
    }
    forall j | 0 <= j < |s1.table| ensures Untouched(s1.table[j]) {
      assert SameButPorts(s1.table[j], s0.table[j]) && s0.Placed(j);
    }
    assert OutputsUnread(s1);
  }

  predicate Untouched(g: Node) {
    !g.visited && !g.compiled && !g.dead && !g.op.Other?
  }

  /** Nothing numbered, visited or dead yet. */
  ghost predicate Plain(s: State) {
    && 0 < s.k <= |s.wires|
    && (forall w :: 0 <= w < |s.wires| ==> s.wires[w].id.None?)
    && (forall j :: 0 <= j < |s.table| ==> Untouched(s.table[j]))
  }

  /** The output wires are still those of `s0`. */
  ghost predicate OutsKept(s0: State, s: State, outs: seq<nat>) {
    s.k == s0.k && |s.wires| >= |s0.wires| && OutsOk(s, outs) && InputsApart(s)
  }

  lemma AfterBypass(s0: State, s1: State, s2: State, drv: Drivers, outs: seq<nat>)
    requires Passing(s0.table, s1, s2, drv, 2 * |s2.table|) && Covered(s1) && Plain(s1) && OutsKept(s0, s1, outs)
    ensures Compilable(s2, drv) && NoneDead(s2) && Unnumbered(s2) && OutsKept(s0, s2, outs) && OutsDriven(s2, drv, outs)
  {
    hide Count, Sat, Pointers, ShortXor.Untouched, NothingLeft, Models, FlagsHold, Propagate.Counted;
    forall j | 0 <= j < |s2.table| ensures CoveredGate(s2, j) && Untouched(s2.table[j]) {
      assert OldPorts(s1, s2.table[j]) && CoveredGate(s1, j) && Untouched(s1.table[j]);
      assert s2.table[j] == s1.table[j].(o := s2.table[j].o);
    }
    forall w | 0 <= w < |s2.wires| ensures ListOk(s2, w) && s2.wires[w].id.None? {
      assert w < |s1.wires| ==> ListOk(s1, w) && s2.wires[w] == s1.wires[w];
    }
  }

  lemma AfterPrune(s0: State, s2: State, s3: State, drv: Drivers, outs: seq<nat>)
    requires OnlyDead(s2, s3) && Unnumbered(s2) && OutsKept(s0, s2, outs) && OutsDriven(s2, drv, outs)
    ensures Unnumbered(s3) && OutsKept(s0, s3, outs) && OutsDriven(s3, drv, outs)
  {
    forall w | 0 <= w < |s3.wires| ensures s3.wires[w].id == s2.wires[w].id && s3.wires[w].output == s2.wires[w].output {
    }
    forall j | 0 <= j < |s3.table| ensures !s3.table[j].visited && !s3.table[j].compiled {
      assert s3.table[j] == s2.table[j].(dead := s3.table[j].dead);
    }
  }

  predicate InputBitsOf(bits: seq<bool>, asg: Asg, k: nat) {
    |bits| == k && forall i :: 0 <= i < k ==> (bits[i] <==> i in asg)
  }

  /** Every gate's output is an output of the circuit or read by a later gate. */
  ghost predicate NoWaste(c: Circuit) {
    forall x :: 0 <= x < |c.gates| ==> Wanted(c, x)
  }

  ghost predicate Wanted(c: Circuit, x: nat)
    requires x < |c.gates|
  {
    || c.gates[x].output + Size(c.outputs) >= c.numWires
    || exists y :: x < y < |c.gates| && ReadsWire(c.gates[y], c.gates[x].output)
  }

  predicate ReadsWire(g: Gate, w: nat) {
    g.input0 == w || (g.op != INV && g.input1 == w)
  }

  lemma PrunedNoWaste(s: State, drv: Drivers, outs: seq<nat>, c: Circuit, order: seq<nat>, owner: seq<nat>)
    requires Compiled(s, drv, outs, c.gates, order, owner) && Compilable(s, drv)
    requires c.numWires == |owner| && Size(c.outputs) == |outs| && OutsOk(s, outs)
    requires forall j :: 0 <= j < |s.table| ==> (s.table[j].dead <==> Loose(s, j))
    ensures NoWaste(c)
  {
    hide Compilable, Size, Loose;
    forall x | 0 <= x < |c.gates| ensures Wanted(c, x) {
      OneWanted(s, drv, outs, c, order, owner, x);
    }
  }

  lemma OneWanted(s: State, drv: Drivers, outs: seq<nat>, c: Circuit, order: seq<nat>, owner: seq<nat>, x: nat)
    requires Compiled(s, drv, outs, c.gates, order, owner) && Compilable(s, drv)
    requires c.numWires == |owner| && Size(c.outputs) == |outs| && OutsOk(s, outs) && x < |c.gates|
    requires forall j :: 0 <= j < |s.table| ==> (s.table[j].dead <==> Loose(s, j))
    ensures Wanted(c, x)
  {
    hide Size, Count, Covered;
    var e, j := c.gates[x], order[x];
    assert Renamed(s, owner, j, e) && Grounded(s, drv, j);
    var o := s.table[j].o;
    assert drv[o] == Some(j);
    if s.wires[o].output {
      var i :| 0 <= i < |outs| && outs[i] == o;
      assert owner[|owner| - |outs|..][i] == owner[|owner| - |outs| + i];
      assert e.output == |owner| - |outs| + i;
    } else {
      assert s.wires[o].num > 0;
      var r := SomeReader(s.table, o);
      assert ReadsFine(s, drv, r) && Grounded(s, drv, r);
      var y :| 0 <= y < |order| && order[y] == r;
      LaterGate(s, drv, outs, c.gates, order, owner, x, y);
    }
  }

  lemma LaterGate(s: State, drv: Drivers, outs: seq<nat>, gates: seq<Gate>, order: seq<nat>, owner: seq<nat>, x: nat, y: nat)
    requires Compiled(s, drv, outs, gates, order, owner) && DrivenBy(s, drv) && x < |gates| && y < |gates|
    requires order[x] < |s.table| && order[y] < |s.table| && ReadsOf(s.table[order[y]], s.table[order[x]].o) > 0
    ensures x < y && ReadsWire(gates[y], gates[x].output)
  {
    var o := s.table[order[x]].o;
    assert Renamed(s, owner, order[x], gates[x]) && Renamed(s, owner, order[y], gates[y]);
    assert GateFrom(s, drv, order[..y], order[y]) && drv[o] == Some(order[x]);
    assert order[x] in order[..y];
    var z :| 0 <= z < y && order[..y][z] == order[x];
    assert owner[gates[x].output] == o;
  }

  /** What the passes leave behind for numbering, next to the graph they were
      given. */
  ghost predicate Optimized(s0: State, s: State, drv: Drivers, outs: seq<nat>, pruned: bool) {
    && Compilable(s, drv) && Unnumbered(s) && InputsApart(s) && OutsOk(s, outs) && OutsDriven(s, drv, outs)
    && s.k == s0.k <= |s0.wires| && Models(s0.table, s.table, |s0.wires|)
    && (forall i :: 0 <= i < |outs| ==> outs[i] < |s0.wires|)
    && (pruned ==> forall j :: 0 <= j < |s.table| ==> (s.table[j].dead <==> Loose(s, j)))
  }

  /** The three passes in the order of the compiler; pruning is an option. */
  method Optimize(cc: Compiler, outs: seq<nat>, prune: bool) returns (ghost drv: Drivers)
    requires cc.G().Built() && ConstantsFirst(cc.G()) && Finishable(cc.G(), outs)
    modifies cc
    ensures Optimized(old(cc.G()), cc.G(), drv, outs, prune)
  {
    hide State.Built, ConstantsFirst, Finishable, Progress, OutputsApart, Fresh, Passing, Compilable, Covered, Plain, OutsKept;
    hide Unnumbered, OutsDriven, Sat, Loose, Models, OutsOk, InputsApart;
    ghost var s0 := cc.G();
    OpenFinishable(s0, outs);
    ConstPropagate(cc);
    ghost var s1 := cc.G();
    AfterPropagation(s0, s1, outs);
    SameWires(s0, s1);
    drv := ShortCircuitXORZero(cc, s0.table);
    ghost var s2 := cc.G();
    AfterBypass(s0, s1, s2, drv, outs);
    WiresKept(s0, s1, s2, drv, outs);
    if prune {
      var pruned, gates := PruneGates(cc, drv);
      AfterPrune(s0, s2, cc.G(), drv, outs);
      DeadModels(s0.table, s2, cc.G(), |s1.wires|);
    }
    OpenKept(s0, cc.G(), outs);
  }

  lemma SameWires(s0: State, s: State)
    requires Progress(s0, s, |s.table|)
    ensures |s.wires| == |s0.wires|
  {
  }

  /** The back end.  For every graph that was built from the constants on, with
      its outputs marked, and with or without pruning: the circuit computes, on
      all input bits, what the graph says about the output wires; it is fit for
      garbling; and after pruning none of its gates is wasted. */
  method CompileCircuit(cc: Compiler, outs: seq<nat>, inputs: seq<IOArg>, outputs: seq<IOArg>, prune: bool) returns (c: Circuit)
    requires cc.G().Built() && ConstantsFirst(cc.G()) && Finishable(cc.G(), outs)
    requires Size(inputs) == cc.k == Sum(Flatten(inputs)) && Size(outputs) == |outs|
    modifies cc
    ensures c.inputs == inputs && c.outputs == outputs
    ensures Runnable(c) && InputsUntouched(c.gates, Size(c.inputs))
    ensures forall asg, bits :: Sat(old(cc.table), asg) && InputBitsOf(bits, asg, cc.k) ==>
              Meaning(c, bits) == OutputBits(outs, asg)
    ensures prune ==> NoWaste(c)
  {
    hide State.Built, ConstantsFirst, Finishable, Compilable, Optimized;
    hide Unnumbered, InputsApart, OutsOk, OutsDriven, Compiled, Sat, Size, Sum, Flatten, InOrder, OutputsAssigned, NoWaste, InputsUntouched;
    ghost var s0 := cc.G();
    ghost var drv := Optimize(cc, outs, prune);
    ghost var s3 := cc.G();
    OpenOptimized(s0, s3, drv, outs, prune);
    var n := new Numbering(cc);
    ghost var order;
    c, order := n.Compile(outs, inputs, outputs, drv);
    CircuitMeans(s0, s3, drv, outs, prune, c, order, n.owner);
  }

  lemma CircuitMeans(s0: State, s3: State, drv: Drivers, outs: seq<nat>, prune: bool, c: Circuit, order: seq<nat>, owner: seq<nat>)
    requires Optimized(s0, s3, drv, outs, prune) && Compiled(s3, drv, outs, c.gates, order, owner) && c.numWires == |owner|
    requires Size(c.inputs) == s0.k == Sum(Flatten(c.inputs)) && Size(c.outputs) == |outs|
    ensures Runnable(c) && InputsUntouched(c.gates, Size(c.inputs)) && (prune ==> NoWaste(c))
    ensures forall asg, bits :: Sat(s0.table, asg) && InputBitsOf(bits, asg, s0.k) ==> Meaning(c, bits) == OutputBits(outs, asg)
  {
    hide Compilable, Unnumbered, InputsApart, OutsOk, OutsDriven, Compiled, Sat, Size, Sum, Flatten, InOrder, OutputsAssigned, NoWaste;
    hide InputsUntouched, Models, Loose, Meaning;
    CompiledRuns(s3, drv, outs, c, order, owner);
    if prune {
      PrunedNoWaste(s3, drv, outs, c, order, owner);
    }
    forall asg, bits | Sat(s0.table, asg) && InputBitsOf(bits, asg, s0.k)
      ensures Meaning(c, bits) == OutputBits(outs, asg)
    {
      SameMeaning(s0, s3, drv, outs, c, order, owner, asg, bits);
    }
  }

  lemma OpenOptimized(s0: State, s: State, drv: Drivers, outs: seq<nat>, pruned: bool)
    requires Optimized(s0, s, drv, outs, pruned)
    ensures Compilable(s, drv) && Unnumbered(s) && InputsApart(s) && OutsOk(s, outs) && OutsDriven(s, drv, outs) && s.k == s0.k
  {
  }

  lemma OpenFinishable(s: State, outs: seq<nat>)
    requires Finishable(s, outs)
    ensures OutputsApart(s) && OutsOk(s, outs)
    ensures forall i :: 0 <= i < |outs| ==> outs[i] < |s.wires|
  {
  }

  lemma OpenKept(s0: State, s: State, outs: seq<nat>)
    requires OutsKept(s0, s, outs)
    ensures OutsOk(s, outs) && InputsApart(s) && s.k == s0.k && |s0.wires| <= |s.wires|
  {
  }

  lemma WiresKept(s0: State, s1: State, s2: State, drv: Drivers, outs: seq<nat>)
    requires Passing(s0.table, s1, s2, drv, 2 * |s2.table|)
    ensures Models(s0.table, s2.table, |s1.wires|)
  {
  }

  lemma SameMeaning(s0: State, s3: State, drv: Drivers, outs: seq<nat>, c: Circuit, order: seq<nat>, owner: seq<nat>,
                    asg: Asg, bits: seq<bool>)
    requires Compiled(s3, drv, outs, c.gates, order, owner) && Compilable(s3, drv) && OutsOk(s3, outs) && OutsDriven(s3, drv, outs)
    requires c.numWires == |owner| && Runnable(c) && Size(c.outputs) == |outs|
    requires Models(s0.table, s3.table, |s0.wires|) && Sat(s0.table, asg)
    requires s3.k == s0.k <= |s0.wires| && InputBitsOf(bits, asg, s0.k) && Size(c.inputs) == s0.k
    requires forall i :: 0 <= i < |outs| ==> outs[i] < |s0.wires|
    ensures Meaning(c, bits) == OutputBits(outs, asg)
  {
    hide Compiled, Compilable, OutsDriven, Sat, OutsOk, Size, InOrder, OutputsAssigned;
    var u :| Sat(s3.table, u) && Agree(asg, u, |s0.wires|);
    CompiledMeaning(s3, drv, outs, c, order, owner, u, bits);
    assert OutputBits(outs, u) == OutputBits(outs, asg);
  }

  // ----- The circuit under garbling -----

  /** The whole way: whatever a built graph says about its outputs is what the
      evaluator's labels decode to, for any cipher, offset and random labels. */
  lemma GarbledGraph(table: seq<Node>, outs: seq<nat>, k: nat, c: Circuit, asg: Asg, bits: seq<bool>,
                     pi: Cipher, r: Label, drawn: seq<Label>, labels: seq<Label>)
    requires Runnable(c) && InputsUntouched(c.gates, Size(c.inputs)) && Size(c.inputs) == k && Size(c.outputs) == |outs|
    requires forall asg, bits :: Sat(table, asg) && InputBitsOf(bits, asg, k) ==> Meaning(c, bits) == OutputBits(outs, asg)
    requires Sat(table, asg) && InputBitsOf(bits, asg, k)
    requires S(r) && |drawn| >= k && |labels| == c.numWires
    requires var w := GarbleRun(pi, r, c.gates, InitialLabels(c.numWires, |bits|, r, drawn)).wires;
             forall i :: 0 <= i < |bits| ==> labels[i] == LabelForBit(w[i], bits[i])
    ensures var g := GarbleRun(pi, r, c.gates, InitialLabels(c.numWires, |bits|, r, drawn));
            var e := EvalRun(pi, c.gates, g.tables, labels);
            e.Ok? && |e.value.wires| == c.numWires &&
            forall j :: 0 <= j < |outs| ==>
              BitFromLabel(g.wires[Garble.OutputWire(c, j)], e.value.wires[Garble.OutputWire(c, j)]) == Bit(outs[j] in asg)
  {
    hide GarbleRun, EvalRun, Size, Sat, Meaning, InOrder, OutputsAssigned, InitialLabels;
    UntouchedReads(c.gates, k);
    GarblingComputes(c, pi, r, drawn, bits, labels);
    assert forall j :: 0 <= j < |outs| ==> Meaning(c, bits)[j] == (outs[j] in asg);
  }
}
