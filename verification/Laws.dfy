/** What the instructions and their programs do, by numbers, by places and by the
    equations that a run solves. */
module Laws {
  import opened Nat
  import opened Circuit
  import opened Graph
  import opened Bitwise
  import opened Division
  import opened Ssa
  import opened Widths
  import Native
  import Garble
  import Bindings

  // ----- Single bits -----

  function At(u: seq<bool>, i: nat): nat {
    if i < |u| && u[i] then 1 else 0
  }

  /** The bitwise operations on operands of any width, by the numbers of the bits. */
  lemma BitwiseAt(u: seq<bool>, v: seq<bool>, n: nat, i: nat)
    requires i < n
    ensures At(BitwiseBits(BitAnd, u, v, n), i) == At(u, i) * At(v, i)
    ensures At(BitwiseBits(BitOr, u, v, n), i) == At(u, i) + At(v, i) - At(u, i) * At(v, i)
    ensures At(BitwiseBits(BitXor, u, v, n), i) == (At(u, i) + At(v, i)) % 2
    ensures At(BitwiseBits(BitClear, u, v, n), i) == At(u, i) * (1 - At(v, i))
  {
  }

  /** Of numbers of one width, conjunction and disjunction add up to the operands,
      and conjunction and clearing to the first. */
  lemma {:induction false} BitwiseSums(u: seq<bool>, v: seq<bool>)
    requires |u| == |v|
    ensures FromBits(BitwiseBits(BitAnd, u, v, |u|)) + FromBits(BitwiseBits(BitOr, u, v, |u|)) == FromBits(u) + FromBits(v)
    ensures FromBits(BitwiseBits(BitAnd, u, v, |u|)) + FromBits(BitwiseBits(BitClear, u, v, |u|)) == FromBits(u)
    ensures FromBits(BitwiseBits(BitAnd, u, v, |u|)) + FromBits(BitwiseBits(BitXor, u, v, |u|)) == FromBits(BitwiseBits(BitOr, u, v, |u|))
  {
    if u != [] {
      var n := |u| - 1;
      BitwiseSums(u[..n], v[..n]);
      LastBit(BitAnd, u, v);
      LastBit(BitOr, u, v);
      LastBit(BitXor, u, v);
      LastBit(BitClear, u, v);
      hide BitwiseBits;
    }
  }

  lemma LastBit(op: BitOp, u: seq<bool>, v: seq<bool>)
    requires 0 < |u| == |v|
    ensures var n := |u| - 1;
            FromBits(BitwiseBits(op, u, v, |u|)) == FromBits(BitwiseBits(op, u[..n], v[..n], n)) + Nat.Bit(BitMeans(op, u[n], v[n])) * Pow2(n)
  {
    var n := |u| - 1;
    assert BitwiseBits(op, u, v, |u|)[..n] == BitwiseBits(op, u[..n], v[..n], n);
  }

  /** Negation is the distance from the largest number. */
  lemma {:induction false} NotMeans(u: seq<bool>, n: nat)
    requires n <= |u|
    ensures FromBits(NotBits(u, n)) == Pow2(n) - 1 - FromBits(u) % Pow2(n)
  {
    FromBitsTake(u, n);
    NotOfAll(u, n);
  }

  lemma {:induction false} NotOfAll(u: seq<bool>, n: nat)
    requires n <= |u|
    ensures FromBits(NotBits(u, n)) + FromBits(u[..n]) == Pow2(n) - 1
  {
    if n > 0 {
      NotOfAll(u, n - 1);
      assert NotBits(u, n)[..n - 1] == NotBits(u, n - 1) && u[..n][..n - 1] == u[..n - 1];
    }
  }

  /** A bit test asks whether the number over 2^index is odd. */
  lemma TestMeans(env: Env, instr: Instr)
    requires instr.BitTest? && Typed(instr) && instr.a.key in env
    ensures Operands(instr) == [instr.a]
    ensures Outcome(env, instr) == [((FromBits(Read(env, instr.a)) / Pow2(instr.index)) % 2 == 1) == instr.wanted]
  {
    hide FromBits, Pow2;
    var u := Read(env, instr.a);
    if instr.index < |u| {
      BitsOfNumber(u, instr.index);
    } else {
      FromBitsBound(u);
      Pow2Mono(|u|, instr.index);
      ModSmall(FromBits(u), Pow2(instr.index));
    }
  }

  // ----- Numbers -----

  /** Unsigned division at the wider width, with what a zero divisor gives. */
  lemma UnsignedDivision(u: seq<bool>, v: seq<bool>)
    requires Max(|u|, |v|) > 0
    ensures var n, a, b := Max(|u|, |v|), FromBits(u), FromBits(v);
            var q, r := FromBits(ArithBits(Udiv, u, v, n)), FromBits(ArithBits(Umod, u, v, n));
            if b > 0 then a == q * b + r && r < b else q == Pow2(n) - 1 && r == a
  {
    hide FromBits, ToBits;
    var n, a, b := Max(|u|, |v|), FromBits(u), FromBits(v);
    FromBitsBound(u);
    FromBitsBound(v);
    Pow2Mono(|u|, n);
    Pow2Mono(|v|, n);
    NumberOfToBits(Quot(a, b, n), n);
    NumberOfToBits(Rem(a, b), n);
    RemBound(a, b);
    if b > 0 {
      QuotRem(a, b, n);
      QuotientBound(a, b, Quot(a, b, n), Rem(a, b));
    }
    ModSmall(Quot(a, b, n), Pow2(n));
    ModSmall(Rem(a, b), Pow2(n));
  }

  /** The six comparisons at 1 and 2, 2 and 2, 2 and 1. */
  lemma Orders(signed: bool)
    ensures var one, two := [true, false, false], [false, true, false];
            && Compared(Lt, signed, one, two) && !Compared(Lt, signed, two, two) && !Compared(Lt, signed, two, one)
            && Compared(Le, signed, one, two) && Compared(Le, signed, two, two) && !Compared(Le, signed, two, one)
            && !Compared(Gt, signed, one, two) && !Compared(Gt, signed, two, two) && Compared(Gt, signed, two, one)
            && !Compared(Ge, signed, one, two) && Compared(Ge, signed, two, two) && Compared(Ge, signed, two, one)
            && !Compared(Eq, signed, one, two) && Compared(Eq, signed, two, two) && !Compared(Eq, signed, two, one)
            && Compared(Neq, signed, one, two) && !Compared(Neq, signed, two, two) && Compared(Neq, signed, two, one)
  {
    var one, two := [true, false, false], [false, true, false];
    assert Fit(one, 3, false) == one && Fit(two, 3, false) == two;
    ThreeBits(true, false, false);
    ThreeBits(false, true, false);
  }

  lemma ThreeBits(a: bool, b: bool, c: bool)
    ensures FromBits([a, b, c]) == Nat.Bit(a) + 2 * Nat.Bit(b) + 4 * Nat.Bit(c) && Pow2(2) == 4 && Pow2(3) == 8
  {
    assert [a, b, c][..2] == [a, b] && [a, b][..1] == [a] && [a][..0] == [];
    assert Pow2(0) == 1 && Pow2(1) == 2;
    assert FromBits([a]) == Nat.Bit(a) && FromBits([a, b]) == FromBits([a]) + Nat.Bit(b) * 2;
  }

  /** An operand used at another width: the value stays when it is widened with its
      own sign, and is cut when it is narrowed. */
  lemma FitMeans(v: seq<bool>, n: nat, signed: bool)
    ensures 0 < |v| <= n ==> NumberOf(Fit(v, n, signed), signed) == NumberOf(v, signed)
    ensures n <= |v| ==> FromBits(Fit(v, n, signed)) == FromBits(v) % Pow2(n)
  {
    hide FromBits, Pow2;
    if n <= |v| {
      assert Fit(v, n, signed) == v[..n];
      FromBitsTake(v, n);
      assert v[..|v|] == v;
    }
    if 0 < |v| <= n {
      Widened(v, n, signed);
    }
  }

  lemma Widened(v: seq<bool>, n: nat, signed: bool)
    requires 0 < |v| <= n
    ensures NumberOf(Fit(v, n, signed), signed) == NumberOf(v, signed)
  {
    hide FromBits;
    var key := Key(false, "", 0, 0, None);
    var a, out := Operand(key, |v|, signed), Operand(key, n, signed);
    assert CopyBits(v, Mov(a, signed, out)) == Fit(v, n, signed);
    MovWidens(a, signed, out, v);
  }

  /** The element that an index below the number of elements selects. */
  lemma SelectedMeans(v: seq<bool>, size: nat, n: nat, index: seq<bool>)
    requires size > 0 && |v| == n * size && FromBits(index) < n
    ensures var at := FromBits(index) * size;
            0 <= at <= at + size <= |v| && Selected(v, size, index, size) == v[at..at + size]
  {
    hide FromBits, Pow2, IndexBits, ElementBits;
    var j := FromBits(index);
    ElementMeans(v, size, n, j);
    Elements(|v|, size, n);
    ModSmall(j, Pow2(IndexBits(n)));
    var e := ElementBits(v, size, j);
    assert Selected(v, size, index, size) == Fit(e, size, false);
    assert Fit(e, size, false) == e;
  }

  lemma Elements(length: nat, size: nat, n: nat)
    requires size > 0 && length == n * size
    ensures length / size == n
  {
    assert n * size == size * n;
    DivModUnique(length, size, n, 0);
  }

  // ----- Runs -----

  lemma OutcomeFrame(env: Env, more: Env, instr: Instr)
    requires Typed(instr) && forall o :: o in Operands(instr) ==> o.key in env && o.key in more && more[o.key] == env[o.key]
    ensures Outcome(more, instr) == Outcome(env, instr)
  {
    hide ArithBits, Compared, Fit, Selected, BitwiseBits, NotBits, TestedBit, CircuitBits, CopyBits, Native.Embeddable;
    var ops := Operands(instr);
    assert forall j :: 0 <= j < |ops| ==> ops[j] in ops;
    if instr.Circ? {
      assert ReadAll(more, ops) == ReadAll(env, ops);
    }
  }

  /** What was defined before a run is as it was after it. */
  lemma {:induction false} ExecKeeps(steps: seq<Instr>, env: Env, k: Key)
    requires WellFormed(steps, env.Keys) && k in env
    ensures k in Exec(steps, env) && Exec(steps, env)[k] == env[k]
    decreases |steps|
  {
    hide Outcome, Typed;
    if steps != [] {
      var next := env[steps[0].out.key := Outcome(env, steps[0])];
      assert next.Keys == env.Keys + {steps[0].out.key};
      ExecKeeps(steps[1..], next, k);
    }
  }

  /** The equation of step `i` in an environment. */
  ghost predicate Solves(env: Env, steps: seq<Instr>, i: nat)
    requires i < |steps|
  {
    && Typed(steps[i]) && (forall o :: o in Operands(steps[i]) ==> o.key in env)
    && steps[i].out.key in env && env[steps[i].out.key] == Outcome(env, steps[i])
  }

  /** A run ends where every output is what its instruction makes of the final
      values of its operands. */
  lemma {:induction false} ExecSolves(steps: seq<Instr>, env: Env, i: nat)
    requires WellFormed(steps, env.Keys) && i < |steps|
    ensures Solves(Exec(steps, env), steps, i)
    decreases |steps|
  {
    hide Outcome, Typed;
    var next := env[steps[0].out.key := Outcome(env, steps[0])];
    assert next.Keys == env.Keys + {steps[0].out.key};
    var final := Exec(steps[1..], next);
    if i > 0 {
      ExecSolves(steps[1..], next, i - 1);
    } else {
      forall o | o in Operands(steps[0]) ensures o.key in final && final[o.key] == env[o.key] {
        ExecKeeps(steps[1..], next, o.key);
      }
      ExecKeeps(steps[1..], next, steps[0].out.key);
      OutcomeFrame(env, final, steps[0]);
    }
  }

  /** The phi of the bindings is the phi instruction: on numbers, in every valuation
      of the values of a run. */
  lemma PhiIsInstruction(env: Env, instr: Instr, vals: Bindings.Vals)
    requires instr.Phi? && Typed(instr) && forall o :: o in Operands(instr) ==> o.key in env
    requires forall o :: o in Operands(instr) ==> Bindings.Val(vals, o.key) == FromBits(Read(env, o))
    requires Bindings.Val(vals, instr.out.key) == FromBits(Outcome(env, instr))
    ensures Bindings.PhiHolds(vals, Bindings.PhiInstr(Bindings.Value(instr.cond.key, 1), Bindings.Value(instr.a.key, instr.a.bits),
                                                      Bindings.Value(instr.b.key, instr.b.bits), Bindings.Value(instr.out.key, instr.out.bits)))
  {
    hide FromBits;
    assert Operands(instr) == [instr.cond, instr.a, instr.b];
    assert instr.cond in Operands(instr) && instr.a in Operands(instr) && instr.b in Operands(instr);
    PhiKeepsNumber(env, instr);
    OneBit(Read(env, instr.cond));
  }

  lemma OneBit(u: seq<bool>)
    requires |u| == 1
    ensures FromBits(u) == if u[0] then 1 else 0
  {
    assert u[..0] == [];
  }

  // ----- Native circuits -----

  /** Bit `j` of argument `i` stands behind the widths of the earlier arguments; what
      the argument leaves of its width is zero. */
  lemma {:induction false} FilledAt(inputs: seq<IOArg>, args: seq<seq<bool>>, i: nat, j: nat)
    requires |args| == |inputs| && forall x :: 0 <= x < |args| ==> |args[x]| <= inputs[x].bits
    requires i < |args| && j < inputs[i].bits
    ensures Size(inputs[..i]) + j < Size(inputs)
    ensures Native.Filled(inputs, args)[Size(inputs[..i]) + j] == (j < |args[i]| && args[i][j])
    decreases |args|
  {
    var n := |args| - 1;
    var init := Native.Filled(inputs[..n], args[..n]);
    var pad := seq(inputs[n].bits - |args[n]|, x => false);
    assert Native.Filled(inputs, args) == init + args[n] + pad && Size(inputs) == Size(inputs[..n]) + inputs[n].bits;
    if i < n {
      FilledAt(inputs[..n], args[..n], i, j);
      assert inputs[..n][..i] == inputs[..i];
    }
    hide Native.Filled, Size;
  }

  // ----- Plain evaluation -----

  /** The inputs are the first wires, the outputs the last, and the others start
      as 0. */
  lemma MeaningAt(c: Circuit, bits: seq<bool>)
    requires c.InRange() && |bits| <= c.numWires
    ensures |InitialWires(c, bits)| == c.numWires
    ensures forall w :: 0 <= w < c.numWires ==> InitialWires(c, bits)[w] == (w < |bits| && bits[w])
    ensures forall j :: 0 <= j < Size(c.outputs) ==>
              Meaning(c, bits)[j] == RunGates(c.gates, InitialWires(c, bits))[c.numWires - Size(c.outputs) + j]
  {
  }

  /** In a circuit in topological order that writes no wire twice and no input, every
      gate's equation holds of the final wires, and the inputs are as they were. */
  lemma {:induction false} RunSolves(gates: seq<Gate>, k: nat, wires: seq<bool>)
    requires forall g :: g in gates ==> g.input0 < |wires| && g.input1 < |wires| && g.output < |wires|
    requires Garble.InOrder(gates, k) && Garble.WrittenOnce(gates) && Garble.InputsUntouched(gates, k)
    ensures forall i :: 0 <= i < |gates| ==> GateHolds(RunGates(gates, wires), gates[i])
    ensures forall w :: 0 <= w < |wires| && !Garble.Written(gates, w) ==> RunGates(gates, wires)[w] == wires[w]
  {
    if gates != [] {
      var n := |gates| - 1;
      var init, g := gates[..n], gates[n];
      InitInOrder(gates, k);
      RunSolves(init, k, wires);
      var before, after := RunGates(init, wires), RunGates(gates, wires);
      assert gates == init + [g] && g in gates;
      assert after == before[g.output := Apply(g.op, before[g.input0], before[g.input1])];
      hide RunGates, Apply, Garble.InOrder, Garble.WrittenOnce, Garble.InputsUntouched, GateHolds;
      forall i | 0 <= i < |gates| ensures GateHolds(after, gates[i]) {
        LaterElsewhere(gates, k, i);
        if i < n {
          assert init[i] == gates[i];
          OldHolds(before, g, gates[i], after);
        } else {
          NewHolds(before, g, after);
        }
      }
      forall w | 0 <= w < |wires| && !Garble.Written(gates, w) ensures after[w] == wires[w] {
        assert !Garble.Written(init, w);
      }
    }
  }

  lemma OldHolds(before: seq<bool>, g: Gate, h: Gate, after: seq<bool>)
    requires g.output < |before| && GateHolds(before, h)
    requires g.output != h.input0 && (h.op != INV ==> g.output != h.input1) && g.output != h.output
    requires g.input0 < |before| && g.input1 < |before|
    requires after == before[g.output := Apply(g.op, before[g.input0], before[g.input1])]
    ensures GateHolds(after, h)
  {
    hide Apply;
  }

  lemma NewHolds(before: seq<bool>, g: Gate, after: seq<bool>)
    requires g.output < |before| && g.input0 < |before| && g.input1 < |before|
    requires g.output != g.input0 && (g.op != INV ==> g.output != g.input1)
    requires after == before[g.output := Apply(g.op, before[g.input0], before[g.input1])]
    ensures GateHolds(after, g)
  {
  }

  predicate GateHolds(ws: seq<bool>, g: Gate) {
    && g.input0 < |ws| && g.input1 < |ws| && g.output < |ws|
    && (g.op == INV ==> ws[g.output] == !ws[g.input0])
    && (g.op != INV ==> ws[g.output] == Apply(g.op, ws[g.input0], ws[g.input1]))
  }

  lemma InitInOrder(gates: seq<Gate>, k: nat)
    requires gates != [] && Garble.InOrder(gates, k) && Garble.WrittenOnce(gates) && Garble.InputsUntouched(gates, k)
    ensures var init := gates[..|gates| - 1];
            Garble.InOrder(init, k) && Garble.WrittenOnce(init) && Garble.InputsUntouched(init, k) && forall g :: g in init ==> g in gates
  {
    hide Garble.Assigned;
    var init := gates[..|gates| - 1];
    assert forall i :: 0 <= i < |init| ==> init[..i] == gates[..i];
  }

  /** The last gate writes no wire that gate `i` reads or an earlier one writes. */
  lemma LaterElsewhere(gates: seq<Gate>, k: nat, i: nat)
    requires Garble.InOrder(gates, k) && Garble.WrittenOnce(gates) && Garble.InputsUntouched(gates, k) && i < |gates|
    ensures var o := gates[|gates| - 1].output;
            && o != gates[i].input0 && (gates[i].op != INV ==> o != gates[i].input1) && (i < |gates| - 1 ==> o != gates[i].output)
  {
    var last := gates[|gates| - 1];
    NotEarlier(gates, k, i, gates[i].input0);
    if gates[i].op != INV {
      NotEarlier(gates, k, i, gates[i].input1);
    }
  }

  lemma NotEarlier(gates: seq<Gate>, k: nat, i: nat, w: nat)
    requires Garble.WrittenOnce(gates) && Garble.InputsUntouched(gates, k) && i < |gates| && Garble.Assigned(gates[..i], k, w)
    ensures w != gates[|gates| - 1].output
  {
    if w >= k {
      var g :| g in gates[..i] && g.output == w;
      var x :| 0 <= x < i && gates[x] == g;
    } else {
      assert gates[|gates| - 1] in gates;
    }
  }
}
