/** The array multiplier (compiler/circuits/circ_multiplier.go). */
module Multiplier {
  import opened Nat
  import opened Circuit
  import opened Graph
  import opened Compiler
  import opened Adder

  // ----- Adding one row of partial products -----

  function Carry(asg: Asg, c: Opt<nat>): nat {
    if c.Some? then B(asg, c.value) else 0
  }

  /** `i` columns of ands + sums are on `outs`, with the carry on `c`; the sums
      may be one column shorter than the ands. */
  predicate RowDone(asg: Asg, ands: seq<nat>, sums: seq<nat>, outs: seq<nat>, i: nat, c: Opt<nat>) {
    && i <= |ands| && |outs| == i
    && Num(asg, outs) + Carry(asg, c) * Pow2(i) == Num(asg, ands[..i]) + Num(asg, sums[..Min(i, |sums|)])
  }

  lemma RowStep(asg: Asg, ands: seq<nat>, sums: seq<nat>, outs: seq<nat>, i: nat, c: Opt<nat>, s: nat, cout: nat)
    requires i < |ands| && RowDone(asg, ands, sums, outs, i, c)
    requires var y := if i < |sums| then B(asg, sums[i]) else 0;
             Sums(asg, B(asg, ands[i]) + y + Carry(asg, c), s, Some(cout))
    ensures RowDone(asg, ands, sums, outs + [s], i + 1, Some(cout))
  {
    hide Num, B;
    var y := if i < |sums| then B(asg, sums[i]) else 0;
    NumSnoc(asg, ands, i);
    NumSnoc(asg, outs + [s], i);
    assert (outs + [s])[..i] == outs && (outs + [s])[..i + 1] == outs + [s];
    if i < |sums| {
      NumSnoc(asg, sums, i);
    }
    CarryStep(Pow2(i), Num(asg, outs), Num(asg, ands[..i]), Num(asg, sums[..Min(i, |sums|)]),
              B(asg, ands[i]), y, Carry(asg, c), B(asg, s), B(asg, cout));
  }

  /** One column: a half adder in the first and in a missing column of sums. */
  method AddColumn(cc: Compiler, and: nat, sums: seq<nat>, i: nat, c: Opt<nat>, s: nat, cout: nat)
    requires cc.G().Built() && cc.G().Driven(and) && cc.G().AllDriven(sums)
    requires i == 0 ==> c == None && |sums| > 0
    requires i > 0 ==> c.Some? && cc.G().Driven(c.value)
    requires cc.G().Open(s) && cc.G().Open(cout) && s != cout
    modifies cc
    ensures cc.G().Built() && Grows(old(cc.G()), cc.G(), {s, cout}) && cc.G().Driven(s) && cc.G().Driven(cout)
    ensures forall asg :: Sat(cc.table, asg) ==>
              var y := if i < |sums| then B(asg, sums[i]) else 0;
              Sums(asg, B(asg, and) + y + Carry(asg, c), s, Some(cout))
  {
    hide State.Built, Sat, State.Driven, Sums;
    if i == 0 {
      NewHalfAdder(cc, and, sums[i], s, Some(cout));
    } else if i >= |sums| {
      NewHalfAdder(cc, and, c.value, s, Some(cout));
    } else {
      NewFullAdder(cc, and, sums[i], c.value, s, Some(cout));
    }
  }

  /** All the products of `x` with one bit of y. */
  method AndRow(cc: Compiler, x: seq<nat>, y: nat) returns (ands: seq<nat>)
    requires cc.G().Built() && cc.G().AllDriven(x) && cc.G().Driven(y)
    modifies cc
    ensures cc.G().Built() && Grows(old(cc.G()), cc.G(), {}) && cc.G().AllDriven(ands) && |ands| == |x|
    ensures forall asg :: Sat(cc.table, asg) ==> Num(asg, ands) == Num(asg, x) * B(asg, y)
  {
    hide State.Built, Sat, State.Driven, Num, B;
    ands := [];
    ghost var s0 := cc.G();
    GrowsRefl(s0);
    forall asg ensures Num(asg, []) == Num(asg, x[..0]) * B(asg, y) {
      NoProducts(asg, x, y);
    }
    for i := 0 to |x|
      invariant cc.G().Built() && Grows(s0, cc.G(), {}) && cc.G().AllDriven(ands) && |ands| == i
      invariant forall asg :: Sat(cc.table, asg) ==> Num(asg, ands) == Num(asg, x[..i]) * B(asg, y)
    {
      ghost var s1 := cc.G();
      var w := cc.Emit(AND, x[i], y);
      GrowsTrans(s0, s1, cc.G(), {}, {});
      forall asg | Sat(cc.table, asg)
        ensures Num(asg, ands + [w]) == Num(asg, x[..i + 1]) * B(asg, y)
      {
        LastGate(s1.table, cc.table, NewNode(AND, x[i], y, w), asg);
        ProductStep(asg, x, y, i, ands, w);
      }
      ands := ands + [w];
    }
    assert x[..|x|] == x;
  }

  lemma NoProducts(asg: Asg, x: seq<nat>, y: nat)
    ensures Num(asg, []) == Num(asg, x[..0]) * B(asg, y)
  {
  }

  lemma ProductStep(asg: Asg, x: seq<nat>, y: nat, i: nat, ands: seq<nat>, w: nat)
    requires i < |x| && |ands| == i && Num(asg, ands) == Num(asg, x[..i]) * B(asg, y)
    requires Holds(NewNode(AND, x[i], y, w), asg)
    ensures Num(asg, ands + [w]) == Num(asg, x[..i + 1]) * B(asg, y)
  {
    NumSnoc(asg, x, i);
    NumSnoc(asg, ands + [w], i);
    assert (ands + [w])[..i] == ands && (ands + [w])[..i + 1] == ands + [w];
  }

  /** An intermediate layer: z_j + 2 * result is ands + sums. */
  method AddRow(cc: Compiler, ands: seq<nat>, sums: seq<nat>, zj: nat) returns (r: seq<nat>)
    requires cc.G().Built() && cc.G().AllDriven(ands) && cc.G().AllDriven(sums) && cc.G().Open(zj)
    requires |ands| >= 2 && |ands| - 1 <= |sums| <= |ands|
    modifies cc
    ensures cc.G().Built() && Grows(old(cc.G()), cc.G(), {zj}) && cc.G().Driven(zj)
    ensures |r| == |ands| && cc.G().AllDriven(r)
    ensures forall asg :: Sat(cc.table, asg) ==> B(asg, zj) + 2 * Num(asg, r) == Num(asg, ands) + Num(asg, sums)
  {
    hide State.Built, Sat, State.Driven, Num, B, Sums, RowDone;
    ghost var s0 := cc.G();
    GrowsRefl(s0);
    GrowsWiden(s0, s0, {zj});
    var outs, c := [], None;
    forall asg ensures RowDone(asg, ands, sums, [], 0, None) {
      RowStart(asg, ands, sums);
    }
    for i := 0 to |ands|
      invariant cc.G().Built() && Grows(s0, cc.G(), {zj})
      invariant |outs| == i && (i == 0 ==> c == None && cc.G().Open(zj))
      invariant i > 0 ==> outs[0] == zj && c.Some? && cc.G().Driven(c.value)
      invariant cc.G().AllDriven(outs)
      invariant forall asg :: Sat(cc.table, asg) ==> RowDone(asg, ands, sums, outs, i, c)
    {
      ghost var s1 := cc.G();
      var cout := cc.NewWire();
      ghost var s2 := cc.G();
      var s := zj;
      if i > 0 {
        s := cc.NewWire();
      }
      ghost var s3 := cc.G();
      GrowsTrans(s0, s1, s2, {zj}, {});
      GrowsChain(s0, s2, s3, {zj});
      AddColumn(cc, ands[i], sums, i, c, s, cout);
      GrowsTrans(s0, s3, cc.G(), {zj}, {s, cout});
      forall asg | Sat(cc.table, asg)
        ensures RowDone(asg, ands, sums, outs + [s], i + 1, Some(cout))
      {
        SatPrefix(s1.table, cc.table, asg);
        RowStep(asg, ands, sums, outs, i, c, s, cout);
      }
      outs, c := outs + [s], Some(cout);
    }
    r := outs[1..] + [c.value];
    forall asg | Sat(cc.table, asg)
      ensures B(asg, zj) + 2 * Num(asg, r) == Num(asg, ands) + Num(asg, sums)
    {
      RowEnd(asg, ands, sums, outs, c.value);
    }
  }

  lemma RowStart(asg: Asg, ands: seq<nat>, sums: seq<nat>)
    ensures RowDone(asg, ands, sums, [], 0, None)
  {
  }

  lemma RowEnd(asg: Asg, ands: seq<nat>, sums: seq<nat>, outs: seq<nat>, c: nat)
    requires RowDone(asg, ands, sums, outs, |ands|, Some(c)) && |ands| > 0 && |sums| <= |ands|
    ensures B(asg, outs[0]) + 2 * Num(asg, outs[1..] + [c]) == Num(asg, ands) + Num(asg, sums)
  {
    hide Num, Pow2, B, RowDone;
    RowTotal(asg, ands, sums, outs, c);
    SnocValue(asg, outs, c);
    assert outs + [c] == [outs[0]] + (outs[1..] + [c]);
    HeadValue(asg, outs[0], outs[1..] + [c]);
  }

  lemma RowTotal(asg: Asg, ands: seq<nat>, sums: seq<nat>, outs: seq<nat>, c: nat)
    requires RowDone(asg, ands, sums, outs, |ands|, Some(c)) && |ands| > 0 && |sums| <= |ands|
    ensures |outs| == |ands| && Num(asg, outs) + B(asg, c) * Pow2(|outs|) == Num(asg, ands) + Num(asg, sums)
  {
    hide Num, Pow2, B;
    assert ands[..|ands|] == ands && sums[..|sums|] == sums;
  }

  // ----- The final layer -----

  /** Adds the last row into z[j..]; stops driving when z ends.  The carry out
      of the last column goes to `top` when there is one. */
  method FinalRow(cc: Compiler, x: seq<nat>, y: nat, sums: seq<nat>, z: seq<nat>, top: Opt<nat>)
    requires cc.G().Built() && cc.G().AllDriven(x) && cc.G().Driven(y) && cc.G().AllDriven(sums)
    requires |x| >= 2 && |x| - 1 <= |sums| <= |x|
    requires 0 < |z| <= |x| && (top.Some? ==> |z| == |x|)
    requires cc.G().Free(z + (if top.Some? then [top.value] else []))
    modifies cc
    ensures cc.G().Built() && Grows(old(cc.G()), cc.G(), SetOf(z) + Wires(top))
    ensures cc.G().AllDriven(z) && (top.Some? ==> cc.G().Driven(top.value))
    ensures forall asg :: Sat(cc.table, asg) ==> Finished(asg, x, y, sums, z, top)
  {
    hide State.Built, Sat, State.Driven, State.Open, Grows, Num, B, Sums, RowDone, Finished, FinalSoFar;
    ghost var s0, outs := cc.G(), SetOf(z) + Wires(top);
    RowWires(s0, z, top);
    GrowsRefl(s0);
    GrowsWiden(s0, s0, outs);
    var c: Opt<nat> := None;
    ghost var d: Opt<nat> := None;
    ghost var ands: seq<nat> := [];
    FinalStart(cc.table, x, y, sums, z);
    for i := 0 to |x|
      invariant cc.G().Built() && Grows(s0, cc.G(), outs)
      invariant i == 0 ==> c == None
      invariant i <= |z| ==> d == c
      invariant 0 < i <= |z| ==> c.Some? && cc.G().Driven(c.value)
      invariant cc.G().AllDriven(z[..Min(i, |z|)])
      invariant forall j :: i <= j < |z| ==> cc.G().Open(z[j])
      invariant i < |x| && top.Some? ==> cc.G().Open(top.value)
      invariant i == |x| && top.Some? ==> c == top
      invariant FinalSoFar(cc.table, x, y, sums, z, i, ands, d)
    {
      ghost var s1 := cc.G();
      ghost var zi, ti := if i < |z| then Some(z[i]) else None, if i + 1 >= |x| then top else None;
      KeepsDriven(s0, s1, outs, x);
      KeepsDriven(s0, s1, outs, [y]);
      assert [y][0] == y;
      KeepsDriven(s0, s1, outs, sums);
      var and, cout := FinalColumn(cc, x[i], y, sums, i, c, if i < |z| then Some(z[i]) else None,
                                   if i + 1 >= |x| then top else None);
      ghost var used := Wires(zi) + Wires(ti);
      KeepsDriven(s1, cc.G(), used, z[..Min(i, |z|)]);
      forall j | i + 1 <= j < |z|
        ensures cc.G().Open(z[j])
      {
        KeepsOpen(s1, cc.G(), used, z[j]);
      }
      if i + 1 < |x| && top.Some? {
        KeepsOpen(s1, cc.G(), used, top.value);
      }
      GrowsTrans(s0, s1, cc.G(), outs, used);
      FinalStep(s1.table, cc.table, x, y, sums, z, i, ands, d, and, cout);
      ands := ands + [and];
      d := if i < |z| then Some(cout) else d;
      c := Some(cout);
      assert i < |z| ==> z[..i + 1] == z[..i] + [z[i]];
    }
    FinalEnd(cc.table, x, y, sums, z, ands, d, top);
  }

  lemma RowWires(s: State, z: seq<nat>, top: Opt<nat>)
    requires s.Free(z + (if top.Some? then [top.value] else []))
    ensures forall i, j :: 0 <= i < j < |z| ==> z[i] != z[j]
    ensures forall j :: 0 <= j < |z| ==> s.Open(z[j]) && z[j] in SetOf(z) && Some(z[j]) != top
    ensures top.Some? ==> s.Open(top.value)
  {
    var zt := z + (if top.Some? then [top.value] else []);
    assert forall j :: 0 <= j < |z| ==> zt[j] == z[j];
    assert top.Some? ==> zt[|z|] == top.value;
  }

  /** `i` columns of the last row are made, `d` being the carry of the last
      column that was added. */
  ghost predicate FinalSoFar(t: seq<Node>, x: seq<nat>, y: nat, sums: seq<nat>, z: seq<nat>, i: nat, ands: seq<nat>, d: Opt<nat>) {
    && |ands| == i <= |x|
    && (forall asg :: Sat(t, asg) ==> Num(asg, ands) == Num(asg, x[..i]) * B(asg, y))
    && (forall asg :: Sat(t, asg) ==> RowDone(asg, ands, sums, z[..Min(i, |z|)], Min(i, |z|), d))
  }

  lemma FinalStart(t: seq<Node>, x: seq<nat>, y: nat, sums: seq<nat>, z: seq<nat>)
    ensures FinalSoFar(t, x, y, sums, z, 0, [], None)
  {
    forall asg
      ensures RowDone(asg, [], sums, z[..0], 0, None) && Num(asg, []) == Num(asg, x[..0]) * B(asg, y)
    {
      RowStart(asg, [], sums);
      NoProducts(asg, x, y);
    }
  }

  lemma FinalStep(t: seq<Node>, u: seq<Node>, x: seq<nat>, y: nat, sums: seq<nat>, z: seq<nat>, i: nat, ands: seq<nat>, d: Opt<nat>, and: nat, cout: nat)
    requires FinalSoFar(t, x, y, sums, z, i, ands, d) && i < |x| && t <= u
    requires forall asg :: Sat(u, asg) ==> Holds(NewNode(AND, x[i], y, and), asg)
    requires i < |z| ==> forall asg :: Sat(u, asg) ==>
               var y := if i < |sums| then B(asg, sums[i]) else 0;
               Sums(asg, B(asg, and) + y + Carry(asg, d), z[i], Some(cout))
    ensures FinalSoFar(u, x, y, sums, z, i + 1, ands + [and], if i < |z| then Some(cout) else d)
  {
    hide Sat, Holds, RowDone, Sums, Num, B;
    forall asg | Sat(u, asg)
      ensures Num(asg, ands + [and]) == Num(asg, x[..i + 1]) * B(asg, y)
      ensures RowDone(asg, ands + [and], sums, z[..Min(i + 1, |z|)], Min(i + 1, |z|), if i < |z| then Some(cout) else d)
    {
      SatPrefix(t, u, asg);
      ProductStep(asg, x, y, i, ands, and);
      RowMoreAnds(asg, ands, and, sums, z[..Min(i, |z|)], Min(i, |z|), d);
      if i < |z| {
        assert z[..i + 1] == z[..i] + [z[i]];
        RowStep(asg, ands + [and], sums, z[..i], i, d, z[i], cout);
      }
    }
  }

  lemma FinalEnd(t: seq<Node>, x: seq<nat>, y: nat, sums: seq<nat>, z: seq<nat>, ands: seq<nat>, d: Opt<nat>, top: Opt<nat>)
    requires FinalSoFar(t, x, y, sums, z, |x|, ands, d)
    requires |sums| <= |x| && |z| <= |x| && (top.Some? ==> |z| == |x| && d == top)
    ensures forall asg :: Sat(t, asg) ==> Finished(asg, x, y, sums, z, top)
  {
    hide Sat, RowDone, Finished, Num, B;
    assert x[..|x|] == x && z[..|z|] == z;
    forall asg | Sat(t, asg)
      ensures Finished(asg, x, y, sums, z, top)
    {
      FinalValue(asg, x, y, ands, sums, z, d, top);
    }
  }

  /** One column of the last row: the product always, the adder only while z
      lasts; the carry goes to `top` in the last column if there is one. */
  method FinalColumn(cc: Compiler, x: nat, y: nat, sums: seq<nat>, i: nat, c: Opt<nat>, zi: Opt<nat>, top: Opt<nat>)
    returns (and: nat, cout: nat)
    requires cc.G().Built() && cc.G().Driven(x) && cc.G().Driven(y) && cc.G().AllDriven(sums)
    requires i == 0 ==> c == None && |sums| > 0
    requires i > 0 && zi.Some? ==> c.Some? && cc.G().Driven(c.value)
    requires zi.Some? ==> cc.G().Open(zi.value)
    requires top.Some? ==> zi.Some? && cc.G().Open(top.value) && zi != top
    modifies cc
    ensures cc.G().Built() && Grows(old(cc.G()), cc.G(), Wires(zi) + Wires(top))
    ensures top.Some? ==> cout == top.value
    ensures zi.Some? ==> cc.G().Driven(zi.value) && cc.G().Driven(cout)
    ensures forall asg :: Sat(cc.table, asg) ==> Holds(NewNode(AND, x, y, and), asg)
    ensures zi.Some? ==> forall asg :: Sat(cc.table, asg) ==>
              var y := if i < |sums| then B(asg, sums[i]) else 0;
              Sums(asg, B(asg, and) + y + Carry(asg, c), zi.value, Some(cout))
  {
    hide State.Built, Sat, State.Driven, Sums, B, Holds;
    ghost var s0, outs := cc.G(), Wires(zi) + Wires(top);
    and := cc.Emit(AND, x, y);
    ghost var s1 := cc.G();
    GrowsWiden(s0, s1, outs);
    if top.Some? {
      cout := top.value;
    } else {
      cout := cc.NewWire();
    }
    ghost var s2 := cc.G();
    GrowsChain(s0, s1, s2, outs);
    if zi.Some? {
      AddColumn(cc, and, sums, i, c, zi.value, cout);
      GrowsTrans(s0, s2, cc.G(), outs, {zi.value, cout});
    }
    forall asg | Sat(cc.table, asg)
      ensures Holds(NewNode(AND, x, y, and), asg)
    {
      SatPrefix(s1.table, cc.table, asg);
      LastGate(s0.table, s1.table, NewNode(AND, x, y, and), asg);
    }
  }

  /** The whole last row is on z and, when there is room, on `top`. */
  predicate Finished(asg: Asg, x: seq<nat>, y: nat, sums: seq<nat>, z: seq<nat>, top: Opt<nat>) {
    var total := LastTotal(asg, x, y, sums);
    if top.Some? then Num(asg, z) + B(asg, top.value) * Pow2(|z|) == total
    else Num(asg, z) == total % Pow2(|z|)
  }

  lemma RowMoreAnds(asg: Asg, ands: seq<nat>, and: nat, sums: seq<nat>, outs: seq<nat>, i: nat, c: Opt<nat>)
    requires RowDone(asg, ands, sums, outs, i, c)
    ensures RowDone(asg, ands + [and], sums, outs, i, c)
  {
    assert (ands + [and])[..i] == ands[..i];
  }

  lemma FinalValue(asg: Asg, x: seq<nat>, y: nat, ands: seq<nat>, sums: seq<nat>, z: seq<nat>, d: Opt<nat>, top: Opt<nat>)
    requires |ands| == |x| && |sums| <= |x| && |z| <= |x| && RowDone(asg, ands, sums, z, |z|, d)
    requires Num(asg, ands) == Num(asg, x) * B(asg, y)
    requires top.Some? ==> |z| == |x| && d == top
    ensures Finished(asg, x, y, sums, z, top)
  {
    hide Num, Pow2, B, Carry;
    var n := |z|;
    if top.Some? {
      assert ands[..n] == ands && sums[..|sums|] == sums && Carry(asg, top) == B(asg, top.value) by { TopCarry(asg, top); }
    } else {
      TruncatedValue(asg, ands, sums, z, Carry(asg, d));
    }
  }

  lemma TopCarry(asg: Asg, top: Opt<nat>)
    requires top.Some?
    ensures Carry(asg, top) == B(asg, top.value)
  {
  }

  lemma TruncatedValue(asg: Asg, ands: seq<nat>, sums: seq<nat>, z: seq<nat>, d: nat)
    requires |z| <= |ands|
    requires Num(asg, z) + d * Pow2(|z|) == Num(asg, ands[..|z|]) + Num(asg, sums[..Min(|z|, |sums|)])
    ensures Num(asg, z) == (Num(asg, ands) + Num(asg, sums)) % Pow2(|z|)
  {
    hide Num, Pow2, B;
    var n := |z|;
    NumTake(asg, ands, n);
    NumBound(asg, z);
    SumsTake(asg, sums, n);
    var a, b := Num(asg, ands), Num(asg, sums);
    DivModUnique(a % Pow2(n) + b % Pow2(n), Pow2(n), d, Num(asg, z));
    ModSum(a, b, Pow2(n));
  }

  lemma SumsTake(asg: Asg, sums: seq<nat>, n: nat)
    ensures Num(asg, sums[..Min(n, |sums|)]) == Num(asg, sums) % Pow2(n)
  {
    hide Num, Pow2;
    if n <= |sums| {
      NumTake(asg, sums, n);
    } else {
      assert sums[..|sums|] == sums;
      NumBound(asg, sums);
      Pow2Mono(|sums|, n);
      ModSmall(Num(asg, sums), Pow2(n));
    }
  }

  // ----- The multiplier -----

  /** Rows 0..j of the product are on z[..j] and the pending sums. */
  predicate RowsDone(asg: Asg, x: seq<nat>, y: seq<nat>, z: seq<nat>, j: nat, sums: seq<nat>)
    requires j <= |y| && j <= |z|
  {
    Num(asg, z[..j]) + Pow2(j) * Num(asg, sums) == Num(asg, x) * Num(asg, y[..j])
  }

  lemma RowsStart(asg: Asg, x: seq<nat>, y: seq<nat>, z: seq<nat>, ands: seq<nat>)
    requires |y| > 0 && |z| > 0 && |ands| > 0 && ands[0] == z[0]
    requires Num(asg, ands) == Num(asg, x) * B(asg, y[0])
    ensures RowsDone(asg, x, y, z, 1, ands[1..])
  {
    assert ands == [z[0]] + ands[1..] && z[..1] == [z[0]] && y[..1] == [y[0]];
    HeadValue(asg, z[0], ands[1..]);
    NumOne(asg, z[0]);
    NumOne(asg, y[0]);
  }

  lemma RowsStep(asg: Asg, x: seq<nat>, y: seq<nat>, z: seq<nat>, j: nat, sums: seq<nat>, ands: seq<nat>, r: seq<nat>)
    requires j < |y| && j < |z| && RowsDone(asg, x, y, z, j, sums)
    requires Num(asg, ands) == Num(asg, x) * B(asg, y[j])
    requires B(asg, z[j]) + 2 * Num(asg, r) == Num(asg, ands) + Num(asg, sums)
    ensures RowsDone(asg, x, y, z, j + 1, r)
  {
    hide Num, B;
    NumSnoc(asg, y, j);
    NumSnoc(asg, z, j);
    RowsArith(Pow2(j), Num(asg, z[..j]), Num(asg, sums), Num(asg, x), Num(asg, y[..j]), B(asg, y[j]), B(asg, z[j]), Num(asg, r),
              Num(asg, y[..j + 1]), Num(asg, z[..j + 1]), Pow2(j + 1));
  }

  lemma RowsArith(p: nat, low: nat, s: nat, x: nat, y: nat, yj: nat, zj: nat, r: nat, y1: nat, z1: nat, p1: nat)
    requires low + p * s == x * y && zj + 2 * r == x * yj + s
    requires y1 == y + yj * p && z1 == low + zj * p && p1 == 2 * p
    ensures z1 + p1 * r == x * y1
  {
    assert p * (zj + 2 * r) == zj * p + (2 * p) * r;
    assert p * (x * yj + s) == x * (yj * p) + p * s;
    assert x * (y + yj * p) == x * y + x * (yj * p);
  }

  /** The last row and the sums it is added to. */
  function LastTotal(asg: Asg, x: seq<nat>, y: nat, sums: seq<nat>): nat {
    Num(asg, x) * B(asg, y) + Num(asg, sums)
  }

  /** The last row added to the rows above it. */
  lemma LastRow(asg: Asg, x: seq<nat>, y: seq<nat>, z: seq<nat>, sums: seq<nat>, j: nat)
    requires j + 1 == |y| && j <= |z| && RowsDone(asg, x, y, z, j, sums)
    ensures Num(asg, x) * Num(asg, y) == Num(asg, z[..j]) + Times(Pow2(j), LastTotal(asg, x, y[j], sums))
  {
    hide Num, B, Pow2;
    NumSnoc(asg, y, j);
    assert y[..j + 1] == y;
    LastRowArith(Pow2(j), Num(asg, z[..j]), Num(asg, sums), Num(asg, x), Num(asg, y[..j]), B(asg, y[j]), Num(asg, y));
  }

  /** From the layers and the final row to the product modulo 2^len(z), when
      there is no room for the last carry. */
  lemma ProductTruncated(asg: Asg, x: seq<nat>, y: seq<nat>, z: seq<nat>, sums: seq<nat>, j: nat)
    requires 2 <= |x| == |y| == j + 1 <= |z| < 2 * |x|
    requires RowsDone(asg, x, y, z, j, sums) && Finished(asg, x, y[j], sums, z[j..], None)
    ensures Num(asg, z) == (Num(asg, x) * Num(asg, y)) % Pow2(|z|)
  {
    hide Num, B, Pow2, RowsDone, LastTotal, Times;
    LastRow(asg, x, y, z, sums, j);
    Pow2Add(j, |z[j..]|);
    NumSplit(asg, z, j);
    NumBound(asg, z[..j]);
    ModScaled(Num(asg, z[..j]), Pow2(j), LastTotal(asg, x, y[j], sums), Pow2(|z[j..]|),
              Num(asg, z[j..]), Pow2(|z|), Num(asg, x) * Num(asg, y), Num(asg, z));
  }

  /** ... and exactly, when there is. */
  lemma ProductFull(asg: Asg, x: seq<nat>, y: seq<nat>, z: seq<nat>, sums: seq<nat>, j: nat, m: nat)
    requires 2 <= |x| == |y| == j + 1 && m + 1 == |z| == 2 * |x|
    requires RowsDone(asg, x, y, z, j, sums)
    requires Finished(asg, x, y[j], sums, z[j..m], Some(z[m]))
    ensures Num(asg, z) == (Num(asg, x) * Num(asg, y)) % Pow2(|z|)
  {
    hide Num, B, Pow2, RowsDone, LastTotal, Times;
    LastRow(asg, x, y, z, sums, j);
    Pow2Add(j, |z[j..m]|);
    NumSplit(asg, z[..m], j);
    assert z[..m][..j] == z[..j] && z[..m][j..] == z[j..m] && z[..m + 1] == z;
    NumSnoc(asg, z, m);
    FullArith(Pow2(j), Pow2(|z[j..m]|), Num(asg, z[j..m]), B(asg, z[m]), Pow2(m), LastTotal(asg, x, y[j], sums));
    NumBound(asg, z);
    ModSmall(Num(asg, z), Pow2(|z|));
  }

  lemma ProductValue(asg: Asg, x: seq<nat>, y: seq<nat>, z: seq<nat>, sums: seq<nat>, end: nat, top: Opt<nat>)
    requires 2 <= |x| == |y| <= |z| <= 2 * |x|
    requires RowsDone(asg, x, y, z, |y| - 1, sums)
    requires end == Min(|y| - 1 + |x|, |z|) && top == (if end < |z| then Some(z[end]) else None)
    requires Finished(asg, x, y[|y| - 1], sums, z[|y| - 1..end], top)
    ensures Num(asg, z) == (Num(asg, x) * Num(asg, y)) % Pow2(|z|)
  {
    hide Num, B, Pow2, RowsDone, Finished;
    if |z| < 2 * |x| {
      assert z[|y| - 1..|z|] == z[|y| - 1..];
      ProductTruncated(asg, x, y, z, sums, |y| - 1);
    } else {
      ProductFull(asg, x, y, z, sums, |y| - 1, |z| - 1);
    }
  }

  lemma LastRowArith(p: nat, low: nat, s: nat, x: nat, y: nat, yj: nat, y1: nat)
    requires low + p * s == x * y && y1 == y + yj * p
    ensures x * y1 == low + p * (x * yj + s)
  {
    assert p * (x * yj + s) == x * (yj * p) + p * s;
    assert x * (y + yj * p) == x * y + x * (yj * p);
  }

  lemma FullArith(p: nat, q: nat, row: nat, top: nat, pq: nat, total: nat)
    requires pq == p * q && row + top * q == total
    ensures p * row + top * pq == Times(p, total)
  {
    Distribute(p, row, top, q);
  }

  lemma ModScaled(low: nat, p: nat, total: nat, q: nat, v: nat, m: nat, xy: nat, z: nat)
    requires low < p && q > 0 && v == total % q && m == p * q > 0
    requires xy == low + Times(p, total) && z == low + p * v
    ensures z == xy % m
  {
    DivModDef(total, q);
    var k, r := total / q, total % q;
    assert p * total == (p * q) * k + p * r by {
      MulDist(p, q * k, r);
      MulAssoc(p, q, k);
    }
    assert low + p * r < p * q by {
      assert p * (r + 1) == p * r + p;
      MulMonoLe(p, r + 1, q);
    }
    DivModUnique(xy, m, k, low + p * v);
  }

  /** Multiplying the low bits is enough for the low bits of the product. */
  lemma CutProduct(asg: Asg, xp: seq<nat>, yp: seq<nat>, x: seq<nat>, y: seq<nat>, n: nat)
    requires |xp| == |yp|
    requires x == (if |xp| > n then xp[..n] else xp) && y == if |yp| > n then yp[..n] else yp
    ensures (Num(asg, x) * Num(asg, y)) % Pow2(n) == (Num(asg, xp) * Num(asg, yp)) % Pow2(n)
  {
    hide Num, Pow2;
    if |xp| > n {
      NumTake(asg, xp, n);
      NumTake(asg, yp, n);
      ModMul(Num(asg, xp), Num(asg, yp), Pow2(n));
    }
  }

  /** The first row: z0 + 2 * sums is x times the lowest bit of y. */
  method FirstRow(cc: Compiler, x: seq<nat>, y0: nat, z0: nat) returns (sums: seq<nat>)
    requires cc.G().Built() && cc.G().AllDriven(x) && cc.G().Driven(y0) && cc.G().Open(z0) && |x| > 0
    modifies cc
    ensures cc.G().Built() && Grows(old(cc.G()), cc.G(), {z0}) && cc.G().Driven(z0)
    ensures |sums| == |x| - 1 && cc.G().AllDriven(sums)
    ensures forall asg :: Sat(cc.table, asg) ==> Num(asg, [z0] + sums) == Num(asg, x) * B(asg, y0)
  {
    hide State.Built, Sat, Num, B, State.Driven;
    ghost var s0 := cc.G();
    cc.Binary(AND, x[0], y0, z0);
    ghost var s1 := cc.G();
    KeepsDriven(s0, s1, {z0}, x);
    sums := AndRow(cc, x[1..], y0);
    GrowsTrans(s0, s1, cc.G(), {z0}, {});
    forall asg | Sat(cc.table, asg)
      ensures Num(asg, [z0] + sums) == Num(asg, x) * B(asg, y0)
    {
      SatPrefix(s1.table, cc.table, asg);
      LastGate(s0.table, s1.table, NewNode(AND, x[0], y0, z0), asg);
      FirstRowValue(asg, x, y0, z0, sums);
    }
  }

  lemma FirstRowValue(asg: Asg, x: seq<nat>, y0: nat, z0: nat, sums: seq<nat>)
    requires |x| > 0 && Holds(NewNode(AND, x[0], y0, z0), asg)
    requires Num(asg, sums) == Num(asg, x[1..]) * B(asg, y0)
    ensures Num(asg, [z0] + sums) == Num(asg, x) * B(asg, y0)
  {
    hide Num;
    assert x == [x[0]] + x[1..];
    HeadValue(asg, x[0], x[1..]);
    HeadValue(asg, z0, sums);
  }

  method OneBitProduct(cc: Compiler, x: nat, y: nat, z: array<nat>)
    requires cc.G().Built() && cc.G().Driven(x) && cc.G().Driven(y) && cc.G().Free(z[..]) && z.Length > 0
    modifies cc, z
    ensures cc.G().Built() && Grows(old(cc.G()), cc.G(), SetOf(old(z[..])))
    ensures cc.G().AllDriven(z[..]) <==> z.Length <= 2
    ensures forall i :: 0 <= i < z.Length && i != 1 ==> z[i] == old(z[i])
    ensures z.Length > 1 ==> cc.zero == Some(z[1])
    ensures z.Length <= 2 ==> forall asg :: Sat(cc.table, asg) ==>
              Num(asg, z[..]) == (Num(asg, [x]) * Num(asg, [y])) % Pow2(z.Length)
  {
    hide State.Built, Sat, Num, Pow2;
    ghost var s0, outs := cc.G(), SetOf(z[..]);
    cc.Binary(AND, x, y, z[0]);
    ghost var s1 := cc.G();
    if z.Length > 1 {
      var w := cc.ZeroWire();
      z[1] := w;
      GrowsTrans(s0, s1, cc.G(), outs, {});
    }
    assert z.Length > 2 ==> cc.G().Open(z[2]) && z[..][2] == z[2];
    if z.Length <= 2 {
      forall asg | Sat(cc.table, asg)
        ensures Num(asg, z[..]) == (Num(asg, [x]) * Num(asg, [y])) % Pow2(z.Length)
      {
        SatPrefix(s1.table, cc.table, asg);
        LastGate(s0.table, s1.table, NewNode(AND, x, y, z[0]), asg);
        OneBitValue(asg, x, y, z[..]);
      }
    }
  }

  lemma OneBitValue(asg: Asg, x: nat, y: nat, z: seq<nat>)
    requires 0 < |z| <= 2 && Holds(NewNode(AND, x, y, z[0]), asg) && (|z| == 2 ==> z[1] !in asg)
    ensures Num(asg, z) == (Num(asg, [x]) * Num(asg, [y])) % Pow2(|z|)
  {
    hide Num;
    NumOne(asg, x);
    NumOne(asg, y);
    NumOne(asg, z[0]);
    if |z| == 2 {
      assert z == [z[0]] + [z[1]];
      HeadValue(asg, z[0], [z[1]]);
      NumOne(asg, z[1]);
    } else {
      assert z == [z[0]];
    }
  }

  /** All the layers for operands of at least two bits. */
  method Layers(cc: Compiler, x: seq<nat>, y: seq<nat>, z: array<nat>)
    requires cc.G().Built() && cc.G().AllDriven(x) && cc.G().AllDriven(y) && cc.G().Free(z[..])
    requires 2 <= |x| == |y| <= z.Length
    modifies cc, z
    ensures cc.G().Built() && Grows(old(cc.G()), cc.G(), SetOf(old(z[..])))
    ensures cc.G().AllDriven(z[..]) <==> z.Length <= 2 * |x|
    ensures forall i :: 0 <= i < z.Length && i != 1 ==> z[i] == old(z[i])
    ensures if z.Length <= 2 * |x| then z[1] == old(z[1]) else cc.zero == Some(z[1])
    ensures z.Length <= 2 * |x| ==> forall asg :: Sat(cc.table, asg) ==>
              Num(asg, z[..]) == (Num(asg, x) * Num(asg, y)) % Pow2(z.Length)
  {
    hide State.Built, Sat, Num, Pow2, B, State.Driven, State.Open, Grows, RowsDone, Finished;
    ghost var s0 := cc.G();
    var zs := z[..];
    var sums := UpperLayers(cc, x, y, zs);
    ghost var s1 := cc.G();
    var j, end := |y| - 1, Min(|y| - 1 + |x|, |zs|);
    var top := if end < |zs| then Some(zs[end]) else None;
    KeepsDriven(s0, s1, SetOf(zs[..j]), x);
    KeepsDriven(s0, s1, SetOf(zs[..j]), y);
    LowerFree(s0, s1, zs, j, end);
    FinalRow(cc, x, y[j], sums, zs[j..end], top);
    ghost var s2 := cc.G();
    ghost var n := Min(2 * |x|, |zs|);
    LayersGrow(s0, s1, s2, zs, j, end, top);
    var i := j + |x| + 1;
    while i < z.Length
      invariant cc.G().Built() && s2.table <= cc.table && Grows(s0, cc.G(), SetOf(zs[..n]))
      invariant i >= 2 * |x| && (i > 2 * |x| ==> cc.zero == Some(z[1]))
      invariant z.Length <= 2 * |x| ==> i == 2 * |x|
      invariant i == 2 * |x| ==> cc.G() == s2 && z[..] == zs
      invariant forall k :: 0 <= k < z.Length && k != 1 ==> z[k] == zs[k]
    {
      ghost var s3 := cc.G();
      var w := cc.ZeroWire();
      GrowsTrans(s0, s3, cc.G(), SetOf(zs[..n]), {});
      KeepsDriven(s3, cc.G(), {}, []);
      z[1] := w;
      i := i + 1;
    }
    if z.Length <= 2 * |x| {
      assert zs[..n] == zs;
      assert zs[j..|zs|] == zs[j..];
      forall asg | Sat(cc.table, asg)
        ensures Num(asg, zs) == (Num(asg, x) * Num(asg, y)) % Pow2(|zs|)
      {
        SatPrefix(s1.table, cc.table, asg);
        ProductValue(asg, x, y, zs, sums, end, top);
      }
    } else {
      LeftOpen(s0, cc.G(), zs, n);
    }
  }

  /** The upper wires stay open: z[n] is not driven. */
  lemma LeftOpen(s: State, t: State, z: seq<nat>, n: nat)
    requires n < |z| && s.Free(z) && Grows(s, t, SetOf(z[..n]))
    ensures t.Open(z[n]) && Grows(s, t, SetOf(z))
    ensures forall u: seq<nat> :: |u| == |z| && u[n] == z[n] ==> !t.AllDriven(u)
  {
    assert z[n] !in SetOf(z[..n]);
  }

  lemma LowerFree(s: State, t: State, z: seq<nat>, j: nat, end: nat)
    requires j <= end <= |z| && s.Free(z) && Grows(s, t, SetOf(z[..j]))
    ensures t.Free(z[j..end] + (if end < |z| then [z[end]] else []))
  {
    var ws := z[j..end] + (if end < |z| then [z[end]] else []);
    assert forall i :: 0 <= i < |ws| ==> ws[i] == z[j + i];
    KeepsFree(s, t, SetOf(z[..j]), ws);
  }

  lemma LayersGrow(s: State, t: State, u: State, z: seq<nat>, j: nat, end: nat, top: Opt<nat>)
    requires j <= end <= |z| && Grows(s, t, SetOf(z[..j])) && Grows(t, u, SetOf(z[j..end]) + Wires(top))
    requires top == if end < |z| then Some(z[end]) else None
    requires t.AllDriven(z[..j]) && u.AllDriven(z[j..end]) && (top.Some? ==> u.Driven(top.value))
    ensures Grows(s, u, SetOf(z[..Min(end + 1, |z|)])) && t.table <= u.table
    ensures u.AllDriven(z[..Min(end + 1, |z|)])
  {
    var n := Min(end + 1, |z|);
    assert forall i :: 0 <= i < j ==> z[..n][i] == z[..j][i];
    assert forall i :: j <= i < end ==> z[..n][i] == z[j..end][i - j];
  }

  /** The first row and the len(y)-2 intermediate layers. */
  method UpperLayers(cc: Compiler, x: seq<nat>, y: seq<nat>, z: seq<nat>) returns (sums: seq<nat>)
    requires cc.G().Built() && cc.G().AllDriven(x) && cc.G().AllDriven(y) && cc.G().Free(z)
    requires 2 <= |x| == |y| <= |z|
    modifies cc
    ensures cc.G().Built() && Grows(old(cc.G()), cc.G(), SetOf(z[..|y| - 1])) && cc.G().AllDriven(z[..|y| - 1])
    ensures |x| - 1 <= |sums| <= |x| && cc.G().AllDriven(sums)
    ensures forall asg :: Sat(cc.table, asg) ==> RowsDone(asg, x, y, z, |y| - 1, sums)
  {
    hide State.Built, Sat, Num, Pow2, B, State.Driven, State.Open, Grows, RowsDone;
    ghost var s0, outs := cc.G(), SetOf(z[..|y| - 1]);
    FreeAt(s0, z);
    sums := FirstRow(cc, x, y[0], z[0]);
    GrowsRefl(s0);
    GrowsWiden(s0, s0, outs);
    GrowsTrans(s0, s0, cc.G(), outs, {z[0]});
    forall asg | Sat(cc.table, asg)
      ensures RowsDone(asg, x, y, z, 1, sums)
    {
      RowsStart(asg, x, y, z, [z[0]] + sums);
    }
    forall k | 1 <= k < |z|
      ensures cc.G().Open(z[k])
    {
      KeepsOpen(s0, cc.G(), {z[0]}, z[k]);
    }
    var j := 1;
    while j + 1 < |y|
      invariant 1 <= j <= |y| - 1
      invariant cc.G().Built() && Grows(s0, cc.G(), outs) && cc.G().AllDriven(z[..j])
      invariant forall k :: j <= k < |z| ==> cc.G().Open(z[k])
      invariant |x| - 1 <= |sums| <= |x| && cc.G().AllDriven(sums)
      invariant forall asg :: Sat(cc.table, asg) ==> RowsDone(asg, x, y, z, j, sums)
    {
      sums := Layer(cc, s0, x, y, z, j, sums);
      j := j + 1;
    }
  }

  lemma FreeAt(s: State, z: seq<nat>)
    requires s.Free(z)
    ensures forall k :: 0 <= k < |z| ==> s.Open(z[k])
    ensures forall i, k :: 0 <= i < k < |z| ==> z[i] != z[k]
  {
  }

  method Layer(cc: Compiler, ghost s0: State, x: seq<nat>, y: seq<nat>, z: seq<nat>, j: nat, sums: seq<nat>) returns (r: seq<nat>)
    requires 2 <= |x| == |y| <= |z| && 1 <= j < |y| - 1
    requires cc.G().Built() && Grows(s0, cc.G(), SetOf(z[..|y| - 1])) && cc.G().AllDriven(z[..j])
    requires s0.AllDriven(x) && s0.AllDriven(y) && s0.Free(z)
    requires forall k :: j <= k < |z| ==> cc.G().Open(z[k])
    requires |x| - 1 <= |sums| <= |x| && cc.G().AllDriven(sums)
    requires forall asg :: Sat(cc.table, asg) ==> RowsDone(asg, x, y, z, j, sums)
    modifies cc
    ensures cc.G().Built() && Grows(s0, cc.G(), SetOf(z[..|y| - 1])) && cc.G().AllDriven(z[..j + 1])
    ensures forall k :: j + 1 <= k < |z| ==> cc.G().Open(z[k])
    ensures |r| == |x| && cc.G().AllDriven(r)
    ensures forall asg :: Sat(cc.table, asg) ==> RowsDone(asg, x, y, z, j + 1, r)
  {
    hide State.Built, Sat, Num, Pow2, B, State.Driven, State.Open, Grows, RowsDone;
    ghost var outs := SetOf(z[..|y| - 1]);
    ghost var s1 := cc.G();
    KeepsDriven(s0, s1, outs, x);
    KeepsDriven(s0, s1, outs, y);
    var ands := AndRow(cc, x, y[j]);
    ghost var s2 := cc.G();
    KeepsDriven(s1, s2, {}, sums);
    KeepsOpen(s1, s2, {}, z[j]);
    GrowsTrans(s0, s1, s2, outs, {});
    r := AddRow(cc, ands, sums, z[j]);
    assert z[j] == z[..|y| - 1][j];
    GrowsTrans(s0, s2, cc.G(), outs, {z[j]});
    KeepsDriven(s1, s2, {}, z[..j]);
    KeepsDriven(s2, cc.G(), {z[j]}, z[..j]);
    assert z[..j + 1] == z[..j] + [z[j]];
    FreeAt(s0, z);
    forall k | j + 1 <= k < |z|
      ensures cc.G().Open(z[k])
    {
      KeepsOpen(s1, s2, {}, z[k]);
      KeepsOpen(s2, cc.G(), {z[j]}, z[k]);
    }
    forall asg | Sat(cc.table, asg)
      ensures RowsDone(asg, x, y, z, j + 1, r)
    {
      SatPrefix(s2.table, cc.table, asg);
      SatPrefix(s1.table, s2.table, asg);
      RowsStep(asg, x, y, z, j, sums, ands, r);
    }
  }

  /** Builds z = x * y.  The wires of z are all driven exactly when z is at most
      twice as wide as the operands, and then hold the product modulo
      2^len(z).  On a wider z the code leaves z[2n] undriven and, for operands
      of two bits or more, replaces z[1] by the zero wire. */
  method NewArrayMultiplier(cc: Compiler, x0: seq<nat>, y0: seq<nat>, z: array<nat>)
    requires cc.G().Built() && cc.G().AllDriven(x0) && cc.G().AllDriven(y0) && cc.G().Free(z[..])
    requires z.Length > 0 && Max(|x0|, |y0|) > 0
    modifies cc, z
    ensures cc.G().Built() && Grows(old(cc.G()), cc.G(), SetOf(old(z[..])))
    ensures cc.G().AllDriven(z[..]) <==> z.Length <= 2 * Max(|x0|, |y0|)
    ensures forall i :: 0 <= i < z.Length && i != 1 ==> z[i] == old(z[i])
    ensures z.Length <= 2 * Max(|x0|, |y0|) && Max(|x0|, |y0|) > 1 && z.Length > 1 ==> z[1] == old(z[1])
    ensures z.Length > 2 * Max(|x0|, |y0|) ==> cc.zero == Some(z[1])
    ensures z.Length <= 2 * Max(|x0|, |y0|) ==> forall asg :: Sat(cc.table, asg) ==>
              Num(asg, z[..]) == (Num(asg, x0) * Num(asg, y0)) % Pow2(z.Length)
  {
    hide State.Built, Sat, Num, Pow2, B, State.Driven, State.Open, Grows;
    ghost var s0, outs := cc.G(), SetOf(z[..]);
    var xp, yp := cc.ZeroPad(x0, y0);
    ghost var sp := cc.G();
    GrowsWiden(s0, sp, outs);
    KeepsFree(s0, sp, {}, z[..]);
    var x, y := xp, yp;
    if |x| > z.Length {
      x, y := x[..z.Length], y[..z.Length];
    }
    if |x| == 1 {
      OneBitProduct(cc, x[0], y[0], z);
      assert x == [x[0]] && y == [y[0]];
    } else {
      Layers(cc, x, y, z);
    }
    GrowsTrans(s0, sp, cc.G(), outs, outs);
    KeepsDriven(sp, cc.G(), outs, []);
    if z.Length <= 2 * |xp| {
      forall asg | Sat(cc.table, asg)
        ensures Num(asg, z[..]) == (Num(asg, x0) * Num(asg, y0)) % Pow2(z.Length)
      {
        SatPrefix(sp.table, cc.table, asg);
        CutProduct(asg, xp, yp, x, y, z.Length);
      }
    }
  }

  /** Two bits multiplied onto three wires: not all of them are driven, so the
      product cannot be read off. */
  method WideProduct(cc: Compiler, x: nat, y: nat) returns (z: seq<nat>)
    requires cc.G().Built() && cc.G().Driven(x) && cc.G().Driven(y)
    modifies cc
    ensures cc.G().Built() && |z| == 3 && cc.zero == Some(z[1]) && !cc.G().AllDriven(z)
  {
    hide State.Built, Sat, Num, Pow2, State.Driven, State.Open, Grows;
    ghost var s0 := cc.G();
    var ws := NewWires(cc, 3);
    assert cc.G().AllDriven([x]) && cc.G().AllDriven([y]) by {
      assert s0.AllDriven([x]) && s0.AllDriven([y]);
      KeepsDriven(s0, cc.G(), {}, [x]);
      KeepsDriven(s0, cc.G(), {}, [y]);
    }
    NewArrayMultiplier(cc, [x], [y], ws);
    z := ws[..];
  }
}
