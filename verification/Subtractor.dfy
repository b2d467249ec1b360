/** Ripple-borrow subtraction (compiler/circuits/circ_subtractor.go). */
module Subtractor {
  import opened Nat
  import opened Circuit
  import opened Graph
  import opened Compiler

  /** d - 2c is y - x - cin; without a borrow wire, d is the parity. */
  predicate Borrows(asg: Asg, x: nat, y: nat, cin: nat, d: nat, c: Opt<nat>) {
    if c.Some? then B(asg, d) + B(asg, x) + B(asg, cin) == B(asg, y) + 2 * B(asg, c.value)
    else B(asg, d) == (B(asg, x) + B(asg, y) + B(asg, cin)) % 2
  }

  /** One bit of y - x with borrow in and, when asked for, borrow out. */
  method NewFullSubtractor(cc: Compiler, y: nat, x: nat, cin: nat, d: nat, cout: Opt<nat>)
    requires cc.G().Built() && cc.G().Driven(x) && cc.G().Driven(y) && cc.G().Driven(cin)
    requires cc.G().Open(d) && (cout.Some? ==> cc.G().Open(cout.value) && cout.value != d)
    modifies cc
    ensures cc.G().Built() && Grows(old(cc.G()), cc.G(), {d} + Wires(cout))
    ensures cc.G().Driven(d) && (cout.Some? ==> cc.G().Driven(cout.value))
    ensures forall asg :: Sat(cc.table, asg) ==> Borrows(asg, y, x, cin, d, cout)
  {
    hide State.Built, Sat, State.Driven;
    ghost var s0 := cc.G();
    var w1 := cc.Emit(XNOR, x, cin);
    ghost var s1 := cc.G();
    cc.Binary(XNOR, y, w1, d);
    ghost var s2 := cc.G();
    GrowsTrans(s0, s1, s2, {d}, {d});
    if cout.None? {
      forall asg | Sat(cc.table, asg)
        ensures Borrows(asg, y, x, cin, d, cout)
      {
        LastGate(s1.table, s2.table, NewNode(XNOR, y, w1, d), asg);
        LastGate(s0.table, s1.table, NewNode(XNOR, x, cin, w1), asg);
      }
      return;
    }
    var w2 := cc.Emit(XOR, y, cin);
    ghost var s3 := cc.G();
    GrowsTrans(s0, s2, s3, {d}, {});
    var w3 := cc.Emit(AND, w1, w2);
    ghost var s4 := cc.G();
    GrowsTrans(s0, s3, s4, {d}, {});
    cc.Binary(XOR, w3, cin, cout.value);
    GrowsTrans(s0, s4, cc.G(), {d} + Wires(cout), {cout.value});
    forall asg | Sat(cc.table, asg)
      ensures Borrows(asg, y, x, cin, d, cout)
    {
      LastGate(s4.table, cc.table, NewNode(XOR, w3, cin, cout.value), asg);
      LastGate(s3.table, s4.table, NewNode(AND, w1, w2, w3), asg);
      LastGate(s2.table, s3.table, NewNode(XOR, y, cin, w2), asg);
      LastGate(s1.table, s2.table, NewNode(XNOR, y, w1, d), asg);
      LastGate(s0.table, s1.table, NewNode(XNOR, x, cin, w1), asg);
      FullSubtractorLogic(asg, y, x, cin, d, w1, w2, w3, cout.value);
    }
  }

  lemma FullSubtractorLogic(asg: Asg, y: nat, x: nat, cin: nat, d: nat, w1: nat, w2: nat, w3: nat, cout: nat)
    requires Holds(NewNode(XNOR, x, cin, w1), asg) && Holds(NewNode(XNOR, y, w1, d), asg)
    requires Holds(NewNode(XOR, y, cin, w2), asg) && Holds(NewNode(AND, w1, w2, w3), asg)
    requires Holds(NewNode(XOR, w3, cin, cout), asg)
    ensures Borrows(asg, y, x, cin, d, Some(cout))
  {
  }

  /** The low `i` bits of x - y are done; the borrow is on `c`, or dropped. */
  predicate Partial(asg: Asg, x: seq<nat>, y: seq<nat>, z: seq<nat>, i: nat, c: Opt<nat>)
    requires i <= |x| && i <= |y| && i <= |z|
  {
    if c.Some? then Num(asg, z[..i]) + Num(asg, y[..i]) == Num(asg, x[..i]) + B(asg, c.value) * Pow2(i)
    else Num(asg, z[..i]) == (Num(asg, x[..i]) - Num(asg, y[..i])) % Pow2(i)
  }

  lemma PartialStep(asg: Asg, x: seq<nat>, y: seq<nat>, z: seq<nat>, i: nat, cin: nat, cout: Opt<nat>)
    requires i < |x| && i < |y| && i < |z| && Partial(asg, x, y, z, i, Some(cin))
    requires Borrows(asg, y[i], x[i], cin, z[i], cout)
    ensures Partial(asg, x, y, z, i + 1, cout)
  {
    hide Num;
    NumSnoc(asg, x, i);
    NumSnoc(asg, y, i);
    NumSnoc(asg, z, i);
    var c := if cout.Some? then B(asg, cout.value)
             else if B(asg, y[i]) + B(asg, cin) > B(asg, x[i]) then 1 else 0;
    BorrowStep(Pow2(i), Num(asg, z[..i]), Num(asg, x[..i]), Num(asg, y[..i]), B(asg, x[i]), B(asg, y[i]), B(asg, cin), B(asg, z[i]), c);
    if cout.None? {
      NumBound(asg, z[..i + 1]);
      DivModUnique(Num(asg, x[..i + 1]) - Num(asg, y[..i + 1]), Pow2(i + 1), -c, Num(asg, z[..i + 1]));
    }
  }

  lemma BorrowStep(p: nat, low: nat, a: nat, b: nat, x: nat, y: nat, c: nat, z: nat, d: nat)
    requires low + b == a + c * p && z + y + c == x + 2 * d
    ensures (low + z * p) + (b + y * p) == (a + x * p) + d * (2 * p)
  {
    assert (z + y + c) * p == z * p + y * p + c * p;
    assert (x + 2 * d) * p == x * p + d * (2 * p);
  }

  /** From the subtracted bits, and zeros above the borrow, to the whole. */
  lemma SubtractorValue(asg: Asg, x: seq<nat>, y: seq<nat>, n: nat, z: seq<nat>, c: Opt<nat>)
    requires |x| == |y| && n == Min(|x|, |z|)
    requires Partial(asg, x, y, z, n, c)
    requires c == if n < |z| then Some(z[n]) else None
    requires n < |z| ==> AllLow(asg, z[n + 1..])
    ensures Num(asg, z) == (Num(asg, x) - Num(asg, y)) % Pow2(Min(|z|, |x| + 1))
  {
    hide Num, Pow2, B, AllLow;
    if n == |z| {
      assert z[..n] == z;
      NumTake(asg, x, n);
      NumTake(asg, y, n);
      ModDiff(Num(asg, x), Num(asg, y), Pow2(n));
    } else {
      BorrowOnTop(asg, x, y, n, z);
    }
  }

  lemma BorrowOnTop(asg: Asg, x: seq<nat>, y: seq<nat>, n: nat, z: seq<nat>)
    requires n == |x| == |y| < |z| && AllLow(asg, z[n + 1..])
    requires Partial(asg, x, y, z, n, Some(z[n]))
    ensures Num(asg, z) == (Num(asg, x) - Num(asg, y)) % Pow2(n + 1)
  {
    hide Num, AllLow;
    assert x[..n] == x && y[..n] == y;
    NumSnoc(asg, z, n);
    NumExtend(asg, z, n + 1);
    NumBound(asg, z[..n + 1]);
    BorrowMod(Num(asg, z[..n]), Pow2(n), Num(asg, x), Num(asg, y), B(asg, z[n]), Num(asg, z));
  }

  lemma BorrowMod(low: int, p: int, x: int, y: int, b: int, v: int)
    requires low + y == x + b * p && v == low + b * p && 0 <= v < 2 * p
    ensures v == (x - y) % (2 * p)
  {
    DivModUnique(x - y, 2 * p, 0 - b, v);
  }

  /** The difference of n-bit numbers modulo 2^min(m, n+1) is the difference
      modulo 2^m exactly when there are no wires above the borrow or nothing is
      borrowed. */
  lemma DifferenceExact(x: nat, y: nat, n: nat, m: nat)
    requires x < Pow2(n) && y < Pow2(n)
    ensures (x - y) % Pow2(Min(m, n + 1)) == (x - y) % Pow2(m) <==> m <= n + 1 || x >= y
  {
    var d, p := x - y, Pow2(n);
    if m > n + 1 {
      Pow2Mono(n + 2, m);
      assert Pow2(n + 1) == 2 * p && Pow2(n + 2) == 4 * p;
      if x >= y {
        ModSmall(d, 2 * p);
        ModSmall(d, Pow2(m));
      } else {
        DivModUnique(d, 2 * p, -1, d + 2 * p);
        DivModUnique(d, Pow2(m), -1, d + Pow2(m));
      }
    }
  }

  /** 0 - 1 on one-bit operands and three result wires: 3, not 7. */
  lemma WideBorrow(asg: Asg, z: seq<nat>)
    requires |z| == 3 && Num(asg, z) == (0 - 1) % Pow2(Min(3, 1 + 1))
    ensures Num(asg, z) == 3 != (0 - 1) % Pow2(3)
  {
    assert Pow2(2) == 4 && Pow2(3) == 8;
    DivModUnique(-1, 4, -1, 3);
    DivModUnique(-1, 8, -1, 7);
  }

  /** Builds z = x - y modulo 2^min(len(z), n+1), where n is the wider operand;
      entries of `z` above the borrow are replaced by the zero wire. */
  method NewSubtractor(cc: Compiler, x0: seq<nat>, y0: seq<nat>, z: array<nat>)
    requires cc.G().Built() && cc.G().AllDriven(x0) && cc.G().AllDriven(y0) && cc.G().Free(z[..])
    requires Max(|x0|, |y0|) > 0
    modifies cc, z
    ensures cc.G().Built() && Grows(old(cc.G()), cc.G(), SetOf(old(z[..]))) && cc.G().AllDriven(z[..])
    ensures forall i :: 0 <= i < z.Length && i <= Max(|x0|, |y0|) ==> z[i] == old(z[i])
    ensures forall asg :: Sat(cc.table, asg) ==>
              Num(asg, z[..]) == (Num(asg, x0) - Num(asg, y0)) % Pow2(Min(z.Length, Max(|x0|, |y0|) + 1))
    ensures forall asg :: Sat(cc.table, asg) ==>
              (Num(asg, z[..]) == (Num(asg, x0) - Num(asg, y0)) % Pow2(z.Length) <==>
               z.Length <= Max(|x0|, |y0|) + 1 || Num(asg, x0) >= Num(asg, y0))
  {
    hide State.Built, Sat, Num, Pow2, Partial, State.Driven;
    ghost var s0, outs := cc.G(), SetOf(z[..]);
    var xp, yp := cc.ZeroPad(x0, y0);
    ghost var sp := cc.G();
    var zs := z[..];
    GrowsWiden(s0, sp, outs);
    var x, y := xp, yp;
    if |x| > z.Length {
      x, y := x[..z.Length], y[..z.Length];
    }
    var c := SubBits(cc, x, y, zs);
    GrowsTrans(s0, sp, cc.G(), outs, outs);
    ghost var sa := cc.G();
    ZeroFill(cc, z, |x| + 1);
    GrowsTrans(s0, sa, cc.G(), outs, {});
    forall asg | Sat(cc.table, asg)
      ensures Num(asg, z[..]) == (Num(asg, x0) - Num(asg, y0)) % Pow2(Min(z.Length, |xp| + 1))
      ensures Num(asg, z[..]) == (Num(asg, x0) - Num(asg, y0)) % Pow2(z.Length) <==>
              z.Length <= |xp| + 1 || Num(asg, x0) >= Num(asg, y0)
    {
      SatPrefix(sa.table, cc.table, asg);
      SatPrefix(sp.table, sa.table, asg);
      PartialAgrees(asg, x, y, xp, yp, zs, z[..], |x|, if |x| < |zs| then Some(zs[|x|]) else None);
      SubtractorValue(asg, xp, yp, |x|, z[..], if |x| < |zs| then Some(zs[|x|]) else None);
      ExactOnWires(asg, xp, yp, z[..]);
    }
  }

  lemma ExactOnWires(asg: Asg, x: seq<nat>, y: seq<nat>, z: seq<nat>)
    requires |x| == |y| && Num(asg, z) == (Num(asg, x) - Num(asg, y)) % Pow2(Min(|z|, |x| + 1))
    ensures Num(asg, z) == (Num(asg, x) - Num(asg, y)) % Pow2(|z|) <==> |z| <= |x| + 1 || Num(asg, x) >= Num(asg, y)
  {
    NumBound(asg, x);
    NumBound(asg, y);
    DifferenceExact(Num(asg, x), Num(asg, y), |x|, |z|);
  }

  lemma PartialAgrees(asg: Asg, x: seq<nat>, y: seq<nat>, xp: seq<nat>, yp: seq<nat>, z: seq<nat>, u: seq<nat>, n: nat, c: Opt<nat>)
    requires x <= xp && y <= yp && n == |x| == |y| && n <= |z| == |u| && z[..n] == u[..n]
    requires Partial(asg, x, y, z, n, c)
    ensures Partial(asg, xp, yp, u, n, c)
  {
    assert xp[..n] == x == x[..n] && yp[..n] == y == y[..n];
  }

  /** The ripple; with no operand bits there is nothing to drive. */
  method SubBits(cc: Compiler, x: seq<nat>, y: seq<nat>, z: seq<nat>) returns (c: Opt<nat>)
    requires cc.G().Built() && cc.G().AllDriven(x) && cc.G().AllDriven(y) && cc.G().Free(z)
    requires |x| == |y| <= |z| && (|x| == 0 ==> |z| == 0)
    modifies cc
    ensures cc.G().Built() && Grows(old(cc.G()), cc.G(), SetOf(z))
    ensures cc.G().AllDriven(z[..Min(|x| + 1, |z|)])
    ensures forall asg :: Sat(cc.table, asg) ==>
              Partial(asg, x, y, z, |x|, if |x| < |z| then Some(z[|x|]) else None)
  {
    hide State.Built, Sat, Partial;
    ghost var s0 := cc.G();
    var w := cc.ZeroWire();
    c := Some(w);
    GrowsWiden(s0, cc.G(), SetOf(z));
    forall asg | Sat(cc.table, asg)
      ensures Partial(asg, x, y, z, 0, c)
    {
      PartialStart(asg, x, y, z, w);
    }
    for i := 0 to |x|
      invariant cc.G().Built() && Grows(s0, cc.G(), SetOf(z))
      invariant i < |x| ==> c.Some?
      invariant i == |x| > 0 ==> c == if |x| < |z| then Some(z[|x|]) else None
      invariant cc.G().AllDriven(z[..i]) && (c.Some? ==> cc.G().Driven(c.value))
      invariant i < |x| ==> forall j :: i <= j < |z| ==> cc.G().Open(z[j])
      invariant forall asg :: Sat(cc.table, asg) ==> Partial(asg, x, y, z, i, c)
    {
      c := SubBit(cc, s0, x, y, z, i, c.value);
    }
    if |x| == 0 {
      forall asg | Sat(cc.table, asg)
        ensures Partial(asg, x, y, z, 0, None)
      {
        NoBits(asg, x, y, z);
      }
    } else if c.Some? {
      assert z[..|x| + 1] == z[..|x|] + [c.value];
    }
  }

  lemma PartialStart(asg: Asg, x: seq<nat>, y: seq<nat>, z: seq<nat>, w: nat)
    requires w !in asg
    ensures Partial(asg, x, y, z, 0, Some(w))
  {
  }

  lemma NoBits(asg: Asg, x: seq<nat>, y: seq<nat>, z: seq<nat>)
    ensures Partial(asg, x, y, z, 0, None)
  {
  }

  method SubBit(cc: Compiler, ghost s0: State, x: seq<nat>, y: seq<nat>, z: seq<nat>, i: nat, cin: nat) returns (cout: Opt<nat>)
    requires cc.G().Built() && Grows(s0, cc.G(), SetOf(z))
    requires s0.AllDriven(x) && s0.AllDriven(y) && s0.Free(z) && i < |x| == |y| <= |z|
    requires cc.G().Driven(cin)
    requires cc.G().AllDriven(z[..i]) && forall j :: i <= j < |z| ==> cc.G().Open(z[j])
    requires forall asg :: Sat(cc.table, asg) ==> Partial(asg, x, y, z, i, Some(cin))
    modifies cc
    ensures cc.G().Built() && Grows(s0, cc.G(), SetOf(z))
    ensures i + 1 < |x| ==> cout.Some?
    ensures i + 1 == |x| ==> cout == if |x| < |z| then Some(z[|x|]) else None
    ensures cc.G().AllDriven(z[..i + 1]) && (cout.Some? ==> cc.G().Driven(cout.value))
    ensures i + 1 < |x| ==> forall j :: i + 1 <= j < |z| ==> cc.G().Open(z[j])
    ensures forall asg :: Sat(cc.table, asg) ==> Partial(asg, x, y, z, i + 1, cout)
  {
    hide State.Built, Sat, Partial, Borrows;
    ghost var s1 := cc.G();
    if i + 1 < |x| {
      var w := cc.NewWire();
      cout := Some(w);
    } else if i + 1 < |z| {
      cout := Some(z[i + 1]);
    } else {
      cout := None;
    }
    ghost var s2, outs := cc.G(), SetOf(z);
    GrowsWiden(s1, s2, {});
    GrowsTrans(s0, s1, s2, outs, {});
    NewFullSubtractor(cc, y[i], x[i], cin, z[i], cout);
    GrowsTrans(s0, s2, cc.G(), outs, {z[i]} + Wires(cout));
    forall asg | Sat(cc.table, asg)
      ensures Partial(asg, x, y, z, i + 1, cout)
    {
      SatPrefix(s1.table, cc.table, asg);
      PartialStep(asg, x, y, z, i, cin, cout);
    }
  }

  /** A difference on fresh wires. */
  method FreshDifference(cc: Compiler, x: seq<nat>, y: seq<nat>, n: nat) returns (z: seq<nat>)
    requires cc.G().Built() && cc.G().AllDriven(x) && cc.G().AllDriven(y) && Max(|x|, |y|) > 0
    modifies cc
    ensures cc.G().Built() && Grows(old(cc.G()), cc.G(), {}) && cc.G().AllDriven(z) && |z| == n
    ensures forall asg :: Sat(cc.table, asg) ==>
              Num(asg, z) == (Num(asg, x) - Num(asg, y)) % Pow2(Min(n, Max(|x|, |y|) + 1))
  {
    hide State.Built, Sat, Num, Pow2, State.Driven, State.Open, Grows;
    ghost var s0 := cc.G();
    var ws := NewWires(cc, n);
    ghost var s1, w := cc.G(), ws[..];
    KeepsDriven(s0, s1, {}, x);
    KeepsDriven(s0, s1, {}, y);
    NewSubtractor(cc, x, y, ws);
    GrowsFresh(s0, s1, cc.G(), w);
    z := ws[..];
  }
}
