/** Ripple-carry addition (compiler/circuits/circ_adder.go). */
module Adder {
  import opened Nat
  import opened Circuit
  import opened Graph
  import opened Compiler

  /** s + 2c is the sum of the inputs; without a carry wire, s is its parity. */
  predicate Sums(asg: Asg, n: nat, s: nat, c: Opt<nat>) {
    if c.Some? then B(asg, s) + 2 * B(asg, c.value) == n else B(asg, s) == n % 2
  }

  method NewHalfAdder(cc: Compiler, a: nat, b: nat, s: nat, c: Opt<nat>)
    requires cc.G().Built() && cc.G().Driven(a) && cc.G().Driven(b)
    requires cc.G().Open(s) && (c.Some? ==> cc.G().Open(c.value) && c.value != s)
    modifies cc
    ensures cc.G().Built() && Grows(old(cc.G()), cc.G(), {s} + Wires(c))
    ensures cc.G().Driven(s) && (c.Some? ==> cc.G().Driven(c.value))
    ensures forall asg :: Sat(cc.table, asg) ==> Sums(asg, B(asg, a) + B(asg, b), s, c)
  {
    hide State.Built, Sat;
    cc.Binary(XOR, a, b, s);
    ghost var s1 := cc.G();
    if c.Some? {
      cc.Binary(AND, a, b, c.value);
      GrowsTrans(old(cc.G()), s1, cc.G(), {s} + Wires(c), {c.value});
    }
    forall asg | Sat(cc.table, asg)
      ensures Sums(asg, B(asg, a) + B(asg, b), s, c)
    {
      if c.Some? {
        LastGate(s1.table, cc.table, NewNode(AND, a, b, c.value), asg);
      }
      LastGate(old(cc.table), s1.table, NewNode(XOR, a, b, s), asg);
    }
  }

  method NewFullAdder(cc: Compiler, a: nat, b: nat, cin: nat, s: nat, cout: Opt<nat>)
    requires cc.G().Built() && cc.G().Driven(a) && cc.G().Driven(b) && cc.G().Driven(cin)
    requires cc.G().Open(s) && (cout.Some? ==> cc.G().Open(cout.value) && cout.value != s)
    modifies cc
    ensures cc.G().Built() && Grows(old(cc.G()), cc.G(), {s} + Wires(cout))
    ensures cc.G().Driven(s) && (cout.Some? ==> cc.G().Driven(cout.value))
    ensures forall asg :: Sat(cc.table, asg) ==> Sums(asg, B(asg, a) + B(asg, b) + B(asg, cin), s, cout)
  {
    hide State.Built, Sat, State.Driven;
    ghost var s0 := cc.G();
    var w1 := cc.Emit(XOR, b, cin);
    ghost var s1 := cc.G();
    cc.Binary(XOR, a, w1, s);
    ghost var s2 := cc.G();
    GrowsTrans(s0, s1, s2, {s}, {s});
    if cout.None? {
      forall asg | Sat(cc.table, asg)
        ensures Sums(asg, B(asg, a) + B(asg, b) + B(asg, cin), s, cout)
      {
        LastGate(s1.table, s2.table, NewNode(XOR, a, w1, s), asg);
        LastGate(s0.table, s1.table, NewNode(XOR, b, cin, w1), asg);
      }
      return;
    }
    var w2 := cc.Emit(XOR, a, cin);
    ghost var s3 := cc.G();
    GrowsTrans(s0, s2, s3, {s}, {});
    var w3 := cc.Emit(AND, w1, w2);
    ghost var s4 := cc.G();
    GrowsTrans(s0, s3, s4, {s}, {});
    cc.Binary(XOR, cin, w3, cout.value);
    GrowsTrans(s0, s4, cc.G(), {s} + Wires(cout), {cout.value});
    forall asg | Sat(cc.table, asg)
      ensures Sums(asg, B(asg, a) + B(asg, b) + B(asg, cin), s, cout)
    {
      LastGate(s4.table, cc.table, NewNode(XOR, cin, w3, cout.value), asg);
      LastGate(s3.table, s4.table, NewNode(AND, w1, w2, w3), asg);
      LastGate(s2.table, s3.table, NewNode(XOR, a, cin, w2), asg);
      LastGate(s1.table, s2.table, NewNode(XOR, a, w1, s), asg);
      LastGate(s0.table, s1.table, NewNode(XOR, b, cin, w1), asg);
      FullAdderLogic(asg, a, b, cin, s, w1, w2, w3, cout.value);
    }
  }

  lemma FullAdderLogic(asg: Asg, a: nat, b: nat, cin: nat, s: nat, w1: nat, w2: nat, w3: nat, cout: nat)
    requires Holds(NewNode(XOR, b, cin, w1), asg) && Holds(NewNode(XOR, a, w1, s), asg)
    requires Holds(NewNode(XOR, a, cin, w2), asg) && Holds(NewNode(AND, w1, w2, w3), asg)
    requires Holds(NewNode(XOR, cin, w3, cout), asg)
    ensures Sums(asg, B(asg, a) + B(asg, b) + B(asg, cin), s, Some(cout))
  {
  }

  /** What wire `w` is worth at place `i`. */
  function Worth(asg: Asg, w: nat, i: nat): nat {
    if w in asg then Pow2(i) else 0
  }

  lemma WorthSnoc(asg: Asg, ws: seq<nat>, n: nat)
    requires n < |ws|
    ensures Num(asg, ws[..n + 1]) == Num(asg, ws[..n]) + Worth(asg, ws[n], n)
  {
    NumSnoc(asg, ws, n);
  }

  /** The low `i` bits are added; the carry is on wire `c`, or dropped. */
  predicate Partial(asg: Asg, x: seq<nat>, y: seq<nat>, z: seq<nat>, i: nat, c: Opt<nat>)
    requires i <= |x| && i <= |y| && i <= |z|
  {
    var sum := Num(asg, x[..i]) + Num(asg, y[..i]);
    if c.Some? then Num(asg, z[..i]) + Worth(asg, c.value, i) == sum
    else Num(asg, z[..i]) == sum % Pow2(i)
  }

  lemma PartialStart(asg: Asg, x: seq<nat>, y: seq<nat>, z: seq<nat>, c: Opt<nat>)
    requires |x| > 0 && |y| > 0 && |z| > 0 && Sums(asg, B(asg, x[0]) + B(asg, y[0]), z[0], c)
    ensures Partial(asg, x, y, z, 1, c)
  {
    WorthSnoc(asg, x, 0);
    WorthSnoc(asg, y, 0);
    WorthSnoc(asg, z, 0);
  }

  lemma PartialStep(asg: Asg, x: seq<nat>, y: seq<nat>, z: seq<nat>, i: nat, cin: nat, cout: Opt<nat>)
    requires i < |x| && i < |y| && i < |z| && Partial(asg, x, y, z, i, Some(cin))
    requires Sums(asg, B(asg, x[i]) + B(asg, y[i]) + B(asg, cin), z[i], cout)
    ensures Partial(asg, x, y, z, i + 1, cout)
  {
    hide Num, Pow2;
    WorthSnoc(asg, x, i);
    WorthSnoc(asg, y, i);
    WorthSnoc(asg, z, i);
    NumBound(asg, z[..i + 1]);
    NextPow2(i);
    PlaceStep(Num(asg, z[..i]), Num(asg, x[..i]), Num(asg, y[..i]), Pow2(i), x[i] in asg, y[i] in asg, cin in asg, z[i] in asg,
              if cout.Some? then cout.value in asg else MoreThanOne(x[i] in asg, y[i] in asg, cin in asg));
    if cout.None? {
      DroppedCarry(Num(asg, z[..i + 1]), Num(asg, x[..i + 1]) + Num(asg, y[..i + 1]), Pow2(i + 1));
    }
  }

  predicate MoreThanOne(x: bool, y: bool, c: bool) {
    (x && y) || (x && c) || (y && c)
  }

  lemma NextPow2(i: nat)
    ensures Pow2(i + 1) == 2 * Pow2(i)
  {
  }

  /** One place of an addition, with weight p. */
  lemma PlaceStep(low: nat, a: nat, b: nat, p: nat, x: bool, y: bool, c: bool, z: bool, d: bool)
    requires low + (if c then p else 0) == a + b
    requires Bit(x) + Bit(y) + Bit(c) == Bit(z) + 2 * Bit(d)
    ensures low + (if z then p else 0) + (if d then 2 * p else 0) == a + (if x then p else 0) + (b + (if y then p else 0))
  {
  }

  lemma CarryStep(p: nat, low: nat, a: nat, b: nat, x: nat, y: nat, c: nat, z: nat, d: nat)
    requires low + c * p == a + b && z + 2 * d == x + y + c
    ensures low + z * p + d * (2 * p) == (a + x * p) + (b + y * p)
  {
    assert (z + 2 * d) * p == z * p + d * (2 * p);
    assert (x + y + c) * p == x * p + y * p + c * p;
  }

  /** Without the carry wire the sum is right modulo its width. */
  lemma DroppedCarry(v: nat, sum: nat, p: nat)
    requires v < p && (sum == v || sum == v + p)
    ensures v == sum % p
  {
    DivModUnique(sum, p, if sum == v then 0 else 1, v);
  }

  /** From the added bits, and zeros above the carry, to the whole sum. */
  lemma AdderValue(asg: Asg, x: seq<nat>, y: seq<nat>, n: nat, z: seq<nat>, c: Opt<nat>)
    requires |x| == |y| && n == Min(|x|, |z|) && n > 0
    requires Partial(asg, x, y, z, n, c)
    requires c == if n < |z| then Some(z[n]) else None
    requires n < |z| ==> AllLow(asg, z[n + 1..])
    ensures Num(asg, z) == (Num(asg, x) + Num(asg, y)) % Pow2(|z|)
  {
    hide Num, Pow2, AllLow, Partial;
    if n == |z| {
      CutSum(asg, x, y, z);
    } else {
      WholeSum(asg, x, y, z);
    }
  }

  /** `v` is `n` reduced modulo `p`. */
  predicate Reduced(v: int, n: int, p: nat) {
    p > 0 && v == n % p
  }

  lemma LowPart(asg: Asg, ws: seq<nat>, n: nat)
    requires n <= |ws|
    ensures Reduced(Num(asg, ws[..n]), Num(asg, ws), Pow2(n))
  {
    NumTake(asg, ws, n);
  }

  lemma CutPartial(asg: Asg, x: seq<nat>, y: seq<nat>, z: seq<nat>)
    requires |z| <= |x| == |y| && Partial(asg, x, y, z, |z|, None)
    ensures Reduced(Num(asg, z), Num(asg, x[..|z|]) + Num(asg, y[..|z|]), Pow2(|z|))
  {
    hide Num;
    assert z[..|z|] == z;
  }

  lemma SumOfParts(v: int, a: int, b: int, x: int, y: int, p: nat)
    requires Reduced(v, a + b, p) && Reduced(a, x, p) && Reduced(b, y, p)
    ensures Reduced(v, x + y, p)
  {
    ModSum(x, y, p);
  }

  lemma FitsWhole(v: nat, n: nat, p: nat)
    requires v == n && v < p
    ensures Reduced(v, n, p)
  {
    ModSmall(v, p);
  }

  lemma CutSum(asg: Asg, x: seq<nat>, y: seq<nat>, z: seq<nat>)
    requires |z| <= |x| == |y| && Partial(asg, x, y, z, |z|, None)
    ensures Reduced(Num(asg, z), Num(asg, x) + Num(asg, y), Pow2(|z|))
  {
    hide Num, Pow2, Reduced, Partial;
    LowPart(asg, x, |z|);
    LowPart(asg, y, |z|);
    CutPartial(asg, x, y, z);
    SumOfParts(Num(asg, z), Num(asg, x[..|z|]), Num(asg, y[..|z|]), Num(asg, x), Num(asg, y), Pow2(|z|));
  }

  lemma WholePartial(asg: Asg, x: seq<nat>, y: seq<nat>, z: seq<nat>)
    requires |x| == |y| < |z| && Partial(asg, x, y, z, |x|, Some(z[|x|]))
    ensures Num(asg, z[..|x|]) + Worth(asg, z[|x|], |x|) == Num(asg, x) + Num(asg, y)
  {
    hide Num, Pow2, Worth;
    assert x[..|x|] == x && y[..|y|] == y;
  }

  lemma WholeSum(asg: Asg, x: seq<nat>, y: seq<nat>, z: seq<nat>)
    requires |x| == |y| < |z| && Partial(asg, x, y, z, |x|, Some(z[|x|])) && AllLow(asg, z[|x| + 1..])
    ensures Reduced(Num(asg, z), Num(asg, x) + Num(asg, y), Pow2(|z|))
  {
    hide Num, Pow2, Worth, AllLow, Reduced, Partial;
    WholePartial(asg, x, y, z);
    CarryOnTop(asg, z, |x|);
    NumBound(asg, z);
    FitsWhole(Num(asg, z), Num(asg, x) + Num(asg, y), Pow2(|z|));
  }

  lemma CarryOnTop(asg: Asg, z: seq<nat>, n: nat)
    requires n < |z| && AllLow(asg, z[n + 1..])
    ensures Num(asg, z) == Num(asg, z[..n]) + Worth(asg, z[n], n)
  {
    hide Num, Pow2;
    WorthSnoc(asg, z, n);
    NumExtend(asg, z, n + 1);
  }

  /** The ripple: drives z[0..n) and the carry wire, if there is one. */
  method AddBits(cc: Compiler, x: seq<nat>, y: seq<nat>, z: seq<nat>) returns (c: Opt<nat>)
    requires cc.G().Built() && cc.G().AllDriven(x) && cc.G().AllDriven(y) && cc.G().Free(z)
    requires 0 < |x| == |y| <= |z|
    modifies cc
    ensures c == if |x| < |z| then Some(z[|x|]) else None
    ensures cc.G().Built() && Grows(old(cc.G()), cc.G(), SetOf(z))
    ensures cc.G().AllDriven(z[..Min(|x| + 1, |z|)])
    ensures forall asg :: Sat(cc.table, asg) ==> Partial(asg, x, y, z, |x|, c)
  {
    hide State.Built, Sat, Partial, Sums, State.Driven, Pow2;
    ghost var s0, outs := cc.G(), SetOf(z);
    if |x| == 1 {
      c := if |z| > 1 then Some(z[1]) else None;
    } else {
      var w := cc.NewWire();
      c := Some(w);
    }
    ghost var s1 := cc.G();
    NewHalfAdder(cc, x[0], y[0], z[0], c);
    GrowsTrans(s0, s1, cc.G(), outs, {z[0]} + Wires(c));
    forall asg | Sat(cc.table, asg)
      ensures Partial(asg, x, y, z, 1, c)
    {
      PartialStart(asg, x, y, z, c);
    }
    c := AddRest(cc, s0, x, y, z, c);
    assert c.Some? ==> z[..|x| + 1] == z[..|x|] + [c.value];
  }

  method AddRest(cc: Compiler, ghost s0: State, x: seq<nat>, y: seq<nat>, z: seq<nat>, c1: Opt<nat>) returns (c: Opt<nat>)
    requires cc.G().Built() && Grows(s0, cc.G(), SetOf(z))
    requires s0.AllDriven(x) && s0.AllDriven(y) && s0.Free(z) && 0 < |x| == |y| <= |z|
    requires cc.G().Driven(z[0]) && (c1.Some? ==> cc.G().Driven(c1.value))
    requires if |x| == 1 then c1 == if 1 < |z| then Some(z[1]) else None else c1.Some? && c1.value >= |s0.wires|
    requires 1 < |x| ==> forall j :: 1 <= j < |z| ==> cc.G().Open(z[j])
    requires forall asg :: Sat(cc.table, asg) ==> Partial(asg, x, y, z, 1, c1)
    modifies cc
    ensures cc.G().Built() && Grows(s0, cc.G(), SetOf(z))
    ensures c == if |x| < |z| then Some(z[|x|]) else None
    ensures cc.G().AllDriven(z[..|x|]) && (c.Some? ==> cc.G().Driven(c.value))
    ensures forall asg :: Sat(cc.table, asg) ==> Partial(asg, x, y, z, |x|, c)
  {
    hide State.Built, Sat, Partial, Grows, State.Driven, State.Open;
    c := c1;
    for i := 1 to |x|
      invariant cc.G().Built() && Grows(s0, cc.G(), SetOf(z))
      invariant i < |x| ==> c.Some? && c.value >= |s0.wires|
      invariant i == |x| ==> c == if |x| < |z| then Some(z[|x|]) else None
      invariant cc.G().AllDriven(z[..i]) && (c.Some? ==> cc.G().Driven(c.value))
      invariant i < |x| ==> forall j :: i <= j < |z| ==> cc.G().Open(z[j])
      invariant forall asg :: Sat(cc.table, asg) ==> Partial(asg, x, y, z, i, c)
    {
      c := AddBit(cc, s0, x, y, z, i, c.value);
    }
  }

  method AddBit(cc: Compiler, ghost s0: State, x: seq<nat>, y: seq<nat>, z: seq<nat>, i: nat, cin: nat) returns (cout: Opt<nat>)
    requires cc.G().Built() && Grows(s0, cc.G(), SetOf(z))
    requires s0.AllDriven(x) && s0.AllDriven(y) && s0.Free(z) && 0 < i < |x| == |y| <= |z|
    requires cin >= |s0.wires| && cc.G().Driven(cin)
    requires cc.G().AllDriven(z[..i]) && forall j :: i <= j < |z| ==> cc.G().Open(z[j])
    requires forall asg :: Sat(cc.table, asg) ==> Partial(asg, x, y, z, i, Some(cin))
    modifies cc
    ensures cc.G().Built() && Grows(s0, cc.G(), SetOf(z))
    ensures i + 1 < |x| ==> cout.Some? && cout.value >= |s0.wires|
    ensures i + 1 == |x| ==> cout == if |x| < |z| then Some(z[|x|]) else None
    ensures cc.G().AllDriven(z[..i + 1]) && (cout.Some? ==> cc.G().Driven(cout.value))
    ensures i + 1 < |x| ==> forall j :: i + 1 <= j < |z| ==> cc.G().Open(z[j])
    ensures forall asg :: Sat(cc.table, asg) ==> Partial(asg, x, y, z, i + 1, cout)
  {
    hide State.Built, Sat, Partial, Sums;
    ghost var s1 := cc.G();
    if i + 1 < |x| {
      var w := cc.NewWire();
      cout := Some(w);
    } else if i + 1 < |z| {
      cout := Some(z[i + 1]);
    } else {
      cout := None;
    }
    ghost var s2, outs := cc.G(), SetOf(z);
    GrowsWiden(s1, s2, {});
    GrowsTrans(s0, s1, s2, outs, {});
    NewFullAdder(cc, x[i], y[i], cin, z[i], cout);
    GrowsTrans(s0, s2, cc.G(), outs, {z[i]} + Wires(cout));
    forall asg | Sat(cc.table, asg)
      ensures Partial(asg, x, y, z, i + 1, cout)
    {
      SatPrefix(s1.table, cc.table, asg);
      PartialStep(asg, x, y, z, i, cin, cout);
    }
  }

  lemma PartialAgrees(asg: Asg, x: seq<nat>, y: seq<nat>, xp: seq<nat>, yp: seq<nat>, z: seq<nat>, u: seq<nat>, n: nat, c: Opt<nat>)
    requires x <= xp && y <= yp && n == |x| == |y| && n <= |z| == |u| && z[..n] == u[..n]
    requires Partial(asg, x, y, z, n, c)
    ensures Partial(asg, xp, yp, u, n, c)
  {
    assert xp[..n] == x == x[..n] && yp[..n] == y == y[..n];
  }

  /** Builds z = x + y modulo 2^len(z).  Entries of `z` above the carry are
      replaced by the zero wire; the others keep their wires. */
  method NewAdder(cc: Compiler, x0: seq<nat>, y0: seq<nat>, z: array<nat>)
    requires cc.G().Built() && cc.G().AllDriven(x0) && cc.G().AllDriven(y0) && cc.G().Free(z[..])
    requires z.Length > 0 && Max(|x0|, |y0|) > 0
    modifies cc, z
    ensures cc.G().Built() && Grows(old(cc.G()), cc.G(), SetOf(old(z[..]))) && cc.G().AllDriven(z[..])
    ensures forall i :: 0 <= i < z.Length && i <= Max(|x0|, |y0|) ==> z[i] == old(z[i])
    ensures forall asg :: Sat(cc.table, asg) ==>
              Num(asg, z[..]) == (Num(asg, x0) + Num(asg, y0)) % Pow2(z.Length)
  {
    hide State.Built, Sat, Num, Pow2;
    ghost var s0, outs := cc.G(), SetOf(z[..]);
    var xp, yp := cc.ZeroPad(x0, y0);
    ghost var sp := cc.G();
    var zs := z[..];
    GrowsWiden(s0, sp, outs);
    var x, y := xp, yp;
    if |x| > z.Length {
      x, y := x[..z.Length], y[..z.Length];
    }
    var c := AddBits(cc, x, y, zs);
    GrowsTrans(s0, sp, cc.G(), outs, outs);
    ghost var sa := cc.G();
    ZeroFill(cc, z, |x| + 1);
    GrowsTrans(s0, sa, cc.G(), outs, {});
    forall asg | Sat(cc.table, asg)
      ensures Num(asg, z[..]) == (Num(asg, x0) + Num(asg, y0)) % Pow2(z.Length)
    {
      SatPrefix(sa.table, cc.table, asg);
      SatPrefix(sp.table, sa.table, asg);
      PartialAgrees(asg, x, y, xp, yp, zs, z[..], |x|, c);
      AdderValue(asg, xp, yp, |x|, z[..], c);
    }
  }

  /** A sum on fresh wires. */
  method FreshSum(cc: Compiler, x: seq<nat>, y: seq<nat>, n: nat) returns (z: seq<nat>)
    requires cc.G().Built() && cc.G().AllDriven(x) && cc.G().AllDriven(y) && n > 0 && Max(|x|, |y|) > 0
    modifies cc
    ensures cc.G().Built() && Grows(old(cc.G()), cc.G(), {}) && cc.G().AllDriven(z) && |z| == n
    ensures forall asg :: Sat(cc.table, asg) ==> Num(asg, z) == (Num(asg, x) + Num(asg, y)) % Pow2(n)
  {
    hide State.Built, Sat, Num, Pow2, State.Driven, State.Open, Grows;
    ghost var s0 := cc.G();
    var ws := NewWires(cc, n);
    ghost var s1, w := cc.G(), ws[..];
    KeepsDriven(s0, s1, {}, x);
    KeepsDriven(s0, s1, {}, y);
    NewAdder(cc, x, y, ws);
    GrowsFresh(s0, s1, cc.G(), w);
    z := ws[..];
  }
}
