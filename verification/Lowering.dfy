/** Lowering of a straight-line SSA program to gates
    (compiler/ssa/circuitgen.go): every instruction finds the wires of its
    inputs, builds the circuit of its operation and binds wires to its output. */
module Lowering {
  import opened Nat
  import opened Circuit
  import opened Graph
  import opened Compiler
  import opened Adder
  import opened Subtractor
  import opened Mux
  import opened Karatsuba
  import opened Division
  import opened Divider
  import opened SignedDivider
  import opened Comparators
  import opened Bitwise
  import opened Ssa
  import Index
  import Native
  import Walloc = WireAllocator

  /** The wires of each value. */
  type WireEnv = map<Key, seq<nat>>

  /** The wire allocator holds these wires. */
  ghost predicate Stands(t: Walloc.WireAllocator, env: WireEnv)
    reads t, t.heads
  {
    t.Valid() && forall k: Key :: t.Get(k) == if k in env then Some(env[k]) else None
  }

  lemma StandsAt(t: Walloc.WireAllocator, env: WireEnv, k: Key)
    requires Stands(t, env)
    ensures t.Valid() && t.Get(k) == if k in env then Some(env[k]) else None
  {
  }

  /** Looking a value up changes nothing that is bound. */
  method BoundWires(t: Walloc.WireAllocator, ghost env: WireEnv, k: Key) returns (w: seq<nat>)
    requires Stands(t, env) && k in env
    modifies t, t.heads
    ensures Stands(t, env) && w == env[k]
  {
    hide Walloc.WireAllocator.Valid, Walloc.WireAllocator.Get;
    w := t.Wires(k, []);
  }

  ghost predicate EnvDriven(s: State, env: WireEnv) {
    forall k :: k in env ==> s.AllDriven(env[k])
  }

  /** The bits on the wires of every value. */
  function BitsOf(asg: Asg, env: WireEnv): (r: Env)
    ensures r.Keys == env.Keys
  {
    map k | k in env :: Bits(asg, env[k])
  }

  // ----- Inputs -----

  /** The wires of an input, cut or padded to the width of its type: signed
      types repeat the top wire, others get the zero wire. */
  method OperandWires(cc: Compiler, t: Walloc.WireAllocator, ghost env: WireEnv, o: Operand) returns (ws: seq<nat>)
    requires cc.G().Built() && EnvDriven(cc.G(), env) && o.key in env && Stands(t, env)
    modifies cc, t, t.heads
    ensures Stands(t, env)
    ensures cc.G().Built() && Grows(old(cc.G()), cc.G(), {}) && cc.G().AllDriven(ws) && |ws| == o.bits
    ensures forall asg :: Sat(cc.table, asg) ==> Bits(asg, ws) == Read(BitsOf(asg, env), o)
  {
    hide State.Built, Sat, State.Driven, Stands;
    ghost var s0 := cc.G();
    var w := BoundWires(t, env, o.key);
    GrowsRefl(s0);
    if |w| == o.bits {
      return w;
    }
    var pad;
    if o.signed && |w| > 0 {
      pad := w[|w| - 1];
    } else {
      pad := cc.ZeroWire();
    }
    GrowsRefl(s0);
    KeepsDriven(s0, cc.G(), {}, w);
    ws := [];
    for bit := 0 to o.bits
      invariant ws == seq(bit, i requires 0 <= i => if i < |w| then w[i] else pad)
    {
      ws := ws + [if bit < |w| then w[bit] else pad];
    }
    forall asg | Sat(cc.table, asg) ensures Bits(asg, ws) == Read(BitsOf(asg, env), o) {
      assert BitsOf(asg, env)[o.key] == Bits(asg, w);
    }
  }

  // ----- One instruction -----

  method LowerArith(cc: Compiler, limit: nat, op: ArithOp, a: seq<nat>, b: seq<nat>, n: nat) returns (o: seq<nat>)
    requires cc.G().Built() && cc.G().AllDriven(a) && cc.G().AllDriven(b) && limit >= 3
    requires Max(|a|, |b|) > 0 && ResultFits(op, Max(|a|, |b|), n)
    modifies cc
    ensures cc.G().Built() && Grows(old(cc.G()), cc.G(), {}) && cc.G().AllDriven(o) && |o| == n
    ensures forall asg :: Sat(cc.table, asg) ==> Computes(asg, op, a, b, o)
  {
    hide State.Built, Sat, Num, State.Driven, State.Open, Grows, Divides, SignedDivides, Computes, State.Free;
    match op
    case Add =>
      o := FreshSum(cc, a, b, n);
      forall asg | Sat(cc.table, asg) ensures Computes(asg, op, a, b, o) { MakeComputes(asg, op, a, b, o); }
    case Sub =>
      o := FreshDifference(cc, a, b, n);
      forall asg | Sat(cc.table, asg) ensures Computes(asg, op, a, b, o) { MakeComputes(asg, op, a, b, o); }
    case Mult =>
      ghost var s0 := cc.G();
      var z := NewWires(cc, n);
      ghost var s1, w := cc.G(), z[..];
      KeepAll(s0, s1, a, b);
      NewKaratsubaMultiplier(cc, limit, a, b, z);
      GrowsFresh(s0, s1, cc.G(), w);
      o := z[..];
      forall asg | Sat(cc.table, asg) ensures Computes(asg, op, a, b, o) { MakeComputes(asg, op, a, b, o); }
    case Udiv => o := LowerDivision(cc, op, a, b, n);
    case Umod => o := LowerDivision(cc, op, a, b, n);
    case Idiv => o := LowerDivision(cc, op, a, b, n);
    case Imod => o := LowerDivision(cc, op, a, b, n);
  }

  /** The output wires hold the result modulo their width. */
  predicate Computes(asg: Asg, op: ArithOp, a: seq<nat>, b: seq<nat>, o: seq<nat>) {
    Max(|a|, |b|) > 0 && Num(asg, o) == ArithMeans(op, Num(asg, a), Num(asg, b), Max(|a|, |b|)) % Pow2(|o|)
  }

  lemma MakeComputes(asg: Asg, op: ArithOp, a: seq<nat>, b: seq<nat>, o: seq<nat>)
    requires Max(|a|, |b|) > 0
    requires match op
             case Add => Num(asg, o) == (Num(asg, a) + Num(asg, b)) % Pow2(|o|)
             case Sub => Num(asg, o) == (Num(asg, a) - Num(asg, b)) % Pow2(Min(|o|, Max(|a|, |b|) + 1))
             case Mult => Num(asg, o) == (Num(asg, a) * Num(asg, b)) % Pow2(|o|)
             case Udiv => Divides(asg, Num(asg, a), Num(asg, b), Max(|a|, |b|), o, [])
             case Umod => Divides(asg, Num(asg, a), Num(asg, b), Max(|a|, |b|), [], o)
             case Idiv => SignedDivides(asg, Num(asg, a), Num(asg, b), Max(|a|, |b|), o, [])
             case Imod => SignedDivides(asg, Num(asg, a), Num(asg, b), Max(|a|, |b|), [], o)
    ensures Computes(asg, op, a, b, o)
  {
    hide Num, Pow2, Quot, Rem, TruncQuot, Signed, Abs;
    if op == Sub {
      ModTwice(Num(asg, a) - Num(asg, b), Max(|a|, |b|) + 1, |o|);
    }
  }

  /** NewUDivider and NewIDivider, asked for the quotient or the remainder. */
  method LowerDivision(cc: Compiler, op: ArithOp, a: seq<nat>, b: seq<nat>, n: nat) returns (o: seq<nat>)
    requires cc.G().Built() && cc.G().AllDriven(a) && cc.G().AllDriven(b) && n <= Max(|a|, |b|) && Max(|a|, |b|) > 0
    requires op == Udiv || op == Umod || op == Idiv || op == Imod
    modifies cc
    ensures cc.G().Built() && Grows(old(cc.G()), cc.G(), {}) && cc.G().AllDriven(o) && |o| == n
    ensures forall asg :: Sat(cc.table, asg) ==> Computes(asg, op, a, b, o)
  {
    hide State.Built, Sat, Num, State.Driven, State.Open, Grows, Divides, SignedDivides, Computes, State.Free;
    ghost var s0 := cc.G();
    var z := NewWires(cc, n);
    ghost var s1 := cc.G();
    KeepAll(s0, s1, a, b);
    o := z[..];
    assert o + [] == o == [] + o && o[..n] == o;
    if op == Udiv {
      NewUDivider(cc, a, b, o, []);
    } else if op == Umod {
      NewUDivider(cc, a, b, [], o);
    } else if op == Idiv {
      NewIDivider(cc, a, b, o, []);
    } else {
      NewIDivider(cc, a, b, [], o);
    }
    DivisionGrows(s0, s1, cc.G(), o);
    forall asg | Sat(cc.table, asg) ensures Computes(asg, op, a, b, o) {
      MakeComputes(asg, op, a, b, o);
    }
  }

  lemma DivisionGrows(s0: State, s1: State, t: State, o: seq<nat>)
    requires Grows(s0, s1, {}) && forall i :: 0 <= i < |o| ==> o[i] >= |s0.wires|
    requires Grows(s1, t, SetOf(o) + SetOf([])) || Grows(s1, t, SetOf([]) + SetOf(o))
    ensures Grows(s0, t, {})
  {
    assert SetOf(o) + SetOf([]) == SetOf(o) == SetOf([]) + SetOf(o);
    GrowsFresh(s0, s1, t, o);
  }

  /** Lt and Le compare the other way round. */
  method LowerCompare(cc: Compiler, cmp: CompareOp, signed: bool, a: seq<nat>, b: seq<nat>) returns (o: seq<nat>)
    requires cc.G().Built() && cc.G().AllDriven(a) && cc.G().AllDriven(b) && Max(|a|, |b|) > 0
    requires signed ==> cmp != Eq && cmp != Neq
    modifies cc
    ensures cc.G().Built() && Grows(old(cc.G()), cc.G(), {}) && cc.G().AllDriven(o) && |o| == 1
    ensures forall asg :: Sat(cc.table, asg) ==> (o[0] in asg <==> Compared(cmp, signed, Bits(asg, a), Bits(asg, b)))
  {
    hide State.Built, Sat, Num, State.Driven, State.Open, Grows, Compared, FromBits;
    ghost var s0 := cc.G();
    var z := NewWires(cc, 1);
    ghost var s1 := cc.G();
    o := z[..];
    KeepAll(s0, s1, a, b);
    var ok;
    if cmp == Eq {
      ok := NewEqComparator(cc, a, b, o);
      GrowsFresh(s0, s1, cc.G(), o);
    } else if cmp == Neq {
      ok := NewNeqComparator(cc, a, b, o);
      GrowsFresh(s0, s1, cc.G(), o);
    } else {
      OrderComparator(cc, cmp, signed, a, b, o);
      GrowsFresh(s0, s1, cc.G(), o);
    }
    forall asg | Sat(cc.table, asg)
      ensures o[0] in asg <==> Compared(cmp, signed, Bits(asg, a), Bits(asg, b))
    {
      if cmp == Eq || cmp == Neq {
        NumBits(asg, a);
        NumBits(asg, b);
        MakeEquality(cmp, Bits(asg, a), Bits(asg, b), o[0] in asg);
      }
    }
  }

  lemma MakeEquality(cmp: CompareOp, u: seq<bool>, v: seq<bool>, r: bool)
    requires if cmp == Eq then r == (FromBits(u) == FromBits(v)) else cmp == Neq && r == (FromBits(u) != FromBits(v))
    ensures r <==> Compared(cmp, false, u, v)
  {
    hide FromBits;
    PaddedNumber(u, Max(|u|, |v|));
    PaddedNumber(v, Max(|u|, |v|));
  }

  /** The eight order comparators: x > y with carry in 0, x >= y with 1. */
  method OrderComparator(cc: Compiler, cmp: CompareOp, signed: bool, a: seq<nat>, b: seq<nat>, r: seq<nat>)
    requires cc.G().Built() && cc.G().AllDriven(a) && cc.G().AllDriven(b) && Max(|a|, |b|) > 0 && cc.G().Free(r) && |r| == 1
    requires cmp == Lt || cmp == Le || cmp == Gt || cmp == Ge
    modifies cc
    ensures cc.G().Built() && Grows(old(cc.G()), cc.G(), SetOf(r)) && cc.G().AllDriven(r)
    ensures forall asg :: Sat(cc.table, asg) ==> (r[0] in asg <==> Compared(cmp, signed, Bits(asg, a), Bits(asg, b)))
  {
    hide State.Built, Sat, Num, State.Open, Grows, Compared, Signed, FromBits;
    ghost var s0 := cc.G();
    var strict := cmp == Lt || cmp == Gt;
    var cin;
    if strict {
      cin := cc.ZeroWire();
    } else {
      cin := cc.OneWire();
    }
    ghost var s1 := cc.G();
    KeepAll(s0, s1, a, b);
    KeepsFree(s0, s1, {}, r);
    var x, y := if cmp == Lt || cmp == Le then b else a, if cmp == Lt || cmp == Le then a else b;
    var ok;
    if signed {
      ok := IntComparator(cc, cin, x, y, r);
    } else {
      ok := UintComparator(cc, cin, x, y, r);
    }
    GrowsWiden(s0, s1, SetOf(r));
    GrowsTrans(s0, s1, cc.G(), SetOf(r), SetOf(r));
    TableKept(s1, cc.G(), SetOf(r));
    assert r == [r[0]];
    forall asg | Sat(cc.table, asg)
      ensures r[0] in asg <==> Compared(cmp, signed, Bits(asg, a), Bits(asg, b))
    {
      SatPrefix(s1.table, cc.table, asg);
      NumBits(asg, a);
      NumBits(asg, b);
      MakeOrder(cmp, signed, Bits(asg, a), Bits(asg, b), B(asg, cin), r[0] in asg);
    }
  }

  lemma TableKept(s: State, t: State, outs: set<nat>)
    requires Grows(s, t, outs)
    ensures s.table <= t.table
  {
  }

  lemma MakeOrder(cmp: CompareOp, signed: bool, u: seq<bool>, v: seq<bool>, e: nat, r: bool)
    requires Max(|u|, |v|) > 0 && (cmp == Lt || cmp == Le || cmp == Gt || cmp == Ge)
    requires e == if cmp == Lt || cmp == Gt then 0 else 1
    requires var n := Max(|u|, |v|);
             var a, b := FromBits(u), FromBits(v);
             var x, y := if cmp == Lt || cmp == Le then b else a, if cmp == Lt || cmp == Le then a else b;
             r <==> if signed then Signed(x, n) + e > Signed(y, n) else x + e > y
    ensures r <==> Compared(cmp, signed, u, v)
  {
    hide Signed, FromBits;
    PaddedNumber(u, Max(|u|, |v|));
    PaddedNumber(v, Max(|u|, |v|));
  }

  method LowerPhi(cc: Compiler, c: seq<nat>, t: seq<nat>, f: seq<nat>) returns (o: seq<nat>)
    requires cc.G().Built() && cc.G().AllDriven(c) && cc.G().AllDriven(t) && cc.G().AllDriven(f) && |c| == 1
    modifies cc
    ensures cc.G().Built() && Grows(old(cc.G()), cc.G(), {}) && cc.G().AllDriven(o) && |o| == Max(|t|, |f|)
    ensures forall asg :: Sat(cc.table, asg) ==>
              Bits(asg, o) == Fit(if Bits(asg, c)[0] then Bits(asg, t) else Bits(asg, f), |o|, false)
  {
    hide State.Built, Sat, Num, Grows, FromBits, Fit;
    o := FreshMux(cc, c, t, f);
    forall asg | Sat(cc.table, asg)
      ensures Bits(asg, o) == Fit(if Bits(asg, c)[0] then Bits(asg, t) else Bits(asg, f), |o|, false)
    {
      NumBits(asg, t);
      NumBits(asg, f);
      FittedBits(asg, o, if Bits(asg, c)[0] then Bits(asg, t) else Bits(asg, f));
    }
  }

  /** Copying instructions make no gates: each output wire is an input wire, or
      the zero wire. */
  method LowerCopy(cc: Compiler, instr: Instr, src: seq<nat>) returns (o: seq<nat>)
    requires cc.G().Built() && cc.G().AllDriven(src) && Copies(instr)
    requires forall i :: 0 <= i < instr.out.bits && Source(instr, i).Some? ==> Source(instr, i).value < |src|
    modifies cc
    ensures cc.G().Built() && Grows(old(cc.G()), cc.G(), {}) && cc.G().AllDriven(o) && |o| == instr.out.bits
    ensures forall asg :: Sat(cc.table, asg) ==> Bits(asg, o) == CopyBits(Bits(asg, src), instr)
  {
    hide State.Built, Sat, Grows, State.Driven, Source;
    ghost var s0 := cc.G();
    GrowsRefl(s0);
    o := [];
    var n := instr.out.bits;
    for bit := 0 to n
      invariant cc.G().Built() && Grows(s0, cc.G(), {}) && cc.G().AllDriven(o) && |o| == bit
      invariant forall asg, i :: Sat(cc.table, asg) && 0 <= i < bit ==> (o[i] in asg <==> CopyBits(Bits(asg, src), instr)[i])
    {
      ghost var s1, before := cc.G(), o;
      KeepAll(s0, s1, src);
      var from := Source(instr, bit);
      var w;
      if from.Some? {
        w := src[from.value];
        GrowsRefl(s1);
      } else {
        w := cc.ZeroWire();
      }
      GrowsTrans(s0, s1, cc.G(), {}, {});
      KeepAll(s1, cc.G(), o);
      o := o + [w];
      forall asg, i | Sat(cc.table, asg) && 0 <= i < bit + 1
        ensures o[i] in asg <==> CopyBits(Bits(asg, src), instr)[i]
      {
        SatPrefix(s1.table, cc.table, asg);
        if i < bit {
          assert o[i] == before[i];
        }
      }
    }
  }

  method LowerBitwise(cc: Compiler, op: BitOp, a: seq<nat>, b: seq<nat>, n: nat) returns (o: seq<nat>)
    requires cc.G().Built() && cc.G().AllDriven(a) && cc.G().AllDriven(b) && n <= Max(|a|, |b|)
    modifies cc
    ensures cc.G().Built() && Grows(old(cc.G()), cc.G(), {}) && cc.G().AllDriven(o) && |o| == n
    ensures forall asg :: Sat(cc.table, asg) ==> Bits(asg, o) == BitwiseBits(op, Bits(asg, a), Bits(asg, b), n)
  {
    hide State.Built, Sat, Grows, State.Driven, BitMeans;
    ghost var s0 := cc.G();
    var z := NewWires(cc, n);
    o := z[..];
    ghost var s1 := cc.G();
    KeepAll(s0, s1, a, b);
    assert o[..n] == o;
    NewBinary(cc, op, a, b, o);
    GrowsFresh(s0, s1, cc.G(), o);
  }

  method LowerNot(cc: Compiler, a: seq<nat>, n: nat) returns (o: seq<nat>)
    requires cc.G().Built() && cc.G().AllDriven(a) && n <= |a|
    modifies cc
    ensures cc.G().Built() && Grows(old(cc.G()), cc.G(), {}) && cc.G().AllDriven(o) && |o| == n
    ensures forall asg :: Sat(cc.table, asg) ==> Bits(asg, o) == NotBits(Bits(asg, a), n)
  {
    hide State.Built, Sat, Grows, State.Driven;
    ghost var s0 := cc.G();
    var z := NewWires(cc, n);
    o := z[..];
    ghost var s1 := cc.G();
    KeepAll(s0, s1, a);
    InvertBits(cc, a, o);
    GrowsFresh(s0, s1, cc.G(), o);
  }

  method LowerBitTest(cc: Compiler, a: seq<nat>, index: nat, wanted: bool) returns (o: seq<nat>)
    requires cc.G().Built() && cc.G().AllDriven(a)
    modifies cc
    ensures cc.G().Built() && Grows(old(cc.G()), cc.G(), {}) && cc.G().AllDriven(o) && |o| == 1
    ensures forall asg :: Sat(cc.table, asg) ==> Bits(asg, o) == [TestedBit(Bits(asg, a), index) == wanted]
  {
    hide State.Built, Sat, Grows, State.Driven;
    ghost var s0 := cc.G();
    var z := NewWires(cc, 1);
    ghost var s1, ws := cc.G(), z[..];
    KeepAll(s0, s1, a);
    var ok := NewBitTest(cc, a, index, wanted, z);
    o := z[..];
    GrowsFresh(s0, s1, cc.G(), ws);
  }

  /** The Index instruction: the elements from `offset` on. */
  method LowerElement(cc: Compiler, items: seq<nat>, index: seq<nat>, size: nat, n: nat) returns (o: seq<nat>)
    requires cc.G().Built() && cc.G().AllDriven(items) && cc.G().AllDriven(index)
    requires size > 0 && |index| > 0 && |items| % size == 0 && if items == [] then n >= size else n == size
    modifies cc
    ensures cc.G().Built() && Grows(old(cc.G()), cc.G(), {}) && cc.G().AllDriven(o) && |o| == n
    ensures forall asg :: Sat(cc.table, asg) ==> Bits(asg, o) == Selected(Bits(asg, items), size, Bits(asg, index), n)
  {
    hide State.Built, Sat, Grows, State.Driven, Num, Pow2, FromBits, Index.Element, Bits, Selected, IndexBits;
    ghost var s0 := cc.G();
    var z := NewWires(cc, n);
    ghost var s1, ws := cc.G(), z[..];
    KeepAll(s0, s1, items, index);
    var ok := Index.NewIndex(cc, size, items, index, z);
    o := z[..];
    GrowsFresh(s0, s1, cc.G(), ws);
    forall asg | Sat(cc.table, asg) ensures Bits(asg, o) == Selected(Bits(asg, items), size, Bits(asg, index), n) {
      var bits := IndexBits(|items| / size);
      assert Index.TreeBits(|items| / size, bits);
      NumBits(asg, index);
      SelectedBits(asg, items, size, index, o);
    }
  }

  lemma {:induction false} ElementNumber(asg: Asg, items: seq<nat>, size: nat, j: nat)
    requires size > 0
    ensures Index.Element(asg, items, size, j) == FromBits(ElementBits(Bits(asg, items), size, j))
    decreases j
  {
    hide FromBits, Num;
    if |items| < size {
      FromBitsLow(ElementBits(Bits(asg, items), size, j));
    } else if j == 0 {
      NumBits(asg, items[..size]);
      assert Bits(asg, items[..size]) == Bits(asg, items)[..size];
    } else {
      ElementNumber(asg, items[size..], size, j - 1);
      assert Bits(asg, items[size..]) == Bits(asg, items)[size..];
    }
  }

  lemma SelectedBits(asg: Asg, items: seq<nat>, size: nat, index: seq<nat>, o: seq<nat>)
    requires size > 0 && |o| >= size
    requires Num(asg, o) == Index.Element(asg, items, size, FromBits(Bits(asg, index)) % Pow2(IndexBits(|items| / size)))
    ensures Bits(asg, o) == Selected(Bits(asg, items), size, Bits(asg, index), |o|)
  {
    hide FromBits, Num, Pow2, Index.Element, Bits, ElementBits, IndexBits, Fit;
    var j := FromBits(Bits(asg, index)) % Pow2(IndexBits(|items| / size));
    ElementNumber(asg, items, size, j);
    FittedBits(asg, o, ElementBits(Bits(asg, items), size, j));
  }

  /** Wires that carry the number of fewer bits carry those bits and zeros. */
  lemma FittedBits(asg: Asg, o: seq<nat>, e: seq<bool>)
    requires |e| <= |o| && Num(asg, o) == FromBits(e)
    ensures Bits(asg, o) == Fit(e, |o|, false)
  {
    hide FromBits, Num, Pow2, Bits;
    var pad := seq(|o| - |e|, i => false);
    assert Fit(e, |o|, false) == e + pad;
    FromBitsConcat(e, pad);
    FromBitsLow(pad);
    NumBits(asg, o);
    NumberOfBits(Bits(asg, o));
    NumberOfBits(e + pad);
  }

  /** Where the sources of a copying instruction lie. */
  lemma SourceInRange(instr: Instr, n: nat)
    requires Copies(instr) && Typed(instr)
    requires n == if instr.Concat? || instr.Amov? then instr.a.bits + instr.b.bits else instr.a.bits
    ensures forall i :: 0 <= i < instr.out.bits && Source(instr, i).Some? ==> Source(instr, i).value < n
  {
  }

  /** The wires of all inputs of an instruction. */
  method InputWires(cc: Compiler, t: Walloc.WireAllocator, ghost env: WireEnv, ops: seq<Operand>) returns (wires: seq<seq<nat>>)
    requires cc.G().Built() && EnvDriven(cc.G(), env) && Stands(t, env) && forall o :: o in ops ==> o.key in env
    modifies cc, t, t.heads
    ensures Stands(t, env)
    ensures cc.G().Built() && Grows(old(cc.G()), cc.G(), {}) && |wires| == |ops|
    ensures forall j :: 0 <= j < |ops| ==> cc.G().AllDriven(wires[j]) && |wires[j]| == ops[j].bits
    ensures forall asg, j :: Sat(cc.table, asg) && 0 <= j < |ops| ==> Bits(asg, wires[j]) == Read(BitsOf(asg, env), ops[j])
  {
    hide State.Built, Sat, Grows, State.Driven, State.AllDriven, Bits, Read, EnvDriven, Stands;
    ghost var s0 := cc.G();
    GrowsRefl(s0);
    wires := [];
    var n := |ops|;
    for i := 0 to n
      invariant cc.G().Built() && Grows(s0, cc.G(), {}) && |wires| == i && Stands(t, env)
      invariant forall j :: 0 <= j < i ==> cc.G().AllDriven(wires[j]) && |wires[j]| == ops[j].bits
      invariant forall asg, j :: Sat(cc.table, asg) && 0 <= j < i ==> Bits(asg, wires[j]) == Read(BitsOf(asg, env), ops[j])
    {
      ghost var s1, before := cc.G(), wires;
      EnvKept(s0, s1, env);
      assert ops[i] in ops;
      var w := OperandWires(cc, t, env, ops[i]);
      GrowsTrans(s0, s1, cc.G(), {}, {});
      TableKept(s1, cc.G(), {});
      wires := wires + [w];
      forall j | 0 <= j < i + 1 ensures cc.G().AllDriven(wires[j]) {
        if j < i {
          assert wires[j] == before[j];
          KeepAll(s1, cc.G(), before[j]) by { EmptySeqDriven(s1); }
        }
      }
      forall asg, j | Sat(cc.table, asg) && 0 <= j < i + 1
        ensures Bits(asg, wires[j]) == Read(BitsOf(asg, env), ops[j])
      {
        SatPrefix(s1.table, cc.table, asg);
        if j < i {
          assert wires[j] == before[j];
        }
      }
    }
  }

  lemma EmptySeqDriven(s: State)
    ensures s.AllDriven([])
  {
  }

  lemma EnvKept(s: State, t: State, env: WireEnv)
    requires EnvDriven(s, env) && Grows(s, t, {})
    ensures EnvDriven(t, env)
  {
    forall k | k in env ensures t.AllDriven(env[k]) {
      KeepsDriven(s, t, {}, env[k]);
    }
  }

  /** The gates or wires of one instruction, from the wires of its inputs. */
  method Build(cc: Compiler, limit: nat, instr: Instr, ins: seq<seq<nat>>) returns (o: seq<nat>)
    requires cc.G().Built() && limit >= 3 && Typed(instr) && Fits(instr, ins)
    requires forall j :: 0 <= j < |ins| ==> cc.G().AllDriven(ins[j])
    modifies cc
    ensures cc.G().Built() && Grows(old(cc.G()), cc.G(), {}) && cc.G().AllDriven(o) && |o| == instr.out.bits
    ensures forall asg :: Sat(cc.table, asg) ==> Bits(asg, o) == ResultOn(asg, instr, ins)
  {
    hide State.Built, Sat, Grows, State.Driven, Num, Computes, Compared, CopyBits, Source, ArithBits, Pow2, FromBits, Fit, Join, Selected, BitwiseBits, NotBits, TestedBit, CircuitBits, Native.Embeddable;
    match instr
    case Arith(op, a, b, out) =>
      o := LowerArith(cc, limit, op, ins[0], ins[1], out.bits);
      forall asg | Sat(cc.table, asg) ensures Bits(asg, o) == ResultOn(asg, instr, ins) {
        ArithOnWires(asg, op, ins[0], ins[1], o);
      }
    case Compare(cmp, signed, a, b, out) =>
      o := LowerCompare(cc, cmp, signed, ins[0], ins[1]);
      forall asg | Sat(cc.table, asg) ensures Bits(asg, o) == ResultOn(asg, instr, ins) {
        assert o == [o[0]];
      }
    case Phi(c, a, b, out) => o := LowerPhi(cc, ins[0], ins[1], ins[2]);
    case Bitwise(op, a, b, out) => o := LowerBitwise(cc, op, ins[0], ins[1], out.bits);
    case Not(a, out) => o := LowerNot(cc, ins[0], out.bits);
    case BitTest(a, index, wanted, out) => o := LowerBitTest(cc, ins[0], index, wanted);
    case ElementOf(a, b, size, offset, out) =>
      var items := ins[0][offset..];
      ItemsDriven(cc.G(), ins[0], offset);
      o := LowerElement(cc, items, ins[1], size, out.bits);
      forall asg | Sat(cc.table, asg) ensures Bits(asg, o) == ResultOn(asg, instr, ins) {
        BitsFrom(asg, ins[0], offset);
      }
    case Circ(c, args, out) =>
      o := Native.InlineCircuit(cc, c, ins);
      forall asg | Sat(cc.table, asg) ensures Bits(asg, o) == ResultOn(asg, instr, ins) {
        CircuitResult(asg, c, ins, out.bits);
      }
    case _ =>
      CopyFits(instr, ins);
      var src := Join(ins);
      JoinDriven(cc.G(), ins);
      o := LowerCopy(cc, instr, src);
  }

  lemma CircuitResult(asg: Asg, c: Circuit, ins: seq<seq<nat>>, n: nat)
    requires Native.Embeddable(c) && Size(c.outputs) == n
    requires |ins| == |c.inputs| && forall i :: 0 <= i < |ins| ==> |ins[i]| <= c.inputs[i].bits
    ensures Size(c.inputs) <= c.numWires && c.InRange()
    ensures Meaning(c, Native.Filled(c.inputs, Native.AllBits(asg, ins))) == CircuitBits(c, Native.AllBits(asg, ins), n)
  {
    Native.Fits(c);
  }

  lemma ItemsDriven(s: State, ws: seq<nat>, offset: nat)
    requires s.AllDriven(ws) && offset <= |ws|
    ensures s.AllDriven(ws[offset..])
  {
  }

  lemma BitsFrom(asg: Asg, ws: seq<nat>, offset: nat)
    requires offset <= |ws|
    ensures Bits(asg, ws[offset..]) == Bits(asg, ws)[offset..]
  {
  }

  predicate Fits(instr: Instr, ins: seq<seq<nat>>) {
    |ins| == |Operands(instr)| && forall j :: 0 <= j < |ins| ==> |ins[j]| == Operands(instr)[j].bits
  }

  function Join(ins: seq<seq<nat>>): seq<nat> {
    if ins == [] then [] else ins[0] + Join(ins[1..])
  }

  /** The result of the instruction on the bits of its input wires. */
  function ResultOn(asg: Asg, instr: Instr, ins: seq<seq<nat>>): seq<bool>
    requires Typed(instr) && Fits(instr, ins)
  {
    match instr
    case Arith(op, a, b, out) => ArithBits(op, Bits(asg, ins[0]), Bits(asg, ins[1]), out.bits)
    case Compare(cmp, signed, a, b, _) => [Compared(cmp, signed, Bits(asg, ins[0]), Bits(asg, ins[1]))]
    case Phi(c, a, b, out) => Fit(if Bits(asg, ins[0])[0] then Bits(asg, ins[1]) else Bits(asg, ins[2]), out.bits, false)
    case Bitwise(op, a, b, out) => BitwiseBits(op, Bits(asg, ins[0]), Bits(asg, ins[1]), out.bits)
    case Not(a, out) => NotBits(Bits(asg, ins[0]), out.bits)
    case BitTest(a, index, wanted, _) => [TestedBit(Bits(asg, ins[0]), index) == wanted]
    case ElementOf(a, b, size, offset, out) => Selected(Bits(asg, ins[0])[offset..], size, Bits(asg, ins[1]), out.bits)
    case Circ(c, args, out) => CircuitBits(c, Native.AllBits(asg, ins), out.bits)
    case _ => CopyBits(Bits(asg, Join(ins)), instr)
  }

  lemma ArithOnWires(asg: Asg, op: ArithOp, a: seq<nat>, b: seq<nat>, o: seq<nat>)
    requires Computes(asg, op, a, b, o)
    ensures Bits(asg, o) == ArithBits(op, Bits(asg, a), Bits(asg, b), |o|)
  {
    hide Num, Pow2, ArithMeans, ToBits, FromBits;
    NumBits(asg, a);
    NumBits(asg, b);
    BitsFromNum(asg, o, ArithMeans(op, Num(asg, a), Num(asg, b), Max(|a|, |b|)));
  }

  lemma CopyFits(instr: Instr, ins: seq<seq<nat>>)
    requires Typed(instr) && Fits(instr, ins) && Copies(instr)
    ensures forall i :: 0 <= i < instr.out.bits && Source(instr, i).Some? ==> Source(instr, i).value < |Join(ins)|
  {
    JoinShort(ins);
    SourceInRange(instr, |Join(ins)|);
  }

  lemma JoinShort(ins: seq<seq<nat>>)
    ensures |ins| == 1 ==> Join(ins) == ins[0]
    ensures |ins| == 2 ==> Join(ins) == ins[0] + ins[1]
  {
    if |ins| == 2 {
      assert Join(ins[1..]) == ins[1] + Join(ins[1..][1..]) == ins[1];
    }
  }

  lemma {:induction false} JoinDriven(s: State, ins: seq<seq<nat>>)
    requires forall j :: 0 <= j < |ins| ==> s.AllDriven(ins[j])
    ensures s.AllDriven(Join(ins))
  {
    if ins != [] {
      JoinDriven(s, ins[1..]);
    }
  }

  /** The interpreter's result is the result on the bits of the input wires. */
  lemma ResultAgrees(asg: Asg, env: WireEnv, instr: Instr, ins: seq<seq<nat>>)
    requires Ready(instr, env.Keys) && Fits(instr, ins)
    requires forall j :: 0 <= j < |ins| ==> Bits(asg, ins[j]) == Read(BitsOf(asg, env), Operands(instr)[j])
    ensures ResultOn(asg, instr, ins) == Outcome(BitsOf(asg, env), instr)
  {
    hide Read, BitsOf, Bits, CopyBits, ArithBits, Compared, FromBits, Fit, Selected, BitwiseBits, NotBits, TestedBit, CircuitBits, Native.Embeddable;
    if Copies(instr) {
      CopyAgrees(asg, env, instr, ins);
    } else {
      var ops := Operands(instr);
      assert forall j :: 0 <= j < |ops| ==> ops[j] in ops;
      if instr.Circ? {
        assert Native.AllBits(asg, ins) == ReadAll(BitsOf(asg, env), ops);
      }
    }
  }

  lemma CopyAgrees(asg: Asg, env: WireEnv, instr: Instr, ins: seq<seq<nat>>)
    requires Ready(instr, env.Keys) && Fits(instr, ins) && Copies(instr)
    requires forall j :: 0 <= j < |ins| ==> Bits(asg, ins[j]) == Read(BitsOf(asg, env), Operands(instr)[j])
    ensures ResultOn(asg, instr, ins) == Outcome(BitsOf(asg, env), instr)
  {
    hide Read, BitsOf, Bits, CopyBits, ArithBits, Compared, FromBits, Fit, Selected, BitwiseBits, NotBits, TestedBit, CircuitBits, Native.Embeddable;
    var ops := Operands(instr);
    assert forall j :: 0 <= j < |ops| ==> ops[j] in ops;
    JoinShort(ins);
    if |ins| == 2 {
      BitsJoin(asg, ins[0], ins[1]);
    }
  }

  lemma BitsJoin(asg: Asg, u: seq<nat>, v: seq<nat>)
    ensures Bits(asg, u + v) == Bits(asg, u) + Bits(asg, v)
  {
  }

  /** One step: the output value gets wires that carry its result; the wires of
      the other values are left as they are. */
  method LowerInstr(cc: Compiler, t: Walloc.WireAllocator, limit: nat, ghost env: WireEnv, instr: Instr) returns (ghost next: WireEnv)
    requires cc.G().Built() && EnvDriven(cc.G(), env) && Ready(instr, env.Keys) && limit >= 3 && Stands(t, env)
    modifies cc, t, t.heads
    ensures Stands(t, next)
    ensures cc.G().Built() && Grows(old(cc.G()), cc.G(), {}) && EnvDriven(cc.G(), next)
    ensures next.Keys == env.Keys + {instr.out.key}
    ensures forall asg :: Sat(cc.table, asg) ==> BitsOf(asg, next) == BitsOf(asg, env)[instr.out.key := Outcome(BitsOf(asg, env), instr)]
  {
    hide State.Built, Sat, Grows, EnvDriven, Outcome, ResultOn, Bits, Typed, Stands;
    ghost var s0 := cc.G();
    var ins := InputWires(cc, t, env, Operands(instr));
    ghost var s1 := cc.G();
    var o := Build(cc, limit, instr, ins);
    GrowsTrans(s0, s1, cc.G(), {}, {});
    TableKept(s1, cc.G(), {});
    Bind(t, env, instr.out.key, o, Copies(instr));
    next := env[instr.out.key := o];
    EnvKept(s0, cc.G(), env);
    EnvExtended(cc.G(), env, instr.out.key, o);
    forall asg | Sat(cc.table, asg)
      ensures BitsOf(asg, next) == BitsOf(asg, env)[instr.out.key := Outcome(BitsOf(asg, env), instr)]
    {
      SatPrefix(s1.table, cc.table, asg);
      ResultAgrees(asg, env, instr, ins);
    }
  }

  /** The output value gets its wires: a copying instruction sets wires that it
      found, the others fill wires they allocated. */
  method Bind(t: Walloc.WireAllocator, ghost env: WireEnv, k: Key, ws: seq<nat>, found: bool)
    requires Stands(t, env) && k !in env
    modifies t, t.heads
    ensures Stands(t, env[k := ws])
  {
    hide Walloc.WireAllocator.Valid, Walloc.WireAllocator.Get;
    StandsAt(t, env, k);
    if found {
      var ok := t.SetWires(k, ws);
    } else {
      var w := t.Wires(k, ws);
    }
  }

  lemma EnvExtended(s: State, env: WireEnv, k: Key, ws: seq<nat>)
    requires EnvDriven(s, env) && s.AllDriven(ws)
    ensures EnvDriven(s, env[k := ws])
  {
  }

  /** The whole program: for every assignment of the graph, the wires bound to
      each value carry exactly the bits that the interpreter computes. */
  method LowerProgram(cc: Compiler, t: Walloc.WireAllocator, limit: nat, ghost env: WireEnv, steps: seq<Instr>) returns (ghost last: WireEnv)
    requires cc.G().Built() && EnvDriven(cc.G(), env) && WellFormed(steps, env.Keys) && limit >= 3 && Stands(t, env)
    modifies cc, t, t.heads
    ensures Stands(t, last)
    ensures cc.G().Built() && Grows(old(cc.G()), cc.G(), {}) && EnvDriven(cc.G(), last)
    ensures forall asg :: Sat(cc.table, asg) ==> BitsOf(asg, last) == Exec(steps, BitsOf(asg, env))
  {
    hide State.Built, Sat, Grows, EnvDriven, Outcome, BitsOf, WellFormed, Exec, Stands;
    ghost var s0 := cc.G();
    GrowsRefl(s0);
    last := env;
    var n := |steps|;
    assert steps[0..] == steps;
    var i := 0;
    while i < n
      invariant 0 <= i <= n && Stands(t, last)
      invariant cc.G().Built() && Grows(s0, cc.G(), {}) && EnvDriven(cc.G(), last) && WellFormed(steps[i..], last.Keys)
      invariant forall asg :: Sat(cc.table, asg) ==> Exec(steps[i..], BitsOf(asg, last)) == Exec(steps, BitsOf(asg, env))
    {
      ghost var s1, before := cc.G(), last;
      assert steps[i..][0] == steps[i] && steps[i..][1..] == steps[i + 1..];
      FirstReady(steps[i..], last.Keys);
      last := LowerInstr(cc, t, limit, last, steps[i]);
      GrowsTrans(s0, s1, cc.G(), {}, {});
      TableKept(s1, cc.G(), {});
      forall asg | Sat(cc.table, asg)
        ensures Exec(steps[i + 1..], BitsOf(asg, last)) == Exec(steps, BitsOf(asg, env))
      {
        SatPrefix(s1.table, cc.table, asg);
        ExecFirst(steps[i..], BitsOf(asg, before));
      }
      i := i + 1;
    }
    assert steps[i..] == [];
    forall asg | Sat(cc.table, asg) ensures BitsOf(asg, last) == Exec(steps, BitsOf(asg, env)) {
      ExecNothing(BitsOf(asg, last));
    }
  }

  lemma FirstReady(steps: seq<Instr>, keys: set<Key>)
    requires steps != [] && WellFormed(steps, keys)
    ensures Ready(steps[0], keys) && WellFormed(steps[1..], keys + {steps[0].out.key})
  {
  }

  lemma ExecFirst(steps: seq<Instr>, env: Env)
    requires steps != [] && WellFormed(steps, env.Keys)
    ensures Ready(steps[0], env.Keys)
    ensures var next := env[steps[0].out.key := Outcome(env, steps[0])];
            next.Keys == env.Keys + {steps[0].out.key} && WellFormed(steps[1..], next.Keys) && Exec(steps, env) == Exec(steps[1..], next)
  {
    assert env[steps[0].out.key := Outcome(env, steps[0])].Keys == env.Keys + {steps[0].out.key};
  }

  lemma ExecNothing(env: Env)
    ensures WellFormed([], env.Keys) && Exec([], env) == env
  {
  }
}
