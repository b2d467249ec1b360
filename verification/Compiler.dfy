/** Construction of the gate graph: the circuit compiler object
    (compiler/circuits/compiler.go) with the allocator that links gates to
    wires (compiler/circuits/allocator.go). */
module Compiler {
  import opened Nat
  import opened Circuit
  import opened Graph

  class Compiler {
    const k: nat                 // number of input wires
    var wires: seq<Wire>
    var table: seq<Node>         // every gate made so far
    var inv: Opt<nat>
    var zero: Opt<nat>
    var one: Opt<nat>

    ghost function G(): State
      reads this
    {
      State(k, wires, table, inv, zero, one)
    }

    constructor (k: nat)
      requires k > 0
      ensures G() == State(k, seq(k, i => NEW_WIRE), [], None, None, None)
      ensures G().Built()
    {
      this.k := k;
      wires, table := seq(k, i => NEW_WIRE), [];
      inv, zero, one := None, None, None;
    }

    /** Calloc.Wire */
    method NewWire() returns (w: nat)
      requires G().Built()
      modifies this`wires
      ensures w == old(|wires|) && wires == old(wires) + [NEW_WIRE]
      ensures G().Built() && G().Open(w) && Grows(old(G()), G(), {})
    {
      w := |wires|;
      wires := wires + [NEW_WIRE];
      NewWireKeepsBuilt(old(G()), G());
    }

    /** AddGate(BinaryGate(op, a, b, o)); the source panics when `o` already
        has an input gate. */
    method Binary(op: Op, a: nat, b: nat, o: nat)
      requires G().Built() && !Unary(op) && !op.Other?
      requires G().Driven(a) && G().Driven(b) && G().Open(o)
      modifies this`wires, this`table
      ensures table == old(table) + [NewNode(op, a, b, o)] && |wires| == old(|wires|)
      ensures G().Built() && Grows(old(G()), G(), {o}) && G().Driven(o)
    {
      var i := |table|;
      AddOutput(a, i);
      AddOutput(b, i);
      wires := wires[o := wires[o].(input := Some(i))];
      table := table + [NewNode(op, a, b, o)];
      Links(old(G()), G(), NewNode(op, a, b, o));
      AddGateKeepsBuilt(old(G()), G(), NewNode(op, a, b, o));
    }

    /** A gate on a fresh output wire. */
    method Emit(op: Op, a: nat, b: nat) returns (o: nat)
      requires G().Built() && !Unary(op) && !op.Other?
      requires G().Driven(a) && G().Driven(b)
      modifies this`wires, this`table
      ensures o == old(|wires|) && |wires| == o + 1
      ensures table == old(table) + [NewNode(op, a, b, o)]
      ensures G().Built() && Grows(old(G()), G(), {}) && G().Driven(o)
    {
      hide State.Built;
      o := NewWire();
      ghost var s := G();
      Binary(op, a, b, o);
      GrowsTrans(old(G()), s, G(), {}, {o});
    }

    /** AddGate(INVGate(a, o)) */
    method Inverter(a: nat, o: nat)
      requires G().Built() && G().Driven(a) && G().Open(o)
      modifies this`wires, this`table
      ensures table == old(table) + [NewNode(INV, a, a, o)] && |wires| == old(|wires|)
      ensures G().Built() && Grows(old(G()), G(), {o}) && G().Driven(o)
    {
      var i := |table|;
      AddOutput(a, i);
      wires := wires[o := wires[o].(input := Some(i))];
      table := table + [NewNode(INV, a, a, o)];
      Links(old(G()), G(), NewNode(INV, a, a, o));
      AddGateKeepsBuilt(old(G()), G(), NewNode(INV, a, a, o));
    }

    /** A wire holding NOT of input 0, made on first use. */
    method InvI0Wire() returns (w: nat)
      requires G().Built()
      modifies this`wires, this`table, this`inv
      ensures G().Built() && Grows(old(G()), G(), {}) && inv == Some(w)
      ensures old(inv).None? ==> table == old(table) + [NewNode(INV, 0, 0, w)]
      ensures old(inv).Some? ==> G() == old(G())
    {
      if inv == None {
        w := NewWire();
        ghost var s := G();
        Inverter(0, w);
        GrowsTrans(old(G()), s, G(), {}, {w});
        ghost var t := G();
        assert t.WireOk(w);
        inv := Some(w);
        InverseOfInput(s, t, w);
        NewConstant(old(G()), t, G(), w);
      }
      w := inv.value;
    }

    /** A wire holding 0: AND of input 0 and its inverse. */
    method ZeroWire() returns (w: nat)
      requires G().Built()
      modifies this`wires, this`table, this`inv, this`zero
      ensures G().Built() && Grows(old(G()), G(), {}) && zero == Some(w) && G().Driven(w)
      ensures old(zero).Some? ==> G() == old(G())
      ensures old(zero).None? && old(inv).None? ==>
                inv.Some? && table == old(table) + [NewNode(INV, 0, 0, inv.value), NewNode(AND, 0, inv.value, w)]
      ensures forall asg :: Sat(table, asg) ==> w !in asg
    {
      hide State.Built, Sat, Grows;
      if zero == None {
        w := NewWire();
        ghost var s0 := G();
        var i0 := InvI0Wire();
        ghost var s := G();
        ConstantsHold(s);
        KeepsOpen(s0, s, {}, w);
        Binary(AND, 0, i0, w);
        ghost var t := G();
        zero := Some(w);
        wires := wires[w := wires[w].(value := Zero)];
        NewZero(old(G()), s0, s, t, G(), w);
      }
      w := zero.value;
      ConstantsHold(G());
      GrowsRefl(G());
    }

    /** A wire holding 1: OR of input 0 and its inverse. */
    method OneWire() returns (w: nat)
      requires G().Built()
      modifies this`wires, this`table, this`inv, this`one
      ensures G().Built() && Grows(old(G()), G(), {}) && one == Some(w) && G().Driven(w)
      ensures old(one).None? && old(inv).Some? ==> inv == old(inv) && table == old(table) + [NewNode(OR, 0, inv.value, w)]
      ensures forall asg :: Sat(table, asg) ==> w in asg
    {
      hide State.Built, Sat, Grows;
      if one == None {
        w := NewWire();
        ghost var s0 := G();
        var i0 := InvI0Wire();
        ghost var s := G();
        ConstantsHold(s);
        KeepsOpen(s0, s, {}, w);
        Binary(OR, 0, i0, w);
        ghost var t := G();
        one := Some(w);
        wires := wires[w := wires[w].(value := One)];
        NewOne(old(G()), s0, s, t, G(), w);
      }
      w := one.value;
      ConstantsHold(G());
      GrowsRefl(G());
    }

    /** o = NOT i, as XOR with the one wire. */
    method Invert(i: nat, o: nat)
      requires G().Built() && G().Driven(i) && G().Open(o)
      modifies this`wires, this`table, this`inv, this`one
      ensures G().Built() && Grows(old(G()), G(), {o}) && G().Driven(o)
      ensures forall asg :: Sat(table, asg) ==> (o in asg <==> i !in asg)
    {
      hide State.Built, Sat;
      var w := OneWire();
      ghost var s := G();
      Binary(XOR, i, w, o);
      GrowsTrans(old(G()), s, G(), {o}, {o});
      forall asg | Sat(table, asg)
        ensures o in asg <==> i !in asg
      {
        LastGate(s.table, table, NewNode(XOR, i, w, o), asg);
      }
    }

    /** o = i, as XOR with the zero wire. */
    method Identity(i: nat, o: nat)
      requires G().Built() && G().Driven(i) && G().Open(o)
      modifies this`wires, this`table, this`inv, this`zero
      ensures G().Built() && Grows(old(G()), G(), {o}) && G().Driven(o)
      ensures forall asg :: Sat(table, asg) ==> (o in asg <==> i in asg)
      ensures old(zero).Some? ==> zero == old(zero) && table == old(table) + [NewNode(XOR, i, zero.value, o)]
    {
      hide State.Built, Sat;
      var w := ZeroWire();
      ghost var s := G();
      Binary(XOR, i, w, o);
      GrowsTrans(old(G()), s, G(), {o}, {o});
      forall asg | Sat(table, asg)
        ensures o in asg <==> i in asg
      {
        LastGate(s.table, table, NewNode(XOR, i, w, o), asg);
      }
    }

    /** `n` wires: those of `x`, then the zero wire as often as needed. */
    method Extend(x: seq<nat>, n: nat) returns (r: seq<nat>)
      requires G().Built() && G().AllDriven(x) && |x| <= n
      modifies this`wires, this`table, this`inv, this`zero
      ensures G().Built() && Grows(old(G()), G(), {})
      ensures |r| == n && r[..|x|] == x && G().AllDriven(r)
      ensures forall asg :: Sat(table, asg) ==> AllLow(asg, r[|x|..])
    {
      hide State.Built, Sat, State.Driven;
      r := x;
      GrowsRefl(G());
      while |r| < n
        invariant |x| <= |r| <= n && r[..|x|] == x
        invariant G().Built() && Grows(old(G()), G(), {}) && G().AllDriven(r)
        invariant forall asg :: Sat(table, asg) ==> AllLow(asg, r[|x|..])
      {
        ghost var s := G();
        var w := ZeroWire();
        GrowsTrans(old(G()), s, G(), {}, {});
        forall asg | Sat(table, asg)
          ensures AllLow(asg, (r + [w])[|x|..])
        {
          SatPrefix(s.table, table, asg);
        }
        r := r + [w];
      }
    }

    /** Zero-extends the shorter operand to the width of the longer. */
    method ZeroPad(x: seq<nat>, y: seq<nat>) returns (rx: seq<nat>, ry: seq<nat>)
      requires G().Built() && G().AllDriven(x) && G().AllDriven(y)
      modifies this`wires, this`table, this`inv, this`zero
      ensures G().Built() && Grows(old(G()), G(), {})
      ensures |rx| == |ry| == Max(|x|, |y|) && x <= rx && y <= ry
      ensures G().AllDriven(rx) && G().AllDriven(ry)
      ensures forall asg :: Sat(table, asg) ==> Num(asg, rx) == Num(asg, x) && Num(asg, ry) == Num(asg, y)
    {
      hide State.Built, Sat, State.Driven, Num;
      GrowsRefl(G());
      if |x| == |y| {
        return x, y;
      }
      rx := Extend(x, Max(|x|, |y|));
      ghost var s := G();
      ry := Extend(y, Max(|x|, |y|));
      GrowsTrans(old(G()), s, G(), {}, {});
      forall asg | Sat(table, asg)
        ensures Num(asg, rx) == Num(asg, x) && Num(asg, ry) == Num(asg, y)
      {
        SatPrefix(s.table, table, asg);
        NumExtend(asg, rx, |x|);
        NumExtend(asg, ry, |y|);
      }
    }

    /** The low `size` bits of `w` shifted left by `count` places. */
    method ShiftLeft(w: seq<nat>, size: nat, count: nat) returns (r: seq<nat>)
      requires G().Built() && G().AllDriven(w) && count <= size
      modifies this`wires, this`table, this`inv, this`zero
      ensures G().Built() && Grows(old(G()), G(), {})
      ensures |r| == size && G().AllDriven(r)
      ensures forall asg :: Sat(table, asg) ==> Num(asg, r) == (Pow2(count) * Num(asg, w)) % Pow2(size)
    {
      hide State.Built, Sat, State.Driven, Num, Pow2;
      var low := Extend([], count);
      ghost var s := G();
      var take := if count + |w| < size then |w| else size - count;
      r := Extend(low + w[..take], size);
      GrowsTrans(old(G()), s, G(), {}, {});
      forall asg | Sat(table, asg)
        ensures Num(asg, r) == (Pow2(count) * Num(asg, w)) % Pow2(size)
      {
        SatPrefix(s.table, table, asg);
        assert low[0..] == low;
        NumLow(asg, low);
        NumExtend(asg, r, count + take);
        NumConcat(asg, low, w[..take]);
        ShiftValue(asg, w, take, count, size);
      }
    }

    method AddOutput(w: nat, i: nat)
      requires w < |wires|
      modifies this`wires
      ensures wires == Bump(old(wires), w, i)
    {
      wires := wires[w := wires[w].(readers := wires[w].readers + [i], num := wires[w].num + 1)];
    }
  }

  lemma {:induction false} NoPorts(t: seq<Node>, w: nat)
    requires forall i :: 0 <= i < |t| ==> t[i].a < w && t[i].b < w
    ensures Ports(t, w) == []
  {
    if t != [] {
      NoPorts(t[..|t| - 1], w);
    }
  }

  lemma NewWireKeepsBuilt(s: State, t: State)
    requires s.Built() && t == s.(wires := s.wires + [NEW_WIRE])
    ensures t.Built()
  {
    forall i | 0 <= i < |s.table|
      ensures s.table[i].a < |s.wires| && s.table[i].b < |s.wires|
    {
      assert s.Placed(i);
    }
    NoPorts(s.table, |s.wires|);
    forall i | 0 <= i < |t.table|
      ensures t.Placed(i)
    {
      assert s.Placed(i);
    }
    forall w | 0 <= w < |t.wires|
      ensures t.WireOk(w)
    {
      assert w < |s.wires| ==> s.WireOk(w);
    }
  }

  /** AddOutput on the wire table. */
  function Bump(ws: seq<Wire>, w: nat, i: nat): seq<Wire>
    requires w < |ws|
  {
    ws[w := ws[w].(readers := ws[w].readers + [i], num := ws[w].num + 1)]
  }

  /** `t` is `s` with gate `g` linked in. */
  predicate Linked(s: State, t: State, g: Node) {
    && t == s.(wires := t.wires, table := s.table + [g])
    && |t.wires| == |s.wires|
    && forall w :: 0 <= w < |s.wires| ==> t.wires[w] == LinkedWire(s.wires[w], w, |s.table|, g)
  }

  function LinkedWire(v: Wire, w: nat, i: nat, g: Node): Wire {
    v.(readers := v.readers + PortsOf(g, i, w), num := v.num + |PortsOf(g, i, w)|,
       input := if w == g.o then Some(i) else v.input)
  }

  lemma Links(s: State, t: State, g: Node)
    requires g.a < |s.wires| && g.b < |s.wires| && g.o < |s.wires|
    requires t == s.(wires := t.wires, table := s.table + [g])
    requires var i := |s.table|;
             var w1 := Bump(s.wires, g.a, i);
             var w2 := if g.op == INV then w1 else Bump(w1, g.b, i);
             t.wires == w2[g.o := w2[g.o].(input := Some(i))]
    ensures Linked(s, t, g)
  {
    var i := |s.table|;
    forall w | 0 <= w < |s.wires|
      ensures t.wires[w] == LinkedWire(s.wires[w], w, i, g)
    {
      var r := s.wires[w].readers;
      assert r + [i] + [i] == r + ([i] + [i]);
    }
  }

  lemma AddGateKeepsBuilt(s: State, t: State, g: Node)
    requires s.Built() && Linked(s, t, g)
    requires g == NewNode(g.op, g.a, g.b, g.o) && !g.op.Other?
    requires s.Driven(g.a) && s.Driven(g.b) && s.Open(g.o)
    ensures t.Built() && Grows(s, t, {g.o}) && t.Driven(g.o)
  {
    hide Holds;
    AddGateWires(s, t, g);
    forall i | 0 <= i < |t.table|
      ensures t.Placed(i)
    {
      assert i < |s.table| ==> s.Placed(i);
      assert s.WireOk(g.a) && s.WireOk(g.b);
    }
    forall asg | Sat(t.table, asg)
      ensures Sat(s.table, asg)
    {
      SatPrefix(s.table, t.table, asg);
    }
  }

  lemma AddGateWires(s: State, t: State, g: Node)
    requires s.Built() && Linked(s, t, g) && s.Open(g.o)
    ensures forall w :: 0 <= w < |t.wires| ==> t.WireOk(w)
  {
    assert t.table[..|t.table| - 1] == s.table;
    forall w | 0 <= w < |t.wires|
      ensures t.WireOk(w)
    {
      assert s.WireOk(w);
    }
  }

  lemma InverseOfInput(s: State, t: State, w: nat)
    requires t.table == s.table + [NewNode(INV, 0, 0, w)]
    ensures forall asg :: Sat(t.table, asg) ==> (w in asg <==> 0 !in asg)
  {
    forall asg | Sat(t.table, asg)
      ensures w in asg <==> 0 !in asg
    {
      assert Holds(t.table[|s.table|], asg);
    }
  }

  lemma AndOfInverse(s: State, t: State, w: nat)
    requires s.Built() && s.inv.Some?
    requires t.table == s.table + [NewNode(AND, 0, s.inv.value, w)]
    ensures forall asg :: Sat(t.table, asg) ==> w !in asg
  {
    forall asg | Sat(t.table, asg)
      ensures w !in asg
    {
      SatPrefix(s.table, t.table, asg);
      assert Holds(t.table[|s.table|], asg);
    }
  }

  lemma OrOfInverse(s: State, t: State, w: nat)
    requires s.Built() && s.inv.Some?
    requires t.table == s.table + [NewNode(OR, 0, s.inv.value, w)]
    ensures forall asg :: Sat(t.table, asg) ==> w in asg
  {
    forall asg | Sat(t.table, asg)
      ensures w in asg
    {
      SatPrefix(s.table, t.table, asg);
      assert Holds(t.table[|s.table|], asg);
    }
  }

  lemma ConstantsHold(s: State)
    requires s.Built()
    ensures s.zero.Some? ==> s.Driven(s.zero.value) && forall asg :: Sat(s.table, asg) ==> s.zero.value !in asg
    ensures s.one.Some? ==> s.Driven(s.one.value) && forall asg :: Sat(s.table, asg) ==> s.one.value in asg
    ensures s.inv.Some? ==> s.Driven(s.inv.value)
    ensures 0 < s.k <= |s.wires|
  {
  }

  /** The steps that make the zero wire: a wire, the inverse of input 0, the
      gate, the flag. */
  lemma NewZero(o: State, a: State, s: State, t: State, u: State, w: nat)
    requires Grows(o, a, {}) && Grows(a, s, {}) && Grows(s, t, {w}) && w >= |o.wires| && o.zero.None?
    requires s.Built() && t.Built() && s.inv.Some? && t.table == s.table + [NewNode(AND, 0, s.inv.value, w)] && t.Driven(w) && t.k <= w
    requires t.zero == o.zero && t.inv == s.inv
    requires u == t.(wires := t.wires[w := t.wires[w].(value := Zero)], zero := Some(w))
    ensures u.Built() && Grows(o, u, {})
  {
    hide State.Placed, State.WireOk;
    GrowsTrans(o, a, s, {}, {});
    GrowsTrans(o, s, t, {}, {w});
    AndOfInverse(s, t, w);
    NewConstant(o, t, u, w);
  }

  lemma NewOne(o: State, a: State, s: State, t: State, u: State, w: nat)
    requires Grows(o, a, {}) && Grows(a, s, {}) && Grows(s, t, {w}) && w >= |o.wires| && o.one.None?
    requires s.Built() && t.Built() && s.inv.Some? && t.table == s.table + [NewNode(OR, 0, s.inv.value, w)] && t.Driven(w) && t.k <= w
    requires t.one == o.one && t.inv == s.inv && t.zero == s.zero && s.Open(w)
    requires u == t.(wires := t.wires[w := t.wires[w].(value := One)], one := Some(w))
    ensures u.Built() && Grows(o, u, {})
  {
    hide State.Placed, State.WireOk;
    GrowsTrans(o, a, s, {}, {});
    GrowsTrans(o, s, t, {}, {w});
    OrOfInverse(s, t, w);
    NewConstant(o, t, u, w);
  }

  /** Naming wire `w` of `t` as a constant, with its flag, keeps the invariant. */
  lemma NewConstant(s: State, t: State, u: State, w: nat)
    requires t.Built() && Grows(s, t, {}) && t.Driven(w)
    requires u == State(t.k, t.wires[w := t.wires[w].(value := u.ValueOf(w))], t.table, u.inv, u.zero, u.one)
    requires u.inv == t.inv || (t.inv == None && u.inv == Some(w))
    requires u.zero == t.zero || (t.zero == None && u.zero == Some(w))
    requires u.one == t.one || (t.one == None && u.one == Some(w))
    requires u.InvOk() && u.ZeroOk() && u.OneOk()
    ensures u.Built() && Grows(s, u, {})
  {
    hide Sat;
    forall i | 0 <= i < |u.table|
      ensures u.Placed(i)
    {
      assert t.Placed(i);
    }
    forall v | 0 <= v < |u.wires|
      ensures u.WireOk(v)
    {
      assert t.WireOk(v);
    }
  }

  lemma GrowsWiden(s: State, t: State, outs: set<nat>)
    requires Grows(s, t, {})
    ensures Grows(s, t, outs)
  {
  }

  lemma KeepsDriven(s: State, t: State, outs: set<nat>, ws: seq<nat>)
    requires Grows(s, t, outs) && s.AllDriven(ws)
    ensures t.AllDriven(ws) && s.table <= t.table
  {
  }

  lemma KeepsOpen(s: State, t: State, outs: set<nat>, w: nat)
    requires Grows(s, t, outs) && s.Open(w) && w !in outs
    ensures t.Open(w)
  {
  }

  lemma KeepsFree(s: State, t: State, outs: set<nat>, ws: seq<nat>)
    requires Grows(s, t, outs) && s.Free(ws)
    requires forall i :: 0 <= i < |ws| ==> ws[i] !in outs
    ensures t.Free(ws)
  {
  }

  /** A step that drives nothing old extends a step that drives `outs`. */
  lemma GrowsChain(s: State, t: State, u: State, outs: set<nat>)
    requires Grows(s, t, outs) && (t == u || Grows(t, u, {}))
    ensures Grows(s, u, outs)
  {
  }

  lemma GrowsRefl(s: State)
    ensures Grows(s, s, {})
  {
  }

  /** What the newest gate says about an assignment. */
  lemma LastGate(t: seq<Node>, u: seq<Node>, g: Node, asg: Asg)
    requires u == t + [g] && Sat(u, asg)
    ensures Sat(t, asg) && Holds(g, asg)
  {
    SatPrefix(t, u, asg);
    assert Holds(u[|t|], asg);
  }

  lemma NumExtend(asg: Asg, r: seq<nat>, n: nat)
    requires n <= |r| && AllLow(asg, r[n..])
    ensures Num(asg, r) == Num(asg, r[..n])
  {
    hide Num, Pow2;
    assert r == r[..n] + r[n..];
    NumConcat(asg, r[..n], r[n..]);
    NumLow(asg, r[n..]);
  }

  lemma ShiftValue(asg: Asg, w: seq<nat>, take: nat, count: nat, size: nat)
    requires count <= size && take == Min(|w|, size - count)
    ensures Pow2(count) * Num(asg, w[..take]) == (Pow2(count) * Num(asg, w)) % Pow2(size)
  {
    hide Num, Pow2;
    NumBound(asg, w[..take]);
    Pow2Add(count, take);
    if take < |w| {
      assert w == w[..take] + w[take..];
      NumConcat(asg, w[..take], w[take..]);
      ScaledMod(Pow2(count), Pow2(take), Num(asg, w[..take]), Num(asg, w[take..]));
    } else {
      assert w[..take] == w;
      MulMono(Pow2(count), Num(asg, w), Pow2(take));
      Pow2Mono(count + take, size);
      ModSmall(Pow2(count) * Num(asg, w), Pow2(size));
    }
  }

  function SetOf(ws: seq<nat>): set<nat> {
    set i | 0 <= i < |ws| :: ws[i]
  }

  function Wires(c: Opt<nat>): set<nat> {
    if c.Some? then {c.value} else {}
  }

  /** Entries from `n` on become the zero wire. */
  method ZeroFill(cc: Compiler, z: array<nat>, n: nat)
    requires cc.G().Built() && cc.G().AllDriven(z[..Min(n, z.Length)])
    modifies cc, z
    ensures cc.G().Built() && Grows(old(cc.G()), cc.G(), {}) && cc.G().AllDriven(z[..])
    ensures forall i :: 0 <= i < n && i < z.Length ==> z[i] == old(z[i])
    ensures n <= z.Length ==> forall asg :: Sat(cc.table, asg) ==> AllLow(asg, z[n..])
  {
    hide State.Built, Sat;
    GrowsRefl(cc.G());
    var i := n;
    while i < z.Length
      invariant n <= i && (n <= z.Length ==> i <= z.Length)
      invariant cc.G().Built() && Grows(old(cc.G()), cc.G(), {})
      invariant cc.G().AllDriven(z[..Min(i, z.Length)])
      invariant forall j :: 0 <= j < n && j < z.Length ==> z[j] == old(z[j])
      invariant n <= z.Length ==> forall asg :: Sat(cc.table, asg) ==> AllLow(asg, z[n..i])
    {
      ghost var s, zs := cc.G(), z[..];
      var w := cc.ZeroWire();
      GrowsTrans(old(cc.G()), s, cc.G(), {}, {});
      z[i] := w;
      assert z[..i] == zs[..i];
      forall asg | Sat(cc.table, asg)
        ensures AllLow(asg, z[n..i + 1])
      {
        SatPrefix(s.table, cc.table, asg);
        assert z[n..i + 1] == zs[n..i] + [w];
      }
      i := i + 1;
    }
    if n <= z.Length {
      assert z[n..i] == z[n..];
    }
    assert z[..Min(i, z.Length)] == z[..];
  }

  /** `n` fresh wires. */
  method NewWires(cc: Compiler, n: nat) returns (ws: array<nat>)
    requires cc.G().Built()
    modifies cc
    ensures fresh(ws) && ws.Length == n
    ensures cc.G().Built() && Grows(old(cc.G()), cc.G(), {}) && cc.G().Free(ws[..])
    ensures forall i :: 0 <= i < n ==> ws[i] >= |old(cc.G()).wires|
  {
    hide State.Built;
    ws := new nat[n](_ => 0);
    ghost var s0 := cc.G();
    GrowsRefl(s0);
    for i := 0 to n
      invariant cc.G().Built() && Grows(s0, cc.G(), {}) && cc.G().Free(ws[..i])
      invariant forall j :: 0 <= j < i ==> |s0.wires| <= ws[j] < |cc.wires|
    {
      ghost var s1 := cc.G();
      var w := cc.NewWire();
      GrowsTrans(s0, s1, cc.G(), {}, {});
      ghost var before := ws[..i];
      ws[i] := w;
      assert ws[..i + 1] == before + [w];
    }
    assert ws[..n] == ws[..];
  }

  /** A generator that drives only wires newer than `s`. */
  lemma GrowsFresh(s: State, t: State, u: State, ws: seq<nat>)
    requires Grows(s, t, {}) && Grows(t, u, SetOf(ws))
    requires forall i :: 0 <= i < |ws| ==> ws[i] >= |s.wires|
    ensures Grows(s, u, {})
  {
    GrowsTrans(s, t, u, {}, SetOf(ws));
  }

  lemma KeepAll(s: State, t: State, a: seq<nat>, b: seq<nat> := [], c: seq<nat> := [], d: seq<nat> := [], e: seq<nat> := [], f: seq<nat> := [])
    requires Grows(s, t, {})
    requires s.AllDriven(a) && s.AllDriven(b) && s.AllDriven(c) && s.AllDriven(d) && s.AllDriven(e) && s.AllDriven(f)
    ensures s.table <= t.table
    ensures t.AllDriven(a) && t.AllDriven(b) && t.AllDriven(c) && t.AllDriven(d) && t.AllDriven(e) && t.AllDriven(f)
  {
  }
}
