/** The gate graph under construction: wires (compiler/circuits/wire.go) and
    gates (compiler/circuits/gates.go).

    A pointer to a wire or to a gate is its index in the compiler's wire or
    gate table, so two equal indices are the same object.  The input wires are
    the wires 0..k-1. */
module Graph {
  import opened Nat
  import opened Circuit

  datatype Opt<+T> = None | Some(value: T)

  datatype Value = Unknown | Zero | One

  /** `input` is the gate that drives the wire and `readers` the rest of the
      source's gate slice; `num` is the reader count kept in the packed word. */
  datatype Wire = Wire(output: bool, value: Value, num: nat, id: Opt<nat>, input: Opt<nat>, readers: seq<nat>)

  const NEW_WIRE := Wire(false, Unknown, 0, None, None, [])

  /** INV gates read `a` only; their `b` repeats `a` and is never looked at. */
  datatype Node = Node(op: Op, a: nat, b: nat, o: nat, visited: bool, compiled: bool, dead: bool)

  function NewNode(op: Op, a: nat, b: nat, o: nat): Node {
    Node(op, a, b, o, false, false, false)
  }

  /** An assignment of bits to wires is the set of wires that carry 1. */
  type Asg = set<nat>

  predicate Holds(g: Node, asg: Asg) {
    g.o in asg <==> Apply(g.op, g.a in asg, g.b in asg)
  }

  /** The assignment obeys every gate of the table. */
  ghost predicate Sat(t: seq<Node>, asg: Asg) {
    forall i :: 0 <= i < |t| ==> Holds(t[i], asg)
  }

  lemma SatPrefix(t: seq<Node>, u: seq<Node>, asg: Asg)
    requires t <= u && Sat(u, asg)
    ensures Sat(t, asg)
  {
  }

  /** The gate ports that read wire `w`, in order; a gate that reads it twice
      is listed twice. */
  function Ports(t: seq<Node>, w: nat): seq<nat> {
    if t == [] then []
    else
      var n := |t| - 1;
      Ports(t[..n], w) + PortsOf(t[n], n, w)
  }

  function PortsOf(g: Node, i: nat, w: nat): seq<nat> {
    (if g.a == w then [i] else []) + (if g.op != INV && g.b == w then [i] else [])
  }

  // ----- The graph while it is being built -----

  /** A snapshot of the compiler's graph: `k` input wires, all wires, all gates
      in the order they were made, and the wires holding NOT input 0, 0 and 1
      once they exist. */
  datatype State = State(k: nat, wires: seq<Wire>, table: seq<Node>, inv: Opt<nat>, zero: Opt<nat>, one: Opt<nat>) {

    /** A wire that has a value: an input wire or the output of a gate. */
    predicate Driven(w: nat) {
      w < |wires| && (w < k || wires[w].input.Some?)
    }

    predicate AllDriven(ws: seq<nat>) {
      forall i :: 0 <= i < |ws| ==> Driven(ws[i])
    }

    /** A wire that may still be connected to the output of a gate. */
    predicate Open(w: nat) {
      w < |wires| && !Driven(w)
    }

    predicate Free(ws: seq<nat>) {
      && (forall i :: 0 <= i < |ws| ==> Open(ws[i]))
      && forall i, j :: 0 <= i < j < |ws| ==> ws[i] != ws[j]
    }

    /** Wire `w` has a value before gate `i`. */
    predicate Before(w: nat, i: nat) {
      Driven(w) && (w < k || wires[w].input.value < i)
    }

    /** Gate `i` drives the wire it claims to drive, and reads only wires that
        have a value before it. */
    predicate Placed(i: nat)
      requires i < |table|
    {
      var g := table[i];
      && g == NewNode(g.op, g.a, g.b, g.o) && !g.op.Other?
      && k <= g.o < |wires| && wires[g.o].input == Some(i)
      && Before(g.a, i) && Before(g.b, i)
    }

    /** The flag a wire carries: only the two constant wires have one. */
    function ValueOf(w: nat): Value {
      if zero == Some(w) then Zero else if one == Some(w) then One else Unknown
    }

    predicate WireOk(w: nat)
      requires w < |wires|
    {
      && wires[w].readers == Ports(table, w) && wires[w].num == |wires[w].readers|
      && wires[w].id == None && wires[w].value == ValueOf(w)
      && (w < k ==> wires[w].input == None)
      && (wires[w].input.Some? ==> wires[w].input.value < |table| && table[wires[w].input.value].o == w)
    }

    ghost predicate InvOk() {
      inv.Some? ==> Driven(inv.value) && forall asg :: Sat(table, asg) ==> (inv.value in asg <==> 0 !in asg)
    }

    ghost predicate ZeroOk() {
      zero.Some? ==> k <= zero.value && Driven(zero.value) && forall asg :: Sat(table, asg) ==> zero.value !in asg
    }

    ghost predicate OneOk() {
      one.Some? ==> k <= one.value && Driven(one.value) && forall asg :: Sat(table, asg) ==> one.value in asg
    }

    /** The invariant of construction. */
    ghost predicate Built() {
      && 0 < k <= |wires|
      && (forall i :: 0 <= i < |table| ==> Placed(i))
      && (forall w :: 0 <= w < |wires| ==> WireOk(w))
      && InvOk() && ZeroOk() && OneOk()
    }
  }

  /** Gates and wires are only added; of the wires of `s`, only those in `outs`
      may have become driven. */
  ghost predicate Grows(s: State, t: State, outs: set<nat>) {
    && s.k == t.k && s.table <= t.table && |s.wires| <= |t.wires|
    && (s.inv.Some? ==> t.inv == s.inv) && (s.zero.Some? ==> t.zero == s.zero) && (s.one.Some? ==> t.one == s.one)
    && (forall w :: s.Driven(w) ==> t.Driven(w))
    && (forall w :: 0 <= w < |s.wires| && t.Driven(w) ==> s.Driven(w) || w in outs)
    && (forall w :: 0 <= w < |t.wires| ==> t.wires[w].output == (w < |s.wires| && s.wires[w].output))
  }

  lemma GrowsTrans(s: State, t: State, u: State, o: set<nat>, p: set<nat>)
    requires Grows(s, t, o) && Grows(t, u, p)
    requires forall w :: w in p && w < |s.wires| ==> w in o
    ensures Grows(s, u, o)
  {
  }

  // ----- Numbers on wires -----

  function B(asg: Asg, w: nat): nat {
    if w in asg then 1 else 0
  }

  /** The number on the wires, least significant bit first. */
  function Num(asg: Asg, ws: seq<nat>): nat {
    if ws == [] then 0
    else Num(asg, ws[..|ws| - 1]) + B(asg, ws[|ws| - 1]) * Pow2(|ws| - 1)
  }

  lemma NumSnoc(asg: Asg, ws: seq<nat>, n: nat)
    requires n < |ws|
    ensures Num(asg, ws[..n + 1]) == Num(asg, ws[..n]) + B(asg, ws[n]) * Pow2(n)
  {
    assert ws[..n + 1][..n] == ws[..n];
  }

  lemma {:induction false} NumBound(asg: Asg, ws: seq<nat>)
    ensures Num(asg, ws) < Pow2(|ws|)
  {
    if ws != [] {
      NumBound(asg, ws[..|ws| - 1]);
    }
  }

  lemma {:induction false} NumConcat(asg: Asg, xs: seq<nat>, ys: seq<nat>)
    ensures Num(asg, xs + ys) == Num(asg, xs) + Pow2(|xs|) * Num(asg, ys)
  {
    if ys == [] {
      assert xs + ys == xs;
    } else {
      var n := |ys| - 1;
      NumConcat(asg, xs, ys[..n]);
      assert (xs + ys)[..|xs + ys| - 1] == xs + ys[..n];
      Pow2Add(|xs|, n);
      Distribute(Pow2(|xs|), Num(asg, ys[..n]), B(asg, ys[n]), Pow2(n));
    }
  }

  lemma NumSplit(asg: Asg, ws: seq<nat>, j: nat)
    requires j <= |ws|
    ensures Num(asg, ws) == Num(asg, ws[..j]) + Pow2(j) * Num(asg, ws[j..])
  {
    NumConcat(asg, ws[..j], ws[j..]);
    assert ws == ws[..j] + ws[j..];
  }

  /** Dropping high wires is reduction modulo a power of two. */
  lemma NumTake(asg: Asg, ws: seq<nat>, n: nat)
    requires n <= |ws|
    ensures Num(asg, ws[..n]) == Num(asg, ws) % Pow2(n)
  {
    NumSplit(asg, ws, n);
    NumBound(asg, ws[..n]);
    DivModUnique(Num(asg, ws), Pow2(n), Num(asg, ws[n..]), Num(asg, ws[..n]));
  }

  ghost predicate AllLow(asg: Asg, ws: seq<nat>) {
    forall i :: 0 <= i < |ws| ==> ws[i] !in asg
  }

  lemma {:induction false} NumLow(asg: Asg, ws: seq<nat>)
    requires AllLow(asg, ws)
    ensures Num(asg, ws) == 0
  {
    if ws != [] {
      NumLow(asg, ws[..|ws| - 1]);
    }
  }

  lemma HeadValue(asg: Asg, w: nat, ws: seq<nat>)
    ensures Num(asg, [w] + ws) == B(asg, w) + 2 * Num(asg, ws)
  {
    NumConcat(asg, [w], ws);
    NumOne(asg, w);
  }

  lemma SnocValue(asg: Asg, outs: seq<nat>, c: nat)
    ensures Num(asg, outs + [c]) == Num(asg, outs) + B(asg, c) * Pow2(|outs|)
  {
    assert (outs + [c])[..|outs|] == outs;
  }

  lemma NumOne(asg: Asg, w: nat)
    ensures Num(asg, [w]) == B(asg, w) && Pow2(1) == 2
  {
    assert [w][..0] == [];
  }

  /** The bits on the wires. */
  function Bits(asg: Asg, ws: seq<nat>): (bits: seq<bool>)
    ensures |bits| == |ws|
  {
    seq(|ws|, i requires 0 <= i < |ws| => ws[i] in asg)
  }

  // ----- Two's complement -----

  /** The signed value of an n-bit number. */
  function Signed(v: nat, n: nat): int
    requires n > 0
  {
    if v < Pow2(n - 1) then v else v - Pow2(n)
  }

  /** The sign wire of x says whether its value is negative. */
  lemma SignBit(asg: Asg, x: seq<nat>)
    requires |x| > 0
    ensures x[|x| - 1] in asg <==> Signed(Num(asg, x), |x|) < 0
    ensures Num(asg, x) < Pow2(|x|)
  {
    hide Num;
    NumSnoc(asg, x, |x| - 1);
    assert x[..|x|] == x;
    NumBound(asg, x[..|x| - 1]);
  }
}
