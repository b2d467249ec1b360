/** Binary circuits (circuit/circuit.go), their plain evaluation
    (circuit/computer.go) and their argument lists (circuit/ioarg.go). */
module Circuit {
  import opened Nat

  datatype Result<+T> = Ok(value: T) | Err

  /** Other(code) stands for every operation byte that is not a gate type. */
  datatype Op = XOR | XNOR | AND | OR | INV | Other(code: nat)

  datatype Gate = Gate(op: Op, input0: nat, input1: nat, output: nat)

  /** An argument: its width, and the widths of its parts when it is compound. */
  datatype IOArg = IOArg(bits: nat, compound: seq<nat>)

  datatype Circuit = Circuit(
    numWires: nat, inputs: seq<IOArg>, outputs: seq<IOArg>, gates: seq<Gate>)
  {
    /** What the slice accesses of the source need in order not to panic. */
    ghost predicate InRange() {
      && Size(inputs) <= numWires
      && Size(outputs) <= numWires
      && Sum(Flatten(inputs)) <= numWires
      && forall g :: g in gates ==> g.input0 < numWires && g.input1 < numWires && g.output < numWires
    }
  }

  predicate Unary(op: Op) {
    op == INV
  }

  function Apply(op: Op, a: bool, b: bool): bool {
    match op
    case XOR => a != b
    case XNOR => a == b
    case AND => a && b
    case OR => a || b
    case INV => !a
    case Other(_) => false
  }

  /** The gate types by the numbers of their bits. */
  lemma ApplyNumbers(x: bool, y: bool)
    ensures Bit(Apply(XOR, x, y)) == (Bit(x) + Bit(y)) % 2 && Bit(Apply(XNOR, x, y)) == (Bit(x) + Bit(y) + 1) % 2
    ensures Bit(Apply(AND, x, y)) == Bit(x) * Bit(y) && Bit(Apply(OR, x, y)) == Bit(x) + Bit(y) - Bit(x) * Bit(y)
    ensures Bit(Apply(INV, x, y)) == 1 - Bit(x)
  {
  }

  function Sum(widths: seq<nat>): nat {
    if widths == [] then 0 else Sum(widths[..|widths| - 1]) + widths[|widths| - 1]
  }

  function Size(io: seq<IOArg>): nat {
    if io == [] then 0 else Size(io[..|io| - 1]) + io[|io| - 1].bits
  }

  /** Compound arguments are replaced by their parts. */
  function Flatten(io: seq<IOArg>): seq<nat> {
    if io == [] then []
    else
      var last := io[|io| - 1];
      Flatten(io[..|io| - 1]) + (if |last.compound| > 0 then last.compound else [last.bits])
  }

  /** The bits of the values, argument by argument. */
  function InputBits(values: seq<int>, widths: seq<nat>): (bits: seq<bool>)
    requires |values| == |widths|
    ensures |bits| == Sum(widths)
  {
    if widths == [] then []
    else
      var n := |widths| - 1;
      InputBits(values[..n], widths[..n]) + ToBits(values[n], widths[n])
  }

  /** Running the gates in order on the wire values. */
  function RunGates(gates: seq<Gate>, wires: seq<bool>): (out: seq<bool>)
    requires forall g :: g in gates ==> g.input0 < |wires| && g.input1 < |wires| && g.output < |wires|
    ensures |out| == |wires|
  {
    if gates == [] then wires
    else
      var g := gates[|gates| - 1];
      var w := RunGates(gates[..|gates| - 1], wires);
      w[g.output := Apply(g.op, w[g.input0], w[g.input1])]
  }

  /** Cutting a bit string into the numbers of the arguments. */
  function SplitBits(widths: seq<nat>, bits: seq<bool>): (vals: seq<nat>)
    requires Sum(widths) <= |bits|
    ensures |vals| == |widths|
  {
    if widths == [] then []
    else
      var n := |widths| - 1;
      SplitBits(widths[..n], bits) + [FromBits(bits[Sum(widths[..n])..Sum(widths)])]
  }

  function Widths(io: seq<IOArg>): (w: seq<nat>)
    ensures |w| == |io|
    ensures Sum(w) == Size(io)
  {
    if io == [] then []
    else
      var n := |io| - 1;
      var w := Widths(io[..n]) + [io[n].bits];
      assert w[..n] == Widths(io[..n]);
      w
  }

  /** The wires before any gate has run: the input bits, then zeros. */
  function InitialWires(c: Circuit, bits: seq<bool>): (w: seq<bool>)
    requires |bits| <= c.numWires
    ensures |w| == c.numWires
  {
    bits + seq(c.numWires - |bits|, i => false)
  }

  /** The reference meaning of a circuit on a string of input bits. */
  function Meaning(c: Circuit, bits: seq<bool>): (out: seq<bool>)
    requires c.InRange() && |bits| <= c.numWires
    ensures |out| == Size(c.outputs)
  {
    RunGates(c.gates, InitialWires(c, bits))[c.numWires - Size(c.outputs)..]
  }

  // ----- Where the bits of a value stand -----

  /** The parts of an argument: its fields when it is compound, else itself. */
  function Parts(a: IOArg): (w: seq<nat>)
    ensures |w| > 0
  {
    if a.compound == [] then [a.bits] else a.compound
  }

  /** How many parts the arguments have, and how many bits. */
  function PartCount(io: seq<IOArg>): nat {
    if io == [] then 0 else PartCount(io[..|io| - 1]) + |Parts(io[|io| - 1])|
  }

  function Span(io: seq<IOArg>): nat {
    if io == [] then 0 else Span(io[..|io| - 1]) + Sum(Parts(io[|io| - 1]))
  }

  /** The value for part `p` of argument `i` stands behind all earlier arguments
      and all earlier parts of its own, lowest bit first. */
  predicate PartLoaded(io: seq<IOArg>, values: seq<int>, bits: seq<bool>, i: nat, p: nat)
    requires i < |io| && p < |Parts(io[i])|
  {
    var v, at := PartCount(io[..i]) + p, Span(io[..i]) + Sum(Parts(io[i])[..p]);
    && v < |values| && at + Parts(io[i])[p] <= |bits|
    && forall j :: 0 <= j < Parts(io[i])[p] ==> bits[at + j] == BitOf(values[v], j)
  }

  ghost predicate Loaded(io: seq<IOArg>, values: seq<int>, bits: seq<bool>) {
    |values| == PartCount(io) && forall i, p :: 0 <= i < |io| && 0 <= p < |Parts(io[i])| ==> PartLoaded(io, values, bits, i, p)
  }

  /** The value of output `k` is the number of the bits behind those of all earlier
      outputs. */
  predicate ValueUnloaded(io: seq<IOArg>, bits: seq<bool>, vals: seq<nat>, k: nat)
    requires k < |io| && k < |vals|
  {
    && Size(io[..k]) + io[k].bits <= |bits| && vals[k] < Pow2(io[k].bits)
    && forall j :: 0 <= j < io[k].bits ==> BitOf(vals[k], j) == bits[Size(io[..k]) + j]
  }

  ghost predicate Unloaded(io: seq<IOArg>, bits: seq<bool>, vals: seq<nat>) {
    |vals| == |io| && forall k :: 0 <= k < |io| ==> ValueUnloaded(io, bits, vals, k)
  }

  lemma {:induction false} SumAppend(u: seq<nat>, v: seq<nat>)
    ensures Sum(u + v) == Sum(u) + Sum(v)
  {
    if v == [] {
      assert u + v == u;
    } else {
      SumAppend(u, v[..|v| - 1]);
      assert (u + v)[..|u + v| - 1] == u + v[..|v| - 1];
    }
  }

  lemma {:induction false} FlattenSpan(io: seq<IOArg>)
    ensures |Flatten(io)| == PartCount(io) && Sum(Flatten(io)) == Span(io)
  {
    if io != [] {
      FlattenSpan(io[..|io| - 1]);
      SumAppend(Flatten(io[..|io| - 1]), Parts(io[|io| - 1]));
    }
  }

  /** Where part `p` of argument `i` stands among all parts. */
  lemma {:induction false} FlattenAt(io: seq<IOArg>, i: nat, p: nat)
    requires i < |io| && p < |Parts(io[i])|
    ensures var q := PartCount(io[..i]) + p;
            && q < |Flatten(io)| && Flatten(io)[q] == Parts(io[i])[p]
            && Sum(Flatten(io)[..q]) == Span(io[..i]) + Sum(Parts(io[i])[..p])
    decreases |io|
  {
    hide Sum, Span, PartCount;
    var init, parts := io[..|io| - 1], Parts(io[|io| - 1]);
    var q := PartCount(io[..i]) + p;
    FlattenSpan(init);
    assert Flatten(io) == Flatten(init) + parts;
    if i == |io| - 1 {
      assert Flatten(io)[..q] == Flatten(init) + parts[..p];
      SumAppend(Flatten(init), parts[..p]);
    } else {
      FlattenAt(init, i, p);
      assert init[..i] == io[..i];
      assert Flatten(io)[..q] == Flatten(init)[..q];
    }
  }

  lemma {:induction false} InputAt(values: seq<int>, widths: seq<nat>, q: nat, j: nat)
    requires |values| == |widths| && q < |widths| && j < widths[q]
    ensures Sum(widths[..q]) + widths[q] <= Sum(widths)
    ensures InputBits(values, widths)[Sum(widths[..q]) + j] == BitOf(values[q], j)
    decreases |widths|
  {
    hide BitOf;
    var n := |widths| - 1;
    if q == n {
      assert widths[..q] == widths[..n];
    } else {
      InputAt(values[..n], widths[..n], q, j);
      assert widths[..n][..q] == widths[..q];
    }
  }

  lemma SumAt(widths: seq<nat>, q: nat)
    requires q < |widths|
    ensures Sum(widths[..q]) + widths[q] <= Sum(widths)
  {
    SumNext(widths, q);
    SumMono(widths, q + 1);
  }

  lemma InputsLoaded(io: seq<IOArg>, values: seq<int>)
    requires |values| == |Flatten(io)|
    ensures Loaded(io, values, InputBits(values, Flatten(io)))
  {
    hide Sum, Span, PartCount, InputBits, BitOf, Flatten;
    FlattenSpan(io);
    var widths := Flatten(io);
    var bits := InputBits(values, widths);
    forall i, p | 0 <= i < |io| && 0 <= p < |Parts(io[i])| ensures PartLoaded(io, values, bits, i, p) {
      FlattenAt(io, i, p);
      var q := PartCount(io[..i]) + p;
      SumAt(widths, q);
      forall j | 0 <= j < widths[q] ensures bits[Sum(widths[..q]) + j] == BitOf(values[q], j) {
        InputAt(values, widths, q, j);
      }
    }
  }

  lemma {:induction false} SplitAt(widths: seq<nat>, bits: seq<bool>, k: nat)
    requires Sum(widths) <= |bits| && k < |widths|
    ensures Sum(widths[..k]) + widths[k] <= |bits|
    ensures SplitBits(widths, bits)[k] == FromBits(bits[Sum(widths[..k])..Sum(widths[..k]) + widths[k]])
    decreases |widths|
  {
    hide FromBits;
    var n := |widths| - 1;
    if k < n {
      SplitAt(widths[..n], bits, k);
      assert widths[..n][..k] == widths[..k];
    }
  }

  lemma {:induction false} WidthsBefore(io: seq<IOArg>, k: nat)
    requires k <= |io|
    ensures Sum(Widths(io)[..k]) == Size(io[..k])
    decreases |io|
  {
    if k == |io| {
      assert Widths(io)[..k] == Widths(io) && io[..k] == io;
    } else {
      WidthsBefore(io[..|io| - 1], k);
      assert Widths(io)[..k] == Widths(io[..|io| - 1])[..k] && io[..|io| - 1][..k] == io[..k];
    }
  }

  lemma OutputsUnloaded(io: seq<IOArg>, bits: seq<bool>)
    requires |bits| >= Size(io)
    ensures Unloaded(io, bits, SplitBits(Widths(io), bits))
  {
    hide Sum, Size, FromBits, BitOf, SplitBits, Widths;
    var widths := Widths(io);
    var vals := SplitBits(widths, bits);
    forall k | 0 <= k < |io| ensures ValueUnloaded(io, bits, vals, k) {
      WidthsAt(io, k);
      WidthsBefore(io, k);
      SplitAt(widths, bits, k);
      var cut := bits[Size(io[..k])..Size(io[..k]) + io[k].bits];
      FromBitsBound(cut);
      forall j | 0 <= j < io[k].bits ensures BitOf(vals[k], j) == bits[Size(io[..k]) + j] {
        BitsOfNumber(cut, j);
      }
    }
  }

  /** When compounds add up to their width, the arguments stand behind each other by
      their widths. */
  lemma {:induction false} SpanIsSize(io: seq<IOArg>)
    requires forall a :: a in io && a.compound != [] ==> Sum(a.compound) == a.bits
    ensures Span(io) == Size(io)
  {
    if io != [] {
      var a := io[|io| - 1];
      assert a in io;
      assert [a.bits][..0] == [] && Sum([a.bits]) == a.bits;
      assert forall b :: b in io[..|io| - 1] ==> b in io;
      SpanIsSize(io[..|io| - 1]);
    }
  }

  /** One struct of a 1-bit and a 2-bit field, with the values 1 and 2. */
  lemma TwoFields()
    ensures InputBits([1, 2], Flatten([IOArg(3, [1, 2])])) == [true, false, true]
  {
    var io := [IOArg(3, [1, 2])];
    assert io[..0] == [] && Flatten(io) == [] + [1, 2];
    assert [1, 2][..1] == [1] && [1][..0] == [];
    assert InputBits([1, 2], [1, 2]) == InputBits([1, 2][..1], [1, 2][..1]) + ToBits(2, 2);
    assert InputBits([1], [1]) == InputBits([1][..0], [1][..0]) + ToBits(1, 1);
    assert Pow2(0) == 1 && Pow2(1) == 2;
    assert ToBits(1, 1) == [true] && ToBits(2, 2) == [false, true];
  }

  predicate ValidOps(gates: seq<Gate>) {
    forall g :: g in gates ==> !g.op.Other?
  }

  /** Evaluates the circuit on one integer per flattened argument. */
  method Compute(c: Circuit, values: seq<int>) returns (r: Result<seq<nat>>)
    requires c.InRange()
    ensures r.Ok? <==> |values| == |Flatten(c.inputs)| && ValidOps(c.gates)
    ensures r.Ok? ==> r.value == SplitBits(Widths(c.outputs), Meaning(c, InputBits(values, Flatten(c.inputs))))
    ensures r.Ok? ==> exists bits :: |bits| == Span(c.inputs) <= c.numWires && Loaded(c.inputs, values, bits) && Unloaded(c.outputs, Meaning(c, bits), r.value)
  {
    hide RunGates, SplitBits, InputBits, Sum, Size, Span, Loaded, Unloaded;
    var args := Flatten(c.inputs);
    if |values| != |args| {
      return Err;
    }
    var wires := new bool[c.numWires](_ => false);
    LoadInputs(c, values, args, wires);
    assert wires[..] == InitialWires(c, InputBits(values, args));
    var ok := EvaluateGates(c.gates, wires);
    if !ok {
      return Err;
    }
    var vals := StoreOutputs(c, wires);
    ghost var bits := InputBits(values, args);
    FlattenSpan(c.inputs);
    InputsLoaded(c.inputs, values);
    OutputsUnloaded(c.outputs, Meaning(c, bits));
    return Ok(vals);
  }

  /** The gate loop, on the wire array; stops at the first invalid operation. */
  method EvaluateGates(gates: seq<Gate>, wires: array<bool>) returns (ok: bool)
    requires forall g :: g in gates ==> g.input0 < wires.Length && g.input1 < wires.Length && g.output < wires.Length
    modifies wires
    ensures ok <==> ValidOps(gates)
    ensures ok ==> wires[..] == RunGates(gates, old(wires[..]))
  {
    for i := 0 to |gates|
      invariant ValidOps(gates[..i])
      invariant wires[..] == RunGates(gates[..i], old(wires[..]))
    {
      var g := gates[i];
      assert g in gates;
      if g.op.Other? {
        return false;
      }
      assert gates[..i + 1][..i] == gates[..i];
      ghost var before := wires[..];
      wires[g.output] := Apply(g.op, wires[g.input0], wires[g.input1]);
      assert wires[..] == before[g.output := Apply(g.op, before[g.input0], before[g.input1])];
    }
    assert gates[..|gates|] == gates;
    return true;
  }

  method WriteBits(wires: array<bool>, at: nat, v: int, n: nat)
    requires at + n <= wires.Length
    modifies wires
    ensures wires[..at] == old(wires[..at]) && wires[at + n..] == old(wires[at + n..])
    ensures wires[at..at + n] == ToBits(v, n)
  {
    for bit := 0 to n
      invariant wires[..at] == old(wires[..at]) && wires[at + n..] == old(wires[at + n..])
      invariant forall i :: 0 <= i < bit ==> wires[at + i] == BitOf(v, i)
    {
      wires[at + bit] := BitOf(v, bit);
    }
  }

  method ReadBits(wires: array<bool>, at: nat, n: nat) returns (v: nat)
    requires at + n <= wires.Length
    ensures v == FromBits(wires[at..at + n])
  {
    v := 0;
    for bit := 0 to n
      invariant v == FromBits(wires[at..at + bit])
    {
      assert wires[at..at + bit + 1][..bit] == wires[at..at + bit];
      if wires[at + bit] {
        v := v + Pow2(bit);
      }
    }
  }

  lemma SumNext(widths: seq<nat>, n: nat)
    requires n < |widths|
    ensures Sum(widths[..n + 1]) == Sum(widths[..n]) + widths[n]
  {
    assert widths[..n + 1][..n] == widths[..n];
  }

  lemma NoInputs(values: seq<int>, args: seq<nat>)
    requires |values| == |args|
    ensures Sum(args[..0]) == 0 && InputBits(values[..0], args[..0]) == []
  {
  }

  lemma MoreInputs(values: seq<int>, args: seq<nat>, idx: nat, before: seq<bool>, after: seq<bool>, w: nat, next: nat)
    requires idx < |values| == |args| && w <= next <= |before| == |after| && next == w + args[idx]
    requires w == Sum(args[..idx]) && before[..w] == InputBits(values[..idx], args[..idx])
    requires after[..w] == before[..w] && after[w..next] == ToBits(values[idx], args[idx]) && after[next..] == before[next..]
    requires forall i :: w <= i < |before| ==> !before[i]
    ensures next == Sum(args[..idx + 1]) && after[..next] == InputBits(values[..idx + 1], args[..idx + 1])
    ensures forall i :: next <= i < |after| ==> !after[i]
  {
    hide ToBits;
    assert args[..idx + 1][..idx] == args[..idx] && values[..idx + 1][..idx] == values[..idx];
    assert after[..next] == after[..w] + after[w..next];
    forall i | next <= i < |after| ensures !after[i] {
      assert after[i] == after[next..][i - next] == before[next..][i - next] == before[i];
    }
  }

  /** Spreads the input integers over the first wires, bit by bit. */
  method LoadInputs(c: Circuit, values: seq<int>, args: seq<nat>, wires: array<bool>)
    requires |values| == |args| && Sum(args) <= wires.Length
    requires forall i :: 0 <= i < wires.Length ==> !wires[i]
    modifies wires
    ensures wires[..] == InputBits(values, args) + seq(wires.Length - Sum(args), i => false)
  {
    hide ToBits, InputBits, Sum;
    var w := 0;
    NoInputs(values, args);
    SumMono(args, 0);
    for idx := 0 to |args|
      invariant w == Sum(args[..idx]) <= wires.Length
      invariant wires[..w] == InputBits(values[..idx], args[..idx])
      invariant forall i :: w <= i < wires.Length ==> !wires[i]
    {
      SumMono(args, idx + 1);
      SumNext(args, idx);
      var next := w + args[idx];
      ghost var before := wires[..];
      WriteBits(wires, w, values[idx], args[idx]);
      MoreInputs(values, args, idx, before, wires[..], w, next);
      w := next;
    }
    assert args[..|args|] == args && values[..|args|] == values;
  }

  /** Reads the output integers off the last wires, bit by bit. */
  method StoreOutputs(c: Circuit, wires: array<bool>) returns (vals: seq<nat>)
    requires wires.Length == c.numWires && Size(c.outputs) <= c.numWires
    ensures vals == SplitBits(Widths(c.outputs), wires[c.numWires - Size(c.outputs)..])
  {
    hide Size, FromBits, Widths;
    var base := c.numWires - Size(c.outputs);
    ghost var bits := wires[base..];
    ghost var widths := Widths(c.outputs);
    var w := base;
    vals := [];
    for idx := 0 to |c.outputs|
      invariant |vals| == idx
      invariant w == base + Sum(widths[..idx]) <= c.numWires
      invariant vals == SplitBits(widths[..idx], bits)
    {
      WidthsAt(c.outputs, idx);
      SumMono(widths, idx + 1);
      assert widths[..idx + 1][..idx] == widths[..idx];
      var v := ReadBits(wires, w, c.outputs[idx].bits);
      assert wires[w..w + widths[idx]] == bits[Sum(widths[..idx])..Sum(widths[..idx + 1])];
      vals := vals + [v];
      w := w + c.outputs[idx].bits;
    }
    assert widths[..|widths|] == widths;
  }

  lemma {:induction false} SumMono(widths: seq<nat>, n: nat)
    requires n <= |widths|
    ensures Sum(widths[..n]) <= Sum(widths)
    decreases |widths|
  {
    if n == |widths| {
      assert widths[..n] == widths;
    } else {
      SumMono(widths[..|widths| - 1], n);
      assert widths[..|widths| - 1][..n] == widths[..n];
    }
  }

  lemma {:induction false} WidthsAt(io: seq<IOArg>, idx: nat)
    requires idx < |io|
    ensures Widths(io)[idx] == io[idx].bits
  {
    if idx < |io| - 1 {
      WidthsAt(io[..|io| - 1], idx);
    }
  }

  /** IO.Split */
  method Split(io: seq<IOArg>, v: int) returns (vals: seq<nat>)
    ensures vals == SplitBits(Widths(io), ToBits(v, Size(io)))
    ensures Unloaded(io, ToBits(v, Size(io)), vals)
  {
    hide ToBits, BitOf, FromBits, Widths, Size;
    ghost var widths := Widths(io);
    ghost var bits := ToBits(v, Size(io));
    vals := [];
    var bit := 0;
    for k := 0 to |io|
      invariant bit == Sum(widths[..k]) <= |bits| && vals == SplitBits(widths[..k], bits)
    {
      WidthsAt(io, k);
      SumMono(widths, k + 1);
      assert widths[..k + 1][..k] == widths[..k];
      var r := SplitOne(v, bit, io[k].bits);
      OneSplit(v, Size(io), bit, io[k].bits, r);
      vals := vals + [r];
      bit := bit + io[k].bits;
    }
    assert widths[..|widths|] == widths;
    OutputsUnloaded(io, bits);
  }

  method SplitOne(v: int, at: nat, n: nat) returns (r: nat)
    ensures r == FromBits(BitsFrom(v, at, n))
  {
    r := 0;
    for i := 0 to n
      invariant r == FromBits(BitsFrom(v, at, i))
    {
      assert BitsFrom(v, at, i + 1)[..i] == BitsFrom(v, at, i);
      if BitOf(v, at + i) {
        r := r + Pow2(i);
      }
    }
  }

  function BitsFrom(v: int, at: nat, n: nat): (bits: seq<bool>)
    ensures |bits| == n
  {
    seq(n, i requires 0 <= i => BitOf(v, at + i))
  }

  lemma OneSplit(v: int, size: nat, at: nat, n: nat, r: nat)
    requires r == FromBits(BitsFrom(v, at, n)) && at + n <= size
    ensures r == FromBits(ToBits(v, size)[at..at + n])
  {
    assert ToBits(v, size)[at..at + n] == BitsFrom(v, at, n);
  }
}
