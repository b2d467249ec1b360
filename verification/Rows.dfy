/** The garbled rows bit by bit (circuit/garble.go): which key each row is made
    from, where it stands, and which counter value each gate gets.

    A label is read from its most significant bit on: doubling it brings bit i + 1
    to place i, and the 32-bit counter stands in the places from 96 on. */
module Rows {
  import opened Nat
  import opened Labels
  import opened Circuit
  import opened Garble

  /** Bit `i` of the label moved up by `n` places. */
  predicate Moved(x: Label, n: nat, i: nat)
    requires i < BITS
  {
    i + n < BITS && x[i + n]
  }

  /** Bit `i` of the counter as a label. */
  predicate CounterBit(t: nat, i: nat)
    requires i < BITS
  {
    i >= 96 && (t / Pow2(127 - i)) % 2 == 1
  }

  /** k is 2x xor t. */
  predicate HalfKey(k: Label, x: Label, t: nat) {
    forall i :: 0 <= i < BITS ==> k[i] == (Moved(x, 1, i) != CounterBit(t, i))
  }

  /** k is 2x xor 4y xor t. */
  predicate PairKey(k: Label, x: Label, y: Label, t: nat) {
    forall i :: 0 <= i < BITS ==> k[i] == ((Moved(x, 1, i) != Moved(y, 2, i)) != CounterBit(t, i))
  }

  /** The bits of the pad that the cipher makes from a key. */
  predicate Pad(pi: Cipher, k: Label, i: nat)
    requires i < BITS
  {
    pi(k)[i] != k[i]
  }

  lemma HalfKeyOf(pi: Cipher, x: Label, t: nat) returns (k: Label)
    ensures HalfKey(k, x, t) && forall i :: 0 <= i < BITS ==> EncryptHalf(pi, x, t)[i] == Pad(pi, k, i)
  {
    k := Xor(Mul2(x), Tweak(t));
  }

  lemma PairKeyOf(pi: Cipher, x: Label, y: Label, t: nat) returns (k: Label)
    ensures PairKey(k, x, y, t) && forall i :: 0 <= i < BITS ==> Encrypt(pi, x, y, Zero(), t)[i] == Pad(pi, k, i)
  {
    k := MakeK(x, y, t);
  }

  // ----- The gates -----

  /** AND: the first row hides the garbler's half under the pads of both labels of
      a, the second the evaluator's half under those of b at the next counter. */
  lemma AndRows(pi: Cipher, r: Label, a: WireLabels, b: WireLabels, id: nat) returns (k0: Label, k1: Label, m0: Label, m1: Label)
    ensures HalfKey(k0, a.l0, id) && HalfKey(k1, a.l1, id)
    ensures HalfKey(m0, b.l0, (id + 1) % 0x1_0000_0000) && HalfKey(m1, b.l1, (id + 1) % 0x1_0000_0000)
    ensures var g := GarbleGate(pi, r, AND, a, b, id);
            && |g.table| == 2 && g.id == (id + 2) % 0x1_0000_0000
            && forall i :: 0 <= i < BITS ==>
                 && g.table[0][i] == ((Pad(pi, k0, i) != Pad(pi, k1, i)) != (b.l0[0] && r[i]))
                 && g.table[1][i] == ((Pad(pi, m0, i) != Pad(pi, m1, i)) != a.l0[i])
                 && g.c.l0[i] == ((Pad(pi, k0, i) != (a.l0[0] && g.table[0][i])) != (Pad(pi, m0, i) != (b.l0[0] && g.table[1][i] != a.l0[i])))
                 && g.c.l1[i] == (g.c.l0[i] != r[i])
  {
    k0 := HalfKeyOf(pi, a.l0, id);
    k1 := HalfKeyOf(pi, a.l1, id);
    m0 := HalfKeyOf(pi, b.l0, Advance(id, 1));
    m1 := HalfKeyOf(pi, b.l1, Advance(id, 1));
    hide EncryptHalf, Pad, HalfKey;
  }

  /** OR: the pad of the labels for x and y stands at the place that their first
      bits say, xored with the label for x or y; the pad at place 0 is not sent,
      because it is that label itself. */
  lemma OrRow(pi: Cipher, r: Label, a: WireLabels, b: WireLabels, id: nat, x: bool, y: bool) returns (k: Label)
    requires Paired(a, r) && Paired(b, r) && r[0]
    ensures PairKey(k, LabelForBit(a, x), LabelForBit(b, y), id)
    ensures var g := GarbleGate(pi, r, OR, a, b, id);
            var place := (if LabelForBit(a, x)[0] then 2 else 0) + (if LabelForBit(b, y)[0] then 1 else 0);
            && |g.table| == 3 && g.id == (id + 1) % 0x1_0000_0000
            && forall i :: 0 <= i < BITS ==>
                 if place == 0 then LabelForBit(g.c, x || y)[i] == Pad(pi, k, i)
                 else g.table[place - 1][i] == (Pad(pi, k, i) != LabelForBit(g.c, x || y)[i])
  {
    hide OrRows, Encrypt, Idx;
    OrRowAt(pi, r, a, b, id, x, y);
    OrRowAt(pi, r, a, b, id, false, false);
    k := PairKeyOf(pi, LabelForBit(a, x), LabelForBit(b, y), id);
    OrPlace(LabelForBit(a, x), LabelForBit(b, y));
    OrPlace(a.l0, b.l0);
  }

  lemma OrPlace(a: Label, b: Label)
    ensures Idx(a, b) == (if a[0] then 2 else 0) + (if b[0] then 1 else 0)
  {
  }

  /** INV: the same with the two labels of a and one row sent. */
  lemma InvRow(pi: Cipher, r: Label, a: WireLabels, b: WireLabels, id: nat, x: bool) returns (k: Label)
    requires Paired(a, r) && r[0]
    ensures HalfKey(k, LabelForBit(a, x), id)
    ensures var g := GarbleGate(pi, r, INV, a, b, id);
            && |g.table| == 1 && g.id == (id + 1) % 0x1_0000_0000
            && forall i :: 0 <= i < BITS ==>
                 if !LabelForBit(a, x)[0] then LabelForBit(g.c, !x)[i] == Pad(pi, k, i)
                 else g.table[0][i] == (Pad(pi, k, i) != LabelForBit(g.c, !x)[i])
  {
    hide Encrypt;
    assert S(a.l1) != S(a.l0);
    k := PairKeyOf(pi, LabelForBit(a, x), Zero(), id);
  }

  /** XOR and XNOR: no row, no counter value, and output labels from the input
      labels alone. */
  lemma XorLabels(pi: Cipher, r: Label, a: WireLabels, b: WireLabels, id: nat)
    ensures var g, h := GarbleGate(pi, r, XOR, a, b, id), GarbleGate(pi, r, XNOR, a, b, id);
            && g.table == h.table == [] && g.id == h.id == id
            && forall i :: 0 <= i < BITS ==>
                 && g.c.l0[i] == h.c.l1[i] == (a.l0[i] != b.l0[i])
                 && g.c.l1[i] == h.c.l0[i] == ((a.l0[i] != b.l0[i]) != r[i])
  {
  }

  // ----- The counter and the labels at the start -----

  /** How many counter values the gates use. */
  function Uses(gates: seq<Gate>): nat {
    if gates == [] then 0
    else Uses(gates[..|gates| - 1]) + match gates[|gates| - 1].op
      case AND => 2
      case OR => 1
      case INV => 1
      case _ => 0
  }

  lemma {:induction false} CounterAfter(pi: Cipher, r: Label, gates: seq<Gate>, wires: seq<WireLabels>)
    requires WiresBelow(gates, |wires|) && ValidOps(gates)
    ensures GarbleRun(pi, r, gates, wires).id == Uses(gates) % 0x1_0000_0000
  {
    hide GarbleAnd, GarbleOr, GarbleInv;
    if gates != [] {
      var init, g := gates[..|gates| - 1], gates[|gates| - 1];
      assert forall h :: h in init ==> h in gates;
      CounterAfter(pi, r, init, wires);
      var s := GarbleRun(pi, r, init, wires);
      CounterOf(pi, r, g.op, s.wires[g.input0], s.wires[g.input1], s.id, Uses(init));
    }
  }

  lemma CounterOf(pi: Cipher, r: Label, op: Op, a: WireLabels, b: WireLabels, id: nat, n: nat)
    requires !op.Other? && id == n % 0x1_0000_0000
    ensures GarbleGate(pi, r, op, a, b, id).id == (n + if op == AND then 2 else if op == OR || op == INV then 1 else 0) % 0x1_0000_0000
  {
    hide OrRows, InvRows, Reduce, EncryptHalf;
  }

  /** The rows of gate `i` are made from the labels that its inputs have then, at the
      counter value that the gates before it have left. */
  lemma {:induction false} RowsOfGate(pi: Cipher, r: Label, gates: seq<Gate>, wires: seq<WireLabels>, i: nat)
    requires WiresBelow(gates, |wires|) && ValidOps(gates) && i < |gates|
    ensures (forall g :: g in gates[..i] ==> g in gates) && gates[i] in gates
    ensures var w := GarbleRun(pi, r, gates[..i], wires).wires;
            GarbleRun(pi, r, gates, wires).tables[i] ==
              GarbleGate(pi, r, gates[i].op, w[gates[i].input0], w[gates[i].input1], Uses(gates[..i]) % 0x1_0000_0000).table
    decreases |gates|
  {
    hide GarbleGate, Uses;
    var init := gates[..|gates| - 1];
    assert forall h :: h in init ==> h in gates;
    if i == |gates| - 1 {
      CounterAfter(pi, r, init, wires);
    } else {
      RowsOfGate(pi, r, init, wires, i);
      assert init[..i] == gates[..i];
    }
  }

  /** The offset and the input labels that garbling starts from. */
  lemma StartLabels(numWires: nat, k: nat, drawn: seq<Label>, j: nat)
    requires j < k <= numWires && k < |drawn|
    ensures var r := SetS(drawn[0], true);
            var w := InitialLabels(numWires, k, r, drawn[1..])[j];
            && r[0] && r[1..] == drawn[0][1..]
            && w.l0 == drawn[1 + j] && forall i :: 0 <= i < BITS ==> w.l1[i] == (drawn[1 + j][i] != r[i])
  {
  }
}
