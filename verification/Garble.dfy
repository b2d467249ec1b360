/** Garbling (circuit/garble.go) and garbled evaluation (circuit/eval.go).

    The block cipher under the session key is any function on labels. */
module Garble {
  import opened Nat
  import opened Labels
  import opened Circuit

  type Cipher = Label -> Label

  // ----- Hashing of labels -----

  function MakeK(a: Label, b: Label, t: nat): Label {
    Xor(Xor(Mul2(a), Mul4(b)), Tweak(t))
  }

  function Encrypt(pi: Cipher, a: Label, b: Label, c: Label, t: nat): Label {
    var k := MakeK(a, b, t);
    Xor(Xor(pi(k), k), c)
  }

  function Decrypt(pi: Cipher, a: Label, b: Label, t: nat, c: Label): Label {
    var k := MakeK(a, b, t);
    Xor(Xor(c, pi(k)), k)
  }

  function EncryptHalf(pi: Cipher, x: Label, t: nat): Label {
    var k := Xor(Mul2(x), Tweak(t));
    Xor(pi(k), k)
  }

  function Idx(a: Label, b: Label): (k: nat)
    ensures k < 4
  {
    (if S(a) then 2 else 0) + (if S(b) then 1 else 0)
  }

  function IdxUnary(a: Label): nat {
    if S(a) then 1 else 0
  }

  /** The tweak counter is a uint32. */
  function Advance(id: nat, n: nat): nat {
    (id + n) % TWEAK_MOD
  }

  // ----- One gate -----

  datatype GarbledGate = GarbledGate(c: WireLabels, table: seq<Label>, id: nat)

  /** Half-gate AND: two ciphertexts, two tweaks. */
  function GarbleAnd(pi: Cipher, r: Label, a: WireLabels, b: WireLabels, id: nat): GarbledGate {
    var j1 := Advance(id, 1);
    var ha0 := EncryptHalf(pi, a.l0, id);
    var hb0 := EncryptHalf(pi, b.l0, j1);
    var t0 := Xor(ha0, EncryptHalf(pi, a.l1, id));
    var tg := if S(b.l0) then Xor(t0, r) else t0;
    var te := Xor(Xor(hb0, EncryptHalf(pi, b.l1, j1)), a.l0);
    var wg := if S(a.l0) then Xor(ha0, tg) else ha0;
    var we := if S(b.l0) then Xor(Xor(hb0, te), a.l0) else hb0;
    var l0 := Xor(wg, we);
    GarbledGate(WireLabels(l0, Xor(l0, r)), [tg, te], Advance(id, 2))
  }

  function Put(rows: seq<Label>, k: nat, row: Label): (out: seq<Label>)
    requires k < |rows|
    ensures out == rows[k := row]
  {
    rows[..k] + [row] + rows[k + 1..]
  }

  /** The four OR rows before row reduction, placed by the S bits. */
  function OrRows(pi: Cipher, a: WireLabels, b: WireLabels, id: nat): (rows: seq<Label>)
    ensures |rows| == 4
  {
    var r0 := Put([Zero(), Zero(), Zero(), Zero()], Idx(a.l0, b.l0), Encrypt(pi, a.l0, b.l0, Zero(), id));
    var r1 := Put(r0, Idx(a.l0, b.l1), Encrypt(pi, a.l0, b.l1, Zero(), id));
    var r2 := Put(r1, Idx(a.l1, b.l0), Encrypt(pi, a.l1, b.l0, Zero(), id));
    Put(r2, Idx(a.l1, b.l1), Encrypt(pi, a.l1, b.l1, Zero(), id))
  }

  function InvRows(pi: Cipher, a: WireLabels, id: nat): (rows: seq<Label>)
    ensures |rows| == 2
  {
    var r0 := Put([Zero(), Zero()], IdxUnary(a.l0), Encrypt(pi, a.l0, Zero(), Zero(), id));
    Put(r0, IdxUnary(a.l1), Encrypt(pi, a.l1, Zero(), Zero(), id))
  }

  /** Row reduction: the output labels are chosen so that row 0 becomes zero
      and need not be sent.  Row `special` carries `lone`, the others `rest`. */
  function Reduce(rows: seq<Label>, special: nat, lone: Label, rest: Label): (t: seq<Label>)
    requires |rows| > 0
    ensures |t| == |rows| - 1
  {
    seq(|rows| - 1, i requires 0 <= i < |rows| - 1 =>
      Xor(rows[i + 1], if i + 1 == special then lone else rest))
  }

  function GarbleOr(pi: Cipher, r: Label, a: WireLabels, b: WireLabels, id: nat): GarbledGate {
    var rows := OrRows(pi, a, b, id);
    var k0 := Idx(a.l0, b.l0);
    var c := if k0 == 0 then WireLabels(rows[0], Xor(rows[0], r)) else WireLabels(Xor(rows[0], r), rows[0]);
    GarbledGate(c, Reduce(rows, k0, c.l0, c.l1), Advance(id, 1))
  }

  function GarbleInv(pi: Cipher, r: Label, a: WireLabels, id: nat): GarbledGate {
    var rows := InvRows(pi, a, id);
    var k0 := IdxUnary(a.l0);
    var c := if k0 == 0 then WireLabels(Xor(rows[0], r), rows[0]) else WireLabels(rows[0], Xor(rows[0], r));
    GarbledGate(c, Reduce(rows, k0, c.l1, c.l0), Advance(id, 1))
  }

  /** Free XOR: no ciphertext, no tweak. */
  function GarbleXor(r: Label, a: WireLabels, b: WireLabels, id: nat): GarbledGate {
    var l0 := Xor(a.l0, b.l0);
    GarbledGate(WireLabels(l0, Xor(l0, r)), [], id)
  }

  function GarbleXnor(r: Label, a: WireLabels, b: WireLabels, id: nat): GarbledGate {
    var l0 := Xor(a.l0, b.l0);
    GarbledGate(WireLabels(Xor(l0, r), l0), [], id)
  }

  function GarbleGate(pi: Cipher, r: Label, op: Op, a: WireLabels, b: WireLabels, id: nat): GarbledGate
    requires !op.Other?
  {
    match op
    case XOR => GarbleXor(r, a, b, id)
    case XNOR => GarbleXnor(r, a, b, id)
    case AND => GarbleAnd(pi, r, a, b, id)
    case OR => GarbleOr(pi, r, a, b, id)
    case INV => GarbleInv(pi, r, a, id)
  }

  datatype EvaluatedGate = EvaluatedGate(out: Label, id: nat)

  /** Row 0 is zero and was not sent. */
  function Row(table: seq<Label>, index: nat): Result<Label> {
    if index == 0 then Ok(Zero())
    else if index - 1 >= |table| then Err
    else Ok(table[index - 1])
  }

  function EvalAnd(pi: Cipher, a: Label, b: Label, table: seq<Label>, id: nat): Result<EvaluatedGate> {
    if |table| != 2 then Err
    else
      var ha := EncryptHalf(pi, a, id);
      var hb := EncryptHalf(pi, b, Advance(id, 1));
      var wg := if S(a) then Xor(ha, table[0]) else ha;
      var we := if S(b) then Xor(Xor(hb, table[1]), a) else hb;
      Ok(EvaluatedGate(Xor(wg, we), Advance(id, 2)))
  }

  function EvalRow(pi: Cipher, a: Label, b: Label, row: Result<Label>, id: nat): Result<EvaluatedGate> {
    if row.Err? then Err
    else Ok(EvaluatedGate(Decrypt(pi, a, b, id, row.value), Advance(id, 1)))
  }

  function EvalGate(pi: Cipher, op: Op, a: Label, b: Label, table: seq<Label>, id: nat): Result<EvaluatedGate> {
    match op
    case XOR => Ok(EvaluatedGate(Xor(a, b), id))
    case XNOR => Ok(EvaluatedGate(Xor(a, b), id))
    case AND => EvalAnd(pi, a, b, table, id)
    case OR => EvalRow(pi, a, b, Row(table, Idx(a, b)), id)
    case INV => EvalRow(pi, a, Zero(), Row(table, IdxUnary(a)), id)
    case Other(_) => Err
  }

  // ----- One garbled gate decodes to the gate's truth table -----

  /** Evaluating the garbled gate on the labels for x and y gives the label
      for the gate's output bit, and the same next tweak. */
  ghost predicate Decodes(pi: Cipher, op: Op, a: WireLabels, b: WireLabels, id: nat, g: GarbledGate) {
    forall x, y :: EvalGate(pi, op, LabelForBit(a, x), LabelForBit(b, y), g.table, id)
                   == Ok(EvaluatedGate(LabelForBit(g.c, Apply(op, x, y)), g.id))
  }

  lemma DecryptInvertsEncrypt(pi: Cipher, a: Label, b: Label, c: Label, t: nat)
    ensures Decrypt(pi, a, b, t, Xor(Encrypt(pi, a, b, Zero(), t), c)) == c
    ensures Decrypt(pi, a, b, t, Zero()) == Encrypt(pi, a, b, Zero(), t)
  {
  }

  lemma FreeXor(pi: Cipher, r: Label, a: WireLabels, b: WireLabels, id: nat)
    requires Paired(a, r) && Paired(b, r)
    ensures Decodes(pi, XOR, a, b, id, GarbleGate(pi, r, XOR, a, b, id))
    ensures Decodes(pi, XNOR, a, b, id, GarbleGate(pi, r, XNOR, a, b, id))
  {
    forall x, y
      ensures Xor(LabelForBit(a, x), LabelForBit(b, y)) == Flip(Xor(a.l0, b.l0), r, x != y)
    {
    }
  }

  /** `l` moved by the offset when `on` holds. */
  function Flip(l: Label, r: Label, on: bool): Label {
    if on then Xor(l, r) else l
  }

  /** The garbler's half: the result is offset by r exactly when x and pb. */
  lemma GarblerHalf(h: WireLabels, r: Label, pa: bool, pb: bool, x: bool)
    ensures var tg := if pb then Xor(Xor(h.l0, h.l1), r) else Xor(h.l0, h.l1);
            var wg0 := if pa then Xor(h.l0, tg) else h.l0;
            (if pa != x then Xor(LabelForBit(h, x), tg) else LabelForBit(h, x)) == Flip(wg0, r, x && pb)
  {
  }

  /** The evaluator's half: offset by r exactly when x and y differs from pb. */
  lemma EvaluatorHalf(k: WireLabels, r: Label, a: WireLabels, pb: bool, x: bool, y: bool)
    requires Paired(a, r)
    ensures var te := Xor(Xor(k.l0, k.l1), a.l0);
            var we0 := if pb then Xor(Xor(k.l0, te), a.l0) else k.l0;
            (if pb != y then Xor(Xor(LabelForBit(k, y), te), LabelForBit(a, x)) else LabelForBit(k, y))
            == Flip(we0, r, x && y != pb)
  {
  }

  lemma FlipXor(l: Label, m: Label, r: Label, p: bool, q: bool)
    ensures Xor(Flip(l, r, p), Flip(m, r, q)) == Flip(Xor(l, m), r, p != q)
  {
  }

  lemma HalfGates(pi: Cipher, r: Label, a: WireLabels, b: WireLabels, id: nat)
    requires Paired(a, r) && Paired(b, r) && S(r)
    ensures Decodes(pi, AND, a, b, id, GarbleAnd(pi, r, a, b, id))
  {
    var g := GarbleAnd(pi, r, a, b, id);
    var j1 := Advance(id, 1);
    var h := WireLabels(EncryptHalf(pi, a.l0, id), EncryptHalf(pi, a.l1, id));
    var k := WireLabels(EncryptHalf(pi, b.l0, j1), EncryptHalf(pi, b.l1, j1));
    var wg0 := if S(a.l0) then Xor(h.l0, g.table[0]) else h.l0;
    var we0 := if S(b.l0) then Xor(Xor(k.l0, g.table[1]), a.l0) else k.l0;
    forall x, y
      ensures EvalAnd(pi, LabelForBit(a, x), LabelForBit(b, y), g.table, id)
              == Ok(EvaluatedGate(LabelForBit(g.c, x && y), g.id))
    {
      GarblerHalf(h, r, S(a.l0), S(b.l0), x);
      EvaluatorHalf(k, r, a, S(b.l0), x, y);
      FlipXor(wg0, we0, r, x && S(b.l0), x && y != S(b.l0));
    }
  }

  /** With S of the offset set, the four OR rows land in four places. */
  lemma OrRowAt(pi: Cipher, r: Label, a: WireLabels, b: WireLabels, id: nat, x: bool, y: bool)
    requires Paired(a, r) && Paired(b, r) && S(r)
    ensures OrRows(pi, a, b, id)[Idx(LabelForBit(a, x), LabelForBit(b, y))]
            == Encrypt(pi, LabelForBit(a, x), LabelForBit(b, y), Zero(), id)
    ensures Idx(LabelForBit(a, x), LabelForBit(b, y)) == Idx(a.l0, b.l0) <==> !x && !y
  {
    assert S(a.l1) != S(a.l0) && S(b.l1) != S(b.l0);
  }

  lemma RowOpens(pi: Cipher, a: Label, b: Label, id: nat, rows: seq<Label>, k: nat, special: nat, lone: Label, rest: Label)
    requires k < |rows| && rows[k] == Encrypt(pi, a, b, Zero(), id)
    requires rows[0] == if special == 0 then lone else rest
    ensures var c := if k == special then lone else rest;
            EvalRow(pi, a, b, Row(Reduce(rows, special, lone, rest), k), id) == Ok(EvaluatedGate(c, Advance(id, 1)))
  {
    hide Encrypt, Decrypt, Xor;
    DecryptInvertsEncrypt(pi, a, b, if k == special then lone else rest, id);
  }

  lemma OrCase(pi: Cipher, r: Label, a: WireLabels, b: WireLabels, id: nat, x: bool, y: bool)
    requires Paired(a, r) && Paired(b, r) && S(r)
    ensures var g := GarbleOr(pi, r, a, b, id);
            EvalGate(pi, OR, LabelForBit(a, x), LabelForBit(b, y), g.table, id)
            == Ok(EvaluatedGate(LabelForBit(g.c, x || y), g.id))
  {
    hide OrRows, Encrypt, Decrypt, Reduce, Paired, Idx;
    OrRowAt(pi, r, a, b, id, x, y);
    var la, lb := LabelForBit(a, x), LabelForBit(b, y);
    var rows := OrRows(pi, a, b, id);
    var c := GarbleOr(pi, r, a, b, id).c;
    RowOpens(pi, la, lb, id, rows, Idx(la, lb), Idx(a.l0, b.l0), c.l0, c.l1);
  }

  lemma ReducedOr(pi: Cipher, r: Label, a: WireLabels, b: WireLabels, id: nat)
    requires Paired(a, r) && Paired(b, r) && S(r)
    ensures Decodes(pi, OR, a, b, id, GarbleOr(pi, r, a, b, id))
  {
    forall x, y {
      OrCase(pi, r, a, b, id, x, y);
    }
  }

  lemma ReducedInv(pi: Cipher, r: Label, a: WireLabels, b: WireLabels, id: nat)
    requires Paired(a, r) && S(r)
    ensures Decodes(pi, INV, a, b, id, GarbleInv(pi, r, a, id))
  {
    var g := GarbleInv(pi, r, a, id);
    assert S(a.l1) != S(a.l0);
    forall x, y
      ensures EvalGate(pi, INV, LabelForBit(a, x), LabelForBit(b, y), g.table, id)
              == Ok(EvaluatedGate(LabelForBit(g.c, !x), g.id))
    {
      var la := LabelForBit(a, x);
      RowOpens(pi, la, Zero(), id, InvRows(pi, a, id), IdxUnary(la), IdxUnary(a.l0), g.c.l1, g.c.l0);
    }
  }

  lemma OutputsPaired(pi: Cipher, r: Label, op: Op, a: WireLabels, b: WireLabels, id: nat)
    requires !op.Other?
    ensures Paired(GarbleGate(pi, r, op, a, b, id).c, r)
  {
    hide OrRows, InvRows, Reduce, EncryptHalf;
    forall l: Label ensures Xor(Xor(l, r), r) == l { XorCancel(l, r); }
  }

  /** Every gate: for any cipher, any paired inputs and any offset with S set,
      the garbled gate decodes to the gate's truth table and its output labels
      are paired again. */
  lemma GateSimulates(pi: Cipher, r: Label, op: Op, a: WireLabels, b: WireLabels, id: nat)
    requires !op.Other? && S(r)
    requires Paired(a, r) && (op == INV || Paired(b, r))
    ensures Decodes(pi, op, a, b, id, GarbleGate(pi, r, op, a, b, id))
    ensures Paired(GarbleGate(pi, r, op, a, b, id).c, r)
  {
    hide GarbleAnd, GarbleOr, GarbleInv, Paired, Decodes;
    OutputsPaired(pi, r, op, a, b, id);
    match op
    case XOR => FreeXor(pi, r, a, b, id);
    case XNOR => FreeXor(pi, r, a, b, id);
    case AND => HalfGates(pi, r, a, b, id);
    case OR => ReducedOr(pi, r, a, b, id);
    case INV => ReducedInv(pi, r, a, b, id);
  }

  // ----- The gate loops -----

  datatype GarbleState = GarbleState(wires: seq<WireLabels>, tables: seq<seq<Label>>, id: nat)

  datatype EvalState = EvalState(wires: seq<Label>, id: nat)

  ghost predicate WiresBelow(gates: seq<Gate>, n: nat) {
    forall g :: g in gates ==> g.input0 < n && g.input1 < n && g.output < n
  }

  function GarbleRun(pi: Cipher, r: Label, gates: seq<Gate>, wires: seq<WireLabels>): (s: GarbleState)
    requires WiresBelow(gates, |wires|) && ValidOps(gates)
    ensures |s.wires| == |wires| && |s.tables| == |gates|
  {
    if gates == [] then GarbleState(wires, [], 0)
    else
      var g := gates[|gates| - 1];
      var s := GarbleRun(pi, r, gates[..|gates| - 1], wires);
      var out := GarbleGate(pi, r, g.op, s.wires[g.input0], s.wires[g.input1], s.id);
      GarbleState(s.wires[g.output := out.c], s.tables + [out.table], out.id)
  }

  function EvalRun(pi: Cipher, gates: seq<Gate>, tables: seq<seq<Label>>, wires: seq<Label>): (s: Result<EvalState>)
    requires WiresBelow(gates, |wires|) && |gates| <= |tables|
    ensures s.Ok? ==> |s.value.wires| == |wires|
  {
    if gates == [] then Ok(EvalState(wires, 0))
    else
      var n := |gates| - 1;
      var g := gates[n];
      EvalStep(pi, g, tables[n], EvalRun(pi, gates[..n], tables, wires))
  }

  function EvalStep(pi: Cipher, g: Gate, table: seq<Label>, s: Result<EvalState>): (t: Result<EvalState>)
    requires s.Ok? ==> g.input0 < |s.value.wires| && g.input1 < |s.value.wires| && g.output < |s.value.wires|
    ensures t.Ok? ==> s.Ok? && |t.value.wires| == |s.value.wires|
  {
    if s.Err? then Err
    else
      var w := s.value.wires;
      var out := EvalGate(pi, g.op, w[g.input0], w[g.input1], table, s.value.id);
      if out.Err? then Err
      else Ok(EvalState(w[g.output := out.value.out], out.value.id))
  }

  // ----- Lockstep of garbler, evaluator and plain evaluation -----

  /** Wire `w` is one of the first `k` wires or the output of some gate. */
  ghost predicate Assigned(gates: seq<Gate>, k: nat, w: nat) {
    w < k || exists g :: g in gates && g.output == w
  }

  /** Every gate reads only wires that are assigned before it. */
  ghost predicate InOrder(gates: seq<Gate>, k: nat) {
    forall i :: 0 <= i < |gates| ==>
      && Assigned(gates[..i], k, gates[i].input0)
      && (gates[i].op != INV ==> Assigned(gates[..i], k, gates[i].input1))
  }

  /** The same from a set of wires that have labels at the start. */
  ghost predicate AssignedFrom(gates: seq<Gate>, known: set<nat>, w: nat) {
    w in known || Written(gates, w)
  }

  ghost predicate Written(gates: seq<Gate>, w: nat) {
    exists g :: g in gates && g.output == w
  }

  ghost predicate InOrderFrom(gates: seq<Gate>, known: set<nat>) {
    forall i :: 0 <= i < |gates| ==> GateInOrder(gates, known, i)
  }

  ghost predicate GateInOrder(gates: seq<Gate>, known: set<nat>, i: nat)
    requires i < |gates|
  {
    && AssignedFrom(gates[..i], known, gates[i].input0)
    && (gates[i].op != INV ==> AssignedFrom(gates[..i], known, gates[i].input1))
  }

  /** The evaluator holds, on wire `w`, the garbler's label for the plain bit. */
  predicate Agrees(r: Label, w: WireLabels, l: Label, b: bool) {
    Paired(w, r) && l == LabelForBit(w, b)
  }

  /** The two sides of a run agree on every wire assigned so far. */
  ghost predicate Simulates(r: Label, gates: seq<Gate>, known: set<nat>, gs: GarbleState, es: Result<EvalState>, bits: seq<bool>) {
    && es.Ok?
    && |gs.wires| == |es.value.wires| == |bits|
    && es.value.id == gs.id
    && forall w :: 0 <= w < |bits| && AssignedFrom(gates, known, w) ==> Agrees(r, gs.wires[w], es.value.wires[w], bits[w])
  }

  lemma GarbleRunPrefix(pi: Cipher, r: Label, gates: seq<Gate>, wires: seq<WireLabels>)
    requires WiresBelow(gates, |wires|) && ValidOps(gates) && gates != []
    ensures GarbleRun(pi, r, gates[..|gates| - 1], wires).tables == GarbleRun(pi, r, gates, wires).tables[..|gates| - 1]
  {
  }

  lemma {:induction false} EvalRunPrefix(pi: Cipher, gates: seq<Gate>, t: seq<seq<Label>>, u: seq<seq<Label>>, wires: seq<Label>)
    requires WiresBelow(gates, |wires|) && |gates| <= |t| <= |u| && u[..|t|] == t
    ensures EvalRun(pi, gates, t, wires) == EvalRun(pi, gates, u, wires)
  {
    if gates != [] {
      assert forall g :: g in gates[..|gates| - 1] ==> g in gates;
      EvalRunPrefix(pi, gates[..|gates| - 1], t, u, wires);
      assert t[|gates| - 1] == u[|gates| - 1];
    }
  }

  lemma InvReadsOneInput(pi: Cipher, a: Label, b: Label, c: Label, table: seq<Label>, id: nat)
    ensures EvalGate(pi, INV, a, b, table, id) == EvalGate(pi, INV, a, c, table, id)
  {
  }

  lemma InOrderPrefix(gates: seq<Gate>, known: set<nat>, n: nat)
    requires InOrderFrom(gates, known) && n <= |gates|
    ensures InOrderFrom(gates[..n], known)
    ensures forall h :: h in gates[..n] ==> h in gates
  {
    forall i | 0 <= i < n
      ensures GateInOrder(gates[..n], known, i)
    {
      assert gates[..n][..i] == gates[..i] && GateInOrder(gates, known, i);
    }
  }

  /** The simulation: after any number of gates, on every assigned wire the
      evaluator's label is the garbler's label for the bit that plain
      evaluation puts there, and the two tweak counters are equal. */
  lemma {:induction false} Lockstep(pi: Cipher, r: Label, gates: seq<Gate>, known: set<nat>,
                                    wires: seq<WireLabels>, labels: seq<Label>, bits: seq<bool>)
    requires S(r) && |wires| == |labels| == |bits|
    requires WiresBelow(gates, |wires|) && ValidOps(gates) && InOrderFrom(gates, known)
    requires forall i :: i in known && i < |wires| ==> Agrees(r, wires[i], labels[i], bits[i])
    ensures Simulates(r, gates, known, GarbleRun(pi, r, gates, wires),
                      EvalRun(pi, gates, GarbleRun(pi, r, gates, wires).tables, labels), RunGates(gates, bits))
  {
    hide GarbleGate, EvalGate, EvalStep, Simulates, Agrees, AssignedFrom, Apply;
    if gates == [] {
      LockstepStart(r, known, wires, labels, bits);
    } else {
      var n := |gates| - 1;
      var init, g := gates[..n], gates[n];
      InOrderPrefix(gates, known, n);
      Lockstep(pi, r, init, known, wires, labels, bits);
      var gs := GarbleRun(pi, r, init, wires);
      var all := GarbleRun(pi, r, gates, wires);
      GarbleRunPrefix(pi, r, gates, wires);
      EvalRunPrefix(pi, init, gs.tables, all.tables, labels);
      assert init + [g] == gates && GateInOrder(gates, known, n);
      LockstepStep(pi, r, g, gs, EvalRun(pi, init, gs.tables, labels), RunGates(init, bits), known, init);
    }
  }

  lemma LockstepStart(r: Label, known: set<nat>, wires: seq<WireLabels>, labels: seq<Label>, bits: seq<bool>)
    requires |wires| == |labels| == |bits|
    requires forall i :: i in known && i < |wires| ==> Agrees(r, wires[i], labels[i], bits[i])
    ensures Simulates(r, [], known, GarbleState(wires, [], 0), Ok(EvalState(labels, 0)), bits)
  {
  }

  /** One gate of the simulation. */
  lemma LockstepStep(pi: Cipher, r: Label, g: Gate, gs: GarbleState, es: Result<EvalState>, bits: seq<bool>, known: set<nat>, init: seq<Gate>)
    requires S(r) && Simulates(r, init, known, gs, es, bits)
    requires g.input0 < |bits| && g.input1 < |bits| && g.output < |bits| && !g.op.Other?
    requires AssignedFrom(init, known, g.input0) && (g.op != INV ==> AssignedFrom(init, known, g.input1))
    ensures var out := GarbleGate(pi, r, g.op, gs.wires[g.input0], gs.wires[g.input1], gs.id);
            var next := GarbleState(gs.wires[g.output := out.c], gs.tables + [out.table], out.id);
            Simulates(r, init + [g], known, next, EvalStep(pi, g, out.table, es),
                      bits[g.output := Apply(g.op, bits[g.input0], bits[g.input1])])
  {
    hide GarbleGate, EvalGate;
    var a, b := gs.wires[g.input0], gs.wires[g.input1];
    var x := bits[g.input0];
    var out := GarbleGate(pi, r, g.op, a, b, gs.id);
    assert Agrees(r, a, es.value.wires[g.input0], x);
    GateSimulates(pi, r, g.op, a, b, gs.id);
    if g.op == INV {
      InvReadsOneInput(pi, LabelForBit(a, x), es.value.wires[g.input1], LabelForBit(b, false), out.table, gs.id);
    } else {
      assert Agrees(r, b, es.value.wires[g.input1], bits[g.input1]);
    }
  }

  // ----- The imperative garbler and evaluator -----

  datatype Garbled = Garbled(r: Label, wires: seq<WireLabels>, tables: seq<seq<Label>>)

  /** makeLabels: a fresh pair at the offset. */
  function MakeLabels(l0: Label, r: Label): WireLabels {
    WireLabels(l0, Xor(l0, r))
  }

  /** Fresh pairs on the first `k` wires, nothing on the others. */
  function InitialLabels(numWires: nat, k: nat, r: Label, drawn: seq<Label>): (w: seq<WireLabels>)
    requires k <= numWires && k <= |drawn|
    ensures |w| == numWires
  {
    seq(numWires, i requires 0 <= i < numWires => if i < k then MakeLabels(drawn[i], r) else NoLabels())
  }

  /** Garbles one gate: writes the output wire's labels in place and returns
      the ciphertexts and the next tweak. */
  method GarbleInto(pi: Cipher, r: Label, g: Gate, wires: array<WireLabels>, id: nat)
    returns (ok: bool, rows: seq<Label>, next: nat)
    requires g.input0 < wires.Length && g.input1 < wires.Length && g.output < wires.Length
    modifies wires
    ensures ok <==> !g.op.Other?
    ensures !ok ==> wires[..] == old(wires[..])
    ensures ok ==>
      var out := GarbleGate(pi, r, g.op, old(wires[g.input0]), old(wires[g.input1]), id);
      wires[..] == old(wires[..])[g.output := out.c] && rows == out.table && next == out.id
  {
    rows, next := [], id;
    if g.op.Other? {
      return false, rows, next;
    }
    var a, b := wires[g.input0], wires[g.input1];
    var c := NoLabels();
    match g.op {
      case XOR =>
        var l0 := Xor(a.l0, b.l0);
        c := WireLabels(l0, Xor(l0, r));
      case XNOR =>
        var l0 := Xor(a.l0, b.l0);
        c := WireLabels(Xor(l0, r), l0);
      case AND =>
        c, rows := GarbleAndRows(pi, r, a, b, id);
        next := Advance(id, 2);
      case OR =>
        c, rows := GarbleOrRows(pi, r, a, b, id);
        next := Advance(id, 1);
      case INV =>
        c, rows := GarbleInvRows(pi, r, a, id);
        next := Advance(id, 1);
    }
    wires[g.output] := c;
    return true, rows, next;
  }

  method GarbleAndRows(pi: Cipher, r: Label, a: WireLabels, b: WireLabels, id: nat)
    returns (c: WireLabels, rows: seq<Label>)
    ensures GarbledGate(c, rows, Advance(id, 2)) == GarbleAnd(pi, r, a, b, id)
  {
    var pa, pb := S(a.l0), S(b.l0);
    var j0, j1 := id, Advance(id, 1);
    var tg := EncryptHalf(pi, a.l0, j0);
    tg := Xor(tg, EncryptHalf(pi, a.l1, j0));
    if pb {
      tg := Xor(tg, r);
    }
    var wg0 := EncryptHalf(pi, a.l0, j0);
    if pa {
      wg0 := Xor(wg0, tg);
    }
    var te := EncryptHalf(pi, b.l0, j1);
    te := Xor(te, EncryptHalf(pi, b.l1, j1));
    te := Xor(te, a.l0);
    var we0 := EncryptHalf(pi, b.l0, j1);
    if pb {
      we0 := Xor(we0, te);
      we0 := Xor(we0, a.l0);
    }
    var l0 := Xor(wg0, we0);
    c := WireLabels(l0, Xor(l0, r));
    rows := [tg, te];
  }

  method GarbleOrRows(pi: Cipher, r: Label, a: WireLabels, b: WireLabels, id: nat)
    returns (c: WireLabels, rows: seq<Label>)
    ensures GarbledGate(c, rows, Advance(id, 1)) == GarbleOr(pi, r, a, b, id)
  {
    hide OrRows;
    var table := OrRows(pi, a, b, id);
    var k0 := Idx(a.l0, b.l0);
    c := WireLabels(table[0], table[0]);
    if k0 == 0 {
      c := c.(l1 := Xor(c.l1, r));
    } else {
      c := c.(l0 := Xor(c.l0, r));
    }
    table := MaskRows(table, k0, c.l0, c.l1);
    rows := table[1..];
    assert rows == Reduce(OrRows(pi, a, b, id), k0, c.l0, c.l1);
  }

  method GarbleInvRows(pi: Cipher, r: Label, a: WireLabels, id: nat)
    returns (c: WireLabels, rows: seq<Label>)
    ensures GarbledGate(c, rows, Advance(id, 1)) == GarbleInv(pi, r, a, id)
  {
    hide InvRows;
    var table := InvRows(pi, a, id);
    var k0 := IdxUnary(a.l0);
    c := WireLabels(table[0], table[0]);
    if k0 == 0 {
      c := c.(l0 := Xor(c.l0, r));
    } else {
      c := c.(l1 := Xor(c.l1, r));
    }
    table := MaskRows(table, k0, c.l1, c.l0);
    rows := table[1..];
    assert rows == Reduce(InvRows(pi, a, id), k0, c.l1, c.l0);
  }

  /** The loop that xors the chosen output label into every row. */
  method MaskRows(rows: seq<Label>, special: nat, lone: Label, rest: Label) returns (out: seq<Label>)
    ensures |out| == |rows|
    ensures forall i :: 0 <= i < |rows| ==> out[i] == Xor(rows[i], if i == special then lone else rest)
  {
    out := rows;
    for i := 0 to |rows|
      invariant |out| == |rows|
      invariant forall j :: 0 <= j < i ==> out[j] == Xor(rows[j], if j == special then lone else rest)
      invariant forall j :: i <= j < |rows| ==> out[j] == rows[j]
    {
      if i == special {
        out := out[i := Xor(out[i], lone)];
      } else {
        out := out[i := Xor(out[i], rest)];
      }
    }
  }

  /** Garbles the circuit.  `rand` is the random source: the offset first, then
      one label for each input wire; it may run out. */
  method GarbleCircuit(c: Circuit, pi: Cipher, rand: seq<Label>) returns (res: Result<Garbled>)
    requires c.InRange()
    ensures res.Ok? <==> |rand| > Size(c.inputs) && ValidOps(c.gates)
    ensures res.Ok? ==>
      var r := SetS(rand[0], true);
      var s := GarbleRun(pi, r, c.gates, InitialLabels(c.numWires, Size(c.inputs), r, rand[1..]));
      res.value == Garbled(r, s.wires, s.tables)
  {
    if |rand| == 0 {
      return Err;
    }
    var r := SetS(rand[0], true);
    var wires := new WireLabels[c.numWires](_ => NoLabels());
    var ok := LabelInputs(wires, Size(c.inputs), r, rand[1..]);
    if !ok {
      return Err;
    }
    var tables;
    ok, tables := GarbleGates(pi, r, c.gates, wires);
    return if ok then Ok(Garbled(r, wires[..], tables)) else Err;
  }

  method LabelInputs(wires: array<WireLabels>, k: nat, r: Label, rand: seq<Label>) returns (ok: bool)
    requires k <= wires.Length
    requires forall j :: 0 <= j < wires.Length ==> wires[j] == NoLabels()
    modifies wires
    ensures ok <==> |rand| >= k
    ensures ok ==> wires[..] == InitialLabels(wires.Length, k, r, rand)
  {
    hide MakeLabels, NoLabels;
    for i := 0 to k
      invariant |rand| >= i
      invariant forall j :: 0 <= j < wires.Length ==> wires[j] == if j < i then MakeLabels(rand[j], r) else NoLabels()
    {
      if |rand| <= i {
        return false;
      }
      wires[i] := MakeLabels(rand[i], r);
    }
    return true;
  }

  /** The garbler's gate loop. */
  method GarbleGates(pi: Cipher, r: Label, gates: seq<Gate>, wires: array<WireLabels>)
    returns (ok: bool, tables: seq<seq<Label>>)
    requires WiresBelow(gates, wires.Length)
    modifies wires
    ensures ok <==> ValidOps(gates)
    ensures ok ==> GarbleRun(pi, r, gates, old(wires[..])).wires == wires[..]
    ensures ok ==> GarbleRun(pi, r, gates, old(wires[..])).tables == tables
  {
    hide GarbleGate;
    var id := 0;
    tables := [];
    for i := 0 to |gates|
      invariant ValidOps(gates[..i])
      invariant GarbleState(wires[..], tables, id) == GarbleRun(pi, r, gates[..i], old(wires[..]))
    {
      assert gates[i] in gates;
      assert gates[..i + 1][..i] == gates[..i];
      var valid, rows, next := GarbleInto(pi, r, gates[i], wires, id);
      if !valid {
        return false, [];
      }
      tables, id := tables + [rows], next;
    }
    assert gates[..|gates|] == gates;
    return true, tables;
  }

  /** Evaluates the garbled circuit on the evaluator's labels, in place. */
  method Eval(c: Circuit, pi: Cipher, wires: array<Label>, garbled: seq<seq<Label>>) returns (ok: bool)
    requires c.InRange() && wires.Length == c.numWires && |c.gates| <= |garbled|
    modifies wires
    ensures ok <==> EvalRun(pi, c.gates, garbled, old(wires[..])).Ok?
    ensures ok ==> wires[..] == EvalRun(pi, c.gates, garbled, old(wires[..])).value.wires
  {
    hide EvalGate, Size, Sum, Flatten;
    var id := 0;
    for i := 0 to |c.gates|
      invariant EvalRun(pi, c.gates[..i], garbled, old(wires[..])) == Ok(EvalState(wires[..], id))
    {
      var g := c.gates[i];
      assert g in c.gates;
      assert c.gates[..i + 1][..i] == c.gates[..i];
      var out := EvalGate(pi, g.op, wires[g.input0], wires[g.input1], garbled[i], id);
      if out.Err? {
        EvalStops(pi, c.gates, garbled, old(wires[..]), i + 1);
        return false;
      }
      wires[g.output], id := out.value.out, out.value.id;
    }
    assert c.gates[..|c.gates|] == c.gates;
    return true;
  }

  /** A run that stopped at some gate stays stopped. */
  lemma {:induction false} EvalStops(pi: Cipher, gates: seq<Gate>, tables: seq<seq<Label>>, wires: seq<Label>, n: nat)
    requires WiresBelow(gates, |wires|) && n <= |gates| <= |tables|
    requires EvalRun(pi, gates[..n], tables, wires).Err?
    ensures EvalRun(pi, gates, tables, wires).Err?
  {
    if n == |gates| {
      assert gates[..n] == gates;
    } else {
      var init := gates[..|gates| - 1];
      assert init[..n] == gates[..n];
      assert forall g :: g in init ==> g in gates;
      EvalStops(pi, init, tables, wires, n);
    }
  }

  // ----- The garbled circuit computes the circuit -----

  ghost predicate InputsUntouched(gates: seq<Gate>, k: nat) {
    forall g :: g in gates ==> g.output >= k
  }

  /** No two gates write the same wire. */
  ghost predicate WrittenOnce(gates: seq<Gate>) {
    forall x, y :: 0 <= x < y < |gates| ==> gates[x].output != gates[y].output
  }

  /** No gate reads an input wire at or before the first gate that writes it. */
  ghost predicate ReadsKept(gates: seq<Gate>, k: nat) {
    forall x :: 0 <= x < |gates| ==> GateReadsKept(gates, k, x)
  }

  ghost predicate GateReadsKept(gates: seq<Gate>, k: nat, x: nat)
    requires x < |gates|
  {
    PortKept(gates, k, x, gates[x].input0) && (gates[x].op != INV ==> PortKept(gates, k, x, gates[x].input1))
  }

  ghost predicate PortKept(gates: seq<Gate>, k: nat, x: nat, w: nat)
    requires x < |gates|
  {
    w < k ==> Written(gates[..x], w) || !Written(gates[x..], w)
  }

  lemma UntouchedReads(gates: seq<Gate>, k: nat)
    requires InputsUntouched(gates, k)
    ensures ReadsKept(gates, k)
  {
    forall x | 0 <= x < |gates| ensures GateReadsKept(gates, k, x) {
      forall w: nat | w < k ensures !Written(gates[x..], w) {
        assert forall g :: g in gates[x..] ==> g in gates;
      }
    }
  }

  /** The input wires that no gate writes. */
  ghost function Kept(gates: seq<Gate>, k: nat): (known: set<nat>)
    ensures forall w: nat :: w in known <==> w < k && !Written(gates, w)
  {
    set w: nat | w < k && !Written(gates, w)
  }

  lemma KeptInOrder(gates: seq<Gate>, k: nat)
    requires InOrder(gates, k) && ReadsKept(gates, k)
    ensures InOrderFrom(gates, Kept(gates, k))
  {
    var known := Kept(gates, k);
    forall x | 0 <= x < |gates| ensures GateInOrder(gates, known, x) {
      assert GateReadsKept(gates, k, x);
      forall w: nat | Assigned(gates[..x], k, w) && PortKept(gates, k, x, w) ensures AssignedFrom(gates[..x], known, w) {
        if !Written(gates[..x], w) {
          assert gates == gates[..x] + gates[x..];
          assert !Written(gates, w);
        }
      }
    }
  }

  function OutputWire(c: Circuit, j: nat): nat
    requires Size(c.outputs) <= c.numWires
  {
    c.numWires - Size(c.outputs) + j
  }

  ghost predicate OutputsAssigned(c: Circuit) {
    Size(c.outputs) <= c.numWires &&
    forall j :: 0 <= j < Size(c.outputs) ==> Assigned(c.gates, Size(c.inputs), OutputWire(c, j))
  }

  /** What the compiler and the circuit parser hand to the two parties. */
  ghost predicate Runnable(c: Circuit) {
    && c.InRange() && ValidOps(c.gates)
    && InOrder(c.gates, Size(c.inputs)) && OutputsAssigned(c)
  }

  /** The labels of a wire that no gate writes are those drawn before garbling. */
  lemma {:induction false} InputLabelsSurvive(pi: Cipher, r: Label, gates: seq<Gate>, wires: seq<WireLabels>, w: nat)
    requires WiresBelow(gates, |wires|) && ValidOps(gates) && !Written(gates, w) && w < |wires|
    ensures GarbleRun(pi, r, gates, wires).wires[w] == wires[w]
  {
    if gates != [] {
      var n := |gates| - 1;
      assert forall g :: g in gates[..n] ==> g in gates;
      assert gates[n] in gates;
      InputLabelsSurvive(pi, r, gates[..n], wires, w);
    }
  }

  lemma SimulatesAt(r: Label, gates: seq<Gate>, known: set<nat>, gs: GarbleState, es: Result<EvalState>, bits: seq<bool>, w: nat)
    requires S(r) && Simulates(r, gates, known, gs, es, bits)
    requires w < |bits| && AssignedFrom(gates, known, w)
    ensures es.Ok? && |gs.wires| == |es.value.wires| == |bits|
    ensures es.value.wires[w] == LabelForBit(gs.wires[w], bits[w])
    ensures BitFromLabel(gs.wires[w], es.value.wires[w]) == Bit(bits[w])
  {
    DecodeIsInverse(gs.wires[w], r, bits[w], es.value.wires[w]);
  }

  /** Every output wire of the evaluator decodes to the circuit's meaning. */
  ghost predicate OutputsDecode(c: Circuit, g: GarbleState, e: Result<EvalState>, bits: seq<bool>)
    requires c.InRange() && |bits| <= c.numWires && |g.wires| == c.numWires
  {
    && e.Ok? && |e.value.wires| == c.numWires
    && forall j :: 0 <= j < Size(c.outputs) ==>
         var w := OutputWire(c, j);
         && e.value.wires[w] == LabelForBit(g.wires[w], Meaning(c, bits)[j])
         && BitFromLabel(g.wires[w], e.value.wires[w]) == Bit(Meaning(c, bits)[j])
  }

  /** The main theorem.  For any cipher, any random labels, any offset with S
      set and any input bits: an evaluator that starts from the garbler's
      labels for those bits, read after garbling as the garbler does, finishes
      with labels that decode on every output wire to the circuit's meaning.
      An input wire may be overwritten, once nobody needs what it held. */
  lemma GarblingComputes(c: Circuit, pi: Cipher, r: Label, drawn: seq<Label>, bits: seq<bool>, labels: seq<Label>)
    requires Runnable(c) && ReadsKept(c.gates, Size(c.inputs))
    requires S(r) && |drawn| >= Size(c.inputs) == |bits| && |labels| == c.numWires
    requires var w := GarbleRun(pi, r, c.gates, InitialLabels(c.numWires, |bits|, r, drawn)).wires;
             forall i :: 0 <= i < |bits| ==> labels[i] == LabelForBit(w[i], bits[i])
    ensures var g := GarbleRun(pi, r, c.gates, InitialLabels(c.numWires, |bits|, r, drawn));
            OutputsDecode(c, g, EvalRun(pi, c.gates, g.tables, labels), bits)
  {
    hide GarbleGate, EvalGate, InOrder, InOrderFrom, Simulates, ReadsKept, Written;
    var k := |bits|;
    var known := Kept(c.gates, k);
    var start := InitialLabels(c.numWires, k, r, drawn);
    var wires := InitialWires(c, bits);
    var g := GarbleRun(pi, r, c.gates, start);
    forall i | i in known
      ensures Agrees(r, start[i], labels[i], wires[i])
    {
      InputLabelsSurvive(pi, r, c.gates, start, i);
    }
    KeptInOrder(c.gates, k);
    Lockstep(pi, r, c.gates, known, start, labels, wires);
    var e := EvalRun(pi, c.gates, g.tables, labels);
    SimulatedOutputs(c, r, g, e, bits);
  }

  lemma SimulatesShape(r: Label, gates: seq<Gate>, known: set<nat>, gs: GarbleState, es: Result<EvalState>, bits: seq<bool>)
    requires Simulates(r, gates, known, gs, es, bits)
    ensures es.Ok? && |gs.wires| == |es.value.wires| == |bits|
  {
  }

  lemma SimulatedOutputs(c: Circuit, r: Label, g: GarbleState, e: Result<EvalState>, bits: seq<bool>)
    requires Runnable(c) && S(r) && |bits| == Size(c.inputs) && |g.wires| == c.numWires
    requires Simulates(r, c.gates, Kept(c.gates, |bits|), g, e, RunGates(c.gates, InitialWires(c, bits)))
    ensures OutputsDecode(c, g, e, bits)
  {
    hide InOrder, RunGates, InitialWires, Simulates, LabelForBit, BitFromLabel, Size;
    var wires := RunGates(c.gates, InitialWires(c, bits));
    SimulatesShape(r, c.gates, Kept(c.gates, |bits|), g, e, wires);
    forall j | 0 <= j < Size(c.outputs)
      ensures var w := OutputWire(c, j);
              && e.value.wires[w] == LabelForBit(g.wires[w], wires[w])
              && BitFromLabel(g.wires[w], e.value.wires[w]) == Bit(wires[w])
    {
      assert Assigned(c.gates, |bits|, OutputWire(c, j));
      SimulatesAt(r, c.gates, Kept(c.gates, |bits|), g, e, wires, OutputWire(c, j));
    }
  }

  /** A gate reads input wire 0 and overwrites it: every other hypothesis holds,
      and the evaluator ends with an unknown label. */
  function Overwriting(): Circuit {
    Circuit(3, [IOArg(1, []), IOArg(1, [])], [IOArg(1, [])], [Gate(XOR, 0, 1, 0)] + [Gate(XOR, 0, 1, 2)])
  }

  lemma OverwritingSizes()
    ensures var c := Overwriting(); Size(c.inputs) == 2 && Size(c.outputs) == 1 && Sum(Flatten(c.inputs)) == 2
  {
    var c := Overwriting();
    assert c.inputs[..1] == [IOArg(1, [])] && c.inputs[..1][..0] == [] && c.outputs[..0] == [];
    assert Size(c.inputs[..1]) == 1;
    assert Flatten(c.inputs[..1]) == [1];
    assert Flatten(c.inputs) == [1, 1] && [1, 1][..1] == [1];
    assert Sum([1]) == 1;
  }

  lemma OverwritingIsRunnable()
    ensures Runnable(Overwriting()) && !ReadsKept(Overwriting().gates, 2)
  {
    hide Size, Flatten, Sum;
    OverwritingSizes();
    var c := Overwriting();
    var g0, g1 := Gate(XOR, 0, 1, 0), Gate(XOR, 0, 1, 2);
    assert c.gates[0] == g0 && c.gates[1] == g1 && g0 in c.gates && g1 in c.gates;
    assert Assigned(c.gates, 2, 2);
    assert c.gates[..0] == [] && g0 in c.gates[0..] && Written(c.gates[0..], 0);
    assert !GateReadsKept(c.gates, 2, 0);
  }

  lemma OverwrittenInputFails(pi: Cipher, a: bool, b: bool)
    ensures WiresBelow(Overwriting().gates, 3) && ValidOps(Overwriting().gates)
    ensures exists r, drawn: seq<Label> ::
      && S(r) && |drawn| == 2
      && var g := GarbleRun(pi, r, Overwriting().gates, InitialLabels(3, 2, r, drawn));
         var labels := [LabelForBit(g.wires[0], a), LabelForBit(g.wires[1], b), Zero()];
         var e := EvalRun(pi, Overwriting().gates, g.tables, labels);
         e.Ok? && BitFromLabel(g.wires[2], e.value.wires[2]) == UnknownLabel
  {
    var g0, g1 := Gate(XOR, 0, 1, 0), Gate(XOR, 0, 1, 2);
    var gates := Overwriting().gates;
    var r: Label := Zero()[0 := true];
    var lb: Label := Zero()[1 := true];
    var drawn: seq<Label> := [Zero(), lb];
    var start := InitialLabels(3, 2, r, drawn);
    assert gates == [g0] + [g1] && gates[..1] == [g0] && [g0][..0] == [];
    assert GarbleRun(pi, r, [], start) == GarbleState(start, [], 0);
    var s1 := GarbleRun(pi, r, [g0], start);
    assert s1.wires == start[0 := GarbleXor(r, start[0], start[1], 0).c];
    var g := GarbleRun(pi, r, gates, start);
    assert g.wires == s1.wires[2 := GarbleXor(r, s1.wires[0], s1.wires[1], s1.id).c];
    assert !g.wires[2].l0[1] && !g.wires[2].l1[1];
    var labels := [LabelForBit(g.wires[0], a), LabelForBit(g.wires[1], b), Zero()];
    assert labels[0][1] && labels[1][1];
    assert EvalRun(pi, [], g.tables, labels) == Ok(EvalState(labels, 0));
    var e1 := EvalRun(pi, [g0], g.tables, labels);
    assert e1 == Ok(EvalState(labels[0 := Xor(labels[0], labels[1])], 0));
    var e := EvalRun(pi, gates, g.tables, labels);
    assert e.Ok? && e.value.wires[2][1];
  }

  /** Input wire 0 is overwritten before anybody reads it: the theorem covers
      this circuit, though it does not leave its inputs alone. */
  function LateInput(): Circuit {
    Overwriting().(gates := [Gate(XOR, 1, 1, 0)] + [Gate(XOR, 0, 1, 2)])
  }

  lemma LateInputIsCovered()
    ensures Runnable(LateInput()) && ReadsKept(LateInput().gates, 2) && !InputsUntouched(LateInput().gates, 2)
  {
    hide Size, Flatten, Sum;
    OverwritingSizes();
    var c := LateInput();
    var g0, g1 := Gate(XOR, 1, 1, 0), Gate(XOR, 0, 1, 2);
    assert c.gates[0] == g0 && c.gates[1] == g1 && g0 in c.gates && g1 in c.gates;
    assert Assigned(c.gates, 2, 2);
    assert c.gates[..1] == [g0] && c.gates[0..] == [g0, g1] && c.gates[1..] == [g1] && Written([g0], 0);
    assert GateReadsKept(c.gates, 2, 0) && GateReadsKept(c.gates, 2, 1);
  }

  /** What a gate reads too early may cancel, so the condition is not necessary:
      the first gate of this circuit makes 0 whatever input 0 is, with any label. */
  function Cancelling(): Circuit {
    Overwriting().(gates := [Gate(XOR, 0, 0, 0)] + [Gate(XOR, 0, 1, 2)])
  }

  lemma CancellingIsRunnable()
    ensures Runnable(Cancelling()) && !ReadsKept(Cancelling().gates, 2)
  {
    hide Size, Flatten, Sum;
    OverwritingSizes();
    var c := Cancelling();
    var g0, g1 := Gate(XOR, 0, 0, 0), Gate(XOR, 0, 1, 2);
    assert c.gates[0] == g0 && c.gates[1] == g1 && g0 in c.gates && g1 in c.gates;
    assert Assigned(c.gates, 2, 2);
    assert c.gates[..0] == [] && g0 in c.gates[0..] && Written(c.gates[0..], 0);
    assert !GateReadsKept(c.gates, 2, 0);
  }

  lemma CancellingGarbled(pi: Cipher, r: Label, drawn: seq<Label>) returns (g: GarbleState)
    requires |drawn| == 2
    ensures WiresBelow(Cancelling().gates, 3) && ValidOps(Cancelling().gates)
    ensures g == GarbleRun(pi, r, Cancelling().gates, InitialLabels(3, 2, r, drawn))
    ensures Paired(g.wires[1], r) && g.wires[2] == g.wires[1] && |g.tables| == 2
  {
    var g0, g1 := Gate(XOR, 0, 0, 0), Gate(XOR, 0, 1, 2);
    var gates := Cancelling().gates;
    var start := InitialLabels(3, 2, r, drawn);
    assert gates == [g0] + [g1] && gates[..1] == [g0] && [g0][..0] == [];
    assert GarbleRun(pi, r, [], start) == GarbleState(start, [], 0);
    var s1 := GarbleRun(pi, r, [g0], start);
    XorCancel(start[0].l0, start[0].l0);
    assert s1.wires == start[0 := WireLabels(Zero(), Xor(Zero(), r))];
    g := GarbleRun(pi, r, gates, start);
    XorCancel(start[1].l0, r);
    assert g.wires[1] == start[1] && g.wires[2] == WireLabels(start[1].l0, Xor(start[1].l0, r));
  }

  lemma CancellingEvaluated(pi: Cipher, tables: seq<seq<Label>>, x: Label, y: Label)
    requires |tables| == 2
    ensures WiresBelow(Cancelling().gates, 3)
    ensures var e := EvalRun(pi, Cancelling().gates, tables, [x, y, Zero()]); e.Ok? && |e.value.wires| == 3 && e.value.wires[2] == y
  {
    var g0, g1 := Gate(XOR, 0, 0, 0), Gate(XOR, 0, 1, 2);
    var gates := Cancelling().gates;
    assert gates == [g0] + [g1] && gates[..1] == [g0] && [g0][..0] == [];
    var labels := [x, y, Zero()];
    assert EvalRun(pi, [], tables, labels) == Ok(EvalState(labels, 0));
    XorCancel(x, x);
    var e1 := EvalRun(pi, [g0], tables, labels);
    assert e1 == Ok(EvalState(labels[0 := Zero()], 0));
    XorCancel(y, y);
  }

  lemma CancellingDecodes(pi: Cipher, r: Label, drawn: seq<Label>, x: Label, b: bool)
    requires S(r) && |drawn| == 2
    ensures WiresBelow(Cancelling().gates, 3) && ValidOps(Cancelling().gates)
    ensures var g := GarbleRun(pi, r, Cancelling().gates, InitialLabels(3, 2, r, drawn));
            var e := EvalRun(pi, Cancelling().gates, g.tables, [x, LabelForBit(g.wires[1], b), Zero()]);
            e.Ok? && BitFromLabel(g.wires[2], e.value.wires[2]) == Bit(b)
  {
    hide GarbleRun, EvalRun, InitialLabels, Cancelling;
    var g := CancellingGarbled(pi, r, drawn);
    CancellingEvaluated(pi, g.tables, x, LabelForBit(g.wires[1], b));
    DecodeIsInverse(g.wires[2], r, b, LabelForBit(g.wires[1], b));
  }
}
