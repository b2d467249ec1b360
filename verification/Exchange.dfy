/** The nine messages of a session, one by one: under which key each is stored
    (ot/connection.go) and what it holds, from the parties' inputs and random
    sources (circuit/garbler.go, circuit/evaluator.go, ot/co.go). */
module Exchange {
  import opened Nat
  import opened Labels
  import opened Circuit
  import opened Garble
  import opened Transfer
  import opened Protocol

  /** Session, topic, sender 1 (garbler) or 2 (evaluator), receiver, and the
      sender's running number. */
  lemma KeysOfMessages(sid: nat)
    ensures IndexOf(sid, 0) == Index(sid, "ephemeral key", 1, 2, 1)
    ensures IndexOf(sid, 1) == Index(sid, "garbled gates", 1, 2, 2)
    ensures IndexOf(sid, 2) == Index(sid, "inputs", 1, 2, 3)
    ensures IndexOf(sid, 3) == Index(sid, "ot query", 2, 1, 1)
    ensures IndexOf(sid, 4) == Index(sid, "setup.Ax,Ay", 1, 2, 4)
    ensures IndexOf(sid, 5) == Index(sid, "co choices", 2, 1, 2)
    ensures IndexOf(sid, 6) == Index(sid, "ot ciphertexts", 1, 2, 5)
    ensures IndexOf(sid, 7) == Index(sid, "result labels", 2, 1, 3)
    ensures IndexOf(sid, 8) == Index(sid, "result", 1, 2, 6)
  {
    assert SentBefore(Role.G, 3) == 3 && SentBefore(Role.E, 3) == 0;
    assert SentBefore(Role.G, 6) == 4 && SentBefore(Role.E, 6) == 2;
  }

  /** When a session is finished, each message is under its key. */
  lemma FinishedStore<E(!new)>(cs: map<nat, Config<E>>, s: System<E>, sid: nat, m: nat)
    requires AllValid(cs) && Inv(cs, s) && sid in cs && Finished(s.sessions[sid]) && m < 9
    ensures IndexOf(sid, m) in s.store && s.store[IndexOf(sid, m)] == Message(cs[sid], m)
  {
    hide Valid, Message, IndexOf, PartyOk, SenderLeads;
    assert StoredOk(cs[sid], sid, s.sessions[sid], s.store, m);
  }

  // ----- From the random source to the labels -----

  /** The label of the bit on input wire `i`, as it is drawn: label 1 + i of the
      source, xored with the offset when the bit is set.  The offset is label 0 of
      the source with its first bit set. */
  predicate DrawnFor(rand: seq<Label>, i: nat, bit: bool, l: Label)
    requires |rand| > 1 + i
  {
    && l[0] == (rand[1 + i][0] != bit)
    && forall k :: 1 <= k < BITS ==> l[k] == (rand[1 + i][k] != (bit && rand[0][k]))
  }

  lemma DrawnLabels<E(!new)>(c: Config<E>, i: nat)
    requires Valid(c) && i < Size(c.circ.inputs) && !Written(c.circ.gates, i)
    ensures |c.rand| > 1 + i && i < |GarbledBy(c).wires|
    ensures forall bit :: DrawnFor(c.rand, i, bit, LabelForBit(GarbledBy(c).wires[i], bit))
  {
    hide Abelian, AllOnCurve, GarbleRun, ReadsKept, InOrder, OutputsAssigned;
    ValidRanges(c);
    var r := Offset(c);
    var wires := InitialLabels(c.circ.numWires, Size(c.circ.inputs), r, c.rand[1..]);
    InputLabelsSurvive(c.aes(c.key), r, c.circ.gates, wires, i);
    assert wires[i] == MakeLabels(c.rand[1 + i], r);
    assert forall k :: 1 <= k < BITS ==> r[k] == c.rand[0][k];
  }

  // ----- What the messages hold -----

  /** The garbler's messages before the transfer: the key, the rows, and the labels
      of the bits of x. */
  lemma GarblerSends<E(!new)>(c: Config<E>)
    requires Valid(c)
    ensures Message(c, 0) == EphemeralKey(c.key)
    ensures Message(c, 1) ==
              Tables(GarbleRun(c.aes(c.key), Offset(c), c.circ.gates, InitialLabels(c.circ.numWires, Size(c.circ.inputs), Offset(c), c.rand[1..])).tables)
    ensures Message(c, 2).Inputs? && |Message(c, 2).labels| == c.circ.inputs[0].bits
    ensures forall i :: 0 <= i < c.circ.inputs[0].bits && !Written(c.circ.gates, i) ==>
              i + 1 < |c.rand| && DrawnFor(c.rand, i, BitOf(c.x, i), Message(c, 2).labels[i])
  {
    hide Abelian, AllOnCurve, GarbleRun, ReadsKept, InOrder, OutputsAssigned, BitOf, DrawnFor, Written, InitialLabels;
    ValidRanges(c);
    forall i | 0 <= i < c.circ.inputs[0].bits && !Written(c.circ.gates, i)
      ensures i + 1 < |c.rand| && DrawnFor(c.rand, i, BitOf(c.x, i), Message(c, 2).labels[i])
    {
      DrawnLabels(c, i);
    }
  }

  /** The transfer: the wires asked for, the sender's point, and for every bit of y
      one point. */
  lemma TransferSends<E(!new)>(c: Config<E>)
    requires Valid(c)
    ensures Message(c, 3) == Query(c.circ.inputs[0].bits, c.circ.inputs[1].bits)
    ensures Message(c, 4) == Point(Scale(c.group, c.scalar, c.group.base))
    ensures Message(c, 5).Points? && |Message(c, 5).points| == c.circ.inputs[1].bits <= |c.scalars|
    ensures forall i :: 0 <= i < c.circ.inputs[1].bits ==>
              Message(c, 5).points[i] == Scale(c.group, if BitOf(c.y, i) then c.scalars[i] + c.scalar else c.scalars[i], c.group.base)
  {
    hide Abelian, AllOnCurve, Scale, ReadsKept, Runnable, BitOf;
    TransferredLabels(c);
    forall i | 0 <= i < c.circ.inputs[1].bits
      ensures Message(c, 5).points[i] == Scale(c.group, if BitOf(c.y, i) then c.scalars[i] + c.scalar else c.scalars[i], c.group.base)
    {
      PointIsScale(c.group, c.scalar, c.scalars[i], BitOf(c.y, i));
      assert Flags(c)[i] == BitOf(c.y, i);
    }
  }

  /** Both labels of a wire under their pads: those of a * n times the base and of
      that less a * a times the base. */
  ghost predicate UnderPads<E(!new)>(g: Group<E>, mask: Mask<E>, a: nat, n: nat, idx: nat, w: WireLabels, e: LabelCiphertext) {
    0 <= a * n && 0 <= a * a &&
    exists p :: g.add(p, Scale(g, a * a, g.base)) == Scale(g, a * n, g.base) && PadBits(mask(Scale(g, a * n, g.base), idx), w.l0, e.zero) && PadBits(mask(p, idx), w.l1, e.one)
  }

  predicate PadBits(pad: Label, l: Label, e: Label) {
    forall k :: 0 <= k < BITS ==> e[k] == (pad[k] != l[k])
  }

  /** The ciphertexts: one pair for every bit of y, of the labels of its wire. */
  lemma CiphertextsSent<E(!new)>(c: Config<E>)
    requires Valid(c)
    ensures Message(c, 6).Ciphertexts? && |Message(c, 6).data| == c.circ.inputs[1].bits <= |c.scalars|
    ensures c.circ.inputs[0].bits + c.circ.inputs[1].bits <= |GarbledBy(c).wires|
    ensures forall i :: 0 <= i < c.circ.inputs[1].bits ==>
              UnderPads(c.group, c.mask, c.scalar, if BitOf(c.y, i) then c.scalars[i] + c.scalar else c.scalars[i], i,
                        GarbledBy(c).wires[c.circ.inputs[0].bits + i], Message(c, 6).data[i])
  {
    hide Abelian, AllOnCurve, Scale, ReadsKept, Runnable, BitOf, GarbledBy, EncryptPair, UnderPads, OnCurve, ChoicePoint;
    ValidRanges(c);
    TransferredLabels(c);
    forall i | 0 <= i < c.circ.inputs[1].bits
      ensures UnderPads(c.group, c.mask, c.scalar, if BitOf(c.y, i) then c.scalars[i] + c.scalar else c.scalars[i], i,
                        GarbledBy(c).wires[c.circ.inputs[0].bits + i], Message(c, 6).data[i])
    {
      assert Flags(c)[i] == BitOf(c.y, i);
      assert IdealPoints(c)[i] == ChoicePoint(c.group, Setup(c).a, c.scalars[i], BitOf(c.y, i));
      PairUnderPads(c.group, c.mask, c.scalar, c.scalars[i], BitOf(c.y, i), i, EvaluatorPairs(c)[i]);
    }
  }

  lemma PairUnderPads<E(!new)>(g: Group<E>, mask: Mask<E>, a: nat, b: nat, bit: bool, idx: nat, w: WireLabels)
    requires Abelian(g)
    ensures var s := GenerateSetup(g, a);
            UnderPads(g, mask, a, if bit then b + a else b, idx, w, EncryptPair(g, mask, s, ChoicePoint(g, s.a, b, bit), idx, w))
  {
    hide Abelian, Scale, EncryptPair, ChoicePoint;
    var p := PairPads(g, mask, a, b, bit, idx, w);
  }

  /** The result: the label of every output bit, and the number of these bits. */
  lemma ResultSent<E(!new)>(c: Config<E>)
    requires Valid(c)
    ensures var n := Size(c.circ.outputs);
            && n <= c.circ.numWires == |GarbledBy(c).wires| && |OutputBits(c)| == n
            && Message(c, 7).ResultLabels? && |Message(c, 7).labels| == n
            && (forall j :: 0 <= j < n ==> Message(c, 7).labels[j] == LabelForBit(GarbledBy(c).wires[c.circ.numWires - n + j], OutputBits(c)[j]))
            && Message(c, 8).ResultBits? && Message(c, 8).value < Pow2(n)
            && forall j :: 0 <= j < n ==> BitOf(Message(c, 8).value, j) == OutputBits(c)[j]
  {
    hide Abelian, AllOnCurve, GarbledBy, ReadsKept, Runnable, BitOf, OutputBits, IdealLabels, FromBits, Evaluated, StartWires, BitFromLabel, Size, LabelForBit;
    ValidRanges(c);
    EvaluationWorks(c);
    FromBitsBound(OutputBits(c));
    forall j | 0 <= j < Size(c.circ.outputs)
      ensures Message(c, 7).labels[j] == LabelForBit(GarbledBy(c).wires[c.circ.numWires - Size(c.circ.outputs) + j], OutputBits(c)[j])
      ensures BitOf(Message(c, 8).value, j) == OutputBits(c)[j]
    {
      BitsOfNumber(OutputBits(c), j);
      LabelOfBit(OutputPairs(c)[j], IdealLabels(c)[j], OutputBits(c)[j]);
    }
  }

  lemma LabelOfBit(w: WireLabels, l: Label, bit: bool)
    requires BitFromLabel(w, l) == Labels.Bit(bit)
    ensures l == LabelForBit(w, bit)
  {
  }

  /** The values that both parties return are the numbers of the output bits, output
      by output. */
  lemma ResultsPlaced<E(!new)>(c: Config<E>)
    requires Valid(c)
    ensures Unloaded(c.circ.outputs, OutputBits(c), Computed(c))
  {
    hide OutputBits, SplitBits, Unloaded;
    OutputsUnloaded(c.circ.outputs, OutputBits(c));
  }
}
