/** Wire labels (ot/label.go) and the bit decoding of circuit/helpers.go.

    The source keeps a label as two 64-bit words; here it is the one 128-bit
    string they form, most significant bit first, so that the
    point-and-permute bit S is element 0. */
module Labels {
  import opened Nat

  const BITS := 128
  const TWEAK_MOD := 0x1_0000_0000

  type Label = l: seq<bool> | |l| == BITS witness seq(BITS, i => false)

  /** The labels that stand for 0 and for 1 on one garbled wire. */
  datatype WireLabels = WireLabels(l0: Label, l1: Label)

  function Zero(): (z: Label)
    ensures forall i :: 0 <= i < BITS ==> !z[i]
  {
    seq(BITS, i => false)
  }
  function NoLabels(): WireLabels {
    WireLabels(Zero(), Zero())
  }


  /** The tweak counter is a uint32: it sits in the low 32 bits. */
  function Tweak(t: nat): Label {
    seq(BITS, i requires 0 <= i => i >= 96 && i < BITS && (t / Pow2(BITS - 1 - i)) % 2 == 1)
  }

  predicate S(l: Label) {
    l[0]
  }

  function SetS(l: Label, on: bool): Label {
    l[0 := on]
  }

  function Mul2(l: Label): Label {
    l[1..] + [false]
  }

  function Mul4(l: Label): Label {
    l[2..] + [false, false]
  }

  function Xor(a: Label, b: Label): (x: Label)
    ensures forall i :: 0 <= i < BITS ==> x[i] == (a[i] != b[i])
  {
    seq(BITS, i requires 0 <= i < BITS => a[i] != b[i])
  }

  /** The two labels of a wire differ by the global offset `r`. */
  predicate Paired(w: WireLabels, r: Label) {
    w.l1 == Xor(w.l0, r)
  }

  /** The label that stands for `bit` on a wire. */
  function LabelForBit(w: WireLabels, bit: bool): Label {
    if bit then w.l1 else w.l0
  }

  datatype Decoded = Bit(value: bool) | UnknownLabel

  function BitFromLabel(w: WireLabels, l: Label): Decoded {
    if l == w.l0 then Bit(false)
    else if l == w.l1 then Bit(true)
    else UnknownLabel
  }

  lemma XorComm(a: Label, b: Label)
    ensures Xor(a, b) == Xor(b, a)
  {
  }

  lemma XorCancel(a: Label, b: Label)
    ensures Xor(Xor(a, b), b) == a
    ensures Xor(Zero(), a) == a == Xor(a, Zero())
    ensures Xor(a, a) == Zero()
  {
  }

  /** A label decodes to a bit exactly when it is the label chosen for that
      bit: the offset has its S bit set, so the two labels are different. */
  lemma DecodeIsInverse(w: WireLabels, r: Label, bit: bool, l: Label)
    requires Paired(w, r) && S(r)
    ensures BitFromLabel(w, l) == Bit(bit) <==> l == LabelForBit(w, bit)
  {
    assert w.l1[0] != w.l0[0];
  }
}
