/** Oblivious transfer of wire labels (ot/co_helpers.go).  The elliptic curve is
    any abelian group with a base point; the hash that turns a curve point and
    an index into a mask is any function. */
module Transfer {
  import opened Circuit
  import opened Labels

  datatype Group<!E> = Group(zero: E, base: E, add: (E, E) -> E, neg: E -> E)

  ghost predicate Abelian<E(!new)>(g: Group<E>) {
    && (forall x, y, z :: g.add(g.add(x, y), z) == g.add(x, g.add(y, z)))
    && (forall x, y :: g.add(x, y) == g.add(y, x))
    && (forall x :: g.add(x, g.zero) == x)
    && (forall x :: g.add(x, g.neg(x)) == g.zero)
  }

  type Mask<!E> = (E, nat) -> Label

  /** ScalarMult */
  function Scale<E>(g: Group<E>, n: nat, p: E): E {
    if n == 0 then g.zero else g.add(Scale(g, n - 1, p), p)
  }

  /** ensureOnCurve: the neutral element has no affine coordinates. */
  predicate OnCurve<E(==)>(g: Group<E>, p: E) {
    p != g.zero
  }

  datatype SenderSetup<E> = SenderSetup(scalar: nat, a: E, aaInv: E)

  datatype ChoiceBundle<E> = ChoiceBundle(a: E, scalars: seq<nat>, bits: seq<bool>)

  datatype LabelCiphertext = LabelCiphertext(zero: Label, one: Label)

  /** GenerateCOSenderSetup, for the scalar that was drawn. */
  function GenerateSetup<E>(g: Group<E>, a: nat): SenderSetup<E> {
    SenderSetup(a, Scale(g, a, g.base), g.neg(Scale(g, a, Scale(g, a, g.base))))
  }

  /** The point the receiver sends for one choice bit. */
  function ChoicePoint<E>(g: Group<E>, a: E, b: nat, bit: bool): E {
    if bit then g.add(Scale(g, b, g.base), a) else Scale(g, b, g.base)
  }

  /** Both labels of one wire under their masks. */
  function EncryptPair<E>(g: Group<E>, mask: Mask<E>, s: SenderSetup<E>, point: E, idx: nat, w: WireLabels): LabelCiphertext {
    var b := Scale(g, s.scalar, point);
    LabelCiphertext(Xor(mask(b, idx), w.l0), Xor(mask(g.add(b, s.aaInv), idx), w.l1))
  }

  function DecryptOne<E>(g: Group<E>, mask: Mask<E>, a: E, b: nat, bit: bool, idx: nat, c: LabelCiphertext): Label {
    Xor(mask(Scale(g, b, a), idx), if bit then c.one else c.zero)
  }

  /** What the receiver prepares, from its scalars and choice bits. */
  function ChoicesFor<E(==)>(g: Group<E>, a: E, bits: seq<bool>, rand: seq<nat>): Result<(ChoiceBundle<E>, seq<E>)> {
    if OnCurve(g, a) && |rand| >= |bits| then
      Ok((ChoiceBundle(a, rand[..|bits|], bits),
          seq(|bits|, i requires 0 <= i < |bits| => ChoicePoint(g, a, rand[i], bits[i]))))
    else Err
  }

  /** What the sender answers. */
  function CiphertextsFor<E(==)>(g: Group<E>, mask: Mask<E>, s: SenderSetup<E>, points: seq<E>, wires: seq<WireLabels>)
    : Result<seq<LabelCiphertext>>
  {
    if OnCurve(g, s.a) && |points| == |wires| && forall i :: 0 <= i < |points| ==> OnCurve(g, points[i]) then
      Ok(seq(|points|, i requires 0 <= i < |points| => EncryptPair(g, mask, s, points[i], i, wires[i])))
    else Err
  }

  /** What the receiver reads off the ciphertexts. */
  function PlaintextsFor<E>(g: Group<E>, mask: Mask<E>, c: ChoiceBundle<E>, data: seq<LabelCiphertext>): Result<seq<Label>> {
    if |c.scalars| == |c.bits| == |data| then
      Ok(seq(|data|, i requires 0 <= i < |data| => DecryptOne(g, mask, c.a, c.scalars[i], c.bits[i], i, data[i])))
    else Err
  }

  // ----- The three steps -----

  /** BuildCOChoices; `rand` is the random source, which may run out. */
  method BuildChoices<E(==)>(g: Group<E>, a: E, bits: seq<bool>, rand: seq<nat>) returns (r: Result<(ChoiceBundle<E>, seq<E>)>)
    ensures r == ChoicesFor(g, a, bits, rand)
  {
    if !OnCurve(g, a) {
      return Err;
    }
    var points, scalars := [], [];
    for idx := 0 to |bits|
      invariant idx <= |rand| && scalars == rand[..idx]
      invariant |points| == idx && forall i :: 0 <= i < idx ==> points[i] == ChoicePoint(g, a, rand[i], bits[i])
    {
      if idx >= |rand| {
        return Err;
      }
      var b := rand[idx];
      scalars := scalars + [b];
      var point := Scale(g, b, g.base);
      if bits[idx] {
        point := g.add(point, a);
      }
      points := points + [point];
    }
    assert points == ChoicesFor(g, a, bits, rand).value.1;
    return Ok((ChoiceBundle(a, scalars, bits), points));
  }

  /** EncryptCOCiphertexts */
  method Encrypt<E(==)>(g: Group<E>, mask: Mask<E>, s: SenderSetup<E>, points: seq<E>, wires: seq<WireLabels>)
    returns (r: Result<seq<LabelCiphertext>>)
    ensures r == CiphertextsFor(g, mask, s, points, wires)
  {
    if !OnCurve(g, s.a) || |points| != |wires| {
      return Err;
    }
    var result := [];
    for idx := 0 to |points|
      invariant |result| == idx
      invariant forall i :: 0 <= i < idx ==> OnCurve(g, points[i]) && result[i] == EncryptPair(g, mask, s, points[i], i, wires[i])
    {
      if !OnCurve(g, points[idx]) {
        return Err;
      }
      var b := Scale(g, s.scalar, points[idx]);
      var ba := g.add(b, s.aaInv);
      var mask0, mask1 := mask(b, idx), mask(ba, idx);
      result := result + [LabelCiphertext(Xor(mask0, wires[idx].l0), Xor(mask1, wires[idx].l1))];
    }
    assert result == CiphertextsFor(g, mask, s, points, wires).value;
    return Ok(result);
  }

  /** DecryptCOCiphertexts */
  method Decrypt<E>(g: Group<E>, mask: Mask<E>, bundle: ChoiceBundle<E>, data: seq<LabelCiphertext>) returns (r: Result<seq<Label>>)
    ensures r == PlaintextsFor(g, mask, bundle, data)
  {
    var count := |bundle.bits|;
    if |bundle.scalars| != count || |data| != count {
      return Err;
    }
    var result := [];
    for idx := 0 to count
      invariant |result| == idx
      invariant forall i :: 0 <= i < idx ==>
                  result[i] == DecryptOne(g, mask, bundle.a, bundle.scalars[i], bundle.bits[i], i, data[i])
    {
      var pad := mask(Scale(g, bundle.scalars[idx], bundle.a), idx);
      var cipher := if bundle.bits[idx] then data[idx].one else data[idx].zero;
      result := result + [Xor(pad, cipher)];
    }
    assert result == PlaintextsFor(g, mask, bundle, data).value;
    return Ok(result);
  }

  // ----- Why it works -----

  lemma AssocAt<E(!new)>(g: Group<E>, x: E, y: E, z: E)
    requires Abelian(g)
    ensures g.add(g.add(x, y), z) == g.add(x, g.add(y, z))
  {
  }

  lemma UnitAt<E(!new)>(g: Group<E>, x: E)
    requires Abelian(g)
    ensures g.add(x, g.zero) == x
  {
  }

  lemma {:induction false} ScaleAdd<E(!new)>(g: Group<E>, m: nat, n: nat, p: E)
    requires Abelian(g)
    ensures Scale(g, m + n, p) == g.add(Scale(g, m, p), Scale(g, n, p))
  {
    hide Abelian;
    if n == 0 {
      UnitAt(g, Scale(g, m, p));
    } else {
      ScaleAdd(g, m, n - 1, p);
      assert m + n - 1 == m + (n - 1);
      AssocAt(g, Scale(g, m, p), Scale(g, n - 1, p), p);
    }
  }

  lemma {:induction false} ScaleSum<E(!new)>(g: Group<E>, n: nat, p: E, q: E)
    requires Abelian(g)
    ensures Scale(g, n, g.add(p, q)) == g.add(Scale(g, n, p), Scale(g, n, q))
  {
    if n > 0 {
      ScaleSum(g, n - 1, p, q);
      Interchange(g, Scale(g, n - 1, p), Scale(g, n - 1, q), p, q);
    }
  }

  lemma Interchange<E(!new)>(g: Group<E>, x: E, y: E, p: E, q: E)
    requires Abelian(g)
    ensures g.add(g.add(x, y), g.add(p, q)) == g.add(g.add(x, p), g.add(y, q))
  {
    calc {
      g.add(g.add(x, y), g.add(p, q));
      g.add(x, g.add(y, g.add(p, q)));
      { assert g.add(y, g.add(p, q)) == g.add(g.add(y, p), q) == g.add(g.add(p, y), q) == g.add(p, g.add(y, q)); }
      g.add(x, g.add(p, g.add(y, q)));
      g.add(g.add(x, p), g.add(y, q));
    }
  }

  lemma {:induction false} ScaleSwap<E(!new)>(g: Group<E>, m: nat, n: nat, p: E)
    requires Abelian(g)
    ensures Scale(g, m, Scale(g, n, p)) == Scale(g, n, Scale(g, m, p))
    decreases n
  {
    hide Abelian;
    if n == 0 {
      ScaleZero(g, m);
    } else {
      ScaleSwap(g, m, n - 1, p);
      ScaleSum(g, m, Scale(g, n - 1, p), p);
    }
  }

  lemma {:induction false} ScaleZero<E(!new)>(g: Group<E>, n: nat)
    requires Abelian(g)
    ensures Scale(g, n, g.zero) == g.zero
  {
    if n > 0 {
      ScaleZero(g, n - 1);
    }
  }

  lemma {:induction false} ScaleProduct<E(!new)>(g: Group<E>, m: nat, n: nat, p: E)
    requires Abelian(g)
    ensures 0 <= m * n && Scale(g, m, Scale(g, n, p)) == Scale(g, m * n, p)
    decreases m
  {
    hide Abelian;
    if m > 0 {
      ScaleProduct(g, m - 1, n, p);
      assert m * n == (m - 1) * n + n;
      ScaleAdd(g, (m - 1) * n, n, p);
    }
  }

  /** The two ciphertexts, bit by bit: the labels under the pads of a * c times the
      base and of that less a * a times the base, where c is the receiver's scalar,
      plus the sender's when the bit is set. */
  lemma PairPads<E(!new)>(g: Group<E>, mask: Mask<E>, a: nat, b: nat, bit: bool, idx: nat, w: WireLabels) returns (p: E)
    requires Abelian(g)
    ensures var s, c := GenerateSetup(g, a), if bit then b + a else b;
            var e := EncryptPair(g, mask, s, ChoicePoint(g, s.a, b, bit), idx, w);
            && s.a == Scale(g, a, g.base) && 0 <= a * c && 0 <= a * a
            && g.add(p, Scale(g, a * a, g.base)) == Scale(g, a * c, g.base)
            && forall i :: 0 <= i < BITS ==>
                 && e.zero[i] == (mask(Scale(g, a * c, g.base), idx)[i] != w.l0[i])
                 && e.one[i] == (mask(p, idx)[i] != w.l1[i])
  {
    hide Scale, Abelian;
    var s, c := GenerateSetup(g, a), if bit then b + a else b;
    PointIsScale(g, a, b, bit);
    ScaleProduct(g, a, c, g.base);
    ScaleProduct(g, a, a, g.base);
    p := g.add(Scale(g, a * c, g.base), s.aaInv);
    Cancels(g, Scale(g, a * c, g.base), Scale(g, a * a, g.base));
  }

  lemma Cancels<E(!new)>(g: Group<E>, x: E, y: E)
    requires Abelian(g)
    ensures g.add(g.add(x, g.neg(y)), y) == x
  {
    assert g.add(g.add(x, g.neg(y)), y) == g.add(x, g.add(g.neg(y), y)) == g.add(x, g.add(y, g.neg(y)));
  }

  /** What the receiver reads: its ciphertext under the pad of a * b times the base. */
  lemma ChosenPad<E(!new)>(g: Group<E>, mask: Mask<E>, a: nat, b: nat, bit: bool, idx: nat, c: LabelCiphertext)
    requires Abelian(g)
    ensures 0 <= b * a
    ensures forall i :: 0 <= i < BITS ==>
              DecryptOne(g, mask, Scale(g, a, g.base), b, bit, idx, c)[i] ==
              (mask(Scale(g, b * a, g.base), idx)[i] != (if bit then c.one else c.zero)[i])
  {
    hide Scale, Abelian;
    ScaleProduct(g, b, a, g.base);
  }

  /** The receiver's point is on the curve unless its secret scalar, plus the
      sender's when the bit is set, is a multiple of the order of the base. */
  lemma PointIsScale<E(!new)>(g: Group<E>, a: nat, b: nat, bit: bool)
    requires Abelian(g)
    ensures ChoicePoint(g, Scale(g, a, g.base), b, bit) == Scale(g, if bit then b + a else b, g.base)
  {
    ScaleAdd(g, b, a, g.base);
  }

  /** The mask of the chosen label is the one the receiver can make. */
  lemma SharedPoint<E(!new)>(g: Group<E>, a: nat, b: nat, bit: bool)
    requires Abelian(g)
    ensures var s := GenerateSetup(g, a);
            var p := Scale(g, a, ChoicePoint(g, s.a, b, bit));
            (if bit then g.add(p, s.aaInv) else p) == Scale(g, b, s.a)
  {
    var big := Scale(g, a, g.base);
    ScaleSwap(g, a, b, g.base);
    if bit {
      ScaleSum(g, a, Scale(g, b, g.base), big);
      var x, y := Scale(g, a, Scale(g, b, g.base)), Scale(g, a, big);
      assert g.add(g.add(x, y), g.neg(y)) == g.add(x, g.add(y, g.neg(y)));
    }
  }

  /** One wire: the receiver gets L1 when its bit is set and L0 otherwise. */
  lemma OneTransfer<E(!new)>(g: Group<E>, mask: Mask<E>, a: nat, b: nat, bit: bool, idx: nat, w: WireLabels)
    requires Abelian(g)
    ensures var s := GenerateSetup(g, a);
            DecryptOne(g, mask, s.a, b, bit, idx, EncryptPair(g, mask, s, ChoicePoint(g, s.a, b, bit), idx, w))
            == LabelForBit(w, bit)
  {
    hide Scale;
    SharedPoint(g, a, b, bit);
    var s := GenerateSetup(g, a);
    var pad := mask(Scale(g, b, s.a), idx);
    XorComm(pad, LabelForBit(w, bit));
    XorComm(pad, Xor(LabelForBit(w, bit), pad));
    XorCancel(LabelForBit(w, bit), pad);
  }

  predicate AllOnCurve<E(==)>(g: Group<E>, a: nat, rand: seq<nat>, bits: seq<bool>) {
    && OnCurve(g, Scale(g, a, g.base))
    && |rand| >= |bits| && forall i :: 0 <= i < |bits| ==> OnCurve(g, Scale(g, if bits[i] then rand[i] + a else rand[i], g.base))
  }

  function ChosenLabels(wires: seq<WireLabels>, bits: seq<bool>): (labels: seq<Label>)
    requires |wires| == |bits|
    ensures |labels| == |bits|
  {
    seq(|bits|, i requires 0 <= i < |bits| => LabelForBit(wires[i], bits[i]))
  }

  /** Choices, ciphertexts and plaintexts one after the other. */
  function Transferred<E(==)>(g: Group<E>, mask: Mask<E>, a: nat, rand: seq<nat>, wires: seq<WireLabels>, bits: seq<bool>): Result<seq<Label>> {
    var s := GenerateSetup(g, a);
    var choices := ChoicesFor(g, s.a, bits, rand);
    if choices.Err? then Err
    else
      var sent := CiphertextsFor(g, mask, s, choices.value.1, wires);
      if sent.Err? then Err else PlaintextsFor(g, mask, choices.value.0, sent.value)
  }

  /** The whole transfer, for any scalars.  It fails exactly when a point that
      is sent is the neutral element, or the counts do not match; otherwise the
      receiver holds at every index exactly the label of its bit. */
  lemma TransferWorks<E(!new)>(g: Group<E>, mask: Mask<E>, a: nat, rand: seq<nat>, wires: seq<WireLabels>, bits: seq<bool>)
    requires Abelian(g)
    ensures var r := Transferred(g, mask, a, rand, wires, bits);
            if |wires| == |bits| && AllOnCurve(g, a, rand, bits) then r == Ok(ChosenLabels(wires, bits)) else r == Err
  {
    hide Scale, Abelian, EncryptPair, DecryptOne;
    var s := GenerateSetup(g, a);
    var choices := ChoicesFor(g, s.a, bits, rand);
    if choices.Ok? {
      var points := choices.value.1;
      forall i | 0 <= i < |bits| ensures points[i] == Scale(g, if bits[i] then rand[i] + a else rand[i], g.base) {
        PointIsScale(g, a, rand[i], bits[i]);
      }
      var sent := CiphertextsFor(g, mask, s, points, wires);
      if sent.Ok? {
        forall i | 0 <= i < |bits|
          ensures DecryptOne(g, mask, s.a, rand[i], bits[i], i, sent.value[i]) == LabelForBit(wires[i], bits[i])
        {
          OneTransfer(g, mask, a, rand[i], bits[i], i, wires[i]);
        }
        assert PlaintextsFor(g, mask, choices.value.0, sent.value).value == ChosenLabels(wires, bits);
      }
    }
  }
}
