/** Array element selection (compiler/circuits/circ_index.go). */
module Index {
  import opened Nat
  import opened Circuit
  import opened Graph
  import opened Compiler
  import opened Mux

  /** Element `j` of an items of `size`-bit elements, and 0 beyond its end. */
  function Element(asg: Asg, items: seq<nat>, size: nat, j: nat): nat
    requires size > 0
  {
    if |items| < size then 0
    else if j == 0 then Num(asg, items[..size])
    else Element(asg, items[size..], size, j - 1)
  }

  /** The items holds `n` elements. */
  predicate Elements(items: seq<nat>, size: nat, n: nat) {
    |items| == n * size
  }

  lemma Steps(n: nat, m: nat, size: nat)
    requires m <= n
    ensures n * size == m * size + (n - m) * size && m * size <= n * size
  {
  }

  lemma CountElements(items: seq<nat>, size: nat, n: nat)
    requires size > 0
    ensures Elements(items, size, n) ==> |items| / size == n && |items| % size == 0
    ensures |items| % size == 0 ==> Elements(items, size, |items| / size)
  {
    if Elements(items, size, n) {
      DivModUnique(|items|, size, n, 0);
    }
    DivModDef(|items|, size);
  }

  lemma {:induction false} DropElements(asg: Asg, items: seq<nat>, size: nat, n: nat, m: nat, j: nat)
    requires size > 0 && Elements(items, size, n) && m <= n && m * size <= |items|
    ensures Element(asg, items, size, m + j) == Element(asg, items[m * size..], size, j)
    decreases m
  {
    hide Num;
    if m == 0 {
      assert items[0..] == items;
    } else {
      Steps(n, m, size);
      Steps(n, 1, size);
      Steps(m, 1, size);
      DropElements(asg, items[size..], size, n - 1, m - 1, j);
      assert items[size..][(m - 1) * size..] == items[m * size..];
    }
  }

  lemma {:induction false} TakeElements(asg: Asg, items: seq<nat>, size: nat, n: nat, m: nat, j: nat)
    requires size > 0 && Elements(items, size, n) && j < m <= n && m * size <= |items|
    ensures Element(asg, items[..m * size], size, j) == Element(asg, items, size, j)
    decreases j
  {
    hide Num;
    Steps(n, m, size);
    Steps(n, 1, size);
    Steps(m, 1, size);
    if j == 0 {
      assert items[..m * size][..size] == items[..size];
    } else {
      TakeElements(asg, items[size..], size, n - 1, m - 1, j - 1);
      assert items[..m * size][size..] == items[size..][..(m - 1) * size];
    }
  }

  lemma {:induction false} BeyondElements(asg: Asg, items: seq<nat>, size: nat, n: nat, j: nat)
    requires size > 0 && Elements(items, size, n) && n <= j
    ensures Element(asg, items, size, j) == 0
    decreases n
  {
    hide Num;
    if n > 0 {
      Steps(n, 1, size);
      BeyondElements(asg, items[size..], size, n - 1, j - 1);
    }
  }

  /** The number on the low `m` index wires, or on all of them if there are
      fewer. */
  function LowIndex(asg: Asg, index: seq<nat>, m: nat): nat {
    Num(asg, index[..Min(m, |index|)])
  }

  lemma LowIndexStep(asg: Asg, index: seq<nat>, m: nat)
    ensures m < |index| ==> LowIndex(asg, index, m + 1) == LowIndex(asg, index, m) + B(asg, index[m]) * Pow2(m)
    ensures m >= |index| ==> LowIndex(asg, index, m + 1) == LowIndex(asg, index, m)
    ensures LowIndex(asg, index, m) < Pow2(m)
  {
    hide Num, Pow2;
    if m < |index| {
      NumSnoc(asg, index, m);
    }
    NumBound(asg, index[..Min(m, |index|)]);
    Pow2Mono(Min(m, |index|), m);
  }

  lemma LowIndexMod(asg: Asg, index: seq<nat>, m: nat)
    ensures LowIndex(asg, index, m) == Num(asg, index) % Pow2(m)
  {
    hide Num, Pow2;
    if m <= |index| {
      NumTake(asg, index, m);
    } else {
      assert index[..|index|] == index;
      NumBound(asg, index);
      Pow2Mono(|index|, m);
      ModSmall(Num(asg, index), Pow2(m));
    }
  }

  /** Wires `out` hold the element that the low `m` index bits select. */
  predicate Selected(asg: Asg, items: seq<nat>, size: nat, index: seq<nat>, m: nat, out: seq<nat>)
    requires size > 0
  {
    Num(asg, out) == Element(asg, items, size, LowIndex(asg, index, m))
  }

  /** Both halves of the items selected, and the top index bit picks one. */
  lemma SelectHalf(asg: Asg, items: seq<nat>, size: nat, n: nat, length: nat, index: seq<nat>, bit: nat,
                   lower: seq<nat>, upper: seq<nat>, f: seq<nat>, t: seq<nat>, out: seq<nat>)
    requires size > 0 && Elements(items, size, n) && 0 < n && length == Pow2(bit) && bit < |index|
    requires lower == LowerHalf(items, size, n, length) && Selected(asg, lower, size, index, bit, f)
    requires upper == UpperHalf(items, size, n, length)
    requires if n > length then Selected(asg, upper, size, index, bit, t) else Num(asg, t) == 0
    requires Num(asg, out) == if index[bit] in asg then Num(asg, t) else Num(asg, f)
    ensures Selected(asg, items, size, index, bit + 1, out)
  {
    hide Num, Pow2, Element, Elements;
    LowIndexStep(asg, index, bit);
    var j := LowIndex(asg, index, bit);
    LowerElements(asg, items, size, n, length, j);
    if n > length {
      UpperElements(asg, items, size, n, length, j);
    } else {
      BeyondElements(asg, items, size, n, length + j);
    }
  }

  function LowerHalf(items: seq<nat>, size: nat, n: nat, length: nat): seq<nat> {
    if n > length && length * size <= |items| then items[..length * size] else items
  }

  function UpperHalf(items: seq<nat>, size: nat, n: nat, length: nat): seq<nat> {
    if n > length && length * size <= |items| then items[length * size..] else []
  }

  lemma LowerElements(asg: Asg, items: seq<nat>, size: nat, n: nat, length: nat, j: nat)
    requires size > 0 && Elements(items, size, n) && j < length
    ensures Element(asg, LowerHalf(items, size, n, length), size, j) == Element(asg, items, size, j)
    ensures Elements(LowerHalf(items, size, n, length), size, Min(n, length))
  {
    hide Num;
    if n > length {
      Steps(n, length, size);
      TakeElements(asg, items, size, n, length, j);
    }
  }

  lemma UpperElements(asg: Asg, items: seq<nat>, size: nat, n: nat, length: nat, j: nat)
    requires size > 0 && Elements(items, size, n) && n > length
    ensures Element(asg, UpperHalf(items, size, n, length), size, j) == Element(asg, items, size, length + j)
    ensures Elements(UpperHalf(items, size, n, length), size, n - length)
  {
    hide Num;
    Steps(n, length, size);
    DropElements(asg, items, size, n, length, j);
  }

  /** With too few index bits only the lower half can be selected. */
  lemma SelectLower(asg: Asg, items: seq<nat>, size: nat, n: nat, length: nat, index: seq<nat>, bit: nat, out: seq<nat>)
    requires size > 0 && Elements(items, size, n) && length == Pow2(bit) && bit >= |index|
    requires Selected(asg, LowerHalf(items, size, n, length), size, index, bit, out)
    ensures Selected(asg, items, size, index, bit + 1, out)
  {
    hide Num, Pow2, Element, Elements;
    LowIndexStep(asg, index, bit);
    LowerElements(asg, items, size, n, length, LowIndex(asg, index, bit));
  }

  /** The bottom of the tree: one index bit and one or two elements. */
  lemma SelectLeaf(asg: Asg, items: seq<nat>, size: nat, n: nat, index: seq<nat>, t: seq<nat>, out: seq<nat>)
    requires size > 0 && Elements(items, size, n) && 0 < n <= 2 && |index| > 0 && size <= |items|
    requires if n > 1 then 2 * size <= |items| && t == items[size..2 * size] else Num(asg, t) == 0
    requires Num(asg, out) == if index[0] in asg then Num(asg, t) else Num(asg, items[..size])
    ensures Selected(asg, items, size, index, 1, out)
  {
    hide Num;
    LowIndexStep(asg, index, 0);
    assert index[..0] == [];
    NumLow(asg, []);
    assert LowIndex(asg, index, 1) == B(asg, index[0]);
    if index[0] in asg {
      assert Element(asg, items, size, 1) == Element(asg, items[size..], size, 0);
      if n > 1 {
        assert items[size..][..size] == t;
      } else {
        BeyondElements(asg, items, size, n, 1);
      }
    }
  }

  lemma LeafWidth(items: seq<nat>, size: nat, n: nat)
    requires Elements(items, size, n) && n > 0
    ensures size <= |items| && (n > 1 ==> 2 * size <= |items|)
  {
    Steps(n, 1, size);
    if n > 1 {
      Steps(n, 2, size);
    }
  }

  /** A whole number of elements, at least one and at most `length`. */
  predicate Sized(items: seq<nat>, size: nat, length: nat) {
    size > 0 && |items| % size == 0 && 0 < |items| / size <= length
  }

  /** newIndex: selects among at most `length` elements by the index bits from
      `bit` down; fails when the output has not the size of an element. */
  method SelectTree(cc: Compiler, bit: nat, length0: nat, size: nat, items: seq<nat>, index: seq<nat>, def: seq<nat>, out: seq<nat>)
    returns (ok: bool)
    requires cc.G().Built() && cc.G().AllDriven(items) && cc.G().AllDriven(index) && cc.G().AllDriven(def) && cc.G().Free(out)
    requires 0 < size == |def| && |index| > 0 && length0 == Pow2(bit + 1)
    requires Sized(items, size, length0)
    requires forall asg :: Sat(cc.table, asg) ==> AllLow(asg, def)
    modifies cc
    ensures ok <==> |out| == size
    ensures cc.G().Built() && Grows(old(cc.G()), cc.G(), if ok then SetOf(out) else {}) && (ok ==> cc.G().AllDriven(out))
    ensures ok ==> forall asg :: Sat(cc.table, asg) ==> Selected(asg, items, size, index, bit + 1, out)
    decreases bit, 0
  {
    hide State.Built, Sat, Num, State.Driven, Grows, Selected, State.Open, State.Free, AllLow, Element, Elements, Sized;
    ghost var s0 := cc.G();
    var n := |items| / size;
    CountSized(items, size, length0);
    if bit == 0 {
      assert length0 == 2 * Pow2(0) == 2;
      ok := SelectLast(cc, size, items, index, def, out);
      return;
    }
    var length := length0 / 2;
    HalfCount(items, size, n, length);
    var fArray := if n > length then items[..length * size] else items;
    if bit >= |index| {
      ok := SelectTree(cc, bit - 1, length, size, fArray, index, def, out);
      if ok {
        forall asg | Sat(cc.table, asg) ensures Selected(asg, items, size, index, bit + 1, out) {
          SelectLower(asg, items, size, n, length, index, bit, out);
        }
      }
      return;
    }
    var f, t := SelectHalves(cc, bit, length, size, items, index, def, n, fArray);
    ghost var s1 := cc.G();
    KeepsFree(s0, s1, {}, out);
    KeepAll(s0, s1, index);
    assert s1.AllDriven(index[bit..bit + 1]) by { hide *; PartDriven(s1, index, bit); }
    ok := NewMUX(cc, index[bit..bit + 1], t, f, out);
    GrowsWiden(s0, s1, if ok then SetOf(out) else {});
    GrowsTrans(s0, s1, cc.G(), if ok then SetOf(out) else {}, if ok then SetOf(out) else {});
    TableGrows(s1, cc.G(), if ok then SetOf(out) else {});
    if ok {
      forall asg | Sat(cc.table, asg) ensures Selected(asg, items, size, index, bit + 1, out) {
        SatPrefix(s1.table, cc.table, asg);
        assert index[bit..bit + 1][0] == index[bit];
        SelectHalf(asg, items, size, n, length, index, bit, fArray, UpperHalf(items, size, n, length), f, t, out);
      }
    }
  }

  lemma PartDriven(s: State, index: seq<nat>, bit: nat)
    requires s.AllDriven(index) && bit < |index|
    ensures s.AllDriven(index[bit..bit + 1])
  {
  }

  lemma TableGrows(s: State, t: State, outs: set<nat>)
    requires Grows(s, t, outs)
    ensures s.table <= t.table
  {
  }

  lemma HalfCount(items: seq<nat>, size: nat, n: nat, length: nat)
    requires size > 0 && Elements(items, size, n) && 0 < n <= 2 * length
    ensures n > length ==> length * size <= |items|
    ensures Sized(LowerHalf(items, size, n, length), size, length)
    ensures n > length ==> Sized(UpperHalf(items, size, n, length), size, length)
  {
    if n > length {
      Steps(n, length, size);
      CountElements(UpperHalf(items, size, n, length), size, n - length);
    }
    CountElements(LowerHalf(items, size, n, length), size, Min(n, length));
  }

  lemma CountSized(items: seq<nat>, size: nat, length: nat)
    requires Sized(items, size, length)
    ensures var n := |items| / size; Elements(items, size, n) && 0 < n <= length
  {
    CountElements(items, size, 0);
  }

  /** One index bit chooses between the first element and the second, or the
      default when there is no second. */
  method SelectLast(cc: Compiler, size: nat, items: seq<nat>, index: seq<nat>, def: seq<nat>, out: seq<nat>) returns (ok: bool)
    requires cc.G().Built() && cc.G().AllDriven(items) && cc.G().AllDriven(index) && cc.G().AllDriven(def) && cc.G().Free(out)
    requires 0 < size == |def| && |index| > 0
    requires Sized(items, size, 2)
    requires forall asg :: Sat(cc.table, asg) ==> AllLow(asg, def)
    modifies cc
    ensures ok <==> |out| == size
    ensures cc.G().Built() && Grows(old(cc.G()), cc.G(), if ok then SetOf(out) else {}) && (ok ==> cc.G().AllDriven(out))
    ensures ok ==> forall asg :: Sat(cc.table, asg) ==> Selected(asg, items, size, index, 1, out)
  {
    hide State.Built, Sat, Num, State.Driven, Grows, Selected, State.Free, AllLow, Element, Elements, Sized;
    ghost var s0 := cc.G();
    var n := |items| / size;
    CountSized(items, size, 2);
    LeafWidth(items, size, n);
    var fVal := items[..size];
    var tVal := if n > 1 then items[size..2 * size] else def;
    assert s0.AllDriven(fVal) && s0.AllDriven(tVal) && s0.AllDriven(index[0..1]);
    ok := NewMUX(cc, index[0..1], tVal, fVal, out);
    if ok {
      TableGrows(s0, cc.G(), SetOf(out));
      forall asg | Sat(cc.table, asg) ensures Selected(asg, items, size, index, 1, out) {
        SatPrefix(s0.table, cc.table, asg);
        if n <= 1 {
          NumLow(asg, def);
        }
        assert index[0..1][0] == index[0];
        SelectLeaf(asg, items, size, n, index, tVal, out);
      }
    }
  }

  /** Selects in the lower half and, when there is one, in the upper half. */
  method SelectHalves(cc: Compiler, bit: nat, length: nat, size: nat, items: seq<nat>, index: seq<nat>, def: seq<nat>,
                      n: nat, fArray: seq<nat>) returns (f: seq<nat>, t: seq<nat>)
    requires cc.G().Built() && cc.G().AllDriven(items) && cc.G().AllDriven(index) && cc.G().AllDriven(def)
    requires 0 < size == |def| && |index| > 0 && bit > 0 && length == Pow2(bit)
    requires Elements(items, size, n) && 0 < n <= 2 * length && fArray == LowerHalf(items, size, n, length)
    requires forall asg :: Sat(cc.table, asg) ==> AllLow(asg, def)
    modifies cc
    ensures cc.G().Built() && Grows(old(cc.G()), cc.G(), {}) && cc.G().AllDriven(f) && cc.G().AllDriven(t)
    ensures |f| == size == |t|
    ensures forall asg :: Sat(cc.table, asg) ==> Selected(asg, fArray, size, index, bit, f)
    ensures forall asg :: Sat(cc.table, asg) ==>
              if n > length then Selected(asg, UpperHalf(items, size, n, length), size, index, bit, t) else Num(asg, t) == 0
    decreases bit - 1, 2
  {
    hide State.Built, Sat, Num, State.Driven, Grows, Selected, State.Open, State.Free, AllLow, Element, Elements, Sized;
    ghost var s0 := cc.G();
    HalfCount(items, size, n, length);
    PartsDriven(s0, items, size, n, length);
    f := SelectFresh(cc, bit, length, size, fArray, index, def);
    ghost var s1 := cc.G();
    KeepAll(s0, s1, items, index, def);
    if n > length {
      var tArray := items[length * size..];
      PartsDriven(s1, items, size, n, length);
      forall asg | Sat(cc.table, asg) ensures AllLow(asg, def) {
        SatPrefix(s0.table, cc.table, asg);
      }
      t := SelectFresh(cc, bit, length, size, tArray, index, def);
      KeepAll(s1, cc.G(), f);
      GrowsTrans(s0, s1, cc.G(), {}, {});
      forall asg | Sat(cc.table, asg) ensures Selected(asg, fArray, size, index, bit, f) {
        SatPrefix(s1.table, cc.table, asg);
      }
    } else {
      t := def;
      forall asg | Sat(cc.table, asg) ensures Num(asg, t) == 0 {
        SatPrefix(s0.table, cc.table, asg);
        NumLow(asg, def);
      }
    }
  }

  lemma PartsDriven(s: State, items: seq<nat>, size: nat, n: nat, length: nat)
    requires s.AllDriven(items)
    ensures s.AllDriven(LowerHalf(items, size, n, length)) && s.AllDriven(UpperHalf(items, size, n, length))
  {
  }

  method SelectFresh(cc: Compiler, bit: nat, length: nat, size: nat, items: seq<nat>, index: seq<nat>, def: seq<nat>)
    returns (v: seq<nat>)
    requires cc.G().Built() && cc.G().AllDriven(items) && cc.G().AllDriven(index) && cc.G().AllDriven(def)
    requires 0 < size == |def| && |index| > 0 && bit > 0 && length == Pow2(bit)
    requires Sized(items, size, length)
    requires forall asg :: Sat(cc.table, asg) ==> AllLow(asg, def)
    modifies cc
    ensures cc.G().Built() && Grows(old(cc.G()), cc.G(), {}) && cc.G().AllDriven(v) && |v| == size
    ensures forall asg :: Sat(cc.table, asg) ==> Selected(asg, items, size, index, bit, v)
    decreases bit - 1, 1
  {
    hide State.Built, Sat, Num, State.Driven, Grows, Selected, State.Open, State.Free, AllLow, Element, Pow2, Sized;
    ghost var s0 := cc.G();
    var ws := NewWires(cc, size);
    ghost var s1 := cc.G();
    KeepAll(s0, s1, items, index, def);
    forall asg | Sat(cc.table, asg) ensures AllLow(asg, def) {
      SatPrefix(s0.table, cc.table, asg);
    }
    v := ws[..];
    var ok := SelectTree(cc, bit - 1, length, size, items, index, def, v);
    GrowsFresh(s0, s1, cc.G(), v);
  }

  /** The smallest power of two, at least 2, that covers `n` elements, and how
      many index bits it takes. */
  method TreeSize(n: nat) returns (bits: nat, length: nat)
    ensures bits >= 1 && length == Pow2(bits) && n <= length
    ensures bits > 1 ==> Pow2(bits - 1) < n
  {
    bits, length := 1, 2;
    assert Pow2(1) == 2 * Pow2(0);
    while length < n
      invariant bits >= 1 && length == Pow2(bits)
      invariant bits > 1 ==> Pow2(bits - 1) < n
      decreases n - length
    {
      bits, length := bits + 1, length * 2;
    }
  }

  /** The number of index bits that are used for `n` elements. */
  predicate TreeBits(n: nat, bits: nat) {
    bits >= 1 && n <= Pow2(bits) && (bits > 1 ==> Pow2(bits - 1) < n)
  }

  /** Selects element index mod 2^bits of the items, or zeros when there is no
      such element; refuses an items that is not made of whole elements and an
      output that is too small, and also one that is too large. */
  method NewIndex(cc: Compiler, size: nat, items: seq<nat>, index: seq<nat>, out: array<nat>) returns (ok: bool)
    requires cc.G().Built() && cc.G().AllDriven(items) && cc.G().AllDriven(index) && cc.G().Free(out[..])
    requires size > 0 && |index| > 0
    modifies cc, out
    ensures ok <==> |items| % size == 0 && if items == [] then out.Length >= size else out.Length == size
    ensures cc.G().Built() && Grows(old(cc.G()), cc.G(), if ok then SetOf(old(out[..])) else {})
    ensures ok ==> cc.G().AllDriven(out[..])
    ensures items != [] ==> out[..] == old(out[..])
    ensures ok ==> forall asg, bits :: Sat(cc.table, asg) && TreeBits(|items| / size, bits) ==>
              Num(asg, out[..]) == Element(asg, items, size, Num(asg, index) % Pow2(bits))
  {
    hide State.Built, Sat, Num, State.Driven, Grows, Selected, State.Open, State.Free, AllLow, Element, TreeBits, Elements;
    ghost var s0, outs := cc.G(), SetOf(out[..]);
    GrowsRefl(s0);
    if |items| % size != 0 || out.Length < size {
      WholeElements(items, size);
      return false;
    }
    WholeElements(items, size);
    var n := |items| / size;
    if n == 0 {
      assert out[..0] == [];
      EmptyDriven(cc.G());
      ZeroFill(cc, out, 0);
      GrowsWiden(s0, cc.G(), outs);
      forall asg, bits | Sat(cc.table, asg) && TreeBits(n, bits)
        ensures Num(asg, out[..]) == Element(asg, items, size, Num(asg, index) % Pow2(bits))
      {
        assert out[0..] == out[..];
        NumLow(asg, out[..]);
        BeyondElements(asg, items, size, 0, Num(asg, index) % Pow2(bits));
      }
      return true;
    }
    var bits, length := TreeSize(n);
    EmptyDriven(cc.G());
    var def := cc.Extend([], size);
    ghost var s1 := cc.G();
    KeepAll(s0, s1, items, index);
    KeepsFree(s0, s1, {}, out[..]);
    assert def[0..] == def;
    ok := SelectTree(cc, bits - 1, length, size, items, index, def, out[..]);
    GrowsWiden(s0, s1, if ok then outs else {});
    GrowsTrans(s0, s1, cc.G(), if ok then outs else {}, if ok then outs else {});
    forall asg, b | ok && Sat(cc.table, asg) && TreeBits(n, b)
      ensures Num(asg, out[..]) == Element(asg, items, size, Num(asg, index) % Pow2(b))
    {
      TreeBitsUnique(n, bits, b);
      UseSelected(asg, items, size, index, bits, out[..]);
    }
  }

  lemma EmptyDriven(s: State)
    ensures s.AllDriven([])
  {
  }

  lemma WholeElements(items: seq<nat>, size: nat)
    requires size > 0
    ensures |items| % size == 0 ==> (|items| / size == 0 <==> items == []) && Elements(items, size, |items| / size)
  {
    CountElements(items, size, 0);
  }

  lemma TreeBitsUnique(n: nat, b: nat, c: nat)
    requires TreeBits(n, b) && TreeBits(n, c)
    ensures b == c
  {
    if b < c {
      Pow2Mono(b, c - 1);
    } else if c < b {
      Pow2Mono(c, b - 1);
    }
  }

  lemma UseSelected(asg: Asg, items: seq<nat>, size: nat, index: seq<nat>, m: nat, out: seq<nat>)
    requires size > 0 && Selected(asg, items, size, index, m, out)
    ensures Num(asg, out) == Element(asg, items, size, Num(asg, index) % Pow2(m))
  {
    LowIndexMod(asg, index, m);
  }
}
