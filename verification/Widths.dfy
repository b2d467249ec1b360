/** Instructions on operands of different widths.  A literal has 32 or 64 bits
    (compiler/ssa/generator.go) and meets values of any width unchanged
    (compiler/ast/ssagen.go), and the generators extend the narrower operand by
    zeros whatever its type.  So a signed instruction means what its operands say
    exactly when the narrower one is not negative. */
module Widths {
  import opened Nat
  import opened Division
  import opened SignedDivider
  import opened Subtractor
  import opened Ssa

  // ----- What an operand says and what the circuit takes -----

  /** The signed value of an operand's own bits. */
  function Own(u: seq<bool>): int {
    NumberOf(u, true)
  }

  /** Its signed value after it was extended to the width of the other one. */
  function Taken(u: seq<bool>, w: nat): int
    requires |u| <= w
  {
    NumberOf(Fit(u, w, false), true)
  }

  /** The value survives exactly when there is nothing to extend or the sign bit
      is clear; a phi extends the value it chooses in this way, too. */
  lemma TakenIsOwn(u: seq<bool>, w: nat)
    requires 0 < |u| <= w
    ensures Taken(u, w) == Own(u) <==> |u| == w || Own(u) >= 0
    ensures Taken(u, w) == if |u| == w then Own(u) else FromBits(u)
    ensures FromBits(Fit(u, w, false)) == FromBits(u)
  {
    hide FromBits;
    OwnRange(u);
    if |u| == w {
      assert Fit(u, w, false) == u;
    } else {
      PaddedNumber(u, w);
      Pow2Mono(|u|, w - 1);
    }
  }

  lemma OwnRange(u: seq<bool>)
    requires |u| > 0
    ensures var p := Pow2(|u| - 1);
            && Pow2(|u|) == 2 * p && 0 - p <= Own(u) < p && FromBits(u) < 2 * p
            && FromBits(u) == if Own(u) < 0 then Own(u) + 2 * p else Own(u)
  {
    hide FromBits;
    FromBitsBound(u);
  }

  /** The number of the low bits of an integer. */
  lemma {:induction false} NumberOfToBits(v: int, n: nat)
    ensures FromBits(ToBits(v, n)) == v % Pow2(n)
  {
    if n > 0 {
      NumberOfToBits(v, n - 1);
      assert ToBits(v, n)[..n - 1] == ToBits(v, n - 1);
      var p := Pow2(n - 1);
      DivModDef(v, p);
      var q, e := v / p, v / p % 2;
      assert p * q == 2 * p * (q / 2) + e * p by {
        assert q == 2 * (q / 2) + e;
        MulDist(p, 2 * (q / 2), e);
        MulAssoc(p, 2, q / 2);
      }
      DivModUnique(v, 2 * p, q / 2, v % p + e * p);
    }
  }

  /** The w-bit operand of signed value `v`. */
  lemma OwnToBits(v: int, w: nat)
    requires w > 0 && 0 - Pow2(w - 1) <= v < Pow2(w - 1)
    ensures Own(ToBits(v, w)) == v
    ensures FromBits(ToBits(v, w)) == if v < 0 then v + Pow2(w) else v
  {
    hide FromBits, ToBits;
    NumberOfToBits(v, w);
    SignedOfMod(v, w);
    OwnRange(ToBits(v, w));
  }

  lemma SameBits(x: int, y: int, n: nat)
    ensures ToBits(x, n) == ToBits(y, n) <==> Cong(x, y, Pow2(n))
  {
    hide FromBits, BitOf;
    NumberOfToBits(x, n);
    NumberOfToBits(y, n);
    if Cong(x, y, Pow2(n)) {
      forall i | 0 <= i < n ensures BitOf(x, i) == BitOf(y, i) {
        BitOfMod(x, n, i);
        BitOfMod(y, n, i);
      }
    }
  }

  lemma NotCong(x: int, y: int, m: int)
    requires 0 < x - y < m
    ensures !Cong(x, y, m)
  {
    if Cong(x, y, m) {
      DivModDef(x, m);
      DivModDef(y, m);
      MulDist(m, x / m, 0 - y / m);
      if x / m > y / m {
        MulGrows(m, x / m - y / m);
      }
    }
  }

  /** On no more bits than the operand has, it does not matter how it is read. */
  lemma OwnCong(u: seq<bool>, n: nat)
    requires 0 < |u| && n <= |u|
    ensures Cong(FromBits(u), Own(u), Pow2(n))
  {
    hide FromBits;
    OwnRange(u);
    if Own(u) < 0 {
      Pow2Add(n, |u| - n);
      ModAddMultiple(Own(u), Pow2(n), Pow2(|u| - n));
    }
  }

  // ----- What an instruction should give and what it gives -----

  /** Arithmetic on the operands' own values; the remainder is that of the
      absolute values, as the signed divider has it. */
  function OwnArith(op: ArithOp, a: int, b: int, w: nat): int
    requires op != Udiv && op != Umod
  {
    match op
    case Add => a + b
    case Sub => a - b
    case Mult => a * b
    case Idiv => TruncQuot(a, b, w)
    case Imod => Rem(Abs(a), Abs(b))
  }

  predicate ArithAgrees(op: ArithOp, u: seq<bool>, v: seq<bool>, n: nat)
    requires op != Udiv && op != Umod
  {
    Max(|u|, |v|) > 0 && ArithBits(op, u, v, n) == ToBits(OwnArith(op, Own(u), Own(v), Max(|u|, |v|)), n)
  }

  /** Order is signed; equality compares the extended bits. */
  predicate CompareAgrees(cmp: CompareOp, u: seq<bool>, v: seq<bool>) {
    Compared(cmp, cmp != Eq && cmp != Neq, u, v) <==> CompareMeans(cmp, Own(u), Own(v))
  }

  /** The narrower operand `u` of an instruction with an n-bit result is read
      right for all values of the other one. */
  predicate Kept(op: ArithOp, u: seq<bool>, n: nat)
    requires |u| > 0
  {
    match op
    case Idiv => n == 1 || Own(u) >= 0
    case Imod => Own(u) >= 0 || Own(u) == 0 - Pow2(|u| - 1)
    case _ => n <= |u| || Own(u) >= 0
  }

  /** What the circuit computes, before it is cut to n bits. */
  function TakenArith(op: ArithOp, u: seq<bool>, v: seq<bool>): int
    requires op != Udiv && op != Umod
  {
    var w := Max(|u|, |v|);
    match op
    case Add => FromBits(u) + FromBits(v)
    case Sub => FromBits(u) - FromBits(v)
    case Mult => FromBits(u) * FromBits(v)
    case Idiv => TruncQuot(Taken(u, w), Taken(v, w), w)
    case Imod => Rem(Abs(Taken(u, w)), Abs(Taken(v, w)))
  }

  lemma AgreesMeans(op: ArithOp, u: seq<bool>, v: seq<bool>, n: nat)
    requires op != Udiv && op != Umod && |u| > 0 && |v| > 0 && n <= Max(|u|, |v|)
    ensures var w := Max(|u|, |v|);
            ArithAgrees(op, u, v, n) <==> Cong(TakenArith(op, u, v), OwnArith(op, Own(u), Own(v), w), Pow2(n))
  {
    hide FromBits, Pow2, ToBits, TruncQuot, Rem;
    var w := Max(|u|, |v|);
    SameBits(ArithMeans(op, FromBits(u), FromBits(v), w), OwnArith(op, Own(u), Own(v), w), n);
    PaddedNumber(u, w);
    PaddedNumber(v, w);
    if op == Sub {
      ModTwice(FromBits(u) - FromBits(v), w + 1, n);
    }
  }

  /** With equal widths every instruction means what its operands say. */
  lemma SameWidth(op: ArithOp, u: seq<bool>, v: seq<bool>, n: nat)
    requires op != Udiv && op != Umod && 0 < |u| == |v| && n <= |u|
    ensures ArithAgrees(op, u, v, n)
  {
    hide FromBits, TruncQuot, Rem, ToBits;
    AgreesMeans(op, u, v, n);
    TakenIsOwn(u, |u|);
    TakenIsOwn(v, |u|);
    RingAgrees(op, u, v, n);
  }

  /** Sums, differences and products modulo 2^n of operands that are congruent to
      their own values. */
  lemma RingAgrees(op: ArithOp, u: seq<bool>, v: seq<bool>, n: nat)
    requires op != Udiv && op != Umod && |u| > 0 && |v| > 0
    requires n <= |u| || Own(u) >= 0
    requires n <= |v| || Own(v) >= 0
    ensures op == Add || op == Sub || op == Mult ==>
              Cong(TakenArith(op, u, v), OwnArith(op, Own(u), Own(v), Max(|u|, |v|)), Pow2(n))
  {
    hide FromBits, Pow2;
    var p := Pow2(n);
    NearOwn(u, n);
    NearOwn(v, n);
    CongAdd(FromBits(u), Own(u), FromBits(v), Own(v), p);
    CongSub(FromBits(u), Own(u), FromBits(v), Own(v), p);
    CongScale(FromBits(u), FromBits(v), Own(v), p);
    CongScale(Own(v), FromBits(u), Own(u), p);
  }

  lemma NearOwn(u: seq<bool>, n: nat)
    requires |u| > 0 && (n <= |u| || Own(u) >= 0)
    ensures Cong(FromBits(u), Own(u), Pow2(n))
  {
    hide FromBits;
    if n <= |u| {
      OwnCong(u, n);
    } else {
      OwnRange(u);
    }
  }

  /** Unary minus subtracts from a literal zero: right at every width. */
  lemma UnaryMinus(zero: seq<bool>, v: seq<bool>)
    requires |zero| > 0 && |v| > 0 && FromBits(zero) == 0
    ensures ArithBits(Sub, zero, v, |v|) == ToBits(0 - Own(v), |v|)
  {
    hide FromBits, ToBits, ArithBits;
    OwnRange(zero);
    AgreesMeans(Sub, zero, v, |v|);
    RingAgrees(Sub, zero, v, |v|);
  }

  // ----- A narrower left operand -----

  /** An instruction with a narrower left operand means what the operands say,
      for all values of the right one, exactly when the left one is kept. */
  lemma NarrowLeft(op: ArithOp, u: seq<bool>, w: nat, n: nat)
    requires op != Udiv && op != Umod && 0 < |u| < w && (n == |u| || n == w)
    ensures (forall v: seq<bool> :: |v| == w ==> ArithAgrees(op, u, v, n)) <==> Kept(op, u, n)
  {
    hide ArithAgrees, Kept;
    if Kept(op, u, n) {
      forall v: seq<bool> | |v| == w ensures ArithAgrees(op, u, v, n) {
        KeptLeft(op, u, v, n);
      }
    } else {
      var v := LostLeft(op, u, w, n);
    }
  }

  lemma KeptLeft(op: ArithOp, u: seq<bool>, v: seq<bool>, n: nat)
    requires op != Udiv && op != Umod && 0 < |u| < |v| && (n == |u| || n == |v|) && Kept(op, u, n)
    ensures ArithAgrees(op, u, v, n)
  {
    hide FromBits, TruncQuot, Rem, ToBits;
    AgreesMeans(op, u, v, n);
    TakenIsOwn(u, |v|);
    TakenIsOwn(v, |v|);
    OwnRange(u);
    if op == Idiv {
      if Own(u) < 0 {
        Parity(1, Own(v), |v|);
      }
    } else if op != Imod {
      RingAgrees(op, u, v, n);
    }
  }

  /** Modulo 2 the sign of a quotient does not matter. */
  lemma Parity(a: int, b: int, w: nat)
    ensures Pow2(1) == 2
    ensures Cong(TruncQuot(a, b, w), TruncQuot(0 - a, b, w), 2)
    ensures Cong(TruncQuot(b, a, w), TruncQuot(b, 0 - a, w), 2)
  {
    hide Quot;
    var q, r := Quot(Abs(a), Abs(b), w), Quot(Abs(b), Abs(a), w);
    assert Pow2(0) == 1;
    Opposite(q);
    Opposite(r);
  }

  lemma Opposite(q: int)
    ensures Cong(q, 0 - q, 2)
  {
  }

  /** For an operand that is not kept, a value of the other one that shows it. */
  lemma LostLeft(op: ArithOp, u: seq<bool>, w: nat, n: nat) returns (v: seq<bool>)
    requires op != Udiv && op != Umod && 0 < |u| < w && (n == |u| || n == w) && !Kept(op, u, n)
    ensures |v| == w && !ArithAgrees(op, u, v, n)
  {
    hide FromBits, Pow2, ToBits, TruncQuot, Rem, ArithAgrees;
    var p := Pow2(|u| - 1);
    OwnRange(u);
    Widening(|u|, w);
    var b := match op
      case Mult => 1
      case Idiv => if n == w then 1 else 2
      case Imod => 0 - Pow2(w - 1)
      case _ => 0;
    v := ToBits(b, w);
    OwnToBits(b, w);
    AgreesMeans(op, u, v, n);
    TakenIsOwn(u, w);
    TakenIsOwn(v, w);
    match op
    case Add => NotCong(FromBits(u), Own(u), Pow2(n));
    case Sub => NotCong(FromBits(u), Own(u), Pow2(n));
    case Mult => NotCong(FromBits(u), Own(u), Pow2(n));
    case Idiv => LostDividend(Own(u), FromBits(u), p, w, n == w, Pow2(n));
    case Imod => LostRest(0 - Own(u), FromBits(u), p, Pow2(w - 1), Pow2(n));
  }

  /** Powers of two around the widths m < w. */
  lemma Widening(m: nat, w: nat)
    requires 0 < m < w
    ensures 1 <= Pow2(m - 1) && Pow2(m) == 2 * Pow2(m - 1) <= Pow2(w - 1) && Pow2(w) == 2 * Pow2(w - 1)
    ensures m == 1 <==> Pow2(m - 1) == 1
  {
    Pow2Mono(m, w - 1);
    if m > 1 {
      Pow2Mono(1, m - 1);
    }
  }

  lemma LostDividend(a: int, t: int, p: nat, w: nat, wide: bool, m: nat)
    requires 0 - p <= a < 0 && t == a + 2 * p && p > 0
    requires if wide then m >= 4 * p else p >= 2 && m == 2 * p
    ensures var b := if wide then 1 else 2; !Cong(TruncQuot(t, b, w), TruncQuot(a, b, w), m)
  {
    hide Pow2;
    if wide {
      NotCong(t, a, m);
    } else {
      var h, e := (0 - a) / 2, (0 - a) % 2;
      DivModUnique(0 - a, 2, h, e);
      DivModUnique(t, 2, p - h - e, e);
      NotCong(p - h - e, 0 - h, m);
    }
  }

  /** Divided by something larger, the remainders are the operands. */
  lemma LostRest(k: nat, t: nat, p: nat, b: nat, m: nat)
    requires 0 < k < p && t == 2 * p - k && 2 * p <= b && 2 * p <= m
    ensures !Cong(Rem(t, b), Rem(k, b), m)
  {
    ModSmall(t, b);
    ModSmall(k, b);
    NotCong(t, k, m);
  }

  // ----- A narrower right operand -----

  /** The same for a narrower right operand. */
  lemma NarrowRight(op: ArithOp, v: seq<bool>, w: nat, n: nat)
    requires op != Udiv && op != Umod && 0 < |v| < w && (n == |v| || n == w)
    ensures (forall u: seq<bool> :: |u| == w ==> ArithAgrees(op, u, v, n)) <==> Kept(op, v, n)
  {
    hide ArithAgrees, Kept;
    if Kept(op, v, n) {
      forall u: seq<bool> | |u| == w ensures ArithAgrees(op, u, v, n) {
        KeptRight(op, u, v, n);
      }
    } else {
      var u := LostRight(op, v, w, n);
    }
  }

  lemma KeptRight(op: ArithOp, u: seq<bool>, v: seq<bool>, n: nat)
    requires op != Udiv && op != Umod && 0 < |v| < |u| && (n == |v| || n == |u|) && Kept(op, v, n)
    ensures ArithAgrees(op, u, v, n)
  {
    hide FromBits, TruncQuot, Rem, ToBits;
    AgreesMeans(op, u, v, n);
    TakenIsOwn(u, |u|);
    TakenIsOwn(v, |u|);
    OwnRange(v);
    if op == Idiv {
      if Own(v) < 0 {
        Parity(1, Own(u), |u|);
      }
    } else if op != Imod {
      RingAgrees(op, u, v, n);
    }
  }

  lemma LostRight(op: ArithOp, v: seq<bool>, w: nat, n: nat) returns (u: seq<bool>)
    requires op != Udiv && op != Umod && 0 < |v| < w && (n == |v| || n == w) && !Kept(op, v, n)
    ensures |u| == w && !ArithAgrees(op, u, v, n)
  {
    hide FromBits, Pow2, ToBits, TruncQuot, Rem, ArithAgrees;
    var p := Pow2(|v| - 1);
    OwnRange(v);
    Widening(|v|, w);
    var a := match op
      case Mult => 1
      case Idiv => Own(v)
      case Imod => 0 - Own(v)
      case _ => 0;
    u := ToBits(a, w);
    OwnToBits(a, w);
    AgreesMeans(op, u, v, n);
    TakenIsOwn(u, w);
    TakenIsOwn(v, w);
    match op
    case Add => NotCong(FromBits(v), Own(v), Pow2(n));
    case Sub => NotCong(0 - Own(v), 0 - FromBits(v), Pow2(n));
    case Mult => NotCong(FromBits(v), Own(v), Pow2(n));
    case Idiv => LostDivisor(Own(v), FromBits(v), p, w, Pow2(n));
    case Imod => LostModulus(0 - Own(v), FromBits(v), p, Pow2(n));
  }

  lemma LostDivisor(b: int, t: int, p: nat, w: nat, m: nat)
    requires 0 - p <= b < 0 && t == b + 2 * p && m >= 4
    ensures !Cong(TruncQuot(b, t, w), TruncQuot(b, b, w), m)
  {
    hide Pow2;
    DivModUnique(0 - b, 0 - b, 1, 0);
    if b == 0 - p {
      NotCong(1, -1, m);
    } else {
      ModSmall(0 - b, t);
      NotCong(1, 0, m);
    }
  }

  lemma LostModulus(k: nat, t: nat, p: nat, m: nat)
    requires 0 < k < p && t == 2 * p - k && 2 * p <= m
    ensures !Cong(Rem(k, t), Rem(k, k), m)
  {
    ModSmall(k, t);
    DivModUnique(k, k, 1, 0);
    NotCong(k, 0, m);
  }

  // ----- Comparisons -----

  lemma SameWidthCompare(cmp: CompareOp, u: seq<bool>, v: seq<bool>)
    requires 0 < |u| == |v|
    ensures CompareAgrees(cmp, u, v)
  {
    hide FromBits;
    TakenIsOwn(u, |u|);
    TakenIsOwn(v, |u|);
    OwnRange(u);
    OwnRange(v);
    Unsigned(u, |u|);
    Unsigned(v, |u|);
  }

  lemma Unsigned(u: seq<bool>, w: nat)
    requires |u| <= w
    ensures NumberOf(Fit(u, w, false), false) == FromBits(u)
  {
    PaddedNumber(u, w);
  }

  /** A comparison with a narrower operand, on either side, means what the
      operands say for all values of the other one exactly when the narrower one
      is not negative. */
  lemma NarrowCompare(cmp: CompareOp, u: seq<bool>, w: nat)
    requires 0 < |u| < w
    ensures (forall v: seq<bool> :: |v| == w ==> CompareAgrees(cmp, u, v)) <==> Own(u) >= 0
    ensures (forall v: seq<bool> :: |v| == w ==> CompareAgrees(cmp, v, u)) <==> Own(u) >= 0
  {
    hide FromBits, CompareAgrees, NumberOf;
    if Own(u) >= 0 {
      forall v: seq<bool> | |v| == w ensures CompareAgrees(cmp, u, v) && CompareAgrees(cmp, v, u) {
        ComparesRight(cmp, u, v);
      }
    } else {
      var v := ComparesWrong(cmp, u, w);
    }
  }

  lemma ComparesRight(cmp: CompareOp, u: seq<bool>, v: seq<bool>)
    requires 0 < |u| < |v| && Own(u) >= 0
    ensures CompareAgrees(cmp, u, v) && CompareAgrees(cmp, v, u)
  {
    hide FromBits;
    TakenIsOwn(u, |v|);
    TakenIsOwn(v, |v|);
    Unsigned(u, |v|);
    Unsigned(v, |v|);
    OwnRange(u);
    OwnRange(v);
    Widening(|u|, |v|);
  }

  lemma ComparesWrong(cmp: CompareOp, u: seq<bool>, w: nat) returns (v: seq<bool>)
    requires 0 < |u| < w && Own(u) < 0
    ensures |v| == w && !CompareAgrees(cmp, u, v) && !CompareAgrees(cmp, v, u)
  {
    hide FromBits;
    var b := if cmp == Eq || cmp == Neq then Own(u) else 0;
    OwnRange(u);
    Widening(|u|, w);
    v := ToBits(b, w);
    OwnToBits(b, w);
    TakenIsOwn(u, w);
    TakenIsOwn(v, w);
    Unsigned(u, w);
    Unsigned(v, w);
  }

  // ----- Phis -----

  /** A phi of values of different widths keeps the number that it picks, and its
      signed value exactly when that has the full width or is not negative. */
  lemma PhiKeepsNumber(env: Env, instr: Instr)
    requires instr.Phi? && Typed(instr) && forall o :: o in Operands(instr) ==> o.key in env
    ensures var picked := if Read(env, instr.cond)[0] then Read(env, instr.a) else Read(env, instr.b);
            && FromBits(Outcome(env, instr)) == FromBits(picked)
            && (|picked| > 0 ==> (Own(Outcome(env, instr)) == Own(picked) <==> |picked| == instr.out.bits || Own(picked) >= 0))
  {
    hide FromBits, NumberOf;
    var picked := if Read(env, instr.cond)[0] then Read(env, instr.a) else Read(env, instr.b);
    PaddedNumber(picked, instr.out.bits);
    if |picked| > 0 {
      TakenIsOwn(picked, instr.out.bits);
    }
  }

  // ----- Differences -----

  /** A result wider than the borrow is the difference itself exactly when
      nothing is borrowed. */
  lemma WholeDifference(u: seq<bool>, v: seq<bool>, n: nat)
    requires Max(|u|, |v|) > 0
    ensures ArithBits(Sub, u, v, n) == ToBits(FromBits(u) - FromBits(v), n) <==>
            n <= Max(|u|, |v|) + 1 || FromBits(u) >= FromBits(v)
  {
    hide FromBits, Pow2, ToBits;
    var w, d := Max(|u|, |v|), FromBits(u) - FromBits(v);
    FromBitsBound(u);
    FromBitsBound(v);
    Pow2Mono(|u|, w);
    Pow2Mono(|v|, w);
    SameBits(d % Pow2(w + 1), d, n);
    ModTwice(d, w + 1, n);
    DifferenceExact(FromBits(u), FromBits(v), w, n);
  }
}
