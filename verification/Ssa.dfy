/** Straight-line SSA programs and what they compute: the values of
    compiler/ssa/value.go, the instructions that compiler/ssa/circuitgen.go
    lowers, and a direct interpreter on bit strings. */
module Ssa {
  import opened Nat
  import opened Circuit
  import opened Graph
  import Native
  import opened Bitwise
  import opened Division
  import opened SignedDivider

  datatype Ptr = Ptr(name: string, scope: int, offset: nat)

  /** The part of a Value that Value.Equal compares. */
  datatype Key = Key(isConst: bool, name: string, scope: int, version: int, ptr: Opt<Ptr>)

  /** An input or output of an instruction: a value and its type's width. */
  datatype Operand = Operand(key: Key, bits: nat, signed: bool)

  datatype ArithOp = Add | Sub | Mult | Udiv | Umod | Idiv | Imod

  datatype CompareOp = Lt | Le | Gt | Ge | Eq | Neq

  datatype Instr =
    | Arith(op: ArithOp, a: Operand, b: Operand, out: Operand)
    | Compare(cmp: CompareOp, signedness: bool, a: Operand, b: Operand, out: Operand)
    | Phi(cond: Operand, a: Operand, b: Operand, out: Operand)
    | Concat(a: Operand, b: Operand, out: Operand)
    | Lshift(a: Operand, count: nat, out: Operand)
    | Rshift(a: Operand, count: nat, arithmetic: bool, out: Operand)
    | Slice(a: Operand, from: nat, to: nat, out: Operand)
    | Mov(a: Operand, extend: bool, out: Operand)
    | Amov(a: Operand, b: Operand, from: nat, to: nat, out: Operand)
    | Bitwise(bop: BitOp, a: Operand, b: Operand, out: Operand)
    | Not(a: Operand, out: Operand)
    | BitTest(a: Operand, index: nat, wanted: bool, out: Operand)
    | ElementOf(a: Operand, b: Operand, size: nat, offset: nat, out: Operand)
    | Circ(circ: Circuit, args: seq<Operand>, out: Operand)

  type Env = map<Key, seq<bool>>

  // ----- Reference meaning -----

  /** A value used at another width: cut, or extended by zeros or by its top
      bit. */
  function Fit(v: seq<bool>, n: nat, signed: bool): (r: seq<bool>)
    ensures |r| == n
  {
    seq(n, i requires 0 <= i < n => if i < |v| then v[i] else signed && |v| > 0 && v[|v| - 1])
  }

  function Read(env: Env, o: Operand): (v: seq<bool>)
    requires o.key in env
    ensures |v| == o.bits
  {
    Fit(env[o.key], o.bits, o.signed)
  }

  /** The width at which an instruction works: that of its wider operand.  The
      other one is extended by zeros, whatever its type. */
  function WorkWidth(a: Operand, b: Operand): nat {
    Max(a.bits, b.bits)
  }

  /** Integer arithmetic on operands of at most `w` bits; a difference has one
      bit more than they have. */
  function ArithMeans(op: ArithOp, a: nat, b: nat, w: nat): int
    requires w > 0
  {
    match op
    case Add => a + b
    case Sub => (a - b) % Pow2(w + 1)
    case Mult => a * b
    case Udiv => Quot(a, b, w)
    case Umod => Rem(a, b)
    case Idiv => TruncQuot(Signed(a, w), Signed(b, w), w)
    case Imod => Rem(Abs(Signed(a, w)), Abs(Signed(b, w)))
  }

  predicate CompareMeans(cmp: CompareOp, a: int, b: int) {
    match cmp
    case Lt => a < b
    case Le => a <= b
    case Gt => a > b
    case Ge => a >= b
    case Eq => a == b
    case Neq => a != b
  }

  function NumberOf(v: seq<bool>, signed: bool): int {
    if signed && |v| > 0 then Signed(FromBits(v), |v|) else FromBits(v)
  }

  /** The verdict at work width. */
  predicate Compared(cmp: CompareOp, signed: bool, u: seq<bool>, v: seq<bool>) {
    var w := Max(|u|, |v|);
    CompareMeans(cmp, NumberOf(Fit(u, w, false), signed), NumberOf(Fit(v, w, false), signed))
  }

  /** The result of arithmetic on `n` bits. */
  function ArithBits(op: ArithOp, u: seq<bool>, v: seq<bool>, n: nat): (r: seq<bool>)
    requires Max(|u|, |v|) > 0
    ensures |r| == n
  {
    ToBits(ArithMeans(op, FromBits(u), FromBits(v), Max(|u|, |v|)), n)
  }

  /** Where output bit `i` of a copying instruction comes from: an input bit, or
      nowhere, which makes it 0. */
  function Source(instr: Instr, i: nat): Opt<nat>
    requires instr.Concat? || instr.Lshift? || instr.Rshift? || instr.Slice? || instr.Mov? || instr.Amov?
  {
    match instr
    case Concat(a, b, _) => Some(i)
    case Lshift(a, count, _) => if i >= count && i - count < a.bits then Some(i - count) else None
    case Rshift(a, count, arithmetic, _) =>
      if i + count < a.bits then Some(i + count) else if arithmetic && a.bits > 0 then Some(a.bits - 1) else None
    case Slice(a, from, to, _) => if i + from < to && i + from < a.bits then Some(i + from) else None
    case Mov(a, extend, _) => if i < a.bits then Some(i) else if extend && a.bits > 0 then Some(a.bits - 1) else None
    case Amov(a, b, from, to, _) =>
      if i < from || i >= to then (if i < b.bits then Some(a.bits + i) else None)
      else if i - from < a.bits then Some(i - from) else None
  }

  predicate Copies(instr: Instr) {
    instr.Concat? || instr.Lshift? || instr.Rshift? || instr.Slice? || instr.Mov? || instr.Amov?
  }

  /** The input bits of a copying instruction, operand after operand. */
  function SourceBits(env: Env, instr: Instr): seq<bool>
    requires Copies(instr) && forall o :: o in Operands(instr) ==> o.key in env
  {
    match instr
    case Concat(a, b, _) => Read(env, a) + Read(env, b)
    case Amov(a, b, _, _, _) => Read(env, a) + Read(env, b)
    case Lshift(a, _, _) => Read(env, a)
    case Rshift(a, _, _, _) => Read(env, a)
    case Slice(a, _, _, _) => Read(env, a)
    case Mov(a, _, _) => Read(env, a)
  }

  function Operands(instr: Instr): seq<Operand> {
    match instr
    case Arith(_, a, b, _) => [a, b]
    case Compare(_, _, a, b, _) => [a, b]
    case Phi(c, a, b, _) => [c, a, b]
    case Concat(a, b, _) => [a, b]
    case Amov(a, b, _, _, _) => [a, b]
    case Bitwise(_, a, b, _) => [a, b]
    case ElementOf(a, b, _, _, _) => [a, b]
    case Circ(_, args, _) => args
    case _ => [instr.a]
  }

  /** The bits an instruction leaves on its output value. */
  function Outcome(env: Env, instr: Instr): (r: seq<bool>)
    requires Typed(instr) && forall o :: o in Operands(instr) ==> o.key in env
    ensures |r| == instr.out.bits
  {
    match instr
    case Arith(op, a, b, out) => ArithBits(op, Read(env, a), Read(env, b), out.bits)
    case Compare(cmp, signed, a, b, _) => [Compared(cmp, signed, Read(env, a), Read(env, b))]
    case Phi(c, a, b, out) => Fit(if Read(env, c)[0] then Read(env, a) else Read(env, b), out.bits, false)
    case Bitwise(op, a, b, out) => BitwiseBits(op, Read(env, a), Read(env, b), out.bits)
    case Not(a, out) => NotBits(Read(env, a), out.bits)
    case BitTest(a, index, wanted, _) => [TestedBit(Read(env, a), index) == wanted]
    case ElementOf(a, b, size, offset, out) => Selected(Read(env, a)[offset..], size, Read(env, b), out.bits)
    case Circ(c, args, out) => CircuitBits(c, ReadAll(env, args), out.bits)
    case _ => CopyBits(SourceBits(env, instr), instr)
  }

  function BitwiseBits(op: BitOp, u: seq<bool>, v: seq<bool>, n: nat): (r: seq<bool>)
    ensures |r| == n
  {
    seq(n, i requires 0 <= i < n => BitMeans(op, Fit(u, n, false)[i], Fit(v, n, false)[i]))
  }

  function NotBits(u: seq<bool>, n: nat): (r: seq<bool>)
    requires n <= |u|
    ensures |r| == n
  {
    seq(n, i requires 0 <= i < n => !u[i])
  }

  predicate TestedBit(u: seq<bool>, index: nat) {
    index < |u| && u[index]
  }

  /** The values of the arguments. */
  function ReadAll(env: Env, args: seq<Operand>): (vs: seq<seq<bool>>)
    requires forall o :: o in args ==> o.key in env
    ensures |vs| == |args| && forall i :: 0 <= i < |args| ==> vs[i] == Read(env, args[i])
  {
    seq(|args|, i requires 0 <= i < |args| => Read(env, args[i]))
  }

  /** What the circuit computes on the arguments. */
  function CircuitBits(c: Circuit, vs: seq<seq<bool>>, n: nat): (r: seq<bool>)
    requires Native.Embeddable(c) && Size(c.outputs) == n
    requires |vs| == |c.inputs| && forall i :: 0 <= i < |vs| ==> |vs[i]| <= c.inputs[i].bits
    ensures |r| == n
  {
    Native.Fits(c);
    Meaning(c, Native.Filled(c.inputs, vs))
  }

  /** How many index bits count for `n` elements: enough, and at least one. */
  function IndexBits(n: nat): (bits: nat)
    ensures bits >= 1 && n <= Pow2(bits) && (bits > 1 ==> Pow2(bits - 1) < n)
  {
    if n <= 2 then
      assert Pow2(1) == 2 * Pow2(0);
      1
    else 1 + IndexBits((n + 1) / 2)
  }

  /** Element `j` of an array of `size`-bit elements, zeros beyond its end. */
  function ElementBits(v: seq<bool>, size: nat, j: nat): (e: seq<bool>)
    requires size > 0
    ensures |e| == size
  {
    if |v| < size then seq(size, i => false)
    else if j == 0 then v[..size]
    else ElementBits(v[size..], size, j - 1)
  }

  /** The element that the low bits of the index select. */
  function Selected(v: seq<bool>, size: nat, index: seq<bool>, n: nat): (r: seq<bool>)
    requires size > 0
    ensures |r| == n
  {
    Fit(ElementBits(v, size, FromBits(index) % Pow2(IndexBits(|v| / size))), n, false)
  }

  function CopyBits(src: seq<bool>, instr: Instr): (r: seq<bool>)
    requires Copies(instr)
    ensures |r| == instr.out.bits
  {
    seq(instr.out.bits, i requires 0 <= i < instr.out.bits =>
      var s := Source(instr, i); s.Some? && s.value < |src| && src[s.value])
  }

  /** The result widths for which a generator drives all wires, whatever the
      multiplier's threshold. */
  predicate ResultFits(op: ArithOp, w: nat, n: nat) {
    match op
    case Add => n > 0
    case Sub => true
    case Mult => 0 < n <= 2 * w
    case _ => n <= w
  }

  /** Result widths that the generators can serve, and no index out of range. */
  ghost predicate Typed(instr: Instr) {
    match instr
    case Arith(op, a, b, out) => WorkWidth(a, b) > 0 && ResultFits(op, WorkWidth(a, b), out.bits)
    case Compare(cmp, signed, a, b, out) => WorkWidth(a, b) > 0 && out.bits == 1 && (signed ==> cmp != Eq && cmp != Neq)
    case Phi(c, a, b, out) => c.bits == 1 && out.bits == WorkWidth(a, b)
    case Concat(a, b, out) => out.bits == a.bits + b.bits
    case Lshift(_, _, _) => true
    case Rshift(a, _, arithmetic, _) => arithmetic ==> a.bits > 0
    case Slice(_, from, to, out) => from < to && to - from <= out.bits
    case Mov(a, extend, _) => extend ==> a.bits > 0
    case Amov(_, _, from, to, _) => from < to
    case Bitwise(_, a, b, out) => out.bits <= a.bits || out.bits <= b.bits
    case Not(a, out) => out.bits <= a.bits
    case BitTest(_, _, _, out) => out.bits == 1
    case ElementOf(a, b, size, offset, out) =>
      && offset <= a.bits && size > 0 && b.bits > 0 && (a.bits - offset) % size == 0
      && if offset == a.bits then out.bits >= size else out.bits == size
    case Circ(c, args, out) =>
      && Native.Embeddable(c) && |args| == |c.inputs| && Size(c.outputs) == out.bits
      && forall i :: 0 <= i < |args| ==> args[i].bits <= c.inputs[i].bits
  }

  /** Every value is assigned once, and used after that. */
  ghost predicate Ready(instr: Instr, keys: set<Key>) {
    Typed(instr) && instr.out.key !in keys && forall o :: o in Operands(instr) ==> o.key in keys
  }

  ghost predicate WellFormed(steps: seq<Instr>, keys: set<Key>)
    decreases |steps|
  {
    steps == [] || (Ready(steps[0], keys) && WellFormed(steps[1..], keys + {steps[0].out.key}))
  }

  /** The interpreter. */
  function Exec(steps: seq<Instr>, env: Env): (r: Env)
    requires WellFormed(steps, env.Keys)
    decreases |steps|
  {
    if steps == [] then env
    else
      var next := env[steps[0].out.key := Outcome(env, steps[0])];
      assert next.Keys == env.Keys + {steps[0].out.key};
      Exec(steps[1..], next)
  }

  // ----- What the copying instructions mean as numbers -----

  lemma {:induction false} FromBitsConcat(u: seq<bool>, v: seq<bool>)
    ensures FromBits(u + v) == FromBits(u) + Pow2(|u|) * FromBits(v)
  {
    if v == [] {
      assert u + v == u;
    } else {
      var n := |v| - 1;
      FromBitsConcat(u, v[..n]);
      assert (u + v)[..|u + v| - 1] == u + v[..n];
      Pow2Add(|u|, n);
      Distribute(Pow2(|u|), FromBits(v[..n]), Nat.Bit(v[n]), Pow2(n));
    }
  }

  lemma {:induction false} FromBitsLow(v: seq<bool>)
    requires forall i :: 0 <= i < |v| ==> !v[i]
    ensures FromBits(v) == 0
  {
    if v != [] {
      FromBitsLow(v[..|v| - 1]);
    }
  }

  lemma {:induction false} FromBitsHigh(v: seq<bool>)
    requires forall i :: 0 <= i < |v| ==> v[i]
    ensures FromBits(v) == Pow2(|v|) - 1
  {
    if v != [] {
      FromBitsHigh(v[..|v| - 1]);
    }
  }

  /** Zeros above do not change the number. */
  lemma PaddedNumber(e: seq<bool>, n: nat)
    requires |e| <= n
    ensures FromBits(Fit(e, n, false)) == FromBits(e)
  {
    hide FromBits;
    var pad := seq(n - |e|, i => false);
    assert Fit(e, n, false) == e + pad;
    FromBitsConcat(e, pad);
    FromBitsLow(pad);
  }

  /** Concatenation: the first operand is the low part. */
  lemma ConcatMeans(a: Operand, b: Operand, out: Operand, u: seq<bool>, v: seq<bool>)
    requires Typed(Concat(a, b, out)) && |u| == a.bits && |v| == b.bits
    ensures FromBits(CopyBits(u + v, Concat(a, b, out))) == FromBits(u) + Pow2(|u|) * FromBits(v)
  {
    assert CopyBits(u + v, Concat(a, b, out)) == u + v;
    FromBitsConcat(u, v);
  }

  lemma FromBitsTake(v: seq<bool>, n: nat)
    requires n <= |v|
    ensures FromBits(v[..n]) == FromBits(v) % Pow2(n) && FromBits(v[n..]) == FromBits(v) / Pow2(n)
  {
    assert v == v[..n] + v[n..];
    FromBitsConcat(v[..n], v[n..]);
    FromBitsBound(v[..n]);
    DivModUnique(FromBits(v), Pow2(n), FromBits(v[n..]), FromBits(v[..n]));
  }

  /** Left shift is multiplication by a power of two, modulo the output width. */
  lemma LshiftMeans(a: Operand, count: nat, out: Operand, u: seq<bool>)
    requires |u| == a.bits
    ensures FromBits(CopyBits(u, Lshift(a, count, out))) == (Pow2(count) * FromBits(u)) % Pow2(out.bits)
  {
    hide FromBits, Pow2;
    var r := CopyBits(u, Lshift(a, count, out));
    var zeros := seq(count, i => false);
    var n := out.bits;
    var all := zeros + u + seq(n, i => false);
    assert r == all[..n];
    FromBitsTake(all, n);
    FromBitsConcat(zeros + u, seq(n, i => false));
    FromBitsConcat(zeros, u);
    FromBitsLow(zeros);
    FromBitsLow(seq(n, i => false));
  }

  /** The bits repeated at the top by zeros or by the sign. */
  function Lengthened(u: seq<bool>, signed: bool, n: nat): seq<bool> {
    u + seq(n, i => signed && |u| > 0 && u[|u| - 1])
  }

  lemma LengthenedSize(u: seq<bool>, signed: bool, n: nat)
    ensures |Lengthened(u, signed, n)| == |u| + n
  {
  }

  lemma LengthenedAt(u: seq<bool>, signed: bool, n: nat, i: nat)
    requires i < |u| + n
    ensures |Lengthened(u, signed, n)| == |u| + n
    ensures Lengthened(u, signed, n)[i] == if i < |u| then u[i] else signed && |u| > 0 && u[|u| - 1]
  {
  }

  /** Lengthening keeps the number, up to a multiple of the new length's power. */
  lemma LengthenedNumber(u: seq<bool>, signed: bool, n: nat)
    ensures var k := if NumberOf(u, signed) < 0 then 1 else 0;
            FromBits(Lengthened(u, signed, n)) == NumberOf(u, signed) + k * Pow2(|u| + n)
  {
    hide FromBits, Pow2;
    var top := signed && |u| > 0 && u[|u| - 1];
    var ext := seq(n, i => top);
    assert Lengthened(u, signed, n) == u + ext;
    FromBitsConcat(u, ext);
    if |u| > 0 {
      TopBitSign(u);
    }
    if top {
      FromBitsHigh(ext);
      Pow2Add(|u|, n);
      MulDist(Pow2(|u|), Pow2(n), -1);
    } else {
      FromBitsLow(ext);
    }
  }

  lemma TakeMiddle(v: seq<bool>, c: nat, m: nat)
    requires c + m <= |v|
    ensures FromBits(v[c..c + m]) == Middle(FromBits(v), Pow2(c), Pow2(m))
  {
    hide FromBits, Pow2;
    FromBitsTake(v, c);
    FromBitsTake(v[c..], m);
    assert v[c..][..m] == v[c..c + m];
  }

  /** Division and remainder one after the other. */
  function Middle(v: int, p: nat, q: nat): int
    requires p > 0 && q > 0
  {
    (v / p) % q
  }

  lemma MiddleMod(x: int, w: int, s: int, p: nat, q: nat, j: int)
    requires p > 0 && q > 0 && s == p * (q * j) && x == w + s
    ensures Middle(x, p, q) == Middle(w, p, q)
  {
    DivModDef(w, p);
    MulDist(p, w / p, q * j);
    DivModUnique(x, p, w / p + q * j, w % p);
    ModAddMultiple(w / p, q, j);
  }

  lemma Factors(k: int, p: int, q: int, h: int)
    ensures k * ((p * q) * h) == p * (q * (k * h))
  {
    assert k * ((p * q) * h) == (p * q) * (k * h);
  }

  /** A multiple of a high power of two is not seen by the bits c..c+m. */
  lemma MiddleOfSum(x: int, w: int, k: int, c: nat, m: nat, n: nat)
    requires c + m <= n && x == w + k * Pow2(n)
    ensures Middle(x, Pow2(c), Pow2(m)) == Middle(w, Pow2(c), Pow2(m))
  {
    hide Pow2, Middle;
    Pow2Add(c, m);
    Pow2Add(c + m, n - c - m);
    Factors(k, Pow2(c), Pow2(m), Pow2(n - c - m));
    MiddleMod(x, w, k * Pow2(n), Pow2(c), Pow2(m), k * Pow2(n - c - m));
  }

  lemma MiddleBits(u: seq<bool>, signed: bool, c: nat, m: nat, n: nat)
    requires c + m <= n
    ensures var all := Lengthened(u, signed, n);
            |all| == |u| + n && FromBits(all[c..c + m]) == Middle(NumberOf(u, signed), Pow2(c), Pow2(m))
  {
    hide FromBits, Pow2, NumberOf;
    var all := Lengthened(u, signed, n);
    TakeMiddle(all, c, m);
    LengthenedNumber(u, signed, n);
    hide Middle;
    MiddleOfSum(FromBits(all), NumberOf(u, signed), if NumberOf(u, signed) < 0 then 1 else 0, c, m, |u| + n);
  }

  /** Right shift, logical or arithmetic: the floor of the unsigned or signed
      value over a power of two, modulo the output width. */
  lemma RshiftMeans(a: Operand, count: nat, arithmetic: bool, out: Operand, u: seq<bool>)
    requires |u| == a.bits
    ensures FromBits(CopyBits(u, Rshift(a, count, arithmetic, out))) == (NumberOf(u, arithmetic) / Pow2(count)) % Pow2(out.bits)
  {
    hide FromBits, Pow2, NumberOf, Lengthened;
    LengthenedSize(u, arithmetic, count + out.bits);
    var r := CopyBits(u, Rshift(a, count, arithmetic, out));
    var all := Lengthened(u, arithmetic, count + out.bits);
    forall i | 0 <= i < out.bits ensures r[i] == all[count..count + out.bits][i] {
      LengthenedAt(u, arithmetic, count + out.bits, count + i);
      assert all[count..count + out.bits][i] == all[count + i];
    }
    assert r == all[count..count + out.bits];
    MiddleBits(u, arithmetic, count, out.bits, count + out.bits);
  }

  lemma SignedOfMod(v: int, n: nat)
    requires n > 0 && 0 - Pow2(n - 1) <= v < Pow2(n - 1)
    ensures Signed(v % Pow2(n), n) == v
  {
    DivModUnique(v, Pow2(n), if v < 0 then -1 else 0, if v < 0 then v + Pow2(n) else v);
  }

  /** Division by a positive number does not leave a range around zero. */
  lemma FloorSmaller(v: int, p: nat, h: nat)
    requires p > 0 && 0 - h <= v < h
    ensures 0 - h <= v / p < h
  {
    DivModDef(v, p);
    var q := v / p;
    if q > 0 {
      MulGrows(q, p);
    }
    if q < -1 {
      MulGrows(-1 - q, p);
      MulDist(p, q, 1);
    }
  }

  /** At equal widths the arithmetic shift is the floor of the signed value. */
  lemma ArithmeticShift(a: Operand, count: nat, out: Operand, u: seq<bool>)
    requires |u| == a.bits == out.bits > 0
    ensures NumberOf(CopyBits(u, Rshift(a, count, true, out)), true) == NumberOf(u, true) / Pow2(count)
  {
    hide FromBits;
    RshiftMeans(a, count, true, out, u);
    FromBitsBound(u);
    FloorSmaller(NumberOf(u, true), Pow2(count), Pow2(out.bits - 1));
    SignedOfMod(NumberOf(u, true) / Pow2(count), out.bits);
  }

  /** A move keeps the unsigned or signed value, modulo the output width. */
  lemma MovMeans(a: Operand, extend: bool, out: Operand, u: seq<bool>)
    requires |u| == a.bits
    ensures FromBits(CopyBits(u, Mov(a, extend, out))) == NumberOf(u, extend) % Pow2(out.bits)
  {
    hide FromBits, NumberOf, Lengthened;
    LengthenedSize(u, extend, out.bits);
    var r := CopyBits(u, Mov(a, extend, out));
    var all := Lengthened(u, extend, out.bits);
    forall i | 0 <= i < out.bits ensures r[i] == all[0..out.bits][i] {
      LengthenedAt(u, extend, out.bits, i);
    }
    assert r == all[0..out.bits];
    MiddleBits(u, extend, 0, out.bits, out.bits);
  }

  /** A widening move keeps the value itself. */
  lemma MovWidens(a: Operand, extend: bool, out: Operand, u: seq<bool>)
    requires |u| == a.bits && 0 < a.bits <= out.bits
    ensures NumberOf(CopyBits(u, Mov(a, extend, out)), extend) == NumberOf(u, extend)
  {
    hide FromBits;
    MovMeans(a, extend, out, u);
    FromBitsBound(u);
    Pow2Mono(a.bits, out.bits);
    if extend {
      Pow2Mono(a.bits - 1, out.bits - 1);
      SignedOfMod(NumberOf(u, true), out.bits);
    } else {
      ModSmall(FromBits(u), Pow2(out.bits));
    }
  }

  /** The top bit says whether the number is negative. */
  lemma TopBitSign(v: seq<bool>)
    requires |v| > 0
    ensures v[|v| - 1] <==> Signed(FromBits(v), |v|) < 0
    ensures Signed(FromBits(v), |v|) == if v[|v| - 1] then FromBits(v) - Pow2(|v|) else FromBits(v)
  {
    FromBitsBound(v[..|v| - 1]);
  }

  /** A slice takes bits from..to of its input, zero-extended to the output. */
  lemma SliceMeans(a: Operand, from: nat, to: nat, out: Operand, u: seq<bool>)
    requires |u| == a.bits && Typed(Slice(a, from, to, out))
    ensures FromBits(CopyBits(u, Slice(a, from, to, out))) == (FromBits(u) / Pow2(from)) % Pow2(to - from)
  {
    hide FromBits, Pow2;
    var r := CopyBits(u, Slice(a, from, to, out));
    var n := to - from;
    if from <= |u| {
      var high := u[from..] + seq(n, i => false);
      var pad := seq(out.bits - n, i => false);
      assert r == high[..n] + pad;
      FromBitsTake(u, from);
      FromBitsConcat(u[from..], seq(n, i => false));
      FromBitsTake(high, n);
      FromBitsConcat(high[..n], pad);
      FromBitsLow(pad);
      FromBitsLow(seq(n, i => false));
    } else {
      FromBitsLow(r);
      FromBitsBound(u);
      Pow2Mono(|u|, from);
      ModSmall(FromBits(u), Pow2(from));
      ModSmall(0, Pow2(n));
    }
  }

  /** Array update: bits from..to come from the new element, the others stay;
      element and array are cut or extended by zeros to fit. */
  lemma AmovMeans(a: Operand, b: Operand, from: nat, to: nat, out: Operand, u: seq<bool>, v: seq<bool>)
    requires |u| == a.bits && |v| == b.bits && from < to
    ensures var w := Fit(v, if to > out.bits then to else out.bits, false);
            CopyBits(u + v, Amov(a, b, from, to, out)) == (w[..from] + Fit(u, to - from, false) + w[to..])[..out.bits]
  {
  }

  /** What an index selects from `n` whole elements. */
  lemma {:induction false} ElementMeans(v: seq<bool>, size: nat, n: nat, j: nat)
    requires size > 0 && |v| == n * size
    ensures j < n ==> 0 <= j * size <= j * size + size <= |v| && ElementBits(v, size, j) == v[j * size..j * size + size]
    ensures j >= n ==> ElementBits(v, size, j) == seq(size, i => false)
    decreases j
  {
    if n > 0 {
      assert |v| == (n - 1) * size + size;
      MulMonoLe(size, 0, n - 1);
      if j > 0 {
        ElementMeans(v[size..], size, n - 1, j - 1);
        assert j * size == (j - 1) * size + size;
      }
    }
  }

  // ----- Bits on wires -----

  lemma {:induction false} NumBits(asg: Asg, ws: seq<nat>)
    ensures Num(asg, ws) == FromBits(Bits(asg, ws))
  {
    if ws != [] {
      var n := |ws| - 1;
      NumBits(asg, ws[..n]);
      assert Bits(asg, ws)[..n] == Bits(asg, ws[..n]);
    }
  }

  /** The low bits of a number do not see a reduction modulo a power of two. */
  lemma BitOfMod(v: int, n: nat, i: nat)
    requires i < n
    ensures BitOf(v % Pow2(n), i) == BitOf(v, i)
  {
    var h, q := Pow2(n - i - 1), v / Pow2(n);
    Pow2Add(i, n - i - 1);
    DivModDef(v, Pow2(n));
    Spread(q, Pow2(i), h, Pow2(n));
    AddEven(v, v % Pow2(n), Pow2(i), h * q);
  }

  lemma Spread(q: int, p: nat, h: nat, big: nat)
    requires big == 2 * (p * h)
    ensures big * q == p * (2 * (h * q))
  {
    assert (2 * (p * h)) * q == p * (2 * (h * q));
  }

  /** Wires that carry a number modulo their width carry its bits. */
  lemma BitsFromNum(asg: Asg, ws: seq<nat>, v: int)
    requires Num(asg, ws) == v % Pow2(|ws|)
    ensures Bits(asg, ws) == ToBits(v, |ws|)
  {
    hide BitOf, Num, FromBits, Pow2;
    NumBits(asg, ws);
    NumberOfBits(Bits(asg, ws));
    forall i | 0 <= i < |ws| ensures Bits(asg, ws)[i] == BitOf(v, i) {
      BitOfMod(v, |ws|, i);
    }
  }
}
