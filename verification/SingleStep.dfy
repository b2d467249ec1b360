/** Programs of one instruction on two arguments, compiled: which of their
    circuits mean what the signed values of the arguments say, and the inputs at
    which others do not. */
module SingleStep {
  import opened Nat
  import opened Circuit
  import opened Graph
  import opened Division
  import opened SignedDivider
  import opened Ssa
  import opened Program
  import opened Widths

  function Named(name: string, bits: nat): Operand {
    Operand(Key(false, name, 0, 0, None), bits, true)
  }

  function ArithOf(op: ArithOp, m: nat, w: nat, n: nat): Instr {
    Arith(op, Named("x", m), Named("y", w), Named("z", n))
  }

  /** Order is signed; equality has no sign. */
  function CompareOf(cmp: CompareOp, m: nat, w: nat): Instr {
    Compare(cmp, cmp != Eq && cmp != Neq, Named("x", m), Named("y", w), Named("z", 1))
  }

  /** The values of the arguments. */
  function Given(instr: Instr, u: seq<bool>, v: seq<bool>): Env
    requires |Operands(instr)| == 2
  {
    map[Operands(instr)[0].key := u, Operands(instr)[1].key := v]
  }

  /** What the circuit gives for the arguments. */
  function Result(c: Circuit, u: seq<bool>, v: seq<bool>): seq<bool>
    requires c.InRange() && |u| + |v| <= c.numWires
  {
    Meaning(c, u + v)
  }

  /** The circuit of an instruction gives the instruction's outcome. */
  method CompileBinary(instr: Instr, limit: nat, prune: bool) returns (c: Circuit)
    requires limit >= 3 && Typed(instr) && |Operands(instr)| == 2
    requires var x, y := Operands(instr)[0], Operands(instr)[1];
             x.bits + y.bits > 0 && x.key != y.key && instr.out.key != x.key && instr.out.key != y.key
    ensures c.InRange() && Operands(instr)[0].bits + Operands(instr)[1].bits <= c.numWires
    ensures forall u: seq<bool>, v: seq<bool> :: |u| == Operands(instr)[0].bits && |v| == Operands(instr)[1].bits ==>
              Result(c, u, v) == Outcome(Given(instr, u, v), instr)
  {
    hide Typed, Outcome, Meaning, Implements, Operands;
    var x, y, out := Operands(instr)[0], Operands(instr)[1], instr.out;
    var inputs, outputs := [IOArg(x.bits + y.bits, [])], [IOArg(out.bits, [])];
    Sizes(x, y, out);
    OneStepFormed(instr, x, y);
    var r := CompileProgram([x, y], [], [instr], [out], inputs, outputs, limit, prune, (name, scope, version) => |name|);
    c := r.value;
    assert Garble.Runnable(c);
    forall u: seq<bool>, v: seq<bool> | |u| == x.bits && |v| == y.bits
      ensures Result(c, u, v) == Outcome(Given(instr, u, v), instr)
    {
      assert Implements(c, [x, y], [], [instr], [out], u + v);
      OneStep(c, instr, x, y, u, v);
    }
  }

  lemma Sizes(x: Operand, y: Operand, out: Operand)
    ensures Width([x, y]) == x.bits + y.bits && Width([out]) == out.bits
    ensures Size([IOArg(x.bits + y.bits, [])]) == Sum(Flatten([IOArg(x.bits + y.bits, [])])) == x.bits + y.bits
    ensures Size([IOArg(out.bits, [])]) == out.bits
  {
    assert [x, y][..1] == [x] && [x][..0] == [] && [out][..0] == [];
    assert Width([x]) == x.bits;
  }

  lemma OneStepFormed(instr: Instr, x: Operand, y: Operand)
    requires Typed(instr) && Operands(instr) == [x, y] && instr.out.key != x.key && instr.out.key != y.key
    ensures FirstKeys([x, y], []) == {x.key, y.key}
    ensures WellFormed([instr], {x.key, y.key})
    ensures KeysAfter([instr], {x.key, y.key}) == {x.key, y.key, instr.out.key}
  {
    hide Typed;
    assert [x, y][0] == x && [x, y][1] == y;
    assert [instr][1..] == [];
  }

  lemma OneStep(c: Circuit, instr: Instr, x: Operand, y: Operand, u: seq<bool>, v: seq<bool>)
    requires Typed(instr) && Operands(instr) == [x, y]
    requires x.key != y.key && instr.out.key != x.key && instr.out.key != y.key && |u| == x.bits && |v| == y.bits
    requires Implements(c, [x, y], [], [instr], [instr.out], u + v)
    ensures Meaning(c, u + v) == Outcome(Given(instr, u, v), instr)
  {
    hide Typed, Outcome, Meaning;
    Sizes(x, y, instr.out);
    var env := InitialEnv([x, y], [], u + v);
    assert env == Given(instr, u, v) by {
      TwoArguments(x, y, u, v);
    }
    OneStepFormed(instr, x, y);
    assert env.Keys == {x.key, y.key};
    var next := env[instr.out.key := Outcome(env, instr)];
    assert [instr][1..] == [];
    assert Exec([instr], env) == next;
    assert [instr.out][..0] == [];
    assert Read(next, instr.out) == Outcome(env, instr);
    assert ReturnBits(next, []) == [];
    assert ReturnBits(next, [instr.out]) == ReturnBits(next, [instr.out][..0]) + Read(next, instr.out);
  }

  lemma TwoArguments(x: Operand, y: Operand, u: seq<bool>, v: seq<bool>)
    requires x.key != y.key && |u| == x.bits && |v| == y.bits
    ensures Width([x, y]) == |u + v|
    ensures InitialEnv([x, y], [], u + v) == map[x.key := u, y.key := v]
  {
    assert [x, y][..1] == [x] && [x][..0] == [];
    assert Width([x]) == x.bits && Width([]) == 0;
    assert ArgEnv([], u + v) == map[];
    assert (u + v)[0..x.bits] == u && (u + v)[x.bits..x.bits + y.bits] == v;
    assert ArgEnv([x], u + v) == map[x.key := u];
    assert ArgEnv([x, y], u + v) == ArgEnv([x, y][..1], u + v)[y.key := v];
  }

  /** A program that returns its two arguments gives the first one first. */
  method ReturnBoth(limit: nat) returns (c: Circuit)
    requires limit >= 3
    ensures c.InRange() && 2 <= c.numWires && Result(c, [true], [false]) == [true, false]
  {
    hide Meaning, Implements;
    var x, y := Named("x", 1), Named("y", 1);
    Sizes(x, y, Named("z", 2));
    assert FirstKeys([x, y], []) == {x.key, y.key} by {
      assert [x, y][0] == x && [x, y][1] == y;
    }
    var r := CompileProgram([x, y], [], [], [x, y], [IOArg(2, [])], [IOArg(2, [])], limit, true, (name, scope, version) => |name|);
    c := r.value;
    assert Garble.Runnable(c);
    assert Implements(c, [x, y], [], [], [x, y], [true] + [false]);
    BothPlaced(c, x, y, [true], [false]);
  }

  lemma BothPlaced(c: Circuit, x: Operand, y: Operand, u: seq<bool>, v: seq<bool>)
    requires x.bits == |u| == 1 && y.bits == |v| == 1 && x.key != y.key
    requires Implements(c, [x, y], [], [], [x, y], u + v) && Size(c.outputs) == 2
    ensures Meaning(c, u + v) == u + v
  {
    hide Meaning;
    TwoArguments(x, y, u, v);
    var env := Exec([], InitialEnv([x, y], [], u + v));
    var out := Meaning(c, u + v);
    assert ReturnPlaced(out, env, [x, y], 0, 0) && ReturnPlaced(out, env, [x, y], 1, 0);
    assert [x, y][..1] == [x] && [x, y][..0] == [] && [x][..0] == [];
    assert Width([x]) == 1;
  }

  // ----- Arguments of different widths -----

  /** The circuit is right on `u` for all values of the w-bit right argument. */
  ghost predicate RightOn(c: Circuit, op: ArithOp, u: seq<bool>, w: nat, n: nat)
    requires op != Udiv && op != Umod && c.InRange() && |u| + w <= c.numWires
  {
    forall v: seq<bool> :: |v| == w ==> Result(c, u, v) == ToBits(OwnArith(op, Own(u), Own(v), Max(|u|, w)), n)
  }

  /** The circuit of an instruction whose right operand is a wider value or literal
      is right on a left operand exactly when that one is kept. */
  method CompileNarrow(op: ArithOp, m: nat, w: nat, n: nat, limit: nat) returns (c: Circuit)
    requires op != Udiv && op != Umod && 0 < m < w && (n == m || n == w) && limit >= 3
    ensures c.InRange() && m + w <= c.numWires
    ensures forall u: seq<bool> :: |u| == m ==> (RightOn(c, op, u, w, n) <==> Kept(op, u, n))
  {
    hide Kept, Meaning, ArithBits, OwnArith, Outcome, RightOn;
    var instr := ArithOf(op, m, w, n);
    c := CompileBinary(instr, limit, true);
    forall u: seq<bool> | |u| == m ensures RightOn(c, op, u, w, n) <==> Kept(op, u, n) {
      NarrowLeft(op, u, w, n);
      RightIsAgreeing(c, op, u, w, n);
    }
  }

  lemma RightIsAgreeing(c: Circuit, op: ArithOp, u: seq<bool>, w: nat, n: nat)
    requires op != Udiv && op != Umod && c.InRange() && |u| + w <= c.numWires && |u| > 0 && Typed(ArithOf(op, |u|, w, n))
    requires var instr := ArithOf(op, |u|, w, n);
             forall u1: seq<bool>, v: seq<bool> :: |u1| == |u| && |v| == w ==> Result(c, u1, v) == Outcome(Given(instr, u1, v), instr)
    ensures RightOn(c, op, u, w, n) <==> forall v: seq<bool> :: |v| == w ==> ArithAgrees(op, u, v, n)
  {
    hide Kept, Meaning, ArithBits, OwnArith, ToBits, Own;
    var instr := ArithOf(op, |u|, w, n);
    forall v: seq<bool> | |v| == w
      ensures Result(c, u, v) == ToBits(OwnArith(op, Own(u), Own(v), Max(|u|, w)), n) <==> ArithAgrees(op, u, v, n)
    {
      WholeRead(instr, u, v);
      assert Result(c, u, v) == Outcome(Given(instr, u, v), instr);
    }
  }

  lemma WholeRead(instr: Instr, u: seq<bool>, v: seq<bool>)
    requires |Operands(instr)| == 2 && Operands(instr)[0].key != Operands(instr)[1].key
    requires |u| == Operands(instr)[0].bits && |v| == Operands(instr)[1].bits
    ensures Read(Given(instr, u, v), Operands(instr)[0]) == u && Read(Given(instr, u, v), Operands(instr)[1]) == v
  {
  }

  ghost predicate ComparesOn(c: Circuit, cmp: CompareOp, u: seq<bool>, w: nat)
    requires c.InRange() && |u| + w <= c.numWires
  {
    forall v: seq<bool> :: |v| == w ==> Result(c, u, v) == [CompareMeans(cmp, Own(u), Own(v))]
  }

  /** The circuit of a comparison with a wider value or literal is right on a left
      operand exactly when that one is not negative. */
  method CompileNarrowCompare(cmp: CompareOp, m: nat, w: nat, limit: nat) returns (c: Circuit)
    requires 0 < m < w && limit >= 3
    ensures c.InRange() && m + w <= c.numWires
    ensures forall u: seq<bool> :: |u| == m ==> (ComparesOn(c, cmp, u, w) <==> Own(u) >= 0)
  {
    hide Meaning, CompareMeans, Compared, NumberOf;
    var instr := CompareOf(cmp, m, w);
    c := CompileBinary(instr, limit, true);
    forall u: seq<bool> | |u| == m ensures ComparesOn(c, cmp, u, w) <==> Own(u) >= 0 {
      NarrowCompare(cmp, u, w);
      forall v: seq<bool> | |v| == w
        ensures Result(c, u, v) == [CompareMeans(cmp, Own(u), Own(v))] <==> CompareAgrees(cmp, u, v)
      {
        WholeRead(instr, u, v);
      }
    }
  }

  // ----- Inputs that show it -----

  lemma Powers()
    ensures Pow2(1) == 2 && Pow2(2) == 4 && Pow2(3) == 8 && Pow2(4) == 16 && Pow2(7) == 128 && Pow2(8) == 256
  {
    assert Pow2(5) == 32 && Pow2(6) == 64;
  }

  /** x < 5 for an 8-bit x and a literal: -1 is taken for 255. */
  method MinusOneLessThanFive(limit: nat) returns (c: Circuit)
    requires limit >= 3
    ensures c.InRange() && 40 <= c.numWires
    ensures Own(ToBits(-1, 8)) == -1 && Own(ToBits(5, 32)) == 5
    ensures Result(c, ToBits(-1, 8), ToBits(5, 32)) == [false]
  {
    hide Meaning, ToBits, FromBits, Pow2, NumberOf;
    c := CompileBinary(CompareOf(Lt, 8, 32), limit, true);
    Powers();
    Widening(8, 32);
    OwnToBits(-1, 8);
    OwnToBits(5, 32);
    TakenIsOwn(ToBits(-1, 8), 32);
    TakenIsOwn(ToBits(5, 32), 32);
    WholeRead(CompareOf(Lt, 8, 32), ToBits(-1, 8), ToBits(5, 32));
  }

  /** x / 3 for an 8-bit x and a literal: -6 is taken for 250, and 83 comes out
      where -2 is due. */
  method MinusSixByThree(limit: nat) returns (c: Circuit)
    requires limit >= 3
    ensures c.InRange() && 40 <= c.numWires
    ensures Own(ToBits(-6, 8)) == -6 && Own(ToBits(3, 32)) == 3 && TruncQuot(-6, 3, 32) == -2
    ensures Result(c, ToBits(-6, 8), ToBits(3, 32)) == ToBits(83, 8) != ToBits(-2, 8)
  {
    hide Meaning, ToBits, FromBits, Pow2, NumberOf;
    c := CompileBinary(ArithOf(Idiv, 8, 32, 8), limit, true);
    Powers();
    Widening(8, 32);
    OwnToBits(-6, 8);
    OwnToBits(3, 32);
    DivModUnique(250, 3, 83, 1);
    DivModUnique(6, 3, 2, 0);
    NotCong(83, -2, 256);
    SameBits(83, -2, 8);
    WholeRead(ArithOf(Idiv, 8, 32, 8), ToBits(-6, 8), ToBits(3, 32));
  }

  /** x % y on four bits at -7 and 2: 1 comes out where -1 is due. */
  method RestOfMinusSeven(limit: nat) returns (c: Circuit)
    requires limit >= 3
    ensures c.InRange() && 8 <= c.numWires
    ensures Own(ToBits(-7, 4)) == -7 && Own(ToBits(2, 4)) == 2 && TruncQuot(-7, 2, 4) == -3
    ensures Result(c, ToBits(-7, 4), ToBits(2, 4)) == ToBits(1, 4) != ToBits(-7 - -3 * 2, 4)
  {
    hide Meaning, ToBits, FromBits, Pow2, NumberOf;
    c := CompileBinary(ArithOf(Imod, 4, 4, 4), limit, true);
    Powers();
    OwnToBits(-7, 4);
    OwnToBits(2, 4);
    DivModUnique(7, 2, 3, 1);
    NotCong(1, -1, 16);
    SameBits(1, -1, 4);
    WholeRead(ArithOf(Imod, 4, 4, 4), ToBits(-7, 4), ToBits(2, 4));
  }

  /** x - y of single bits on three wires at 0 and 1: 3 comes out where 7 is due. */
  method ZeroMinusOne(limit: nat) returns (c: Circuit)
    requires limit >= 3
    ensures c.InRange() && 2 <= c.numWires
    ensures Result(c, [false], [true]) == ToBits(3, 3) != ToBits(0 - 1, 3)
  {
    hide Meaning, ToBits;
    c := CompileBinary(ArithOf(Sub, 1, 1, 3), limit, true);
    Powers();
    DivModUnique(-1, 4, -1, 3);
    NotCong(3, -1, 8);
    SameBits(3, -1, 3);
    assert FromBits([false]) == 0 && FromBits([true]) == 1;
    WholeRead(ArithOf(Sub, 1, 1, 3), [false], [true]);
  }
}
