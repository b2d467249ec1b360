/** Program.CompileCircuit (compiler/ssa/circuitgen.go): from a straight-line SSA
    program to a circuit, through construction, optimisation and numbering. */
module Program {
  import opened Nat
  import opened Circuit
  import opened Graph
  import opened Compiler
  import opened Propagate
  import opened Ssa
  import opened Lowering
  import opened Pipeline
  import opened Garble
  import Walloc = WireAllocator

  // ----- Inputs, constants and results -----

  function Width(args: seq<Operand>): nat {
    if args == [] then 0 else Width(args[..|args| - 1]) + args[|args| - 1].bits
  }

  /** The values of the arguments: consecutive input bits. */
  function ArgEnv(args: seq<Operand>, bits: seq<bool>): Env
    requires Width(args) <= |bits|
  {
    if args == [] then map[]
    else
      var n := |args| - 1;
      ArgEnv(args[..n], bits)[args[n].key := bits[Width(args[..n])..Width(args)]]
  }

  /** A constant: its value and bits. */
  datatype Constant = Constant(key: Key, bits: seq<bool>)

  /** Constants that are not defined yet are added. */
  function ConstEnv(env: Env, consts: seq<Constant>): Env {
    if consts == [] then env
    else
      var n := |consts| - 1;
      var e := ConstEnv(env, consts[..n]);
      if consts[n].key in e then e else e[consts[n].key := consts[n].bits]
  }

  function InitialEnv(args: seq<Operand>, consts: seq<Constant>, bits: seq<bool>): Env
    requires Width(args) <= |bits|
  {
    ConstEnv(ArgEnv(args, bits), consts)
  }

  /** The bits of the returned values, one after the other. */
  function ReturnBits(env: Env, rets: seq<Operand>): seq<bool>
    requires forall o :: o in rets ==> o.key in env
  {
    if rets == [] then []
    else
      assert forall o :: o in rets[..|rets| - 1] ==> o in rets;
      ReturnBits(env, rets[..|rets| - 1]) + Read(env, rets[|rets| - 1])
  }

  lemma {:induction false} ReturnWidth(env: Env, rets: seq<Operand>)
    requires forall o :: o in rets ==> o.key in env
    ensures |ReturnBits(env, rets)| == Width(rets)
  {
    if rets != [] {
      assert forall o :: o in rets[..|rets| - 1] ==> o in rets;
      ReturnWidth(env, rets[..|rets| - 1]);
    }
  }

  lemma {:induction false} ExecKeys(steps: seq<Instr>, env: Env)
    requires WellFormed(steps, env.Keys)
    ensures Exec(steps, env).Keys == KeysAfter(steps, env.Keys)
    decreases |steps|
  {
    if steps != [] {
      var next := env[steps[0].out.key := Outcome(env, steps[0])];
      assert next.Keys == env.Keys + {steps[0].out.key};
      ExecKeys(steps[1..], next);
    }
  }

  function KeysAfter(steps: seq<Instr>, keys: set<Key>): set<Key>
    decreases |steps|
  {
    if steps == [] then keys else KeysAfter(steps[1..], keys + {steps[0].out.key})
  }

  /** The names that are defined before the first step. */
  function FirstKeys(args: seq<Operand>, consts: seq<Constant>): set<Key> {
    (set i | 0 <= i < |args| :: args[i].key) + (set i | 0 <= i < |consts| :: consts[i].key)
  }

  // ----- Where arguments and results stand -----

  /** Bit `i` of returned value `j` stands behind all values returned before it. */
  ghost predicate ReturnPlaced(out: seq<bool>, env: Env, rets: seq<Operand>, j: nat, i: nat)
    requires j < |rets| && i < rets[j].bits
  {
    && rets[j].key in env && Width(rets[..j]) + i < |out|
    && out[Width(rets[..j]) + i] == Read(env, rets[j])[i]
  }

  lemma {:induction false} ReturnAt(env: Env, rets: seq<Operand>, j: nat, i: nat)
    requires (forall o :: o in rets ==> o.key in env) && j < |rets| && i < rets[j].bits
    ensures ReturnPlaced(ReturnBits(env, rets), env, rets, j, i)
    decreases |rets|
  {
    hide Read;
    var init := rets[..|rets| - 1];
    assert forall o :: o in init ==> o in rets;
    ReturnWidth(env, init);
    if j == |init| {
      assert rets[..j] == init && rets[j] in rets;
    } else {
      ReturnAt(env, init, j, i);
      assert init[..j] == rets[..j];
    }
  }

  /** The value of argument `j` are the input bits behind all earlier arguments. */
  lemma {:induction false} ArgumentAt(args: seq<Operand>, bits: seq<bool>, j: nat)
    requires Width(args) <= |bits| && j < |args| && DistinctNames(args)
    ensures var at := Width(args[..j]);
            && args[j].key in ArgEnv(args, bits) && at + args[j].bits <= |bits|
            && ArgEnv(args, bits)[args[j].key] == bits[at..at + args[j].bits]
    decreases |args|
  {
    var n := |args| - 1;
    WidthMono(args, n);
    if j < n {
      ArgumentAt(args[..n], bits, j);
      assert args[..n][..j] == args[..j] && args[n].key != args[j].key;
    }
  }

  /** A constant has the bits of the first constant of its name, unless the name was
      defined before. */
  lemma {:induction false} ConstantAt(env: Env, consts: seq<Constant>, j: nat)
    requires j < |consts| && consts[j].key !in env && forall i :: 0 <= i < j ==> consts[i].key != consts[j].key
    ensures consts[j].key in ConstEnv(env, consts) && ConstEnv(env, consts)[consts[j].key] == consts[j].bits
    decreases |consts|
  {
    var n := |consts| - 1;
    if j < n {
      ConstantAt(env, consts[..n], j);
    } else {
      NotDefined(env, consts[..n], consts[n].key);
    }
  }

  lemma {:induction false} NotDefined(env: Env, consts: seq<Constant>, k: Key)
    requires k !in env && forall i :: 0 <= i < |consts| ==> consts[i].key != k
    ensures k !in ConstEnv(env, consts)
  {
    if consts != [] {
      NotDefined(env, consts[..|consts| - 1], k);
    }
  }

  /** What was defined before keeps its value. */
  lemma {:induction false} DefinedStays(env: Env, consts: seq<Constant>, k: Key)
    requires k in env
    ensures k in ConstEnv(env, consts) && ConstEnv(env, consts)[k] == env[k]
  {
    if consts != [] {
      DefinedStays(env, consts[..|consts| - 1], k);
    }
  }

  // ----- The same on wires -----

  /** Two arguments of one name would share their wires. */
  predicate DistinctNames(args: seq<Operand>) {
    forall i, j :: 0 <= i < j < |args| ==> args[i].key != args[j].key
  }

  /** The wires of the arguments, in order. */
  method BindInputs(t: Walloc.WireAllocator, args: seq<Operand>) returns (ghost env: WireEnv)
    requires Stands(t, map[]) && DistinctNames(args)
    modifies t, t.heads
    ensures Stands(t, env)
    ensures env.Keys == set i | 0 <= i < |args| :: args[i].key
    ensures forall k, w :: k in env && w in env[k] ==> w < Width(args)
    ensures forall asg, bits :: InputBitsOf(bits, asg, Width(args)) ==> BitsOf(asg, env) == ArgEnv(args, bits)
  {
    hide Bits, BitsOf, Stands;
    env := map[];
    forall asg ensures BitsOf(asg, env) == map[] { NothingBound(asg); }
    var next := 0;
    for idx := 0 to |args|
      invariant next == Width(args[..idx]) <= Width(args) && Stands(t, env)
      invariant env.Keys == set i | 0 <= i < idx :: args[i].key
      invariant forall k, w :: k in env && w in env[k] ==> w < next
      invariant forall asg, bits :: InputBitsOf(bits, asg, Width(args)) ==> BitsOf(asg, env) == ArgEnv(args[..idx], bits)
    {
      assert args[..idx + 1][..idx] == args[..idx];
      WidthMono(args, idx + 1);
      ghost var before := env;
      var ws := seq(args[idx].bits, i requires 0 <= i => next + i);
      Bind(t, env, args[idx].key, ws, false);
      env := env[args[idx].key := ws];
      forall asg, bits | InputBitsOf(bits, asg, Width(args))
        ensures BitsOf(asg, env) == ArgEnv(args[..idx + 1], bits)
      {
        ArgStep(asg, before, args[idx].key, ws, bits, next);
      }
      next := next + args[idx].bits;
    }
    assert args[..|args|] == args;
  }

  lemma NothingBound(asg: Asg)
    ensures BitsOf(asg, map[]) == map[]
  {
  }

  lemma ArgStep(asg: Asg, env: WireEnv, k: Key, ws: seq<nat>, bits: seq<bool>, next: nat)
    requires next + |ws| <= |bits| && forall i :: 0 <= i < |bits| ==> (bits[i] <==> i in asg)
    requires forall i :: 0 <= i < |ws| ==> ws[i] == next + i
    ensures BitsOf(asg, env[k := ws]) == BitsOf(asg, env)[k := bits[next..next + |ws|]]
  {
    assert Bits(asg, ws) == bits[next..next + |ws|];
  }

  lemma {:induction false} WidthMono(args: seq<Operand>, n: nat)
    requires n <= |args|
    ensures Width(args[..n]) <= Width(args)
    decreases |args|
  {
    if n == |args| {
      assert args[..n] == args;
    } else {
      WidthMono(args[..|args| - 1], n);
      assert args[..|args| - 1][..n] == args[..n];
    }
  }

  /** A constant that is not defined yet gets one of the two constant wires for
      each bit. */
  method BindConstant(t: Walloc.WireAllocator, ghost env: WireEnv, c: Constant, zero: nat, one: nat) returns (ghost next: WireEnv)
    requires Stands(t, env)
    modifies t, t.heads
    ensures Stands(t, next) && next.Keys == env.Keys + {c.key}
    ensures forall k, w :: k in next && w in next[k] ==> w == zero || w == one || (k in env && w in env[k])
    ensures forall asg :: zero !in asg && one in asg ==>
              BitsOf(asg, next) == if c.key in env then BitsOf(asg, env) else BitsOf(asg, env)[c.key := c.bits]
  {
    hide Bits, BitsOf, Stands;
    next := env;
    var defined := Known(t, env, c.key);
    if !defined {
      var ws := ConstantWires(c.bits, zero, one);
      Bind(t, env, c.key, ws, true);
      next := env[c.key := ws];
      forall asg | zero !in asg && one in asg ensures BitsOf(asg, next) == BitsOf(asg, env)[c.key := c.bits] {
        ConstantBound(asg, env, c, ws, zero, one);
      }
    }
  }

  /** DefineConstants. */
  method BindConstants(t: Walloc.WireAllocator, ghost env0: WireEnv, consts: seq<Constant>, zero: nat, one: nat) returns (ghost env: WireEnv)
    requires Stands(t, env0)
    modifies t, t.heads
    ensures Stands(t, env)
    ensures env.Keys == env0.Keys + set i | 0 <= i < |consts| :: consts[i].key
    ensures forall k, w :: k in env && w in env[k] ==> w == zero || w == one || (k in env0 && w in env0[k])
    ensures forall asg :: zero !in asg && one in asg ==> BitsOf(asg, env) == ConstEnv(BitsOf(asg, env0), consts)
  {
    hide Bits, BitsOf, Stands;
    env := env0;
    for idx := 0 to |consts|
      invariant Stands(t, env)
      invariant env.Keys == env0.Keys + set i | 0 <= i < idx :: consts[i].key
      invariant forall k, w :: k in env && w in env[k] ==> w == zero || w == one || (k in env0 && w in env0[k])
      invariant forall asg :: zero !in asg && one in asg ==> BitsOf(asg, env) == ConstEnv(BitsOf(asg, env0), consts[..idx])
    {
      assert consts[..idx + 1][..idx] == consts[..idx];
      env := BindConstant(t, env, consts[idx], zero, one);
    }
    assert consts[..|consts|] == consts;
  }

  /** Allocated */
  method Known(t: Walloc.WireAllocator, ghost env: WireEnv, k: Key) returns (known: bool)
    requires Stands(t, env)
    modifies t, t.heads
    ensures Stands(t, env) && (known <==> k in env)
  {
    hide Walloc.WireAllocator.Valid, Walloc.WireAllocator.Get;
    StandsAt(t, env, k);
    known := t.Allocated(k);
  }

  lemma ConstantBound(asg: Asg, env: WireEnv, c: Constant, ws: seq<nat>, zero: nat, one: nat)
    requires |ws| == |c.bits| && forall i :: 0 <= i < |ws| ==> ws[i] == if c.bits[i] then one else zero
    requires zero !in asg && one in asg
    ensures BitsOf(asg, env[c.key := ws]) == BitsOf(asg, env)[c.key := c.bits]
  {
    assert Bits(asg, ws) == c.bits;
  }

  method ConstantWires(bits: seq<bool>, zero: nat, one: nat) returns (ws: seq<nat>)
    ensures |ws| == |bits| && forall i :: 0 <= i < |ws| ==> ws[i] == if bits[i] then one else zero
  {
    ws := [];
    for bit := 0 to |bits|
      invariant |ws| == bit && forall i :: 0 <= i < bit ==> ws[i] == if bits[i] then one else zero
    {
      ws := ws + [if bits[bit] then one else zero];
    }
  }

  /** The wires of the returned values. */
  method ReturnWires(cc: Compiler, t: Walloc.WireAllocator, ghost env: WireEnv, rets: seq<Operand>) returns (ws: seq<nat>)
    requires cc.G().Built() && EnvDriven(cc.G(), env) && Stands(t, env) && forall o :: o in rets ==> o.key in env
    modifies cc, t, t.heads
    ensures Stands(t, env)
    ensures cc.G().Built() && Grows(old(cc.G()), cc.G(), {}) && cc.G().AllDriven(ws) && |ws| == Width(rets)
    ensures forall asg :: Sat(cc.table, asg) ==> Bits(asg, ws) == ReturnBits(BitsOf(asg, env), rets)
  {
    hide State.Built, Sat, Grows, State.Driven, EnvDriven, Read, Bits, BitsOf, Stands;
    ghost var s0 := cc.G();
    GrowsRefl(s0);
    ws := [];
    forall asg ensures Bits(asg, ws) == [] { NoBitsOn(asg); }
    var n := |rets|;
    for i := 0 to n
      invariant cc.G().Built() && Grows(s0, cc.G(), {}) && cc.G().AllDriven(ws) && |ws| == Width(rets[..i])
      invariant Stands(t, env) && forall o :: o in rets[..i] ==> o in rets
      invariant forall asg :: Sat(cc.table, asg) ==> Bits(asg, ws) == ReturnBits(BitsOf(asg, env), rets[..i])
    {
      ghost var s1, before := cc.G(), ws;
      EnvKept(s0, s1, env);
      assert rets[i] in rets;
      assert rets[..i + 1][..i] == rets[..i] && rets[..i + 1] == rets[..i] + [rets[i]];
      var w := OperandWires(cc, t, env, rets[i]);
      GrowsTrans(s0, s1, cc.G(), {}, {});
      KeepAll(s1, cc.G(), ws);
      ws := ws + w;
      forall asg | Sat(cc.table, asg) ensures Bits(asg, ws) == ReturnBits(BitsOf(asg, env), rets[..i + 1]) {
        SatPrefix(s1.table, cc.table, asg);
        BitsJoin(asg, before, w);
      }
    }
    assert rets[..n] == rets;
  }

  lemma NoBitsOn(asg: Asg)
    ensures Bits(asg, []) == []
  {
  }

  // ----- The compiler -----

  /** Compilation is correct: for every well-formed program, every multiplier
      threshold and hash function, with or without pruning, and for all input bits, the circuit's
      meaning is what the interpreter returns; and the circuit is fit for
      garbling.  At least one input bit is required. */
  method CompileProgram(args: seq<Operand>, consts: seq<Constant>, steps: seq<Instr>, rets: seq<Operand>,
                        inputs: seq<IOArg>, outputs: seq<IOArg>, limit: nat, prune: bool, hash: Walloc.Hash) returns (r: Result<Circuit>)
    requires WellFormed(steps, FirstKeys(args, consts)) && limit >= 3 && DistinctNames(args)
    requires forall o :: o in rets ==> o.key in KeysAfter(steps, FirstKeys(args, consts))
    requires Size(inputs) == Width(args) == Sum(Flatten(inputs)) && Size(outputs) == Width(rets)
    ensures r.Ok? <==> Width(args) > 0
    ensures r.Ok? ==> r.value.inputs == inputs && r.value.outputs == outputs
    ensures r.Ok? ==> Runnable(r.value) && InputsUntouched(r.value.gates, Size(inputs)) && (prune ==> NoWaste(r.value))
    ensures r.Ok? ==> forall bits :: |bits| == Width(args) ==> Implements(r.value, args, consts, steps, rets, bits)
  {
    hide State.Built, ConstantsFirst, Sat, Grows, EnvDriven, WellFormed, KeysAfter, Finishable, Size, Sum, Flatten, NoOutputs, Runnable;
    hide InputsUntouched, NoWaste, Implements, BitsOf, Width, Stands, Walloc.WireAllocator.Valid, Walloc.WireAllocator.Get;
    var k := Width(args);
    if k == 0 {
      return Err;
    }
    var t := new Walloc.WireAllocator(hash);
    StandsEmpty(t);
    ghost var env := BindInputs(t, args);
    ghost var args0 := env;
    var cc := NewCompiler(k);
    ghost var s0 := cc.G();
    var zero, one := ConstantWiresOf(cc);
    env := BindConstants(t, env, consts, zero, one);
    FirstDriven(s0, args0, env, zero, one, k);
    ghost var env1 := env;
    env := LowerProgram(cc, t, limit, env, steps);
    ghost var s1 := cc.G();
    LastKeys(s1, steps, env1, env, rets);
    var ws := ReturnWires(cc, t, env, rets);
    ghost var s2 := cc.G();
    GrowsTrans(s0, s1, s2, {}, {});
    ConstantsStay(s0, s2, {});
    OutputsStay(s0, s2, {});
    var outs := Return(cc, ws);
    ghost var s3 := cc.G();
    var c := CompileCircuit(cc, outs, inputs, outputs, prune);
    Tables(s0, s1, s2, s3, c, k);
    forall bits | |bits| == k ensures Implements(c, args, consts, steps, rets, bits) {
      ProgramMeans(s0, s1, s2, s3, args, consts, steps, rets, args0, env1, env, ws, outs, zero, one, c, bits);
    }
    return Ok(c);
  }

  lemma StandsEmpty(t: Walloc.WireAllocator)
    requires t.Valid() && forall k: Key :: t.Get(k) == None
    ensures Stands(t, map[])
  {
  }

  /** The circuit computes the program on these input bits. */
  ghost predicate Implements(c: Circuit, args: seq<Operand>, consts: seq<Constant>, steps: seq<Instr>, rets: seq<Operand>, bits: seq<bool>) {
    && c.InRange() && |bits| <= c.numWires && Width(args) <= |bits|
    && var env := InitialEnv(args, consts, bits);
       WellFormed(steps, env.Keys) && (forall o :: o in rets ==> o.key in Exec(steps, env)) &&
       Meaning(c, bits) == ReturnBits(Exec(steps, env), rets) &&
       forall j, i :: 0 <= j < |rets| && 0 <= i < rets[j].bits ==> ReturnPlaced(Meaning(c, bits), Exec(steps, env), rets, j, i)
  }

  method ConstantWiresOf(cc: Compiler) returns (zero: nat, one: nat)
    requires cc.G().Built() && ConstantsFirst(cc.G())
    ensures cc.zero == Some(zero) && cc.one == Some(one) && cc.G().Driven(zero) && cc.G().Driven(one)
    ensures forall asg :: Sat(cc.table, asg) ==> zero !in asg && one in asg
  {
    ConstantsHold(cc.G());
    zero, one := cc.zero.value, cc.one.value;
  }

  lemma Tables(s0: State, s1: State, s2: State, s3: State, c: Circuit, k: nat)
    requires Grows(s0, s1, {}) && Grows(s1, s2, {}) && s2.table <= s3.table && Runnable(c) && Size(c.inputs) == k
    ensures s0.table <= s1.table <= s2.table <= s3.table && c.InRange() && k <= c.numWires
  {
  }

  lemma FirstDriven(s: State, args: WireEnv, env: WireEnv, zero: nat, one: nat, k: nat)
    requires s.Driven(zero) && s.Driven(one) && forall w :: 0 <= w < k ==> s.Driven(w)
    requires forall key, w :: key in args && w in args[key] ==> w < k
    requires forall key, w :: key in env && w in env[key] ==> w == zero || w == one || (key in args && w in args[key])
    ensures EnvDriven(s, env)
  {
    forall key, i | key in env && 0 <= i < |env[key]| ensures s.Driven(env[key][i]) {
      assert env[key][i] in env[key];
      assert key in args && env[key][i] in args[key] ==> env[key][i] < k;
    }
  }

  lemma LastKeys(s: State, steps: seq<Instr>, env: WireEnv, last: WireEnv, rets: seq<Operand>)
    requires s.Built() && WellFormed(steps, env.Keys)
    requires forall asg :: Sat(s.table, asg) ==> BitsOf(asg, last) == Exec(steps, BitsOf(asg, env))
    requires forall o :: o in rets ==> o.key in KeysAfter(steps, env.Keys)
    ensures forall o :: o in rets ==> o.key in last
  {
    hide State.Built, Sat, WellFormed, KeysAfter, Exec;
    EveryInputHasMeaning(s, {});
    var asg :| Sat(s.table, asg) && ShortXor.Agree({}, asg, s.k);
    assert BitsOf(asg, env).Keys == env.Keys && BitsOf(asg, last).Keys == last.Keys;
    ExecKeys(steps, BitsOf(asg, env));
    forall o | o in rets ensures o.key in last {
      assert o.key in BitsOf(asg, last).Keys;
    }
  }

  lemma ProgramMeans(s0: State, s1: State, s2: State, s3: State, args: seq<Operand>, consts: seq<Constant>, steps: seq<Instr>, rets: seq<Operand>,
                     args0: WireEnv, env1: WireEnv, env: WireEnv, ws: seq<nat>, outs: seq<nat>, zero: nat, one: nat, c: Circuit, bits: seq<bool>)
    requires s3.Built() && s3.k == Width(args) == |bits| && s0.table <= s1.table <= s2.table <= s3.table
    requires forall asg, bits :: InputBitsOf(bits, asg, Width(args)) ==> BitsOf(asg, args0) == ArgEnv(args, bits)
    requires forall asg :: zero !in asg && one in asg ==> BitsOf(asg, env1) == ConstEnv(BitsOf(asg, args0), consts)
    requires forall asg :: Sat(s0.table, asg) ==> zero !in asg && one in asg
    requires WellFormed(steps, env1.Keys)
    requires forall asg :: Sat(s1.table, asg) ==> BitsOf(asg, env) == Exec(steps, BitsOf(asg, env1))
    requires forall o :: o in rets ==> o.key in env
    requires forall asg :: Sat(s2.table, asg) ==> Bits(asg, ws) == ReturnBits(BitsOf(asg, env), rets)
    requires |outs| == |ws|
    requires forall asg :: Sat(s3.table, asg) ==> forall i :: 0 <= i < |ws| ==> (outs[i] in asg <==> ws[i] in asg)
    requires c.InRange() && Width(args) <= c.numWires
    requires forall asg, bits :: Sat(s3.table, asg) && InputBitsOf(bits, asg, Width(args)) ==> Meaning(c, bits) == OutputBits(outs, asg)
    ensures Implements(c, args, consts, steps, rets, bits)
  {
    hide State.Built, Sat, WellFormed, Exec, ReturnBits, ConstEnv, ArgEnv, Meaning, BitsOf;
    var inputs := set i | 0 <= i < |bits| && bits[i];
    EveryInputHasMeaning(s3, inputs);
    var asg :| Sat(s3.table, asg) && ShortXor.Agree(inputs, asg, s3.k);
    assert InputBitsOf(bits, asg, Width(args));
    SatPrefix(s2.table, s3.table, asg);
    SatPrefix(s1.table, s2.table, asg);
    SatPrefix(s0.table, s1.table, asg);
    assert OutputBits(outs, asg) == Bits(asg, ws);
    assert BitsOf(asg, env1) == InitialEnv(args, consts, bits);
    var final := Exec(steps, BitsOf(asg, env1));
    forall j, i | 0 <= j < |rets| && 0 <= i < rets[j].bits ensures ReturnPlaced(Meaning(c, bits), final, rets, j, i) {
      ReturnAt(final, rets, j, i);
    }
  }
}
