/** Constant propagation over the gate graph: ConstPropagate of
    compiler/circuits/compiler.go with the rewiring operations of gates.go and
    wire.go.  Reader lists may keep gates that have moved away; what every step
    keeps is stated by `Progress`. */
module Propagate {
  import opened Circuit
  import opened Graph
  import opened Compiler

  // ----- Counting readers -----

  /** How many ports of gate `g` read wire `w`. */
  function ReadsOf(g: Node, w: nat): nat {
    (if g.a == w then 1 else 0) + (if g.op != INV && g.b == w then 1 else 0)
  }

  function LiveReads(g: Node, w: nat): nat {
    if g.dead then 0 else ReadsOf(g, w)
  }

  /** The number of ports of live gates that read wire `w`. */
  function Count(t: seq<Node>, w: nat): nat {
    if t == [] then 0 else Count(t[..|t| - 1], w) + LiveReads(t[|t| - 1], w)
  }

  lemma {:induction false} CountUpdate(t: seq<Node>, r: nat, g: Node, w: nat)
    requires r < |t|
    ensures Count(t[r := g], w) == Count(t, w) - LiveReads(t[r], w) + LiveReads(g, w)
  {
    var n := |t| - 1;
    if r < n {
      CountUpdate(t[..n], r, g, w);
      assert t[r := g][..n] == t[..n][r := g];
    } else {
      assert t[r := g][..n] == t[..n];
    }
  }

  lemma {:induction false} CountZero(t: seq<Node>, w: nat)
    requires forall r :: 0 <= r < |t| ==> LiveReads(t[r], w) == 0
    ensures Count(t, w) == 0
  {
    if t != [] {
      CountZero(t[..|t| - 1], w);
    }
  }

  lemma {:induction false} CountOne(t: seq<Node>, r: nat, w: nat)
    requires r < |t|
    ensures Count(t, w) >= LiveReads(t[r], w)
  {
    if r < |t| - 1 {
      CountOne(t[..|t| - 1], r, w);
    }
  }

  /** While nothing is dead the ports of a wire are all its readers, each as
      often as it reads the wire. */
  lemma {:induction false} PortsCounted(t: seq<Node>, w: nat)
    requires forall r :: 0 <= r < |t| ==> !t[r].dead
    ensures |Ports(t, w)| == Count(t, w)
    ensures forall r: nat :: multiset(Ports(t, w))[r] == if r < |t| then ReadsOf(t[r], w) else 0
  {
    if t != [] {
      var n := |t| - 1;
      PortsCounted(t[..n], w);
      forall r: nat
        ensures multiset(Ports(t, w))[r] == if r < |t| then ReadsOf(t[r], w) else 0
      {
        assert multiset(PortsOf(t[n], n, w))[r] == if r == n then ReadsOf(t[n], w) else 0;
      }
    }
  }

  // ----- The invariant -----

  predicate SameButPorts(g: Node, h: Node) {
    g == h.(a := g.a, b := g.b)
  }

  /** Only input ports, reader lists, counts and flags have changed. */
  ghost predicate Core(s0: State, s: State) {
    && s0.k == s.k && s0.inv == s.inv && s0.zero == s.zero && s0.one == s.one
    && |s0.wires| == |s.wires| && |s0.table| == |s.table|
    && (forall j :: 0 <= j < |s.table| ==> SameButPorts(s.table[j], s0.table[j]))
    && (forall w :: 0 <= w < |s.wires| ==> SameButReaders(s.wires[w], s0.wires[w]))
    && (forall j :: 0 <= j < |s.table| ==> Drives(s, j))
    && (forall w :: 0 <= w < s.k && w < |s.wires| ==> s.wires[w].input.None?)
  }

  predicate Drives(s: State, j: nat)
    requires j < |s.table|
  {
    s.k <= s.table[j].o < |s.wires| && s.wires[s.table[j].o].input == Some(j) && !s.table[j].op.Other?
  }

  predicate SameButReaders(v: Wire, w: Wire) {
    v == w.(value := v.value, num := v.num, readers := v.readers)
  }

  /** Every gate reads only wires that have a value before it. */
  ghost predicate Sourced(s: State) {
    forall j :: 0 <= j < |s.table| ==>
      s.Before(s.table[j].a, j) && s.table[j].b < |s.wires| && (s.table[j].op != INV ==> s.Before(s.table[j].b, j))
  }

  /** The count in the packed word is the number of ports. */
  ghost predicate Counted(s: State) {
    forall w :: 0 <= w < |s.wires| ==> s.wires[w].num == Count(s.table, w)
  }

  /** Every gate is in the list of every wire it reads. */
  ghost predicate Covered(s: State) {
    && (forall j :: 0 <= j < |s.table| ==> CoveredGate(s, j))
    && (forall w :: 0 <= w < |s.wires| ==> ListOk(s, w))
  }

  ghost predicate ListOk(s: State, w: nat)
    requires w < |s.wires|
  {
    forall x :: 0 <= x < |s.wires[w].readers| ==> s.wires[w].readers[x] < |s.table|
  }

  predicate CoveredGate(s: State, j: nat)
    requires j < |s.table|
  {
    var g := s.table[j];
    && (g.a < |s.wires| ==> j in s.wires[g.a].readers)
    && (g.op != INV && g.b < |s.wires| ==> j in s.wires[g.b].readers)
  }

  /** The list of `w` from entry `x` on names every remaining reader exactly as
      often as it reads `w`. */
  ghost predicate ExactList(t: seq<Node>, readers: seq<nat>, w: nat) {
    forall r: nat :: multiset(readers)[r] == if r < |t| then ReadsOf(t[r], w) else 0
  }

  /** Wire `w` is no wire that a gate from `i` on drives. */
  predicate Settled(s: State, w: nat, i: nat) {
    w < |s.wires| && (s.wires[w].input.Some? ==> s.wires[w].input.value < i)
  }

  /** The lists of wires that later gates drive hold no stale entries. */
  ghost predicate ExactFrom(s: State, i: nat) {
    forall w :: 0 <= w < |s.wires| && !Settled(s, w, i) ==> ExactList(s.table, s.wires[w].readers, w)
  }

  ghost predicate Same(s0: State, u: nat, v: nat) {
    forall asg :: Sat(s0.table, asg) ==> (u in asg <==> v in asg)
  }

  /** Every assignment that obeys the gates of `s0` obeys those of `s`. */
  ghost predicate Follows(s0: State, s: State) {
    forall asg :: Sat(s0.table, asg) ==> Sat(s.table, asg)
  }

  predicate FlagHolds(v: Value, w: nat, asg: Asg) {
    (v == Zero ==> w !in asg) && (v == One ==> w in asg)
  }

  /** A wire marked Zero or One has that value under all inputs. */
  ghost predicate FlagsTrue(s0: State, s: State) {
    forall asg, w :: Sat(s0.table, asg) && 0 <= w < |s.wires| ==> FlagHolds(s.wires[w].value, w, asg)
  }

  ghost predicate NoneDead(s: State) {
    forall j :: 0 <= j < |s.table| ==> !s.table[j].dead
  }

  /** The first three gates make the inverse of input 0 and the two constant
      wires, as the compiler does before anything else. */
  ghost predicate ConstantsFirst(s: State) {
    && s.inv.Some? && s.zero.Some? && s.one.Some? && |s.table| >= 3
    && s.inv.value < |s.wires| && s.wires[s.inv.value].input == Some(0) && s.k > 0
    && s.zero.value < |s.wires| && s.wires[s.zero.value].input == Some(1)
    && s.one.value < |s.wires| && s.wires[s.one.value].input == Some(2)
    && s.table[0] == NewNode(INV, 0, 0, s.inv.value)
    && s.table[1] == NewNode(AND, 0, s.inv.value, s.zero.value)
    && s.table[2] == NewNode(OR, 0, s.inv.value, s.one.value)
    && s.wires[0].input.None?
  }

  /** What holds between any two steps of the pass, once the gates before `i`
      have been looked at. */
  ghost predicate Progress(s0: State, s: State, i: nat) {
    && Core(s0, s) && Sourced(s) && Counted(s) && Covered(s) && NoneDead(s)
    && ExactFrom(s, i) && Follows(s0, s) && FlagsTrue(s0, s)
  }

  lemma ProgressLater(s0: State, s: State, i: nat, j: nat)
    requires Progress(s0, s, i) && i <= j
    ensures Progress(s0, s, j)
  {
    hide Sourced, Counted, Covered, NoneDead, Follows, FlagsTrue, Core, ExactList;
  }

  lemma BuiltProgress(s: State)
    requires s.Built() && s.zero.Some? && s.one.Some?
    ensures Progress(s, s, 0)
  {
    hide Count, ExactList, CoveredGate, ListOk, State.WireOk, State.Placed, State.InvOk, Ports, Sat;
    forall j | 0 <= j < |s.table|
      ensures s.Before(s.table[j].a, j) && s.Before(s.table[j].b, j) && !s.table[j].dead && Drives(s, j)
    {
      assert s.Placed(j);
      PlacedGate(s, j);
    }
    forall w | 0 <= w < |s.wires|
      ensures s.wires[w].num == Count(s.table, w) && ExactList(s.table, s.wires[w].readers, w)
      ensures w < s.k ==> s.wires[w].input.None?
      ensures ListOk(s, w)
    {
      assert s.WireOk(w);
      BuiltWire(s, w);
    }
    forall j | 0 <= j < |s.table| ensures CoveredGate(s, j) {
      BuiltCovers(s, j);
    }
    forall asg, w | Sat(s.table, asg) && 0 <= w < |s.wires|
      ensures FlagHolds(s.wires[w].value, w, asg)
    {
      assert s.WireOk(w);
      BuiltFlag(s, w);
    }
  }

  lemma PlacedGate(s: State, j: nat)
    requires j < |s.table| && s.Placed(j)
    ensures s.Before(s.table[j].a, j) && s.Before(s.table[j].b, j) && !s.table[j].dead && Drives(s, j)
  {
  }

  lemma BuiltFlag(s: State, w: nat)
    requires w < |s.wires| && s.WireOk(w)
    ensures s.wires[w].value == s.ValueOf(w)
  {
  }

  lemma BuiltWire(s: State, w: nat)
    requires NoneDead(s) && w < |s.wires| && s.WireOk(w)
    ensures s.wires[w].num == Count(s.table, w) && ExactList(s.table, s.wires[w].readers, w)
    ensures w < s.k ==> s.wires[w].input.None?
    ensures ListOk(s, w)
  {
    PortsCounted(s.table, w);
    forall x | 0 <= x < |s.wires[w].readers| ensures s.wires[w].readers[x] < |s.table| {
      assert s.wires[w].readers[x] in multiset(s.wires[w].readers);
    }
  }

  lemma BuiltCovers(s: State, j: nat)
    requires NoneDead(s) && j < |s.table|
    requires forall w :: 0 <= w < |s.wires| ==> ExactList(s.table, s.wires[w].readers, w)
    ensures CoveredGate(s, j)
  {
    var g := s.table[j];
    if g.a < |s.wires| {
      assert multiset(s.wires[g.a].readers)[j] == ReadsOf(g, g.a);
      assert j in multiset(s.wires[g.a].readers);
    }
    if g.op != INV && g.b < |s.wires| {
      assert multiset(s.wires[g.b].readers)[j] == ReadsOf(g, g.b);
      assert j in multiset(s.wires[g.b].readers);
    }
  }

  // ----- Moving one port -----

  function PortOf(g: Node, second: bool): nat {
    if second then g.b else g.a
  }

  function SetPort(g: Node, second: bool, to: nat): Node {
    if second then g.(b := to) else g.(a := to)
  }

  /** RemoveOutput only decrements the count. */
  function Drop(ws: seq<Wire>, w: nat): seq<Wire>
    requires w < |ws| && ws[w].num > 0
  {
    ws[w := ws[w].(num := ws[w].num - 1)]
  }

  ghost predicate Moves(s: State, t: State, r: nat, second: bool, to: nat)
  {
    && r < |s.table| && PortOf(s.table[r], second) < |s.wires| && to < |s.wires|
    && s.wires[PortOf(s.table[r], second)].num > 0
    && t == s.(wires := Bump(Drop(s.wires, PortOf(s.table[r], second)), to, r),
               table := s.table[r := SetPort(s.table[r], second, to)])
  }

  /** RemoveOutput, AddOutput and the assignment of the port. */
  method Move(cc: Compiler, r: nat, second: bool, to: nat)
    requires r < |cc.table| && PortOf(cc.table[r], second) < |cc.wires| && to < |cc.wires|
    requires cc.wires[PortOf(cc.table[r], second)].num > 0
    modifies cc
    ensures Moves(old(cc.G()), cc.G(), r, second, to)
  {
    cc.wires := Drop(cc.wires, PortOf(cc.table[r], second));
    cc.AddOutput(to, r);
    cc.table := cc.table[r := SetPort(cc.table[r], second, to)];
  }

  lemma MoveCounts(s: State, t: State, r: nat, second: bool, to: nat)
    requires Counted(s) && NoneDead(s) && Moves(s, t, r, second, to) && (second ==> s.table[r].op != INV)
    ensures Counted(t) && NoneDead(t)
  {
    hide Count;
    forall w | 0 <= w < |t.wires|
      ensures t.wires[w].num == Count(t.table, w)
    {
      CountUpdate(s.table, r, SetPort(s.table[r], second, to), w);
    }
  }

  lemma MoveSourced(s: State, t: State, r: nat, second: bool, to: nat)
    requires Sourced(s) && Moves(s, t, r, second, to) && s.Before(to, r)
    ensures Sourced(t)
  {
    forall w | 0 <= w < |t.wires| ensures t.wires[w].input == s.wires[w].input {}
    forall j | 0 <= j < |t.table|
      ensures t.Before(t.table[j].a, j) && t.table[j].b < |t.wires| && (t.table[j].op != INV ==> t.Before(t.table[j].b, j))
    {
      assert s.Before(s.table[j].a, j);
    }
  }

  lemma MoveCovers(s: State, t: State, r: nat, second: bool, to: nat)
    requires Covered(s) && Moves(s, t, r, second, to)
    ensures Covered(t)
  {
    forall w | 0 <= w < |s.wires|
      ensures s.wires[w].readers <= t.wires[w].readers
    {
    }
    forall j | 0 <= j < |t.table| ensures CoveredGate(t, j) {
      assert CoveredGate(s, j);
      assert r == t.wires[to].readers[|s.wires[to].readers|];
    }
    forall w | 0 <= w < |t.wires| ensures ListOk(t, w) {
      assert ListOk(s, w);
    }
  }

  lemma MoveExact(s: State, t: State, r: nat, second: bool, to: nat, i: nat)
    requires ExactFrom(s, i) && Moves(s, t, r, second, to)
    requires Settled(s, to, i) && Settled(s, PortOf(s.table[r], second), i)
    ensures ExactFrom(t, i)
  {
    forall w | 0 <= w < |t.wires| && !Settled(t, w, i)
      ensures ExactList(t.table, t.wires[w].readers, w)
    {
      assert !Settled(s, w, i);
      assert t.wires[w] == s.wires[w];
      ExactMoved(s, t, r, second, to, w);
    }
  }

  lemma ExactMoved(s: State, t: State, r: nat, second: bool, to: nat, w: nat)
    requires Moves(s, t, r, second, to) && w != to && w != PortOf(s.table[r], second)
    requires w < |s.wires| && ExactList(s.table, s.wires[w].readers, w) && t.wires[w] == s.wires[w]
    ensures ExactList(t.table, t.wires[w].readers, w)
  {
    assert ReadsOf(t.table[r], w) == ReadsOf(s.table[r], w);
  }

  lemma MoveFollows(s0: State, s: State, t: State, r: nat, second: bool, to: nat)
    requires Follows(s0, s) && Moves(s, t, r, second, to)
    requires Same(s0, PortOf(s.table[r], second), to) && (second ==> s.table[r].op != INV)
    ensures Follows(s0, t)
  {
    forall asg | Sat(s0.table, asg)
      ensures Sat(t.table, asg)
    {
      assert Sat(s.table, asg) && Holds(s.table[r], asg);
      forall j | 0 <= j < |t.table| ensures Holds(t.table[j], asg) {
        assert Holds(s.table[j], asg);
      }
    }
  }

  /** Moving a port to a wire of equal value keeps the invariant. */
  lemma MoveKeeps(s0: State, s: State, t: State, r: nat, second: bool, to: nat, i: nat)
    requires Progress(s0, s, i) && Moves(s, t, r, second, to) && (second ==> s.table[r].op != INV)
    requires s.Before(to, r) && Same(s0, PortOf(s.table[r], second), to)
    requires Settled(s, to, i) && Settled(s, PortOf(s.table[r], second), i)
    ensures Progress(s0, t, i)
  {
    MoveRest(s0, s, t, r, second, to);
    hide Core, Sourced, Counted, Covered, ExactFrom, Follows, FlagsTrue, NoneDead, Moves;
    MoveCounts(s, t, r, second, to);
    MoveSourced(s, t, r, second, to);
    MoveCovers(s, t, r, second, to);
    MoveExact(s, t, r, second, to, i);
    MoveFollows(s0, s, t, r, second, to);
  }

  lemma MoveRest(s0: State, s: State, t: State, r: nat, second: bool, to: nat)
    requires Core(s0, s) && FlagsTrue(s0, s) && Moves(s, t, r, second, to)
    ensures Core(s0, t) && FlagsTrue(s0, t)
    ensures forall w :: 0 <= w < |s.wires| ==> t.wires[w].value == s.wires[w].value && t.wires[w].output == s.wires[w].output
  {
    hide Sat;
    forall w | 0 <= w < |t.wires|
      ensures t.wires[w].value == s.wires[w].value && t.wires[w].output == s.wires[w].output && SameButReaders(t.wires[w], s0.wires[w])
    {
      assert SameButReaders(s.wires[w], s0.wires[w]);
    }
    forall j | 0 <= j < |t.table| ensures SameButPorts(t.table[j], s0.table[j]) && Drives(t, j) {
      assert SameButPorts(s.table[j], s0.table[j]) && Drives(s, j);
    }
    forall asg, w | Sat(s0.table, asg) && 0 <= w < |t.wires| ensures FlagHolds(t.wires[w].value, w, asg) {
      assert FlagHolds(s.wires[w].value, w, asg);
    }
  }

  /** A port that reads a wire makes its count positive. */
  lemma PortCounts(s: State, r: nat, second: bool)
    requires Counted(s) && NoneDead(s) && r < |s.table| && (second ==> s.table[r].op != INV)
    requires PortOf(s.table[r], second) < |s.wires|
    ensures s.wires[PortOf(s.table[r], second)].num > 0
  {
    CountOne(s.table, r, PortOf(s.table[r], second));
  }

  // ----- What a step leaves alone, and what it gets done -----

  /** The gates before `i` and the flags of settled wires are as they were, and
      of the wires without readers only the constants may get some. */
  ghost predicate Quiet(s: State, t: State, i: nat) {
    && s.zero == t.zero && s.one == t.one && |s.wires| == |t.wires| && |s.table| == |t.table|
    && (forall j :: 0 <= j < i && j < |s.table| ==> t.table[j] == s.table[j])
    && (forall w :: 0 <= w < |s.wires| ==> QuietWire(s, t, w, i))
    && (forall w :: 0 <= w < |s.wires| ==> t.wires[w].input == s.wires[w].input && t.wires[w].output == s.wires[w].output)
  }

  predicate QuietWire(s: State, t: State, w: nat, i: nat)
    requires w < |s.wires| && w < |t.wires|
  {
    && (Settled(s, w, i) ==> t.wires[w].value == s.wires[w].value)
    && (s.wires[w].num == 0 ==> t.wires[w].num == 0 || Some(w) == s.zero || Some(w) == s.one)
  }

  lemma QuietTrans(s: State, t: State, u: State, i: nat)
    requires Quiet(s, t, i) && Quiet(t, u, i)
    ensures Quiet(s, u, i)
  {
    forall w | 0 <= w < |s.wires| ensures QuietWire(s, u, w, i) {
      assert QuietWire(s, t, w, i) && QuietWire(t, u, w, i);
    }
  }

  /** Gate `j` reads constants through the constant wires only; where its flags
      decide its value its output is marked, and where it passes an input on
      nothing reads its output, except the circuit itself. */
  predicate Finished(s: State, j: nat)
    requires j < |s.table|
  {
    var g := s.table[j];
    && g.a < |s.wires| && g.b < |s.wires| && g.o < |s.wires|
    && ConstantRead(s, g.a) && (g.op != INV ==> ConstantRead(s, g.b))
    && DecisionDone(s, g.o, Decide(g.op, s.wires[g.a].value, s.wires[g.b].value))
    && (Decide(g.op, s.wires[g.a].value, s.wires[g.b].value).Pass? ==> NotConstant(s, g.o))
  }

  predicate NotConstant(s: State, w: nat) {
    s.zero != Some(w) && s.one != Some(w)
  }

  predicate ConstantRead(s: State, w: nat)
    requires w < |s.wires|
  {
    (s.wires[w].value == Zero ==> s.zero == Some(w)) && (s.wires[w].value == One ==> s.one == Some(w))
  }

  predicate DecisionDone(s: State, o: nat, act: Action)
    requires o < |s.wires|
  {
    match act
    case Keep => true
    case Mark(v) => s.wires[o].value == v
    case Pass(_) => s.wires[o].output || s.wires[o].num == 0
  }

  ghost predicate ConstantFlags(s: State) {
    && s.zero.Some? && s.zero.value < |s.wires| && s.wires[s.zero.value].value == Zero
    && s.one.Some? && s.one.value < |s.wires| && s.wires[s.one.value].value == One
  }

  lemma FinishedStays(s0: State, s: State, t: State, i: nat, j: nat)
    requires Progress(s0, s, i) && Progress(s0, t, i + 1) && Quiet(s, t, i) && j < i < |s.table| && Finished(s, j)
    ensures Finished(t, j)
  {
    var g := s.table[j];
    hide Decide, Counted, Covered, ExactFrom, Follows, FlagsTrue, NoneDead;
    assert Drives(s, j) && s.Before(g.a, j);
    assert SameButReaders(s.wires[g.a], s0.wires[g.a]) && SameButReaders(s.wires[g.o], s0.wires[g.o]);
    assert Settled(s, g.a, i) && Settled(s, g.o, i);
    assert QuietWire(s, t, g.a, i) && QuietWire(s, t, g.o, i);
    if g.op != INV {
      assert Settled(s, g.b, i) && QuietWire(s, t, g.b, i);
    } else {
      InvReadsA(s.wires[g.a].value, s.wires[g.b].value, t.wires[g.b].value);
    }
  }

  lemma InvReadsA(a: Value, b: Value, c: Value)
    ensures Decide(INV, a, b) == Decide(INV, a, c)
  {
  }

  // ----- Short circuits -----

  /** Moves one port of gate `r` from wire `from` to wire `to`; the source
      panics when the gate does not read `from`. */
  method ReplaceInput(cc: Compiler, r: nat, from: nat, to: nat, ghost s0: State, ghost i: nat)
    requires Progress(s0, cc.G(), i) && r < |cc.table| && ReadsOf(cc.table[r], from) > 0
    requires cc.G().Before(to, r) && Same(s0, from, to) && Settled(cc.G(), to, i) && Settled(cc.G(), from, i)
    modifies cc
    ensures Progress(s0, cc.G(), i) && |cc.wires| == |old(cc.wires)| && from < |cc.wires|
    ensures old(cc.wires)[from].num > 0
    ensures cc.table == old(cc.table)[r := SetPort(old(cc.table[r]), old(cc.table[r]).a != from, to)]
    ensures forall w :: 0 <= w < |cc.wires| && w != from && w != to ==> cc.wires[w] == old(cc.wires[w])
    ensures cc.wires[from].readers == if from == to then old(cc.wires[from]).readers + [r] else old(cc.wires[from]).readers
    ensures forall w :: 0 <= w < |cc.wires| ==> cc.wires[w].value == old(cc.wires[w]).value
  {
    hide Progress, Count;
    ghost var s := cc.G();
    var second := cc.table[r].a != from;
    assert PortOf(cc.table[r], second) == from;
    assert s.wires[from].num > 0 by {
      OpenProgress(s0, s, i);
      PortCounts(s, r, second);
    }
    Move(cc, r, second, to);
    MoveKeeps(s0, s, cc.G(), r, second, to, i);
  }

  lemma OpenProgress(s0: State, s: State, i: nat)
    requires Progress(s0, s, i)
    ensures Core(s0, s) && Sourced(s) && Counted(s) && Covered(s) && NoneDead(s)
    ensures ExactFrom(s, i) && Follows(s0, s) && FlagsTrue(s0, s)
  {
  }

  /** One reader of the list has moved away. */
  lemma ListAdvances(t: seq<Node>, u: seq<Node>, l: seq<nat>, w: nat, to: nat)
    requires l != [] && ExactList(t, l, w) && l[0] < |t| && ReadsOf(t[l[0]], w) > 0 && to != w
    requires u == t[l[0] := SetPort(t[l[0]], t[l[0]].a != w, to)]
    ensures ExactList(u, l[1..], w)
  {
    assert l == [l[0]] + l[1..];
    assert multiset(l) == multiset{l[0]} + multiset(l[1..]);
  }

  lemma ListHead(t: seq<Node>, l: seq<nat>, w: nat)
    requires l != [] && ExactList(t, l, w)
    ensures l[0] < |t| && ReadsOf(t[l[0]], w) > 0
  {
    assert l[0] in multiset(l);
  }

  /** The readers of gate `i`'s output read wire `to` from now on; output wires
      of the circuit keep theirs. */
  method ShortCircuit(cc: Compiler, i: nat, to: nat, ghost s0: State)
    requires Progress(s0, cc.G(), i) && i < |cc.table|
    requires cc.G().Before(to, i) && Same(s0, cc.table[i].o, to) && cc.table[i].o < |cc.wires|
    requires ReadsOf(cc.table[i], to) > 0
    modifies cc
    ensures Progress(s0, cc.G(), i + 1) && |cc.wires| == |old(cc.wires)| && |cc.table| == |old(cc.table)|
    ensures cc.table[i] == old(cc.table)[i] && Quiet(old(cc.G()), cc.G(), i)
    ensures forall w :: 0 <= w < |cc.wires| ==> cc.wires[w].value == old(cc.wires)[w].value
    ensures cc.wires[cc.table[i].o].output || cc.wires[cc.table[i].o].num == 0
  {
    hide Progress, Count, ExactList, Sourced, Counted, Covered, NoneDead, Follows, FlagsTrue, ExactFrom, Core, Same, Quiet;
    ghost var s := cc.G();
    var from := cc.table[i].o;
    ProgressLater(s0, s, i, i + 1);
    OutputWire(s0, s, i, to);
    QuietRefl(s, i);
    if cc.wires[from].output {
      return;
    }
    var readers := cc.wires[from].readers;
    var x := 0;
    assert readers[0..] == readers;
    while x < |readers|
      invariant 0 <= x <= |readers| && |cc.wires| == |s.wires| && |cc.table| == |s.table|
      invariant Progress(s0, cc.G(), i + 1) && cc.table[i] == s.table[i]
      invariant ExactList(cc.table, readers[x..], from) && Quiet(s, cc.G(), i)
      invariant forall w :: 0 <= w < |cc.wires| ==> cc.wires[w].value == s.wires[w].value
    {
      ghost var t := cc.G();
      var r := readers[x];
      assert readers[x..][0] == r && readers[x..][1..] == readers[x + 1..];
      ListHead(t.table, readers[x..], from);
      LaterReader(s0, s, t, i, r, to);
      ReplaceInput(cc, r, from, to, s0, i + 1);
      QuietMove(s0, s, t, cc.G(), i, r, from, to);
      ListAdvances(t.table, cc.table, readers[x..], from, to);
      x := x + 1;
    }
    ghost var t := cc.G();
    assert readers[x..] == [];
    NobodyReads(t.table, from);
    OutputSettled(s0, t, i, i + 1);
    cc.wires := cc.wires[from := cc.wires[from].(num := 0, readers := [])];
    DisconnectKeeps(s0, t, cc.G(), from, i + 1);
    QuietOutput(s0, s, t, cc.G(), i);
  }

  lemma QuietRefl(s: State, i: nat)
    ensures Quiet(s, s, i)
  {
  }

  lemma QuietMove(s0: State, s: State, t: State, u: State, i: nat, r: nat, from: nat, to: nat)
    requires Progress(s0, s, i) && Progress(s0, u, i + 1) && Quiet(s, t, i) && i < r < |t.table| && i < |s.table|
    requires from == s.table[i].o && ReadsOf(s.table[i], to) > 0 && |t.wires| == |u.wires| && from < |u.wires|
    requires u.table == t.table[r := u.table[r]]
    requires forall w :: 0 <= w < |t.wires| ==> u.wires[w].value == t.wires[w].value
    requires forall w :: 0 <= w < |t.wires| && w != from && w != to ==> u.wires[w] == t.wires[w]
    requires t.wires[from].num > 0
    ensures Quiet(s, u, i)
  {
    hide Sourced, Covered, ExactFrom, Follows, FlagsTrue, Count;
    assert Drives(s, i);
    forall w | 0 <= w < |s.wires|
      ensures u.wires[w].input == s.wires[w].input && u.wires[w].output == s.wires[w].output
    {
      assert SameButReaders(s.wires[w], s0.wires[w]) && SameButReaders(u.wires[w], s0.wires[w]);
    }
    CountOne(s.table, i, to);
    forall w | 0 <= w < |s.wires| ensures QuietWire(s, u, w, i) {
      assert QuietWire(s, t, w, i);
    }
  }

  lemma QuietOutput(s0: State, s: State, t: State, u: State, i: nat)
    requires Progress(s0, s, i) && Quiet(s, t, i) && i < |s.table| && s.table[i].o < |t.wires|
    requires u == t.(wires := t.wires[s.table[i].o := t.wires[s.table[i].o].(num := 0, readers := [])])
    ensures Quiet(s, u, i)
  {
    assert Drives(s, i);
    forall w | 0 <= w < |s.wires| ensures QuietWire(s, u, w, i) {
      assert QuietWire(s, t, w, i);
    }
  }

  lemma OutputWire(s0: State, s: State, i: nat, to: nat)
    requires Progress(s0, s, i) && i < |s.table| && s.Before(to, i)
    ensures s.table[i].o < |s.wires| && s.table[i].o != to
    ensures ExactList(s.table, s.wires[s.table[i].o].readers, s.table[i].o)
    ensures Settled(s, s.table[i].o, i + 1) && Settled(s, to, i + 1)
  {
    assert Drives(s, i);
    assert !Settled(s, s.table[i].o, i);
  }

  lemma OutputSettled(s0: State, s: State, j: nat, i: nat)
    requires Progress(s0, s, i) && j < i && j < |s.table|
    ensures Settled(s, s.table[j].o, i)
  {
    assert Drives(s, j);
  }

  lemma LaterReader(s0: State, s: State, t: State, i: nat, r: nat, to: nat)
    requires Progress(s0, s, i) && Progress(s0, t, i + 1) && i < |s.table| && t.table[i] == s.table[i]
    requires r < |t.table| && ReadsOf(t.table[r], s.table[i].o) > 0 && s.Before(to, i)
    ensures i < r && t.Before(to, r) && Settled(t, s.table[i].o, i + 1) && Settled(t, to, i + 1)
    ensures s.table[i].o < |t.wires| && s.table[i].o != to && t.table[i].o == s.table[i].o
  {
    var from := s.table[i].o;
    assert Drives(s, i) && Drives(t, i);
    assert SameButReaders(s.wires[to], s0.wires[to]) && SameButReaders(t.wires[to], s0.wires[to]);
    assert t.Before(from, r);
  }

  lemma NobodyReads(t: seq<Node>, w: nat)
    requires ExactList(t, [], w)
    ensures forall r :: 0 <= r < |t| ==> ReadsOf(t[r], w) == 0
  {
    forall r | 0 <= r < |t| ensures ReadsOf(t[r], w) == 0 {
      var l: seq<nat> := [];
      assert multiset(l)[r] == 0;
    }
  }

  lemma DisconnectKeeps(s0: State, s: State, t: State, w: nat, i: nat)
    requires Progress(s0, s, i) && w < |s.wires| && Settled(s, w, i)
    requires t == s.(wires := s.wires[w := s.wires[w].(num := 0, readers := [])])
    requires forall r :: 0 <= r < |s.table| ==> ReadsOf(s.table[r], w) == 0
    ensures Progress(s0, t, i)
  {
    CountZero(s.table, w);
    WiresOnly(s0, s, t);
    forall j | 0 <= j < |t.table| ensures CoveredGate(t, j) {
      assert CoveredGate(s, j) && ReadsOf(s.table[j], w) == 0;
    }
    forall v | 0 <= v < |t.wires| ensures ListOk(t, v) {
      assert ListOk(s, v);
    }
    forall v | 0 <= v < |t.wires| && !Settled(t, v, i) ensures ExactList(t.table, t.wires[v].readers, v) {
      assert v != w && !Settled(s, v, i);
    }
    assert FlagsTrue(s0, t) by {
      forall asg, v | Sat(s0.table, asg) && 0 <= v < |t.wires| ensures FlagHolds(t.wires[v].value, v, asg) {
        assert FlagHolds(s.wires[v].value, v, asg);
      }
    }
  }

  /** Changing counts, lists and flags of wires keeps the shape. */
  lemma WiresOnly(s0: State, s: State, t: State)
    requires Core(s0, s) && Sourced(s) && t == s.(wires := t.wires) && |t.wires| == |s.wires|
    requires forall w :: 0 <= w < |s.wires| ==> SameButReaders(t.wires[w], s.wires[w])
    ensures Core(s0, t) && Sourced(t)
  {
    forall w | 0 <= w < |t.wires|
      ensures SameButReaders(t.wires[w], s0.wires[w]) && t.wires[w].input == s.wires[w].input
    {
      assert SameButReaders(s.wires[w], s0.wires[w]);
    }
    forall j | 0 <= j < |t.table| ensures Drives(t, j) {
      assert Drives(s, j);
    }
    forall j | 0 <= j < |t.table|
      ensures t.Before(t.table[j].a, j) && t.table[j].b < |t.wires| && (t.table[j].op != INV ==> t.Before(t.table[j].b, j))
    {
      assert s.Before(s.table[j].a, j);
    }
  }

  // ----- The pass -----

  /** What the pass does with a gate: nothing, mark its output, or pass an
      input (the second one?) through. */
  datatype Action = Keep | Mark(v: Value) | Pass(second: bool)

  function Decide(op: Op, a: Value, b: Value): Action {
    match op
    case XOR =>
      if (a == Zero && b == Zero) || (a == One && b == One) then Mark(Zero)
      else if (a == Zero && b == One) || (a == One && b == Zero) then Mark(One)
      else if a == Zero then Pass(true)
      else if b == Zero then Pass(false)
      else Keep
    case XNOR =>
      if (a == Zero && b == Zero) || (a == One && b == One) then Mark(One)
      else if (a == Zero && b == One) || (a == One && b == Zero) then Mark(Zero)
      else Keep
    case AND =>
      if a == Zero || b == Zero then Mark(Zero)
      else if a == One && b == One then Mark(One)
      else if a == One then Pass(true)
      else if b == One then Pass(false)
      else Keep
    case OR =>
      if a == One || b == One then Mark(One)
      else if a == Zero && b == Zero then Mark(Zero)
      else if a == Zero then Pass(true)
      else if b == Zero then Pass(false)
      else Keep
    case INV => if a == One then Mark(Zero) else if a == Zero then Mark(One) else Keep
    case Other(_) => Keep
  }

  /** The decision is right whenever the input flags are. */
  lemma DecideSound(g: Node, a: Value, b: Value, asg: Asg)
    requires Holds(g, asg) && FlagHolds(a, g.a, asg) && (g.op != INV ==> FlagHolds(b, g.b, asg))
    ensures var act := Decide(g.op, a, b);
            && (act.Mark? ==> act.v != Unknown && FlagHolds(act.v, g.o, asg))
            && (act.Pass? ==> g.op != INV && (g.o in asg <==> PortOf(g, act.second) in asg))
  {
  }

  /** A bit that a flag allows. */
  predicate Allows(v: Value, bit: bool) {
    (v == Zero ==> !bit) && (v == One ==> bit)
  }

  /** Whatever the flags allow, the gate gives `r`. */
  predicate Forced(op: Op, a: Value, b: Value, r: bool) {
    forall x, y :: Allows(a, x) && Allows(b, y) ==> Apply(op, x, y) == r
  }

  /** Whatever the flags allow, the gate gives its other input. */
  predicate Copies(op: Op, a: Value, b: Value, second: bool) {
    forall x, y :: Allows(a, x) && Allows(b, y) ==> Apply(op, x, y) == if second then y else x
  }

  /** No rule is missing: an output is marked exactly when the flags force it, and an
      input is passed on by XOR, AND and OR exactly when the flag of the other one
      makes the gate copy it. */
  lemma DecideExact(op: Op, a: Value, b: Value)
    requires !op.Other?
    ensures Decide(op, a, b) == Mark(One) <==> Forced(op, a, b, true)
    ensures Decide(op, a, b) == Mark(Zero) <==> Forced(op, a, b, false)
    ensures forall second :: Decide(op, a, b) == Pass(second) <==>
              && (op == XOR || op == AND || op == OR) && !Forced(op, a, b, true) && !Forced(op, a, b, false)
              && (if second then a else b) != Unknown && Copies(op, a, b, second)
    ensures Decide(op, a, b) != Mark(Unknown)
  {
    Probe(op, a, b, false, false);
    Probe(op, a, b, false, true);
    Probe(op, a, b, true, false);
    Probe(op, a, b, true, true);
  }

  lemma Probe(op: Op, a: Value, b: Value, x: bool, y: bool)
    ensures Allows(a, x) && Allows(b, y) ==>
              && (forall r :: Forced(op, a, b, r) ==> Apply(op, x, y) == r)
              && (forall second :: Copies(op, a, b, second) ==> Apply(op, x, y) == if second then y else x)
  {
  }

  lemma DecideAll(s0: State, s: State, i: nat, j: nat)
    requires Progress(s0, s, i) && j < |s.table|
    ensures s.table[j].a < |s.wires| && s.table[j].b < |s.wires| && s.table[j].o < |s.wires|
    ensures var g := s.table[j];
            var act := Decide(g.op, s.wires[g.a].value, s.wires[g.b].value);
            && (act.Mark? ==> forall asg :: Sat(s0.table, asg) ==> FlagHolds(act.v, g.o, asg))
            && (act.Pass? ==> g.op != INV && Same(s0, g.o, PortOf(g, act.second)) && s.Before(PortOf(g, act.second), j))
  {
    var g := s.table[j];
    hide Decide, Counted, Covered, ExactFrom, Count, FlagHolds;
    assert Drives(s, j) && s.Before(g.a, j);
    var act := Decide(g.op, s.wires[g.a].value, s.wires[g.b].value);
    forall asg | Sat(s0.table, asg)
      ensures act.Mark? ==> FlagHolds(act.v, g.o, asg)
      ensures act.Pass? ==> g.op != INV && (g.o in asg <==> PortOf(g, act.second) in asg)
    {
      assert Sat(s.table, asg) && Holds(g, asg);
      DecideSound(g, s.wires[g.a].value, s.wires[g.b].value, asg);
    }
    assert act.Pass? ==> g.op != INV by { NoPassForInv(g, s.wires[g.a].value, s.wires[g.b].value); }
  }

  lemma NoPassForInv(g: Node, a: Value, b: Value)
    ensures Decide(g.op, a, b).Pass? ==> g.op != INV
  {
  }

  lemma MarkKeeps(s0: State, s: State, t: State, w: nat, v: Value, i: nat)
    requires Progress(s0, s, i) && w < |s.wires|
    requires t == s.(wires := s.wires[w := s.wires[w].(value := v)])
    requires forall asg :: Sat(s0.table, asg) ==> FlagHolds(v, w, asg)
    ensures Progress(s0, t, i)
  {
    hide FlagHolds, Count, ExactList, Sat;
    WiresOnly(s0, s, t);
    forall j | 0 <= j < |t.table| ensures CoveredGate(t, j) {
      assert CoveredGate(s, j);
    }
    forall u | 0 <= u < |t.wires| ensures ListOk(t, u) {
      assert ListOk(s, u);
    }
    forall u | 0 <= u < |t.wires| && !Settled(t, u, i) ensures ExactList(t.table, t.wires[u].readers, u) {
      assert !Settled(s, u, i);
    }
    forall asg, u | Sat(s0.table, asg) && 0 <= u < |t.wires| ensures FlagHolds(t.wires[u].value, u, asg) {
      assert u != w ==> FlagHolds(s.wires[u].value, u, asg);
    }
  }

  /** The constant wires of the compiler, right and driven before gate `i`. */
  ghost predicate Constants(s0: State, i: nat) {
    && s0.zero.Some? && s0.one.Some? && s0.Before(s0.zero.value, i) && s0.Before(s0.one.value, i)
    && forall asg :: Sat(s0.table, asg) ==> s0.zero.value !in asg && s0.one.value in asg
  }

  /** A port that reads a marked wire reads the constant wire from now on. */
  method ReplaceConstant(cc: Compiler, i: nat, second: bool, ghost s0: State)
    requires Progress(s0, cc.G(), i + 1) && i < |cc.table| && (second ==> cc.table[i].op != INV)
    requires PortOf(cc.table[i], second) < |cc.wires|
    requires cc.wires[PortOf(cc.table[i], second)].value != Unknown ==> Constants(s0, i)
    modifies cc
    ensures Progress(s0, cc.G(), i + 1) && Quiet(old(cc.G()), cc.G(), i)
    ensures Replaced(old(cc.G()), cc.G(), i, second)
    ensures old(cc.wires)[old(PortOf(cc.table[i], second))].value == Unknown ==> cc.G() == old(cc.G())
  {
    hide Progress, Quiet, Replaced, Constants;
    var w := PortOf(cc.table[i], second);
    var v := cc.wires[w].value;
    if v == Unknown {
      NothingReplaced(cc.G(), i, second);
      return;
    }
    ghost var s := cc.G();
    ConstantPort(s0, s, i, second);
    var to := if v == Zero then cc.zero.value else cc.one.value;
    assert s.wires[w].num > 0 by {
      OpenProgress(s0, s, i + 1);
      PortCounts(s, i, second);
    }
    Move(cc, i, second, to);
    MoveKeeps(s0, s, cc.G(), i, second, to, i + 1);
    ConstantMoved(s0, s, cc.G(), i, second, to);
  }

  lemma NothingReplaced(s: State, i: nat, second: bool)
    requires i < |s.table| && PortOf(s.table[i], second) < |s.wires| && s.wires[PortOf(s.table[i], second)].value == Unknown
    ensures Quiet(s, s, i) && Replaced(s, s, i, second)
  {
  }

  lemma ConstantMoved(s0: State, s: State, t: State, i: nat, second: bool, to: nat)
    requires Progress(s0, s, i + 1) && Moves(s, t, i, second, to)
    requires var v := s.wires[PortOf(s.table[i], second)].value; v != Unknown && (if v == Zero then s.zero else s.one) == Some(to)
    ensures Quiet(s, t, i) && Replaced(s, t, i, second)
  {
    assert forall u :: 0 <= u < |s.wires| ==> t.wires[u].value == s.wires[u].value && t.wires[u].output == s.wires[u].output by {
      OpenProgress(s0, s, i + 1);
      MoveRest(s0, s, t, i, second, to);
    }
    hide Progress;
  }

  lemma ConstantPort(s0: State, s: State, i: nat, second: bool)
    requires Progress(s0, s, i + 1) && i < |s.table| && (second ==> s.table[i].op != INV) && Constants(s0, i)
    requires PortOf(s.table[i], second) < |s.wires| && s.wires[PortOf(s.table[i], second)].value != Unknown
    ensures s.zero.Some? && s.one.Some?
    ensures var w := PortOf(s.table[i], second);
            var to := if s.wires[w].value == Zero then s.zero.value else s.one.value;
            s.Before(to, i) && Same(s0, w, to) && Settled(s, to, i + 1) && Settled(s, w, i + 1)
  {
    var w := PortOf(s.table[i], second);
    var to := if s.wires[w].value == Zero then s.zero.value else s.one.value;
    assert s.Before(s.table[i].a, i) && s.Before(w, i);
    assert SameButReaders(s.wires[to], s0.wires[to]);
    forall asg | Sat(s0.table, asg) ensures w in asg <==> to in asg {
      assert FlagHolds(s.wires[w].value, w, asg);
    }
  }

  /** One round of the loop.  A gate whose inputs carry no flag is left alone. */
  method PropagateGate(cc: Compiler, i: nat, ghost s0: State)
    requires Progress(s0, cc.G(), i) && i < |cc.table|
    requires Ready(s0, cc.G(), i)
    modifies cc
    ensures Progress(s0, cc.G(), i + 1) && |cc.table| == old(|cc.table|) && Quiet(old(cc.G()), cc.G(), i)
    ensures Finished(cc.G(), i)
    ensures old(Unflagged(cc.G(), i)) ==> cc.G() == old(cc.G())
    ensures ConstantFlags(old(cc.G())) ==> ConstantFlags(cc.G())
  {
    hide Progress, Decide, Quiet, Finished, Replaced, ConstantFlags, Unflagged, Constants;
    ghost var s := cc.G();
    ghost var act := ApplyDecision(cc, i, s0);
    ghost var t := cc.G();
    ReplaceConstants(cc, i, s0);
    QuietTrans(s, t, cc.G(), i);
    RoundFinished(s0, s, t, cc.G(), i, act);
  }

  /** Either the constants are there, or the gate has no use for them. */
  ghost predicate Ready(s0: State, s: State, i: nat) {
    (Constants(s0, i) && ConstantFlags(s)) || (i < |s.table| && Unflagged(s, i))
  }

  /** The switch over the operation and the flags of the inputs. */
  method ApplyDecision(cc: Compiler, i: nat, ghost s0: State) returns (ghost act: Action)
    requires Progress(s0, cc.G(), i) && i < |cc.table|
    modifies cc
    ensures Progress(s0, cc.G(), i + 1) && Quiet(old(cc.G()), cc.G(), i)
    ensures Decided(old(cc.G()), cc.G(), i, act)
    ensures old(Unflagged(cc.G(), i)) ==> cc.G() == old(cc.G())
  {
    hide Progress, Decide, Same, Quiet;
    ghost var s := cc.G();
    var g := cc.table[i];
    DecideAll(s0, s, i, i);
    ProgressLater(s0, s, i, i + 1);
    OwnOutput(s0, s, i);
    var todo := Decide(g.op, cc.wires[g.a].value, cc.wires[g.b].value);
    act := todo;
    KeepUnflagged(g.op, cc.wires[g.a].value, cc.wires[g.b].value);
    QuietRefl(s, i);
    if todo.Mark? {
      cc.wires := cc.wires[g.o := cc.wires[g.o].(value := todo.v)];
      MarkKeeps(s0, s, cc.G(), g.o, todo.v, i + 1);
      QuietMark(s0, s, cc.G(), i, todo.v);
    } else if todo.Pass? {
      ShortCircuit(cc, i, PortOf(g, todo.second), s0);
    }
    SameDecision(s, cc.G(), g, act);
    QuietSame(s, cc.G(), i);
  }

  lemma QuietSame(s: State, t: State, i: nat)
    requires Quiet(s, t, i)
    ensures s.zero == t.zero && s.one == t.one && |s.wires| == |t.wires| && |s.table| == |t.table|
  {
  }

  /** The decision `act` for gate `i` was the right one and is carried out;
      except for the gate's output, flags are as before. */
  ghost predicate Decided(s: State, t: State, i: nat, act: Action) {
    && i < |s.table| && i < |t.table| && t.table[i] == s.table[i] && |s.wires| == |t.wires|
    && s.zero == t.zero && s.one == t.one
    && var g := s.table[i];
    g.a < |s.wires| && g.b < |s.wires| && g.o < |s.wires|
    && act == Decide(g.op, t.wires[g.a].value, t.wires[g.b].value) && DecisionDone(t, g.o, act)
    && forall w :: 0 <= w < |s.wires| && w != g.o ==> t.wires[w].value == s.wires[w].value
  }

  method ReplaceConstants(cc: Compiler, i: nat, ghost s0: State)
    requires Progress(s0, cc.G(), i + 1) && i < |cc.table|
    requires cc.table[i].a < |cc.wires| && cc.table[i].b < |cc.wires|
    requires Constants(s0, i) || Unflagged(cc.G(), i)
    modifies cc
    ensures Progress(s0, cc.G(), i + 1) && Quiet(old(cc.G()), cc.G(), i)
    ensures BothReplaced(old(cc.G()), cc.G(), i)
    ensures old(Unflagged(cc.G(), i)) ==> cc.G() == old(cc.G())
  {
    hide Progress, Quiet, Constants;
    ghost var t := cc.G();
    ReplaceConstant(cc, i, false, s0);
    ghost var u := cc.G();
    if cc.table[i].op != INV {
      ReplaceConstant(cc, i, true, s0);
      QuietTrans(t, u, cc.G(), i);
    }
  }

  ghost predicate BothReplaced(t: State, v: State, i: nat) {
    && |t.wires| == |v.wires| && |t.table| == |v.table| && i < |t.table|
    && exists u :: Replaced(t, u, i, false) && if t.table[i].op != INV then Replaced(u, v, i, true) else u == v
  }

  lemma RoundFinished(s0: State, s: State, t: State, v: State, i: nat, act: Action)
    requires Progress(s0, s, i) && Progress(s0, t, i + 1) && Progress(s0, v, i + 1) && Ready(s0, s, i)
    requires Decided(s, t, i, act) && BothReplaced(t, v, i) && (Unflagged(s, i) ==> s == t == v)
    ensures Finished(v, i) && (ConstantFlags(s) ==> ConstantFlags(v))
  {
    hide Progress, Decide, Replaced, Finished, Constants;
    var u :| Replaced(t, u, i, false) && if t.table[i].op != INV then Replaced(u, v, i, true) else u == v;
    OutputStays(s0, s, t, u, v, i, act);
    FlagsStay(s0, s, t, i);
    GateFinished(s, t, u, v, i, act);
    ReplacedValues(t, u, i, false);
    if t.table[i].op != INV {
      ReplacedValues(u, v, i, true);
    }
  }

  lemma ReplacedValues(s: State, t: State, i: nat, second: bool)
    requires Replaced(s, t, i, second)
    ensures |s.wires| == |t.wires| && forall u :: 0 <= u < |s.wires| ==> t.wires[u].value == s.wires[u].value && t.wires[u].output == s.wires[u].output
    ensures s.zero == t.zero && s.one == t.one
    ensures forall u :: 0 <= u < |s.wires| && s.wires[u].num == 0 && Some(u) != s.zero && Some(u) != s.one ==> t.wires[u].num == 0
  {
  }

  lemma QuietMark(s0: State, s: State, t: State, i: nat, v: Value)
    requires Progress(s0, s, i) && i < |s.table| && s.table[i].o < |s.wires|
    requires t == s.(wires := s.wires[s.table[i].o := s.wires[s.table[i].o].(value := v)])
    ensures Quiet(s, t, i)
  {
    assert Drives(s, i);
  }

  lemma SameDecision(s: State, t: State, g: Node, act: Action)
    requires |s.wires| == |t.wires| && g.a < |s.wires| && g.b < |s.wires| && g.o != g.a && (g.op != INV ==> g.o != g.b)
    requires forall w :: 0 <= w < |s.wires| && w != g.o ==> t.wires[w].value == s.wires[w].value
    requires act == Decide(g.op, s.wires[g.a].value, s.wires[g.b].value)
    ensures act == Decide(g.op, t.wires[g.a].value, t.wires[g.b].value)
    ensures t.wires[g.a].value == s.wires[g.a].value && (g.op != INV ==> t.wires[g.b].value == s.wires[g.b].value)
  {
    if g.op == INV {
      InvReadsA(s.wires[g.a].value, s.wires[g.b].value, t.wires[g.b].value);
    }
  }

  /** The constant wires are not the output of gate `i`, so it keeps what was
      done to it. */
  lemma OutputStays(s0: State, s: State, t: State, u: State, v: State, i: nat, act: Action)
    requires Progress(s0, s, i) && Progress(s0, v, i + 1) && Ready(s0, s, i)
    requires Decided(s, t, i, act) && (Unflagged(s, i) ==> s == t == v)
    requires Replaced(t, u, i, false) && if t.table[i].op != INV then Replaced(u, v, i, true) else u == v
    ensures DecisionDone(v, s.table[i].o, act) && (act.Pass? ==> NotConstant(v, s.table[i].o))
    ensures v.table[i].o == s.table[i].o && v.table[i].b < |v.wires|
  {
    hide Decide, Replaced, Counted, Covered, ExactFrom, Follows, FlagsTrue, NoneDead, Count;
    ConstantsElsewhere(s0, s, i);
    if !Constants(s0, i) {
      KeepUnflagged(s.table[i].op, s.wires[s.table[i].a].value, s.wires[s.table[i].b].value);
    }
    assert SameButPorts(s.table[i], s0.table[i]) && SameButPorts(v.table[i], s0.table[i]);
    ReplacedValues(t, u, i, false);
    if t.table[i].op != INV {
      ReplacedValues(u, v, i, true);
    }
  }

  lemma ConstantsElsewhere(s0: State, s: State, i: nat)
    requires Progress(s0, s, i) && i < |s.table|
    ensures Constants(s0, i) ==> Some(s.table[i].o) != s.zero && Some(s.table[i].o) != s.one
  {
    assert Drives(s, i);
    assert SameButReaders(s.wires[s.table[i].o], s0.wires[s.table[i].o]);
  }

  lemma FlagsStay(s0: State, s: State, t: State, i: nat)
    requires Progress(s0, s, i) && i < |s.table| && |s.wires| == |t.wires| && s.zero == t.zero && s.one == t.one
    requires Constants(s0, i) || s == t
    requires forall w :: 0 <= w < |s.wires| && w != s.table[i].o ==> t.wires[w].value == s.wires[w].value
    ensures ConstantFlags(s) ==> ConstantFlags(t)
  {
    ConstantsElsewhere(s0, s, i);
  }

  lemma GateFinished(s: State, t: State, u: State, v: State, i: nat, act: Action)
    requires Decided(s, t, i, act)
    requires ConstantFlags(t) || Unflagged(t, i)
    requires Replaced(t, u, i, false) && (if t.table[i].op != INV then Replaced(u, v, i, true) else u == v)
    requires i < |v.table| && v.table[i].o == s.table[i].o && v.table[i].b < |v.wires| && s.table[i].o < |v.wires|
    requires DecisionDone(v, s.table[i].o, act) && (act.Pass? ==> NotConstant(v, s.table[i].o))
    ensures Finished(v, i)
  {
    hide Decide;
    var g := s.table[i];
    PortReplaced(t, u, i, false);
    if g.op != INV {
      PortReplaced(u, v, i, true);
    } else {
      InvReadsA(t.wires[g.a].value, t.wires[g.b].value, v.wires[v.table[i].b].value);
    }
  }

  predicate UnflaggedPort(s: State, w: nat)
    requires w < |s.wires|
  {
    s.wires[w].value == Unknown
  }

  lemma PortReplaced(s: State, t: State, i: nat, second: bool)
    requires Replaced(s, t, i, second) && |s.wires| == |t.wires| && s.zero == t.zero && s.one == t.one
    requires ConstantFlags(s) || UnflaggedPort(s, PortOf(s.table[i], second))
    ensures PortOf(t.table[i], second) < |t.wires| && ConstantRead(t, PortOf(t.table[i], second))
    ensures t.wires[PortOf(t.table[i], second)].value == s.wires[PortOf(s.table[i], second)].value
    ensures ConstantFlags(s) ==> ConstantFlags(t)
  {
  }

  predicate ConstantPortOf(s: State, v: Value, from: nat, to: nat) {
    match v
    case Unknown => to == from
    case Zero => s.zero == Some(to)
    case One => s.one == Some(to)
  }

  /** Port by port, what ReplaceConstant does. */
  ghost predicate Replaced(s: State, t: State, i: nat, second: bool) {
    && i < |s.table| && i < |t.table| && PortOf(s.table[i], second) < |s.wires|
    && t.table[i].op == s.table[i].op && PortOf(t.table[i], !second) == PortOf(s.table[i], !second)
    && |s.wires| == |t.wires| && |s.table| == |t.table|
    && ConstantPortOf(s, s.wires[PortOf(s.table[i], second)].value, PortOf(s.table[i], second), PortOf(t.table[i], second))
    && (forall u :: 0 <= u < |s.wires| ==> t.wires[u].value == s.wires[u].value && t.wires[u].output == s.wires[u].output)
    && (forall u :: 0 <= u < |s.wires| && s.wires[u].num == 0 && Some(u) != s.zero && Some(u) != s.one ==> t.wires[u].num == 0)
    && s.zero == t.zero && s.one == t.one
  }

  /** No port of gate `i` reads a marked wire. */
  predicate Unflagged(s: State, i: nat)
    requires i < |s.table|
  {
    var g := s.table[i];
    && (g.a < |s.wires| ==> s.wires[g.a].value == Unknown)
    && (g.op != INV && g.b < |s.wires| ==> s.wires[g.b].value == Unknown)
  }

  lemma KeepUnflagged(op: Op, a: Value, b: Value)
    ensures a == Unknown && (op == INV || b == Unknown) ==> Decide(op, a, b).Keep?
  {
  }

  lemma OwnOutput(s0: State, s: State, i: nat)
    requires Progress(s0, s, i) && i < |s.table|
    ensures s.table[i].o != s.table[i].a && (s.table[i].op != INV ==> s.table[i].o != s.table[i].b)
  {
    assert Drives(s, i) && s.Before(s.table[i].a, i);
  }

  /** The whole pass.  It keeps the meaning of the graph, the reader counts and
      the order of the gates; it panics nowhere; and it leaves no work undone. */
  method ConstPropagate(cc: Compiler)
    requires cc.G().Built() && ConstantsFirst(cc.G())
    modifies cc
    ensures Progress(old(cc.G()), cc.G(), |cc.table|)
    ensures forall j :: 0 <= j < |cc.table| ==> Finished(cc.G(), j)
    ensures OutputsApart(old(cc.G())) ==> OutputsApart(cc.G())
  {
    hide State.Built, Progress, ConstantsFirst, Finished, Quiet, Unflagged, ConstantFlags, Constants, OutputsApart;
    ghost var s0 := cc.G();
    assert s0.zero.Some? && s0.one.Some? && ConstantFlags(s0) by { FirstGates(s0, 0); }
    BuiltProgress(s0);
    var n := |cc.table|;
    var i := 0;
    while i < n
      invariant 0 <= i <= n == |cc.table|
      invariant Progress(s0, cc.G(), i) && ConstantFlags(cc.G())
      invariant i <= 3 ==> cc.G() == s0
      invariant forall j :: 0 <= j < i ==> Finished(cc.G(), j)
      invariant OutputsApart(s0) ==> OutputsApart(cc.G())
    {
      ghost var s := cc.G();
      FirstGates(s0, i);
      PropagateGate(cc, i, s0);
      forall j | 0 <= j < i ensures Finished(cc.G(), j) {
        FinishedStays(s0, s, cc.G(), i, j);
      }
      KeepsApart(s, cc.G(), i);
      i := i + 1;
    }
  }

  /** No gate reads an output wire of the circuit, and none is a constant. */
  predicate OutputsApart(s: State) {
    forall w :: 0 <= w < |s.wires| && s.wires[w].output ==> s.wires[w].num == 0 && NotConstant(s, w)
  }

  lemma KeepsApart(s: State, t: State, i: nat)
    requires Quiet(s, t, i)
    ensures OutputsApart(s) ==> OutputsApart(t)
  {
    if OutputsApart(s) {
      forall w | 0 <= w < |t.wires| && t.wires[w].output ensures t.wires[w].num == 0 && NotConstant(t, w) {
        assert QuietWire(s, t, w, i);
      }
    }
  }

  /** The first three gates read no marked wire, and after them both constant
      wires are there. */
  lemma FirstGates(s: State, i: nat)
    requires s.Built() && ConstantsFirst(s) && i <= |s.table|
    ensures s.zero.Some? && s.one.Some? && ConstantFlags(s)
    ensures i >= 3 ==> Constants(s, i)
    ensures i < 3 ==> i < |s.table| && Unflagged(s, i)
  {
    hide Ports, Sat;
    assert s.WireOk(0) && s.WireOk(s.inv.value) && s.WireOk(s.zero.value) && s.WireOk(s.one.value);
  }
}
