/** Compiler.Compile (compiler/circuits/compiler.go): breadth-first numbering of
    the wires and emission of the gates, with Wire.Assign, Gate.Visit,
    Gate.Assign and Gate.Compile. */
module Numbering {
  import opened Circuit
  import opened Graph
  import opened Compiler
  import opened Propagate
  import opened ShortXor
  import opened Prune

  /** The graph with the lists of the pass: the next id, the gates that wait,
      the gates that are done, and, as a ghost, the wire each id went to. */
  datatype View = View(s: State, next: nat, pending: seq<nat>, done: seq<nat>, owner: seq<nat>)

  /** Only ids and the visited and compiled marks have changed. */
  ghost predicate OnlyIds(s0: State, s: State) {
    && s == s0.(wires := s.wires, table := s.table) && |s.wires| == |s0.wires| && |s.table| == |s0.table|
    && (forall w :: 0 <= w < |s.wires| ==> s.wires[w] == s0.wires[w].(id := s.wires[w].id))
    && (forall j :: 0 <= j < |s.table| ==>
          s.table[j] == s0.table[j].(visited := s.table[j].visited, compiled := s.table[j].compiled))
  }

  predicate HasId(s: State, w: nat) {
    w < |s.wires| && s.wires[w].id.Some?
  }

  /** Both inputs of gate `j` have an id. */
  predicate InputsNamed(s: State, j: nat) {
    j < |s.table| && HasId(s, s.table[j].a) && (s.table[j].op != INV ==> HasId(s, s.table[j].b))
  }

  /** Each id went to exactly one wire. */
  ghost predicate Ids(v: View) {
    && |v.owner| == v.next
    && (forall i :: 0 <= i < v.next ==> v.owner[i] < |v.s.wires| && v.s.wires[v.owner[i]].id == Some(i))
    && (forall w :: 0 <= w < |v.s.wires| && HasId(v.s, w) ==> IdOwned(v, w))
  }

  predicate IdOwned(v: View, w: nat)
    requires HasId(v.s, w)
  {
    v.s.wires[w].id.value < |v.owner| && v.owner[v.s.wires[w].id.value] == w
  }

  /** Exactly the visited gates are done or wait, each once. */
  ghost predicate Queue(v: View) {
    var q := v.done + v.pending;
    && (forall x :: 0 <= x < |q| ==> q[x] < |v.s.table| && v.s.table[q[x]].visited && !v.s.table[q[x]].dead)
    && (forall x, y :: 0 <= x < y < |q| ==> q[x] != q[y])
    && (forall j :: 0 <= j < |v.s.table| && v.s.table[j].visited ==> j in q)
  }

  /** Wire `w` is an input wire or driven by a gate of `done`. */
  predicate From(s: State, drv: Drivers, done: seq<nat>, w: nat) {
    w < s.k || (w < |drv| && drv[w].Some? && drv[w].value in done)
  }

  /** Only such wires have an id, and no output of the circuit has one. */
  ghost predicate Known(drv: Drivers, v: View) {
    forall w :: 0 <= w < |v.s.wires| && HasId(v.s, w) ==> !v.s.wires[w].output && From(v.s, drv, v.done, w)
  }

  predicate GateFrom(s: State, drv: Drivers, done: seq<nat>, j: nat) {
    j < |s.table| && From(s, drv, done, s.table[j].a) && (s.table[j].op != INV ==> From(s, drv, done, s.table[j].b))
  }

  /** Every gate comes after the gates that drive its inputs. */
  ghost predicate Ordered(drv: Drivers, v: View) {
    && (forall x :: 0 <= x < |v.done| ==> GateFrom(v.s, drv, v.done[..x], v.done[x]))
    && (forall x :: 0 <= x < |v.pending| ==> GateFrom(v.s, drv, v.done, v.pending[x]))
  }

  ghost predicate Inv(s0: State, drv: Drivers, v: View) {
    OnlyIds(s0, v.s) && Ids(v) && Queue(v) && Known(drv, v) && Ordered(drv, v) && NoneCompiled(v.s)
  }

  ghost predicate NoneCompiled(s: State) {
    forall j :: 0 <= j < |s.table| ==> !s.table[j].compiled
  }

  predicate Named(s: State, j: nat) {
    j < |s.table| && s.table[j].o < |s.wires| && (s.wires[s.table[j].o].output || HasId(s, s.table[j].o))
  }

  /** Every live gate whose inputs have ids is visited, or in the list `rest`
      of those that are about to be. */
  ghost predicate CompleteBut(s: State, rest: seq<nat>) {
    forall j :: 0 <= j < |s.table| && !s.table[j].dead && InputsNamed(s, j) ==> s.table[j].visited || j in rest
  }

  // ----- One step -----

  function MarkVisited(v: View, j: nat): View
    requires j < |v.s.table|
  {
    v.(s := v.s.(table := v.s.table[j := v.s.table[j].(visited := true)]), pending := v.pending + [j])
  }

  function Name(v: View, w: nat): View
    requires w < |v.s.wires|
  {
    v.(s := v.s.(wires := v.s.wires[w := v.s.wires[w].(id := Some(v.next))]), next := v.next + 1, owner := v.owner + [w])
  }

  function Pop(v: View): View
    requires v.pending != []
  {
    v.(pending := v.pending[1..], done := v.done + [v.pending[0]])
  }

  lemma VisitKeeps(s0: State, drv: Drivers, v: View, j: nat)
    requires Inv(s0, drv, v) && j < |v.s.table| && !v.s.table[j].dead && !v.s.table[j].visited && InputsNamed(v.s, j)
    ensures Inv(s0, drv, MarkVisited(v, j))
  {
    var u := MarkVisited(v, j);
    var q, r := v.done + v.pending, u.done + u.pending;
    assert r == q + [j];
    assert forall w :: HasId(u.s, w) == HasId(v.s, w);
    assert OnlyIds(s0, u.s);
    assert Queue(u);
    forall w | 0 <= w < |u.s.wires| && HasId(u.s, w) ensures IdOwned(u, w) {
      assert IdOwned(v, w);
    }
    OrderedAfterVisit(s0, drv, v, j);
  }

  lemma OrderedAfterVisit(s0: State, drv: Drivers, v: View, j: nat)
    requires Known(drv, v) && Ordered(drv, v) && j < |v.s.table| && InputsNamed(v.s, j)
    ensures Known(drv, MarkVisited(v, j)) && Ordered(drv, MarkVisited(v, j))
  {
    var u := MarkVisited(v, j);
    forall w | 0 <= w < |u.s.wires| && HasId(u.s, w) ensures !u.s.wires[w].output && From(u.s, drv, u.done, w) {
      assert HasId(v.s, w);
    }
    forall x | 0 <= x < |u.done| ensures GateFrom(u.s, drv, u.done[..x], u.done[x]) {
      assert GateFrom(v.s, drv, v.done[..x], v.done[x]);
    }
    forall x | 0 <= x < |u.pending| ensures GateFrom(u.s, drv, u.done, u.pending[x]) {
      if x < |v.pending| {
        assert GateFrom(v.s, drv, v.done, v.pending[x]);
      }
    }
  }

  lemma NameKeeps(s0: State, drv: Drivers, v: View, w: nat)
    requires Inv(s0, drv, v) && w < |v.s.wires| && v.s.wires[w].id.None? && !v.s.wires[w].output
    requires From(v.s, drv, v.done, w)
    ensures Inv(s0, drv, Name(v, w))
  {
    var u := Name(v, w);
    assert OnlyIds(s0, u.s);
    forall x | 0 <= x < |u.s.wires| && HasId(u.s, x)
      ensures IdOwned(u, x) && !u.s.wires[x].output && From(u.s, drv, u.done, x)
    {
      assert x != w ==> HasId(v.s, x) && IdOwned(v, x);
    }
    assert Ids(u);
    forall x | 0 <= x < |u.done| ensures GateFrom(u.s, drv, u.done[..x], u.done[x]) {
      assert GateFrom(v.s, drv, v.done[..x], v.done[x]);
    }
    forall x | 0 <= x < |u.pending| ensures GateFrom(u.s, drv, u.done, u.pending[x]) {
      assert GateFrom(v.s, drv, v.done, v.pending[x]);
    }
  }

  lemma PopKeeps(s0: State, drv: Drivers, v: View)
    requires Inv(s0, drv, v) && v.pending != []
    ensures Inv(s0, drv, Pop(v))
  {
    var u := Pop(v);
    var j := v.pending[0];
    assert u.done + u.pending == v.done + v.pending;
    forall w | 0 <= w < |u.s.wires| && HasId(u.s, w)
      ensures IdOwned(u, w) && !u.s.wires[w].output && From(u.s, drv, u.done, w)
    {
      assert IdOwned(v, w) && From(v.s, drv, v.done, w);
    }
    forall x | 0 <= x < |u.done| ensures GateFrom(u.s, drv, u.done[..x], u.done[x]) {
      if x < |v.done| {
        assert GateFrom(v.s, drv, v.done[..x], v.done[x]) && u.done[..x] == v.done[..x];
      } else {
        assert GateFrom(v.s, drv, v.done, v.pending[0]) && u.done[..x] == v.done;
      }
    }
    forall x | 0 <= x < |u.pending| ensures GateFrom(u.s, drv, u.done, u.pending[x]) {
      assert GateFrom(v.s, drv, v.done, v.pending[x + 1]);
    }
  }

  /** Naming a wire makes only gates ready that are in its list. */
  lemma NameCompletes(s0: State, v: View, w: nat)
    requires OnlyIds(s0, v.s) && Covered(s0) && CompleteBut(v.s, []) && w < |v.s.wires|
    ensures CompleteBut(Name(v, w).s, s0.wires[w].readers)
  {
    var s := Name(v, w).s;
    forall j | 0 <= j < |s.table| && !s.table[j].dead && InputsNamed(s, j)
      ensures s.table[j].visited || j in s0.wires[w].readers
    {
      assert CoveredGate(s0, j);
      if !InputsNamed(v.s, j) {
        assert s.table[j].a == w || (s.table[j].op != INV && s.table[j].b == w);
      }
    }
  }

  lemma VisitCompletes(s: State, t: State, rest: seq<nat>)
    requires rest != [] && CompleteBut(s, rest) && rest[0] < |s.table|
    requires var j := rest[0];
             if !s.table[j].dead && !s.table[j].visited && InputsNamed(s, j)
             then t == s.(table := s.table[j := s.table[j].(visited := true)]) else t == s
    ensures CompleteBut(t, rest[1..])
  {
    forall j | 0 <= j < |t.table| && !t.table[j].dead && InputsNamed(t, j)
      ensures t.table[j].visited || j in rest[1..]
    {
      assert InputsNamed(s, j);
      assert rest == [rest[0]] + rest[1..];
    }
  }

  /** The lists the compiler keeps while it numbers the graph. */
  class Numbering {
    const cc: Compiler
    var next: nat
    var pending: seq<nat>
    var numbered: seq<nat>
    var compiled: seq<Gate>
    ghost var owner: seq<nat>

    constructor (cc: Compiler)
      ensures this.cc == cc && next == 0 && pending == [] && numbered == [] && compiled == [] && owner == []
    {
      this.cc := cc;
      next, pending, numbered, compiled, owner := 0, [], [], [], [];
    }

    /** The state of the pass, with gate `current` counted as done. */
    ghost function V(current: seq<nat>): View
      reads this, cc
    {
      View(cc.G(), next, pending, numbered + current, owner)
    }

    /** Gate.Visit */
    method Visit(j: nat, ghost current: seq<nat>)
      requires j < |cc.table| && cc.table[j].a < |cc.wires| && cc.table[j].b < |cc.wires|
      modifies this, cc
      ensures V(current) == if !old(cc.table)[j].dead && !old(cc.table)[j].visited && InputsNamed(old(cc.G()), j)
                            then MarkVisited(old(V(current)), j) else old(V(current))
      ensures numbered == old(numbered) && compiled == old(compiled)
    {
      var g := cc.table[j];
      if !g.dead && !g.visited && cc.wires[g.a].id.Some? && (g.op == INV || cc.wires[g.b].id.Some?) {
        cc.table := cc.table[j := g.(visited := true)];
        pending := pending + [j];
      }
    }

    /** Wire.Assign: an id for the wire, unless it is an output or has one, and
        a visit to its readers. */
    method AssignWire(w: nat, ghost s0: State, ghost drv: Drivers, ghost current: seq<nat>)
      requires Compilable(s0, drv) && Inv(s0, drv, V(current)) && CompleteBut(cc.G(), [])
      requires w < |cc.wires| && From(s0, drv, numbered + current, w)
      modifies this, cc
      ensures Inv(s0, drv, V(current)) && CompleteBut(cc.G(), [])
      ensures |cc.wires| == |old(cc.wires)| && (cc.wires[w].output || HasId(cc.G(), w))
      ensures numbered == old(numbered) && compiled == old(compiled)
      ensures owner == old(owner) + if !old(cc.wires)[w].output && old(cc.wires)[w].id.None? then [w] else []
      ensures old(pending) <= pending
    {
      hide Inv, CompleteBut, Compilable, From, InputsNamed;
      OnlyIdsAt(s0, drv, V(current), w);
      if cc.wires[w].output {
        return;
      }
      ghost var was := owner + if cc.wires[w].id.None? then [w] else [];
      if cc.wires[w].id.None? {
        FromFrame(s0, cc.G(), drv, numbered + current, w);
        NameKeeps(s0, drv, V(current), w);
        NameCompletesAt(s0, drv, V(current), w);
        ghost var v := V(current);
        cc.wires := cc.wires[w := cc.wires[w].(id := Some(next))];
        next := next + 1;
        owner := owner + [w];
        assert V(current) == Name(v, w);
      } else {
        MoreComplete(cc.G(), s0.wires[w].readers);
      }
      var readers := cc.wires[w].readers;
      OnlyIdsAt(s0, drv, V(current), w);
      var x := 0;
      assert readers[0..] == readers;
      while x < |readers|
        invariant 0 <= x <= |readers|
        invariant Inv(s0, drv, V(current)) && CompleteBut(cc.G(), readers[x..])
        invariant |cc.wires| == |old(cc.wires)| && cc.wires[w].id.Some?
        invariant numbered == old(numbered) && compiled == old(compiled) && owner == was && old(pending) <= pending
      {
        ghost var v := V(current);
        var j := readers[x];
        ReaderOk(s0, drv, v, w, x);
        Visit(j, current);
        if V(current) != v {
          VisitKeeps(s0, drv, v, j);
        }
        assert readers[x..][0] == j && readers[x..][1..] == readers[x + 1..];
        VisitCompletes(v.s, cc.G(), readers[x..]);
        x := x + 1;
      }
      assert readers[x..] == [];
    }

    /** Gate.Assign, for the first waiting gate. */
    method AssignGate(ghost s0: State, ghost drv: Drivers)
      requires Compilable(s0, drv) && Inv(s0, drv, V([])) && CompleteBut(cc.G(), []) && pending != []
      requires forall x :: 0 <= x < |numbered| ==> Named(cc.G(), numbered[x])
      modifies this, cc
      ensures Inv(s0, drv, V([])) && CompleteBut(cc.G(), [])
      ensures numbered == old(numbered) + [old(pending)[0]] && old(pending)[1..] <= pending && compiled == old(compiled)
      ensures forall x :: 0 <= x < |numbered| ==> Named(cc.G(), numbered[x])
      ensures old(owner) <= owner
    {
      hide Inv, CompleteBut, Compilable, Named, From;
      ghost var v := V([]);
      var j := pending[0];
      ghost var named := numbered;
      PopKeeps(s0, drv, v);
      HeadOk(s0, drv, v);
      pending := pending[1..];
      assert numbered + [] == numbered;
      assert V([j]) == Pop(v);
      var o := cc.table[j].o;
      ghost var before := cc.G();
      AssignWire(o, s0, drv, [j]);
      StillNamed(s0, drv, v, V([j]), named, j);
      numbered := numbered + [j];
      assert numbered + [] == numbered;
    }

    /** The input wires first, so that input i gets id i. */
    method AssignInputs(ghost s0: State, ghost drv: Drivers)
      requires Compilable(s0, drv) && Unnumbered(s0) && InputsApart(s0) && cc.G() == s0
      requires next == 0 && pending == [] && numbered == [] && owner == [] && compiled == []
      modifies this, cc
      ensures Inv(s0, drv, V([])) && CompleteBut(cc.G(), [])
      ensures numbered == [] && compiled == [] && IsCount(owner, s0.k)
    {
      hide Inv, CompleteBut, Compilable, InputsApart;
      StartOk(s0, drv);
      assert numbered + [] == [];
      var w := 0;
      while w < cc.k
        invariant 0 <= w <= cc.k == s0.k
        invariant Inv(s0, drv, V([])) && CompleteBut(cc.G(), [])
        invariant numbered == [] && compiled == [] && IsCount(owner, w)
      {
        NextInput(s0, drv, V([]), w);
        AssignWire(w, s0, drv, []);
        w := w + 1;
      }
    }

    /** Gates in the order in which their inputs become known. */
    method AssignGates(ghost s0: State, ghost drv: Drivers)
      requires Compilable(s0, drv) && Inv(s0, drv, V([])) && CompleteBut(cc.G(), []) && numbered == []
      requires IsCount(owner, s0.k)
      modifies this, cc
      ensures Inv(s0, drv, V([])) && CompleteBut(cc.G(), []) && pending == [] && compiled == old(compiled)
      ensures forall x :: 0 <= x < |numbered| ==> Named(cc.G(), numbered[x])
      ensures s0.k <= |owner| && IsCount(owner[..s0.k], s0.k)
    {
      hide Inv, CompleteBut, Compilable, Named;
      QueueFits(s0, drv, V([]));
      assert owner[..s0.k] == owner;
      while |pending| > 0
        invariant Inv(s0, drv, V([])) && CompleteBut(cc.G(), []) && compiled == old(compiled)
        invariant forall x :: 0 <= x < |numbered| ==> Named(cc.G(), numbered[x])
        invariant |numbered| + |pending| <= |s0.table|
        invariant s0.k <= |owner| && IsCount(owner[..s0.k], s0.k)
        decreases |s0.table| - |numbered|
      {
        ghost var before := owner;
        AssignGate(s0, drv);
        QueueFits(s0, drv, V([]));
        assert numbered + [] == numbered;
        assert owner[..s0.k] == before[..s0.k];
      }
    }

    /** The output wires last, in order; the source panics if one has an id. */
    method AssignOutputs(outs: seq<nat>, ghost s0: State)
      requires OnlyIds(s0, cc.G()) && Ids(V([])) && OutsOk(s0, outs)
      requires forall i :: 0 <= i < |owner| ==> owner[i] < |s0.wires| && !s0.wires[owner[i]].output
      modifies this, cc
      ensures OnlyIds(s0, cc.G()) && Ids(V([])) && owner == old(owner) + outs
      ensures numbered == old(numbered) && compiled == old(compiled) && cc.table == old(cc.table)
    {
      hide OnlyIds, Ids;
      var i := 0;
      while i < |outs|
        invariant 0 <= i <= |outs|
        invariant OnlyIds(s0, cc.G()) && Ids(V([])) && owner == old(owner) + outs[..i]
        invariant numbered == old(numbered) && compiled == old(compiled) && cc.table == old(cc.table)
      {
        ghost var v := V([]);
        var w := outs[i];
        OutputUnnamed(s0, v, old(owner), outs, i);
        assert cc.wires[w].id.None?;
        cc.wires := cc.wires[w := cc.wires[w].(id := Some(next))];
        next := next + 1;
        owner := owner + [w];
        assert V([]) == Name(v, w);
        NameIds(s0, v, w);
        assert outs[..i + 1] == outs[..i] + [w];
        i := i + 1;
      }
      assert outs[..i] == outs;
    }

    /** Gate.Compile */
    method CompileGate(j: nat)
      requires j < |cc.table| && cc.table[j].a < |cc.wires| && cc.table[j].b < |cc.wires| && cc.table[j].o < |cc.wires|
      modifies this`compiled, cc`table
      ensures var g := old(cc.table)[j];
              if g.dead || g.compiled then compiled == old(compiled) && cc.table == old(cc.table)
              else compiled == old(compiled) + [Emitted(old(cc.G()), j)] && cc.table == old(cc.table)[j := g.(compiled := true)]
    {
      var g := cc.table[j];
      if g.dead || g.compiled {
        return;
      }
      cc.table := cc.table[j := g.(compiled := true)];
      if g.op == INV {
        compiled := compiled + [Gate(g.op, IdOf(cc.wires[g.a]), 0, IdOf(cc.wires[g.o]))];
      } else {
        compiled := compiled + [Gate(g.op, IdOf(cc.wires[g.a]), IdOf(cc.wires[g.b]), IdOf(cc.wires[g.o]))];
      }
    }

    method CompileGates(ghost s0: State, ghost drv: Drivers)
      requires Compilable(s0, drv) && OnlyIds(s0, cc.G()) && compiled == []
      requires NoneCompiled(cc.G())
      requires forall x :: 0 <= x < |numbered| ==> numbered[x] < |cc.table| && !cc.table[numbered[x]].dead
      requires forall x, y :: 0 <= x < y < |numbered| ==> numbered[x] != numbered[y]
      modifies this`compiled, cc`table
      ensures |compiled| == |numbered| && OnlyIds(s0, cc.G())
      ensures forall x :: 0 <= x < |compiled| ==> numbered[x] < |s0.table| && EmittedAs(s0, cc.G(), numbered[x], compiled[x])
    {
      hide Compilable;
      ghost var s := cc.G();
      var x := 0;
      while x < |numbered|
        invariant 0 <= x <= |numbered| && |compiled| == x
        invariant OnlyIds(s0, cc.G()) && cc.wires == s.wires
        invariant forall y :: x <= y < |numbered| ==> !cc.table[numbered[y]].compiled && !cc.table[numbered[y]].dead
        invariant forall y :: 0 <= y < x ==> EmittedAs(s0, s, numbered[y], compiled[y])
      {
        GateInRange(s0, cc.G(), drv, numbered[x]);
        CompileGate(numbered[x]);
        x := x + 1;
      }
      forall y | 0 <= y < |compiled| ensures EmittedAs(s0, cc.G(), numbered[y], compiled[y]) {
        assert EmittedAs(s0, s, numbered[y], compiled[y]);
      }
    }

    /** Compile.  Together with the circuit come the order in which the gates
        were emitted and the wire behind each id. */
    method Compile(outs: seq<nat>, inputs: seq<IOArg>, outputs: seq<IOArg>, ghost drv: Drivers)
      returns (c: Circuit, ghost order: seq<nat>)
      requires Compilable(cc.G(), drv) && Unnumbered(cc.G()) && InputsApart(cc.G()) && OutsOk(cc.G(), outs)
      requires OutsDriven(cc.G(), drv, outs)
      requires next == 0 && pending == [] && numbered == [] && owner == [] && compiled == []
      modifies this, cc
      ensures c.inputs == inputs && c.outputs == outputs && c.numWires == |owner|
      ensures Compiled(old(cc.G()), drv, outs, c.gates, order, owner)
    {
      hide Compilable, Inv, CompleteBut, Compiled, Unnumbered, InputsApart, OutsOk, OutsDriven, Named, OnlyIds, Ids, EmittedAs;
      ghost var s0 := cc.G();
      AssignInputs(s0, drv);
      AssignGates(s0, drv);
      ghost var v := V([]);
      assert numbered + [] == numbered;
      order := numbered;
      AfterNumbering(s0, drv, v);
      AssignOutputs(outs, s0);
      ghost var named := V([]);
      CompileGates(s0, drv);
      c := Circuit(next, inputs, outputs, compiled);
      SameIds(named, V([]));
      Emission(s0, drv, outs, v, V([]), compiled);
    }
  }

  lemma OnlyIdsAt(s0: State, drv: Drivers, v: View, w: nat)
    requires Inv(s0, drv, v) && w < |v.s.wires|
    ensures w < |s0.wires| && v.s.wires[w].output == s0.wires[w].output && v.s.wires[w].readers == s0.wires[w].readers
    ensures |v.s.table| == |s0.table| && v.s.k == s0.k
  {
  }

  lemma FromFrame(s0: State, s: State, drv: Drivers, done: seq<nat>, w: nat)
    requires From(s0, drv, done, w) && s.k == s0.k
    ensures From(s, drv, done, w)
  {
  }

  lemma NameCompletesAt(s0: State, drv: Drivers, v: View, w: nat)
    requires Compilable(s0, drv) && Inv(s0, drv, v) && CompleteBut(v.s, []) && w < |v.s.wires|
    ensures w < |s0.wires| && CompleteBut(Name(v, w).s, s0.wires[w].readers)
  {
    NameCompletes(s0, v, w);
  }

  lemma MoreComplete(s: State, rest: seq<nat>)
    requires CompleteBut(s, [])
    ensures CompleteBut(s, rest)
  {
  }

  lemma ReaderOk(s0: State, drv: Drivers, v: View, w: nat, x: nat)
    requires Compilable(s0, drv) && Inv(s0, drv, v) && w < |s0.wires| && x < |s0.wires[w].readers|
    ensures s0.wires[w].readers[x] < |v.s.table|
    ensures var j := s0.wires[w].readers[x]; v.s.table[j].a < |v.s.wires| && v.s.table[j].b < |v.s.wires|
  {
    assert ListOk(s0, w);
    assert ReadsFine(s0, drv, s0.wires[w].readers[x]);
  }

  lemma HeadOk(s0: State, drv: Drivers, v: View)
    requires Compilable(s0, drv) && Inv(s0, drv, v) && v.pending != []
    ensures v.pending[0] < |v.s.table| && v.s.table[v.pending[0]].o < |v.s.wires| && !v.s.table[v.pending[0]].dead
    ensures From(s0, drv, v.done + [v.pending[0]], v.s.table[v.pending[0]].o)
  {
    var j := v.pending[0];
    assert (v.done + v.pending)[|v.done|] == j;
    assert drv[s0.table[j].o] == Some(j);
  }

  lemma StillNamed(s0: State, drv: Drivers, v: View, u: View, named: seq<nat>, j: nat)
    requires Inv(s0, drv, v) && Inv(s0, drv, u) && j < |v.s.table|
    requires forall x :: 0 <= x < |named| ==> Named(v.s, named[x])
    requires v.owner <= u.owner && v.s.table[j].o < |u.s.wires|
    requires u.s.wires[v.s.table[j].o].output || HasId(u.s, v.s.table[j].o)
    ensures forall x :: 0 <= x < |named + [j]| ==> Named(u.s, (named + [j])[x])
  {
    forall x | 0 <= x < |named + [j]| ensures Named(u.s, (named + [j])[x]) {
      if x < |named| {
        var o := v.s.table[named[x]].o;
        assert Named(v.s, named[x]);
        if HasId(v.s, o) {
          assert IdOwned(v, o);
          assert u.owner[v.s.wires[o].id.value] == o;
        }
      }
    }
  }

  // ----- Start and end -----

  ghost predicate Unnumbered(s: State) {
    && (forall w :: 0 <= w < |s.wires| ==> s.wires[w].id.None?)
    && (forall j :: 0 <= j < |s.table| ==> !s.table[j].visited && !s.table[j].compiled)
  }

  /** No input wire is an output of the circuit. */
  predicate InputsApart(s: State) {
    forall w :: 0 <= w < |s.wires| && s.wires[w].output ==> s.k <= w
  }

  /** The output wires are those marked, each once. */
  ghost predicate OutsOk(s: State, outs: seq<nat>) {
    && (forall i :: 0 <= i < |outs| ==> outs[i] < |s.wires| && s.wires[outs[i]].output)
    && (forall i, j :: 0 <= i < j < |outs| ==> outs[i] != outs[j])
    && (forall w :: 0 <= w < |s.wires| && s.wires[w].output ==> w in outs)
  }

  ghost predicate OutsDriven(s: State, drv: Drivers, outs: seq<nat>) {
    forall i :: 0 <= i < |outs| ==> outs[i] < |drv| && drv[outs[i]].Some?
  }

  predicate IsCount(xs: seq<nat>, n: nat) {
    |xs| == n && forall i :: 0 <= i < n ==> xs[i] == i
  }

  lemma StartOk(s: State, drv: Drivers)
    requires Unnumbered(s)
    ensures Inv(s, drv, View(s, 0, [], [], [])) && CompleteBut(s, [])
  {
  }

  lemma NextInput(s0: State, drv: Drivers, v: View, w: nat)
    requires Compilable(s0, drv) && Inv(s0, drv, v) && IsCount(v.owner, w) && w < s0.k && InputsApart(s0)
    ensures w < |v.s.wires| && From(s0, drv, v.done, w)
    ensures !v.s.wires[w].output && v.s.wires[w].id.None?
  {
    assert HasId(v.s, w) ==> IdOwned(v, w);
  }

  /** Distinct numbers below n are at most n. */
  lemma {:induction false} Pigeons(q: seq<nat>, n: nat)
    requires forall x :: 0 <= x < |q| ==> q[x] < n
    requires forall x, y :: 0 <= x < y < |q| ==> q[x] != q[y]
    ensures |q| <= n
  {
    if q != [] {
      assert q[0] < n;
      if n - 1 in q {
        var x :| 0 <= x < |q| && q[x] == n - 1;
        var p := q[..x] + q[x + 1..];
        forall i | 0 <= i < |p| ensures p[i] < n - 1 {
          assert p[i] == if i < x then q[i] else q[i + 1];
        }
        forall i, j | 0 <= i < j < |p| ensures p[i] != p[j] {
          assert p[i] == if i < x then q[i] else q[i + 1];
          assert p[j] == if j < x then q[j] else q[j + 1];
        }
        Pigeons(p, n - 1);
      } else {
        Pigeons(q, n - 1);
      }
    }
  }

  lemma QueueFits(s0: State, drv: Drivers, v: View)
    requires Inv(s0, drv, v)
    ensures |v.done| + |v.pending| <= |s0.table|
  {
    Pigeons(v.done + v.pending, |s0.table|);
  }

  lemma NameIds(s0: State, v: View, w: nat)
    requires OnlyIds(s0, v.s) && Ids(v) && w < |v.s.wires| && v.s.wires[w].id.None?
    ensures OnlyIds(s0, Name(v, w).s) && Ids(Name(v, w))
  {
    var u := Name(v, w);
    forall x | 0 <= x < |u.s.wires| && HasId(u.s, x) ensures IdOwned(u, x) {
      assert x != w ==> HasId(v.s, x) && IdOwned(v, x);
    }
  }

  lemma OutputUnnamed(s0: State, v: View, named: seq<nat>, outs: seq<nat>, i: nat)
    requires OnlyIds(s0, v.s) && Ids(v) && OutsOk(s0, outs) && i < |outs| && v.owner == named + outs[..i]
    requires forall i :: 0 <= i < |named| ==> named[i] < |s0.wires| && !s0.wires[named[i]].output
    ensures outs[i] < |v.s.wires| && v.s.wires[outs[i]].id.None?
  {
    var w := outs[i];
    forall x | 0 <= x < |v.owner| ensures v.owner[x] != w {
      assert v.owner[x] == if x < |named| then named[x] else outs[x - |named|];
    }
    assert HasId(v.s, w) ==> IdOwned(v, w);
  }

  // ----- Emission -----

  function IdOf(w: Wire): nat {
    if w.id.Some? then w.id.value else 0
  }

  function Emitted(s: State, j: nat): Gate
    requires j < |s.table| && s.table[j].a < |s.wires| && s.table[j].b < |s.wires| && s.table[j].o < |s.wires|
  {
    var g := s.table[j];
    Gate(g.op, IdOf(s.wires[g.a]), if g.op == INV then 0 else IdOf(s.wires[g.b]), IdOf(s.wires[g.o]))
  }

  ghost predicate EmittedAs(s0: State, s: State, j: nat, e: Gate) {
    && |s.wires| == |s0.wires| && j < |s0.table|
    && var g := s0.table[j];
    g.a < |s.wires| && g.b < |s.wires| && g.o < |s.wires|
    && e == Gate(g.op, IdOf(s.wires[g.a]), if g.op == INV then 0 else IdOf(s.wires[g.b]), IdOf(s.wires[g.o]))
  }

  lemma GateInRange(s0: State, s: State, drv: Drivers, j: nat)
    requires Compilable(s0, drv) && OnlyIds(s0, s) && j < |s.table|
    ensures s.table[j].a < |s.wires| && s.table[j].b < |s.wires| && s.table[j].o < |s.wires|
  {
    assert ReadsFine(s0, drv, j);
    assert drv[s0.table[j].o] == Some(j);
  }

  /** A live gate all of whose inputs have a value. */
  predicate Grounded(s: State, drv: Drivers, j: nat) {
    && j < |s.table| && !s.table[j].dead && Sound(s, drv, s.table[j].a)
    && (s.table[j].op != INV ==> Sound(s, drv, s.table[j].b))
  }

  predicate Sound(s: State, drv: Drivers, w: nat) {
    w < s.k || (w < |drv| && drv[w].Some?)
  }

  /** Gate `e` of the result is gate `j` of the graph, under the final ids. */
  predicate Renamed(s: State, owner: seq<nat>, j: nat, e: Gate) {
    && j < |s.table| && e.op == s.table[j].op && !e.op.Other?
    && e.input0 < |owner| && owner[e.input0] == s.table[j].a
    && e.input1 < |owner| && (e.op == INV || owner[e.input1] == s.table[j].b)
    && e.output < |owner| && owner[e.output] == s.table[j].o
  }

  /** What Compile promises: ids and wires correspond one to one, inputs have
      the first ids and outputs the last; every live gate with driven inputs is
      emitted exactly once, after the gates that drive its inputs. */
  ghost predicate Compiled(s: State, drv: Drivers, outs: seq<nat>, gates: seq<Gate>, order: seq<nat>, owner: seq<nat>) {
    && s.k + |outs| <= |owner| && IsCount(owner[..s.k], s.k) && owner[|owner| - |outs|..] == outs
    && (forall i, j :: 0 <= i < j < |owner| ==> owner[i] != owner[j])
    && |gates| == |order|
    && (forall x :: 0 <= x < |order| ==> Renamed(s, owner, order[x], gates[x]))
    && (forall x, y :: 0 <= x < y < |order| ==> order[x] != order[y])
    && (forall j :: j in order <==> Grounded(s, drv, j))
    && (forall x :: 0 <= x < |order| ==> GateFrom(s, drv, order[..x], order[x]))
  }

  /** No gate with driven inputs is left out. */
  lemma {:induction false} AllGrounded(s0: State, drv: Drivers, v: View, j: nat)
    requires Compilable(s0, drv) && Inv(s0, drv, v) && CompleteBut(v.s, []) && v.pending == []
    requires forall x :: 0 <= x < |v.done| ==> Named(v.s, v.done[x])
    requires forall w :: 0 <= w < s0.k ==> HasId(v.s, w)
    requires Grounded(s0, drv, j)
    ensures j in v.done
    decreases j
  {
    hide Count, Covered;
    var g := s0.table[j];
    assert ReadsFine(s0, drv, j);
    DriverDone(s0, drv, v, j, false);
    if g.a >= s0.k {
      AllGrounded(s0, drv, v, drv[g.a].value);
      DriverNamed(s0, drv, v, g.a);
    }
    if g.op != INV {
      DriverDone(s0, drv, v, j, true);
      if g.b >= s0.k {
        AllGrounded(s0, drv, v, drv[g.b].value);
        DriverNamed(s0, drv, v, g.b);
      }
    }
    assert InputsNamed(v.s, j) && !v.s.table[j].dead;
    assert v.s.table[j].visited;
    assert v.done + v.pending == v.done;
  }

  /** The driver of a live gate's input is itself live, with driven inputs. */
  lemma DriverDone(s0: State, drv: Drivers, v: View, j: nat, second: bool)
    requires Compilable(s0, drv) && Inv(s0, drv, v) && Grounded(s0, drv, j) && HasPort(s0.table[j], second)
    ensures var w := PortOf(s0.table[j], second);
            w >= s0.k ==> w < |drv| && drv[w].Some? && drv[w].value < j && Grounded(s0, drv, drv[w].value) && w < |s0.wires| && !s0.wires[w].output
  {
    hide Covered;
    var w := PortOf(s0.table[j], second);
    assert ReadsFine(s0, drv, j);
    if w >= s0.k {
      var h := drv[w].value;
      CountOne(s0.table, j, w);
      assert s0.wires[w].num > 0;
      assert Loose(s0, j) || h < j;
      DriverFirst(s0, drv, j, second);
      assert ReadsFine(s0, drv, h);
      assert !Loose(s0, h);
    }
  }

  lemma DriverFirst(s0: State, drv: Drivers, j: nat, second: bool)
    requires Reads(s0, drv) && j < |s0.table| && HasPort(s0.table[j], second)
    ensures var w := PortOf(s0.table[j], second); s0.k <= w ==> w < |drv| && (drv[w].Some? ==> drv[w].value < j)
  {
    assert ReadsFine(s0, drv, j);
  }

  lemma DriverNamed(s0: State, drv: Drivers, v: View, w: nat)
    requires Compilable(s0, drv) && Inv(s0, drv, v) && w < |s0.wires| && !s0.wires[w].output
    requires w < |drv| && drv[w].Some? && drv[w].value in v.done
    requires forall x :: 0 <= x < |v.done| ==> Named(v.s, v.done[x])
    ensures HasId(v.s, w)
  {
    var h := drv[w].value;
    assert s0.table[h].o == w;
  }

  lemma AfterNumbering(s0: State, drv: Drivers, v: View)
    requires Inv(s0, drv, v) && Unnumbered(s0)
    ensures OnlyIds(s0, v.s) && Ids(v) && NoneCompiled(v.s)
    ensures forall i :: 0 <= i < |v.owner| ==> v.owner[i] < |s0.wires| && !s0.wires[v.owner[i]].output
    ensures forall x :: 0 <= x < |v.done| ==> v.done[x] < |v.s.table| && !v.s.table[v.done[x]].dead
    ensures forall x, y :: 0 <= x < y < |v.done| ==> v.done[x] != v.done[y]
  {
    var q := v.done + v.pending;
    assert forall x :: 0 <= x < |v.done| ==> q[x] == v.done[x];
    forall i | 0 <= i < |v.owner| ensures v.owner[i] < |s0.wires| && !s0.wires[v.owner[i]].output {
      assert HasId(v.s, v.owner[i]);
    }
  }

  lemma SameIds(v: View, u: View)
    requires Ids(v) && u.s.wires == v.s.wires && u.owner == v.owner && u.next == v.next
    ensures Ids(u)
  {
    forall w | 0 <= w < |u.s.wires| && HasId(u.s, w) ensures IdOwned(u, w) {
      assert IdOwned(v, w);
    }
  }

  /** Every wire that a done gate may read, or drives, has an id in the end. */
  lemma FinalId(s0: State, drv: Drivers, outs: seq<nat>, v: View, u: View, w: nat)
    requires DrivenBy(s0, drv) && Inv(s0, drv, v) && Ids(u) && u.owner == v.owner + outs && OnlyIds(s0, u.s) && OutsOk(s0, outs)
    requires forall x :: 0 <= x < |v.done| ==> Named(v.s, v.done[x])
    requires s0.k <= |v.owner| && IsCount(v.owner[..s0.k], s0.k)
    requires From(s0, drv, v.done, w)
    ensures w < |u.s.wires| && u.s.wires[w].id.Some? && IdOf(u.s.wires[w]) < |u.owner| && u.owner[IdOf(u.s.wires[w])] == w
  {
    if w < s0.k {
      assert v.owner[..s0.k][w] == v.owner[w];
      assert u.owner[w] == w;
    } else {
      var h := drv[w].value;
      assert s0.table[h].o == w && Named(v.s, h);
      if v.s.wires[w].output {
        var i :| 0 <= i < |outs| && outs[i] == w;
        assert u.owner[|v.owner| + i] == w;
      } else {
        assert IdOwned(v, w);
        assert u.owner[v.s.wires[w].id.value] == w;
      }
    }
  }

  lemma FinalGate(s0: State, drv: Drivers, outs: seq<nat>, v: View, u: View, x: nat, e: Gate)
    requires Compilable(s0, drv) && Inv(s0, drv, v) && Ids(u) && u.owner == v.owner + outs && OnlyIds(s0, u.s) && OutsOk(s0, outs)
    requires forall x :: 0 <= x < |v.done| ==> Named(v.s, v.done[x])
    requires s0.k <= |v.owner| && IsCount(v.owner[..s0.k], s0.k)
    requires x < |v.done| && EmittedAs(s0, u.s, v.done[x], e)
    ensures Renamed(s0, u.owner, v.done[x], e) && GateFrom(s0, drv, v.done[..x], v.done[x]) && !s0.table[v.done[x]].dead
  {
    hide Covered, Counted, Ids, OutsOk, Reads;
    var j := v.done[x];
    assert GateFrom(v.s, drv, v.done[..x], j);
    assert (v.done + v.pending)[x] == j;
    var g := s0.table[j];
    assert drv[g.o] == Some(j);
    FinalId(s0, drv, outs, v, u, g.a);
    FinalId(s0, drv, outs, v, u, g.o);
    if g.op != INV {
      FinalId(s0, drv, outs, v, u, g.b);
    }
  }

  lemma Emission(s0: State, drv: Drivers, outs: seq<nat>, v: View, u: View, gates: seq<Gate>)
    requires Compilable(s0, drv) && Inv(s0, drv, v) && CompleteBut(v.s, []) && v.pending == []
    requires forall x :: 0 <= x < |v.done| ==> Named(v.s, v.done[x])
    requires s0.k <= |v.owner| && IsCount(v.owner[..s0.k], s0.k) && OutsOk(s0, outs)
    requires OnlyIds(s0, u.s) && Ids(u) && u.owner == v.owner + outs
    requires |gates| == |v.done| && forall x :: 0 <= x < |gates| ==> EmittedAs(s0, u.s, v.done[x], gates[x])
    ensures Compiled(s0, drv, outs, gates, v.done, u.owner)
  {
    hide Inv, Compilable, Named, OnlyIds, OutsOk, CompleteBut, EmittedAs;
    forall x | 0 <= x < |v.done|
      ensures Renamed(s0, u.owner, v.done[x], gates[x]) && GateFrom(s0, drv, v.done[..x], v.done[x]) && Grounded(s0, drv, v.done[x])
    {
      FinalGate(s0, drv, outs, v, u, x, gates[x]);
    }
    forall w | 0 <= w < s0.k ensures HasId(v.s, w) {
      InputNamed(s0, drv, v, w);
    }
    forall j | Grounded(s0, drv, j) ensures j in v.done {
      AllGrounded(s0, drv, v, j);
    }
    DoneDistinct(s0, drv, v);
    assert u.owner[..s0.k] == v.owner[..s0.k] && u.owner[|v.owner|..] == outs;
    forall i, j | 0 <= i < j < |u.owner| ensures u.owner[i] != u.owner[j] {
    }
  }

  lemma InputNamed(s0: State, drv: Drivers, v: View, w: nat)
    requires Inv(s0, drv, v) && s0.k <= |v.owner| && IsCount(v.owner[..s0.k], s0.k) && w < s0.k
    ensures HasId(v.s, w)
  {
    assert v.owner[..s0.k][w] == v.owner[w];
  }

  lemma DoneDistinct(s0: State, drv: Drivers, v: View)
    requires Inv(s0, drv, v)
    ensures forall x, y :: 0 <= x < y < |v.done| ==> v.done[x] != v.done[y]
  {
    var q := v.done + v.pending;
    assert forall x :: 0 <= x < |v.done| ==> q[x] == v.done[x];
  }
}
