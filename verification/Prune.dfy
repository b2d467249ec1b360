/** The third pass of compiler/circuits/compiler.go: from the last gate to the
    first, a gate whose output is neither read nor an output of the circuit is
    dropped, and no longer counts as a reader of its inputs. */
module Prune {
  import opened Circuit
  import opened Graph
  import opened Compiler
  import opened Propagate
  import opened ShortXor

  /** What numbering needs of the graph: every live gate is in the lists of the
      wires it reads and reads driven wires only, unless it is loose; counts are
      right; nothing reads an output, nor a gate that was dropped. */
  ghost predicate Compilable(s: State, drv: Drivers) {
    && 0 < s.k <= |s.wires| && DrivenBy(s, drv) && Counted(s) && Covered(s) && OutputsUnread(s)
    && (forall j :: 0 <= j < |s.table| ==> (s.table[j].dead ==> Loose(s, j)))
    && Reads(s, drv)
    && (forall j :: 0 <= j < |s.table| ==> !s.table[j].op.Other?)
  }

  /** Only counts and dead marks have changed. */
  ghost predicate OnlyDead(s0: State, s: State) {
    && s == s0.(wires := s.wires, table := s.table) && |s.wires| == |s0.wires| && |s.table| == |s0.table|
    && (forall w :: 0 <= w < |s.wires| ==> s.wires[w] == s0.wires[w].(num := s.wires[w].num) && s.wires[w].num <= s0.wires[w].num)
    && (forall j :: 0 <= j < |s.table| ==> s.table[j] == s0.table[j].(dead := s.table[j].dead))
  }

  /** The gates from `i` on have been decided: the live ones are used. */
  ghost predicate Decided(s: State, i: nat) {
    && (forall j :: 0 <= j < i && j < |s.table| ==> !s.table[j].dead)
    && (forall j :: i <= j < |s.table| ==> (s.table[j].dead <==> Loose(s, j)))
  }

  lemma DeadReads(s0: State, s: State, drv: Drivers)
    requires Reads(s0, drv) && OnlyDead(s0, s)
    ensures Reads(s, drv)
  {
    forall j | 0 <= j < |s.table| ensures ReadsFine(s, drv, j) {
      assert ReadsFine(s0, drv, j);
      assert Loose(s0, j) ==> Loose(s, j);
    }
  }

  /** Dropping gate `i` takes its ports off the counts. */
  predicate Drops(s: State, t: State, i: nat) {
    && i < |s.table| && |t.wires| == |s.wires|
    && t == s.(wires := t.wires, table := s.table[i := s.table[i].(dead := true)])
    && forall w :: 0 <= w < |s.wires| ==>
         s.wires[w].num >= ReadsOf(s.table[i], w) && t.wires[w] == s.wires[w].(num := s.wires[w].num - ReadsOf(s.table[i], w))
  }

  lemma DropCounts(s: State, t: State, i: nat)
    requires Counted(s) && Drops(s, t, i) && !s.table[i].dead
    ensures Counted(t)
  {
    hide Count;
    forall w | 0 <= w < |t.wires| ensures t.wires[w].num == Count(t.table, w) {
      CountUpdate(s.table, i, s.table[i].(dead := true), w);
    }
  }

  /** A gate reads no output of itself or of a later gate. */
  lemma ReadsEarlier(s: State, drv: Drivers, i: nat, j: nat)
    requires DrivenBy(s, drv) && Reads(s, drv) && i <= j < |s.table|
    ensures ReadsOf(s.table[i], s.table[j].o) == 0
  {
    assert ReadsFine(s, drv, i);
    assert drv[s.table[j].o] == Some(j);
  }

  lemma DropDecides(s: State, t: State, drv: Drivers, i: nat)
    requires DrivenBy(s, drv) && Reads(s, drv) && Decided(s, i + 1) && Drops(s, t, i) && Loose(s, i)
    ensures Decided(t, i)
  {
    forall j | i <= j < |t.table| ensures t.table[j].dead <==> Loose(t, j) {
      ReadsEarlier(s, drv, i, j);
      assert drv[s.table[j].o] == Some(j);
    }
  }

  /** Gate.Prune */
  method PruneGate(cc: Compiler, i: nat, ghost drv: Drivers) returns (pruned: bool)
    requires DrivenBy(cc.G(), drv) && Reads(cc.G(), drv) && Counted(cc.G()) && Decided(cc.G(), i + 1) && i < |cc.table|
    modifies cc
    ensures pruned == old(Loose(cc.G(), i))
    ensures if pruned then Drops(old(cc.G()), cc.G(), i) else cc.G() == old(cc.G())
    ensures Counted(cc.G()) && Decided(cc.G(), i)
  {
    hide Counted, Count, Reads;
    ghost var s := cc.G();
    var g := cc.table[i];
    assert drv[g.o] == Some(i);
    if g.dead || cc.wires[g.o].output || cc.wires[g.o].num > 0 {
      return false;
    }
    Removable(s, drv, i);
    cc.table := cc.table[i := g.(dead := true)];
    if g.op != INV {
      cc.wires := Drop(cc.wires, g.b);
    }
    cc.wires := Drop(cc.wires, g.a);
    assert Drops(s, cc.G(), i);
    DropCounts(s, cc.G(), i);
    DropDecides(s, cc.G(), drv, i);
    return true;
  }

  lemma Removable(s: State, drv: Drivers, i: nat)
    requires Reads(s, drv) && Counted(s) && i < |s.table| && !s.table[i].dead
    ensures s.table[i].a < |s.wires| && s.table[i].b < |s.wires|
    ensures forall w :: 0 <= w < |s.wires| ==> s.wires[w].num >= ReadsOf(s.table[i], w)
  {
    assert ReadsFine(s, drv, i);
    forall w | 0 <= w < |s.wires| ensures s.wires[w].num >= ReadsOf(s.table[i], w) {
      CountOne(s.table, i, w);
    }
  }

  /** The indices of the live gates from `i` on, in order. */
  function LiveFrom(t: seq<Node>, i: nat): (live: seq<nat>)
    requires i <= |t|
    ensures |live| <= |t| - i
    decreases |t| - i
  {
    if i == |t| then [] else (if t[i].dead then [] else [i]) + LiveFrom(t, i + 1)
  }

  /** They are the live gates and nothing else, in their order. */
  lemma {:induction false} LiveInOrder(t: seq<Node>, i: nat)
    requires i <= |t|
    ensures forall j :: j in LiveFrom(t, i) <==> i <= j < |t| && !t[j].dead
    ensures forall x, y :: 0 <= x < y < |LiveFrom(t, i)| ==> LiveFrom(t, i)[x] < LiveFrom(t, i)[y]
    decreases |t| - i
  {
    if i < |t| {
      LiveInOrder(t, i + 1);
      var rest := LiveFrom(t, i + 1);
      forall x | 0 <= x < |rest| ensures rest[x] > i {
        assert rest[x] in rest;
      }
    }
  }

  lemma {:induction false} LiveFromSame(t: seq<Node>, u: seq<Node>, i: nat)
    requires |t| == |u| && i <= |t| && forall j :: i <= j < |t| ==> t[j].dead == u[j].dead
    ensures LiveFrom(t, i) == LiveFrom(u, i)
    decreases |t| - i
  {
    if i < |t| {
      LiveFromSame(t, u, i + 1);
    }
  }

  /** The pass returns how many gates went and leaves the others, in order. */
  method PruneGates(cc: Compiler, ghost drv: Drivers) returns (pruned: nat, gates: seq<nat>)
    requires Compilable(cc.G(), drv) && NoneDead(cc.G())
    modifies cc
    ensures Compilable(cc.G(), drv) && OnlyDead(old(cc.G()), cc.G())
    ensures forall j :: 0 <= j < |cc.table| ==> (cc.table[j].dead <==> Loose(cc.G(), j))
    ensures gates == LiveFrom(cc.table, 0) && pruned == |cc.table| - |gates|
  {
    hide Reads, Counted, DrivenBy, Covered, OnlyDead, Decided, OutputsUnread, Drops;
    ghost var s0 := cc.G();
    gates := [];
    pruned := |cc.table|;
    var i: nat := |cc.table|;
    NothingDecided(s0);
    while i > 0
      invariant i <= |cc.table| == |s0.table| && OnlyDead(s0, cc.G()) && Counted(cc.G()) && Decided(cc.G(), i)
      invariant gates == LiveFrom(cc.table, i) && pruned == |cc.table| - |gates|
    {
      i := i - 1;
      ghost var s := cc.G();
      DeadReads(s0, s, drv);
      DeadDriven(s0, s, drv);
      var gone := PruneGate(cc, i, drv);
      AfterGate(s0, s, cc.G(), i, gone);
      if !gone {
        gates := [i] + gates;
        pruned := pruned - 1;
      }
    }
    DeadReads(s0, cc.G(), drv);
    DeadDriven(s0, cc.G(), drv);
    DeadCovered(s0, cc.G());
    AllDecided(s0, cc.G());
  }

  lemma NothingDecided(s: State)
    requires NoneDead(s)
    ensures OnlyDead(s, s) && Decided(s, |s.table|)
  {
  }

  lemma AfterGate(s0: State, s: State, t: State, i: nat, gone: bool)
    requires OnlyDead(s0, s) && Decided(s, i + 1) && i < |s.table| && gone == Loose(s, i)
    requires if gone then Drops(s, t, i) else t == s
    ensures OnlyDead(s0, t) && |t.table| == |s.table|
    ensures LiveFrom(t.table, i) == (if gone then [] else [i]) + LiveFrom(s.table, i + 1)
  {
    if gone {
      DropOnlyDead(s0, s, t, i);
    }
    hide OnlyDead, Drops, Loose, ReadsOf;
    LiveFromSame(s.table, t.table, i + 1);
  }

  lemma DropOnlyDead(s0: State, s: State, t: State, i: nat)
    requires OnlyDead(s0, s) && Drops(s, t, i)
    ensures OnlyDead(s0, t) && |t.table| == |s.table| && t.table[i].dead
    ensures forall j :: 0 <= j < |s.table| && j != i ==> t.table[j].dead == s.table[j].dead
  {
    hide ReadsOf, Loose;
  }

  lemma AllDecided(s0: State, s: State)
    requires OnlyDead(s0, s) && Decided(s, 0)
    ensures forall j :: 0 <= j < |s.table| ==> (s.table[j].dead <==> Loose(s, j)) && s.table[j].op == s0.table[j].op
    ensures s.k == s0.k && |s.wires| == |s0.wires| && (OutputsUnread(s0) ==> OutputsUnread(s))
  {
  }

  lemma DeadDriven(s0: State, s: State, drv: Drivers)
    requires DrivenBy(s0, drv) && OnlyDead(s0, s)
    ensures DrivenBy(s, drv)
  {
    assert forall j :: 0 <= j < |s.table| ==> s.table[j].o == s0.table[j].o;
  }

  lemma DeadCovered(s0: State, s: State)
    requires Covered(s0) && OnlyDead(s0, s)
    ensures Covered(s)
  {
    forall j | 0 <= j < |s.table| ensures CoveredGate(s, j) {
      assert CoveredGate(s0, j);
    }
    forall w | 0 <= w < |s.wires| ensures ListOk(s, w) {
      assert ListOk(s0, w);
    }
  }

  // ----- What is left -----

  /** Gate `j` is live and its output is a circuit output, or leads to one
      through live gates. */
  ghost predicate Reaches(s: State, j: nat)
    requires j < |s.table|
    decreases |s.table| - j
  {
    && !s.table[j].dead && s.table[j].o < |s.wires|
    && (s.wires[s.table[j].o].output ||
        exists r :: j < r < |s.table| && ReadsOf(s.table[r], s.table[j].o) > 0 && Reaches(s, r))
  }

  lemma {:induction false} SomeReader(t: seq<Node>, w: nat) returns (r: nat)
    requires Count(t, w) > 0
    ensures r < |t| && !t[r].dead && ReadsOf(t[r], w) > 0
  {
    var n := |t| - 1;
    if LiveReads(t[n], w) > 0 {
      r := n;
    } else {
      r := SomeReader(t[..n], w);
    }
  }

  /** After the pass every surviving gate's output reaches a circuit output. */
  lemma {:induction false} SurvivorsReach(s: State, drv: Drivers, j: nat)
    requires Compilable(s, drv) && j < |s.table|
    requires forall i :: 0 <= i < |s.table| ==> (s.table[i].dead <==> Loose(s, i))
    ensures Reaches(s, j) <==> !s.table[j].dead
    decreases |s.table| - j
  {
    hide Count, Covered;
    var o := s.table[j].o;
    assert drv[o] == Some(j);
    if !s.table[j].dead && !s.wires[o].output {
      var r := SomeReader(s.table, o);
      if r <= j {
        ReadsEarlier(s, drv, r, j);
      }
      SurvivorsReach(s, drv, r);
    }
  }

  /** Dropping gates loses no assignment. */
  lemma DeadModels(base: seq<Node>, s0: State, s: State, n: nat)
    requires Models(base, s0.table, n) && OnlyDead(s0, s)
    ensures Models(base, s.table, n)
  {
    forall asg | Sat(base, asg) ensures exists u :: Sat(s.table, u) && Agree(asg, u, n) {
      var u :| Sat(s0.table, u) && Agree(asg, u, n);
      forall j | 0 <= j < |s.table| ensures Holds(s.table[j], u) {
        assert Holds(s0.table[j], u);
      }
    }
  }
}
