/** The second pass of compiler/circuits/compiler.go: an XOR with zero whose
    other input has no other reader is bypassed by letting the gate that drives
    that input drive the output instead.  The gate left behind drives a fresh
    wire that nobody reads, and its own input may have no driver any more. */
module ShortXor {
  import opened Circuit
  import opened Graph
  import opened Compiler
  import opened Propagate

  /** Which gate drives which wire.  The wire's own pointer to its input gate is
      left as it was when a gate's output changes, so it can be stale. */
  type Drivers = seq<Opt<nat>>

  ghost predicate DrivenBy(s: State, drv: Drivers) {
    && |drv| == |s.wires|
    && (forall j :: 0 <= j < |s.table| ==> s.table[j].o < |s.wires| && drv[s.table[j].o] == Some(j))
    && (forall w :: 0 <= w < |drv| && drv[w].Some? ==> drv[w].value < |s.table| && s.table[drv[w].value].o == w)
    && (forall w :: 0 <= w < |drv| && w < s.k ==> drv[w].None?)
  }

  /** A gate whose output is neither read nor an output of the circuit. */
  predicate Loose(s: State, j: nat)
    requires j < |s.table|
  {
    var o := s.table[j].o;
    o < |s.wires| && s.wires[o].num == 0 && !s.wires[o].output
  }

  /** A port has a value before gate `j`, unless `j` is a loose gate. */
  predicate PortFine(s: State, drv: Drivers, j: nat, w: nat)
    requires j < |s.table| && |drv| == |s.wires|
  {
    w < |s.wires| && (w < s.k || if drv[w].Some? then drv[w].value < j else Loose(s, j))
  }

  ghost predicate Reads(s: State, drv: Drivers) {
    |drv| == |s.wires| && forall j :: 0 <= j < |s.table| ==> ReadsFine(s, drv, j)
  }

  predicate ReadsFine(s: State, drv: Drivers, j: nat)
    requires j < |s.table| && |drv| == |s.wires|
  {
    var g := s.table[j];
    PortFine(s, drv, j, g.a) && g.b < |s.wires| && (g.op != INV ==> PortFine(s, drv, j, g.b))
  }

  /** What the pass leaves alone: everything about the wires it found, and all
      of a gate but its output. */
  ghost predicate Frame(s0: State, s: State) {
    && s0.k == s.k && s0.inv == s.inv && s0.zero == s.zero && s0.one == s.one
    && |s0.wires| <= |s.wires| && |s0.table| == |s.table|
    && (forall w :: 0 <= w < |s0.wires| ==> s.wires[w] == s0.wires[w])
    && (forall w :: |s0.wires| <= w < |s.wires| ==> s.wires[w] == NEW_WIRE)
    && (forall j :: 0 <= j < |s.table| ==> s.table[j] == s0.table[j].(o := s.table[j].o))
    && (forall j :: 0 <= j < |s.table| ==> OldPorts(s0, s.table[j]))
  }

  predicate OldPorts(s0: State, g: Node) {
    g.a < |s0.wires| && g.b < |s0.wires|
  }

  /** The round in which the pass looks at a port: the second input first. */
  function Round(j: nat, second: bool): nat {
    if second then 2 * j else 2 * j + 1
  }

  predicate HasPort(g: Node, second: bool) {
    second ==> g.op != INV
  }

  /** All gates that read `w` have been looked at. */
  ghost predicate ReadBefore(s: State, w: nat, t: nat) {
    forall j, second :: 0 <= j < |s.table| && HasPort(s.table[j], second) && PortOf(s.table[j], second) == w ==>
      Round(j, second) < t
  }

  /** A wire's input pointer is right, or points to a gate that drives a wire
      without readers, or no gate still to come reads the wire. */
  ghost predicate Pointers(s: State, t: nat) {
    forall w :: 0 <= w < |s.wires| && s.wires[w].input.Some? ==> PointerOk(s, t, w)
  }

  ghost predicate PointerOk(s: State, t: nat, w: nat)
    requires w < |s.wires| && s.wires[w].input.Some?
  {
    var h := s.wires[w].input.value;
    && h < |s.table| && s.table[h].o < |s.wires|
    && (s.table[h].o == w || s.wires[s.table[h].o].num == 0 || ReadBefore(s, w, t))
  }

  /** Outputs of gates still to come are as they were, and so is a gate whose
      first port is still to come, unless it drives a fresh wire by now. */
  ghost predicate Untouched(s0: State, s: State, t: nat) {
    forall j :: 0 <= j < |s.table| && t <= Round(j, false) ==>
      s.table[j].o >= |s0.wires| || (s.table[j].o < |s.wires| && s.wires[s.table[j].o].input == Some(j))
  }

  /** The pass would bypass gate `j` at this port, and rightly so. */
  predicate Bypassable(s: State, j: nat, second: bool)
    requires j < |s.table|
  {
    var g := s.table[j];
    && g.op == XOR && PortOf(g, !second) < |s.wires| && PortOf(g, second) < |s.wires|
    && s.wires[PortOf(g, !second)].value == Zero
    && s.wires[PortOf(g, second)].input.Some? && s.wires[PortOf(g, second)].input.value < |s.table|
    && s.table[s.wires[PortOf(g, second)].input.value].o == PortOf(g, second)
    && s.wires[PortOf(g, second)].num == 1
  }

  ghost predicate NothingLeft(s: State, t: nat) {
    forall j, second :: 0 <= j < |s.table| && Round(j, second) < t ==> !Bypassable(s, j, second)
  }

  /** No live wire of the circuit's outputs is read. */
  predicate OutputsUnread(s: State) {
    forall w :: 0 <= w < |s.wires| && s.wires[w].output ==> s.wires[w].num == 0
  }

  /** Every output of the circuit has a gate that drives it. */
  ghost predicate OutputsDriven(s: State, drv: Drivers) {
    |drv| == |s.wires| && forall w :: 0 <= w < |s.wires| && s.wires[w].output ==> drv[w].Some?
  }

  ghost predicate Agree(u: Asg, v: Asg, n: nat) {
    forall w: nat :: w < n ==> (w in u <==> w in v)
  }

  /** Every assignment that obeys `base` can be extended to the fresh wires so
      that it obeys the gates as they are now. */
  ghost predicate Models(base: seq<Node>, t: seq<Node>, n: nat) {
    forall asg :: Sat(base, asg) ==> exists u :: Sat(t, u) && Agree(asg, u, n)
  }

  ghost predicate FlagsHold(base: seq<Node>, s: State) {
    forall asg, w :: Sat(base, asg) && 0 <= w < |s.wires| ==> FlagHolds(s.wires[w].value, w, asg)
  }

  /** What holds before round `t`. */
  ghost predicate Passing(base: seq<Node>, s0: State, s: State, drv: Drivers, t: nat) {
    && Frame(s0, s) && DrivenBy(s, drv) && Reads(s, drv) && Pointers(s, t) && Untouched(s0, s, t)
    && Counted(s) && NoneDead(s) && OutputsUnread(s) && NothingLeft(s, t)
    && Models(base, s.table, |s0.wires|) && FlagsHold(base, s0) && OutputsDriven(s, drv)
  }

  // ----- One bypass -----

  /** ResetOutput of gate `h`, and a fresh output for gate `i`. */
  predicate Bypasses(s: State, t: State, h: nat, i: nat) {
    && h < i < |s.table|
    && t == s.(wires := s.wires + [NEW_WIRE],
               table := s.table[h := s.table[h].(o := s.table[i].o)][i := s.table[i].(o := |s.wires|)])
  }

  function NewDrivers(s: State, drv: Drivers, h: nat, i: nat): Drivers
    requires h < |s.table| && i < |s.table| && |drv| == |s.wires| && s.table[h].o < |drv| && s.table[i].o < |drv|
  {
    drv[s.table[h].o := None][s.table[i].o := Some(h)] + [Some(i)]
  }

  /** At a port that is still to come a count of one on the output of the gate
      the input pointer names means that the pointer is right. */
  lemma PointerRight(s: State, drv: Drivers, i: nat, second: bool)
    requires Pointers(s, Round(i, second)) && DrivenBy(s, drv) && Reads(s, drv)
    requires i < |s.table| && HasPort(s.table[i], second)
    requires PortOf(s.table[i], second) < |s.wires| && s.wires[PortOf(s.table[i], second)].input.Some?
    ensures var w := PortOf(s.table[i], second);
            var h := s.wires[w].input.value;
            h < |s.table| && s.table[h].o < |s.wires| &&
            (s.wires[s.table[h].o].num == 1 ==> s.table[h].o == w && drv[w] == Some(h) && h < i)
  {
    var w := PortOf(s.table[i], second);
    assert PointerOk(s, Round(i, second), w);
    assert ReadsFine(s, drv, i);
  }

  lemma BypassDrivers(s: State, t: State, drv: Drivers, h: nat, i: nat)
    requires DrivenBy(s, drv) && Bypasses(s, t, h, i)
    ensures DrivenBy(t, NewDrivers(s, drv, h, i))
  {
    var nb := NewDrivers(s, drv, h, i);
    forall j | 0 <= j < |t.table| ensures t.table[j].o < |t.wires| && nb[t.table[j].o] == Some(j) {
      assert drv[s.table[j].o] == Some(j) && drv[s.table[h].o] == Some(h) && drv[s.table[i].o] == Some(i);
    }
    forall w | 0 <= w < |nb| && nb[w].Some? ensures nb[w].value < |t.table| && t.table[nb[w].value].o == w {
    }
  }

  /** The only reader of the bypassed wire becomes loose. */
  lemma BypassReads(s: State, t: State, drv: Drivers, h: nat, i: nat, second: bool)
    requires DrivenBy(s, drv) && Reads(s, drv) && Counted(s) && NoneDead(s) && Bypasses(s, t, h, i)
    requires HasPort(s.table[i], second) && s.table[h].o == PortOf(s.table[i], second) && s.wires[s.table[h].o].num == 1
    ensures Reads(t, NewDrivers(s, drv, h, i))
  {
    hide Count;
    var w := s.table[h].o;
    var nb := NewDrivers(s, drv, h, i);
    forall j | 0 <= j < |t.table| ensures ReadsFine(t, nb, j) {
      assert ReadsFine(s, drv, j);
      if j != i {
        OnlyReader(s, i, second, j, w);
        assert j == h ==> !Loose(s, h);
        PortStays(s, t, drv, h, i, j, s.table[j].a);
        if s.table[j].op != INV {
          PortStays(s, t, drv, h, i, j, s.table[j].b);
        }
      } else {
        assert Loose(t, i);
        PortOfLoose(s, t, drv, h, i, s.table[i].a);
        if s.table[i].op != INV {
          PortOfLoose(s, t, drv, h, i, s.table[i].b);
        }
      }
    }
  }

  lemma PortStays(s: State, t: State, drv: Drivers, h: nat, i: nat, j: nat, v: nat)
    requires DrivenBy(s, drv) && Bypasses(s, t, h, i) && j < |s.table| && j != i && PortFine(s, drv, j, v) && v != s.table[h].o
    requires j == h ==> !Loose(s, h)
    ensures PortFine(t, NewDrivers(s, drv, h, i), j, v)
  {
  }

  lemma PortOfLoose(s: State, t: State, drv: Drivers, h: nat, i: nat, v: nat)
    requires DrivenBy(s, drv) && Bypasses(s, t, h, i) && PortFine(s, drv, i, v) && Loose(t, i)
    ensures PortFine(t, NewDrivers(s, drv, h, i), i, v)
  {
  }

  /** A wire with one reading port has no other. */
  lemma OnlyReader(s: State, i: nat, second: bool, j: nat, w: nat)
    requires Counted(s) && NoneDead(s) && i < |s.table| && j < |s.table| && w < |s.wires| && s.wires[w].num == 1
    requires HasPort(s.table[i], second) && PortOf(s.table[i], second) == w
    ensures i != j ==> ReadsOf(s.table[j], w) == 0
    ensures ReadsOf(s.table[i], w) == 1
  {
    CountOne(s.table, i, w);
    if i != j {
      CountTwo(s.table, i, j, w);
    }
  }

  lemma {:induction false} CountTwo(t: seq<Node>, i: nat, j: nat, w: nat)
    requires i < |t| && j < |t| && i != j
    ensures Count(t, w) >= LiveReads(t[i], w) + LiveReads(t[j], w)
  {
    var n := |t| - 1;
    if i == n {
      CountOne(t[..n], j, w);
    } else if j == n {
      CountOne(t[..n], i, w);
    } else {
      CountTwo(t[..n], i, j, w);
    }
  }

  /** Counts depend on the input ports only. */
  lemma {:induction false} CountPorts(t: seq<Node>, u: seq<Node>, w: nat)
    requires |t| == |u| && forall j :: 0 <= j < |t| ==> u[j] == t[j].(o := u[j].o)
    ensures Count(t, w) == Count(u, w)
  {
    if t != [] {
      CountPorts(t[..|t| - 1], u[..|t| - 1], w);
    }
  }

  lemma BypassCounts(s0: State, s: State, t: State, h: nat, i: nat)
    requires Frame(s0, s) && Counted(s) && NoneDead(s) && OutputsUnread(s) && Bypasses(s, t, h, i)
    ensures Frame(s0, t) && Counted(t) && NoneDead(t) && OutputsUnread(t)
  {
    hide Count;
    forall j | 0 <= j < |t.table|
      ensures t.table[j] == s.table[j].(o := t.table[j].o) && t.table[j] == s0.table[j].(o := t.table[j].o) && OldPorts(s0, t.table[j])
    {
      assert s.table[j] == s0.table[j].(o := s.table[j].o) && OldPorts(s0, s.table[j]);
    }
    forall w | 0 <= w < |t.wires| ensures t.wires[w].num == Count(t.table, w) {
      CountPorts(s.table, t.table, w);
      if w == |s.wires| {
        FreshUnread(s0, t, w);
      }
    }
  }

  lemma FreshUnread(s0: State, t: State, w: nat)
    requires Frame(s0, t) && w >= |s0.wires|
    ensures Count(t.table, w) == 0
  {
    forall j | 0 <= j < |t.table| ensures LiveReads(t.table[j], w) == 0 {
      assert OldPorts(s0, t.table[j]);
    }
    CountZero(t.table, w);
  }

  lemma BypassPointers(s0: State, s: State, t: State, drv: Drivers, h: nat, i: nat, second: bool)
    requires Frame(s0, s) && DrivenBy(s, drv) && Pointers(s, Round(i, second)) && Counted(s) && NoneDead(s) && Bypasses(s, t, h, i)
    requires HasPort(s.table[i], second) && s.table[h].o == PortOf(s.table[i], second) && s.wires[s.table[h].o].num == 1
    ensures Pointers(t, Round(i, second) + 1)
  {
    hide Count;
    var x := s.table[h].o;
    forall w | 0 <= w < |t.wires| && t.wires[w].input.Some? ensures PointerOk(t, Round(i, second) + 1, w) {
      assert w < |s.wires| && s.wires[w] == t.wires[w];
      assert PointerOk(s, Round(i, second), w);
      if ReadBefore(s, w, Round(i, second)) {
        ReadLater(s, t, h, i, w, Round(i, second));
      }
      if w == x {
        SoleReader(s, t, h, i, second);
      }
    }
  }

  lemma ReadLater(s: State, t: State, h: nat, i: nat, w: nat, r: nat)
    requires Bypasses(s, t, h, i) && ReadBefore(s, w, r)
    ensures ReadBefore(t, w, r + 1)
  {
    forall j, second | 0 <= j < |t.table| && HasPort(t.table[j], second) && PortOf(t.table[j], second) == w
      ensures Round(j, second) < r + 1
    {
      assert HasPort(s.table[j], second) && PortOf(s.table[j], second) == w;
    }
  }

  lemma SoleReader(s: State, t: State, h: nat, i: nat, second: bool)
    requires Bypasses(s, t, h, i) && Counted(s) && NoneDead(s) && s.table[h].o < |s.wires|
    requires HasPort(s.table[i], second) && s.table[h].o == PortOf(s.table[i], second) && s.wires[s.table[h].o].num == 1
    ensures ReadBefore(t, s.table[h].o, Round(i, second) + 1)
  {
    var w := s.table[h].o;
    forall j, other | 0 <= j < |t.table| && HasPort(t.table[j], other) && PortOf(t.table[j], other) == w
      ensures Round(j, other) < Round(i, second) + 1
    {
      OnlyReader(s, i, second, j, w);
    }
  }

  lemma BypassUntouched(s0: State, s: State, t: State, drv: Drivers, h: nat, i: nat, r: nat)
    requires Frame(s0, s) && DrivenBy(s, drv) && Untouched(s0, s, r) && Bypasses(s, t, h, i) && Round(i, true) <= r <= Round(i, false)
    ensures Untouched(s0, t, r + 1)
  {
    forall j | 0 <= j < |t.table| && r + 1 <= Round(j, false)
      ensures t.table[j].o >= |s0.wires| || (t.table[j].o < |t.wires| && t.wires[t.table[j].o].input == Some(j))
    {
    }
  }

  /** The wire that loses its driver is read, so it is no output. */
  lemma BypassOutputs(s: State, t: State, drv: Drivers, h: nat, i: nat)
    requires OutputsDriven(s, drv) && OutputsUnread(s) && DrivenBy(s, drv) && Bypasses(s, t, h, i)
    requires s.table[h].o < |s.wires| && s.wires[s.table[h].o].num == 1
    ensures OutputsDriven(t, NewDrivers(s, drv, h, i))
  {
  }

  /** The bypass makes no other port worth bypassing. */
  lemma BypassElsewhere(s0: State, s: State, t: State, drv: Drivers, h: nat, i: nat, j: nat, p: bool)
    requires Frame(s0, s) && DrivenBy(s, drv) && Bypasses(s, t, h, i) && j < |s.table|
    requires s.table[i].o >= |s0.wires| || (s.table[i].o < |s.wires| && s.wires[s.table[i].o].input == Some(i))
    requires s.table[h].o < |s.wires| && s.wires[s.table[h].o].input == Some(h) && Bypassable(t, j, p)
    ensures Bypassable(s, j, p)
  {
    assert OldPorts(s0, s.table[j]);
    var w := PortOf(s.table[j], p);
    var x := s.wires[w].input.value;
    assert t.wires[w] == s.wires[w] && t.table[x].o == w;
    assert x != i && w < |s0.wires|;
    assert x != h;
  }

  lemma BypassedOnce(s0: State, s: State, t: State, drv: Drivers, h: nat, i: nat, second: bool)
    requires Frame(s0, s) && DrivenBy(s, drv) && Bypasses(s, t, h, i)
    requires s.table[h].o == PortOf(s.table[i], second) && s.table[h].o < |s.wires| && s.wires[s.table[h].o].input == Some(h)
    ensures !Bypassable(t, i, second)
  {
    assert OldPorts(s0, s.table[i]);
  }

  /** Nothing that has been looked at becomes worth looking at again. */
  lemma BypassNothingLeft(s0: State, s: State, t: State, drv: Drivers, h: nat, i: nat, second: bool)
    requires Frame(s0, s) && DrivenBy(s, drv) && Untouched(s0, s, Round(i, second)) && NothingLeft(s, Round(i, second)) && Bypasses(s, t, h, i)
    requires HasPort(s.table[i], second) && s.table[h].o == PortOf(s.table[i], second)
    requires s.table[h].o < |s.wires| && s.wires[s.table[h].o].input == Some(h)
    ensures NothingLeft(t, Round(i, second) + 1)
  {
    hide Bypassable, Frame, DrivenBy;
    forall j, p | 0 <= j < |t.table| && Round(j, p) < Round(i, second) + 1 ensures !Bypassable(t, j, p) {
      if j == i && p == second {
        BypassedOnce(s0, s, t, drv, h, i, second);
      } else if Bypassable(t, j, p) {
        BypassElsewhere(s0, s, t, drv, h, i, j, p);
      }
    }
  }

  /** The value of the fresh wire follows; every old wire keeps its value. */
  function Extended(s: State, i: nat, u: Asg): Asg
    requires i < |s.table|
  {
    if Apply(XOR, s.table[i].a in u, s.table[i].b in u) then u + {|s.wires|} else u - {|s.wires|}
  }

  lemma BypassObeys(s0: State, s: State, t: State, drv: Drivers, h: nat, i: nat, second: bool, u: Asg)
    requires Frame(s0, s) && DrivenBy(s, drv) && Bypasses(s, t, h, i) && Sat(s.table, u) && s.table[i].op == XOR
    requires s.table[h].o == PortOf(s.table[i], second) && PortOf(s.table[i], !second) !in u
    ensures Sat(t.table, Extended(s, i, u)) && Agree(u, Extended(s, i, u), |s.wires|)
  {
    var v := Extended(s, i, u);
    forall j | 0 <= j < |t.table| ensures Holds(t.table[j], v) {
      assert OldPorts(s0, s.table[j]) && Holds(s.table[j], u) && Holds(s.table[i], u);
      assert drv[s.table[j].o] == Some(j);
    }
  }

  lemma BypassModels(base: seq<Node>, s0: State, s: State, t: State, drv: Drivers, h: nat, i: nat, second: bool)
    requires Frame(s0, s) && DrivenBy(s, drv) && Models(base, s.table, |s0.wires|) && FlagsHold(base, s0) && Bypasses(s, t, h, i)
    requires s.table[i].op == XOR && s.table[h].o == PortOf(s.table[i], second)
    requires PortOf(s.table[i], !second) < |s0.wires| && s0.wires[PortOf(s.table[i], !second)].value == Zero
    ensures Models(base, t.table, |s0.wires|)
  {
    forall asg | Sat(base, asg) ensures exists u :: Sat(t.table, u) && Agree(asg, u, |s0.wires|) {
      var u :| Sat(s.table, u) && Agree(asg, u, |s0.wires|);
      var z := PortOf(s.table[i], !second);
      assert FlagHolds(s0.wires[z].value, z, asg);
      BypassObeys(s0, s, t, drv, h, i, second, u);
      assert Agree(asg, Extended(s, i, u), |s0.wires|);
    }
  }

  lemma BypassKeeps(base: seq<Node>, s0: State, s: State, t: State, drv: Drivers, h: nat, i: nat, second: bool)
    requires Passing(base, s0, s, drv, Round(i, second)) && Bypasses(s, t, h, i) && s.table[i].op == XOR
    requires PortOf(s.table[i], second) < |s.wires| && s.wires[PortOf(s.table[i], second)].input == Some(h)
    requires s.table[h].o < |s.wires| && s.wires[s.table[h].o].num == 1
    requires PortOf(s.table[i], !second) < |s.wires| && s.wires[PortOf(s.table[i], !second)].value == Zero
    ensures |drv| == |s.wires| && s.table[i].o < |drv|
    ensures Passing(base, s0, t, NewDrivers(s, drv, h, i), Round(i, second) + 1)
  {
    PointerRight(s, drv, i, second);
    PortsAreOld(s0, s, i);
    assert s0.wires[PortOf(s.table[i], !second)].value == Zero;
    hide Frame, DrivenBy, Reads, Pointers, Untouched, Counted, NoneDead, OutputsUnread, NothingLeft, Models, FlagsHold, NewDrivers, OutputsDriven;
    hide Bypasses;
    BypassDrivers(s, t, drv, h, i);
    BypassReads(s, t, drv, h, i, second);
    BypassCounts(s0, s, t, h, i);
    BypassOutputs(s, t, drv, h, i);
    BypassPointers(s0, s, t, drv, h, i, second);
    BypassUntouched(s0, s, t, drv, h, i, Round(i, second));
    BypassNothingLeft(s0, s, t, drv, h, i, second);
    BypassModels(base, s0, s, t, drv, h, i, second);
  }

  lemma PortsAreOld(s0: State, s: State, i: nat)
    requires Frame(s0, s) && i < |s.table|
    ensures s.table[i].a < |s0.wires| && s.table[i].b < |s0.wires|
    ensures forall w :: 0 <= w < |s0.wires| ==> w < |s.wires| && s.wires[w] == s0.wires[w]
  {
    assert OldPorts(s0, s.table[i]);
  }

  /** A round in which nothing happens. */
  lemma SkipRound(base: seq<Node>, s0: State, s: State, drv: Drivers, i: nat, second: bool)
    requires Passing(base, s0, s, drv, Round(i, second)) && i < |s.table| && !Bypassable(s, i, second)
    ensures Passing(base, s0, s, drv, Round(i, second) + 1)
  {
    hide Counted, NoneDead, OutputsUnread, Models, FlagsHold, DrivenBy, Reads, Bypassable, Frame, OutputsDriven;
    forall w | 0 <= w < |s.wires| && s.wires[w].input.Some? ensures PointerOk(s, Round(i, second) + 1, w) {
      assert PointerOk(s, Round(i, second), w);
    }
    forall j, p | 0 <= j < |s.table| && Round(j, p) < Round(i, second) + 1 ensures !Bypassable(s, j, p) {
      assert j != i || p != second ==> Round(j, p) < Round(i, second);
    }
  }

  // ----- The pass -----

  /** One of the two tests of the loop body. */
  method TryBypass(cc: Compiler, i: nat, second: bool, ghost base: seq<Node>, ghost s0: State, ghost drv: Drivers)
    returns (ghost nb: Drivers)
    requires Passing(base, s0, cc.G(), drv, Round(i, second)) && i < |cc.table| && cc.table[i].op == XOR
    modifies cc
    ensures Passing(base, s0, cc.G(), nb, Round(i, second) + 1)
    ensures |cc.table| == old(|cc.table|) && cc.table[i].op == XOR
  {
    hide Passing;
    ghost var s := cc.G();
    nb := drv;
    var g := cc.table[i];
    var z, w := PortOf(g, !second), PortOf(g, second);
    OpenPassing(base, s0, s, drv, i, second);
    if cc.wires[z].value == Zero && cc.wires[w].input.Some? {
      var h := cc.wires[w].input.value;
      if cc.wires[cc.table[h].o].num == 1 {
        cc.table := cc.table[h := cc.table[h].(o := g.o)];
        var unread := |cc.wires|;
        cc.wires := cc.wires + [NEW_WIRE];
        cc.table := cc.table[i := cc.table[i].(o := unread)];
        nb := NewDrivers(s, drv, h, i);
        BypassKeeps(base, s0, s, cc.G(), drv, h, i, second);
        return;
      }
    }
    SkipRound(base, s0, s, drv, i, second);
  }

  lemma OpenPassing(base: seq<Node>, s0: State, s: State, drv: Drivers, i: nat, second: bool)
    requires Passing(base, s0, s, drv, Round(i, second)) && i < |s.table| && s.table[i].op == XOR
    ensures |drv| == |s.wires| && s.table[i].o < |s.wires|
    ensures s.table[i].a < |s.wires| && s.table[i].b < |s.wires|
    ensures var w := PortOf(s.table[i], second);
            s.wires[w].input.Some? ==>
              var h := s.wires[w].input.value;
              h < |s.table| && s.table[h].o < |s.wires| && (s.wires[s.table[h].o].num == 1 ==> h < i && s.table[h].o == w)
  {
    PortsAreOld(s0, s, i);
    if s.wires[PortOf(s.table[i], second)].input.Some? {
      PointerRight(s, drv, i, second);
    }
  }

  /** Before the pass: pointers are right and every gate drives its own wire. */
  ghost predicate Fresh(base: seq<Node>, s: State) {
    && Sourced(s) && Counted(s) && NoneDead(s) && OutputsUnread(s)
    && (forall j :: 0 <= j < |s.table| ==> Drives(s, j))
    && (forall w :: 0 <= w < |s.wires| && s.wires[w].input.Some? ==> PointsBack(s, w))
    && (forall w :: 0 <= w < |s.wires| && w < s.k ==> s.wires[w].input.None?)
    && (forall w :: 0 <= w < |s.wires| && s.wires[w].output ==> s.wires[w].input.Some?)
    && (forall asg :: Sat(base, asg) ==> Sat(s.table, asg)) && FlagsHold(base, s)
  }

  predicate PointsBack(s: State, w: nat)
    requires w < |s.wires| && s.wires[w].input.Some?
  {
    s.wires[w].input.value < |s.table| && s.table[s.wires[w].input.value].o == w
  }

  function Inputs(ws: seq<Wire>): Drivers {
    seq(|ws|, i requires 0 <= i < |ws| => ws[i].input)
  }

  lemma PassStart(base: seq<Node>, s: State)
    requires Fresh(base, s)
    ensures Passing(base, s, s, Inputs(s.wires), 0)
  {
    hide Count, FlagHolds;
    var drv := Inputs(s.wires);
    forall j | 0 <= j < |s.table|
      ensures s.table[j].o < |drv| && drv[s.table[j].o] == Some(j) && ReadsFine(s, drv, j) && OldPorts(s, s.table[j])
    {
      assert Drives(s, j) && s.Before(s.table[j].a, j);
    }
    forall w | 0 <= w < |s.wires| && s.wires[w].input.Some?
      ensures PointerOk(s, 0, w) && drv[w].value < |s.table| && s.table[drv[w].value].o == w
    {
      assert PointsBack(s, w);
    }
    assert DrivenBy(s, drv);
    StartModels(base, s);
  }

  lemma StartModels(base: seq<Node>, s: State)
    requires forall asg :: Sat(base, asg) ==> Sat(s.table, asg)
    ensures Models(base, s.table, |s.wires|)
  {
    forall asg | Sat(base, asg) ensures exists u :: Sat(s.table, u) && Agree(asg, u, |s.wires|) {
      assert Agree(asg, asg, |s.wires|);
    }
  }

  /** The whole pass: the gates keep a value for every wire there was, every
      gate that matters reads only driven wires, and nothing is left to bypass. */
  method ShortCircuitXORZero(cc: Compiler, ghost base: seq<Node>) returns (ghost drv: Drivers)
    requires Fresh(base, cc.G())
    modifies cc
    ensures Passing(base, old(cc.G()), cc.G(), drv, 2 * |cc.table|)
  {
    hide Passing, Fresh;
    ghost var s0 := cc.G();
    PassStart(base, s0);
    drv := Inputs(s0.wires);
    var n := |cc.table|;
    var i := 0;
    while i < n
      invariant 0 <= i <= n == |cc.table|
      invariant Passing(base, s0, cc.G(), drv, Round(i, true))
    {
      if cc.table[i].op == XOR {
        drv := TryBypass(cc, i, true, base, s0, drv);
        assert Round(i, true) + 1 == Round(i, false);
        drv := TryBypass(cc, i, false, base, s0, drv);
      } else {
        SkipRound(base, s0, cc.G(), drv, i, true);
        assert Round(i, true) + 1 == Round(i, false);
        SkipRound(base, s0, cc.G(), drv, i, false);
      }
      i := i + 1;
    }
  }
}
