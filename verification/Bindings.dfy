/** Variable bindings (compiler/ssa/bindings.go) and the phi values that return
    bindings resolve to (compiler/ssa/block.go). */
module Bindings {
  import opened Graph
  import opened Ssa

  const ANON := "%_"

  /** An SSA value: what Value.Equal compares, and the width of its type. */
  datatype Value = Value(key: Key, bits: nat)

  /** A binding's value, or the index of a select in the select table: two
      bindings with the same index share one Select object. */
  datatype Bound = Plain(v: Value) | Pick(i: nat)

  datatype Select = Select(cond: Value, bits: nat, yes: Bound, no: Bound, resolved: Opt<Value>)

  datatype Binding = Binding(name: string, scope: int, bits: nat, bound: Bound)

  datatype PhiInstr = PhiInstr(cond: Value, yes: Value, no: Value, out: Value)

  /** The number on the wires of every value of the program.  A phi of values of
      different widths extends the narrower by zeros, so that the number it picks
      stays what it is. */
  type Vals = map<Key, nat>

  function Val(vals: Vals, k: Key): nat {
    if k in vals then vals[k] else 0
  }

  /** The one bit of a condition. */
  predicate True(n: nat) {
    n % 2 == 1
  }

  // ----- Meaning -----

  predicate BoundIn(b: Bound, n: nat) {
    b.Pick? ==> b.i < n
  }

  /** Selects refer to older selects only. */
  ghost predicate Ordered(nodes: seq<Select>) {
    forall i :: 0 <= i < |nodes| ==> BoundIn(nodes[i].yes, i) && BoundIn(nodes[i].no, i)
  }

  function Rank(b: Bound): nat {
    if b.Pick? then b.i + 1 else 0
  }

  /** If the condition then the true-branch value else the false-branch value. */
  ghost function Means(nodes: seq<Select>, b: Bound, vals: Vals): nat
    requires Ordered(nodes) && BoundIn(b, |nodes|)
    decreases Rank(b)
  {
    match b
    case Plain(v) => Val(vals, v.key)
    case Pick(i) => if True(Val(vals, nodes[i].cond.key)) then Means(nodes, nodes[i].yes, vals) else Means(nodes, nodes[i].no, vals)
  }

  predicate SameShape(x: Select, y: Select) {
    x == y.(resolved := x.resolved)
  }

  /** Meaning does not depend on what has been resolved, nor on newer selects. */
  lemma {:induction false} MeansFrame(nodes: seq<Select>, more: seq<Select>, b: Bound, vals: Vals)
    requires Ordered(nodes) && Ordered(more) && BoundIn(b, |nodes|) && |nodes| <= |more|
    requires forall i :: 0 <= i < |nodes| ==> SameShape(more[i], nodes[i])
    ensures Means(nodes, b, vals) == Means(more, b, vals)
    decreases Rank(b)
  {
    if b.Pick? {
      assert SameShape(more[b.i], nodes[b.i]);
      MeansFrame(nodes, more, nodes[b.i].yes, vals);
      MeansFrame(nodes, more, nodes[b.i].no, vals);
    }
  }

  /** BindingValue.Equal */
  predicate Equal(nodes: seq<Select>, a: Bound, b: Bound)
    requires Ordered(nodes) && BoundIn(a, |nodes|) && BoundIn(b, |nodes|)
    decreases Rank(a)
  {
    match a
    case Plain(v) => b.Plain? && v.key == b.v.key
    case Pick(i) =>
      && b.Pick? && nodes[i].cond.key == nodes[b.i].cond.key
      && Equal(nodes, nodes[i].yes, nodes[b.i].yes) && Equal(nodes, nodes[i].no, nodes[b.i].no)
  }

  lemma {:induction false} EqualMeans(nodes: seq<Select>, a: Bound, b: Bound, vals: Vals)
    requires Ordered(nodes) && BoundIn(a, |nodes|) && BoundIn(b, |nodes|) && Equal(nodes, a, b)
    ensures Means(nodes, a, vals) == Means(nodes, b, vals)
    decreases Rank(a)
  {
    if a.Pick? {
      EqualMeans(nodes, nodes[a.i].yes, nodes[b.i].yes, vals);
      EqualMeans(nodes, nodes[a.i].no, nodes[b.i].no, vals);
    }
  }

  /** A bound value with the selects it refers to written out. */
  datatype Shape = Leaf(key: Key) | Choice(cond: Key, yes: Shape, no: Shape)

  function ShapeOf(nodes: seq<Select>, b: Bound): Shape
    requires Ordered(nodes) && BoundIn(b, |nodes|)
    decreases Rank(b)
  {
    match b
    case Plain(v) => Leaf(v.key)
    case Pick(i) => Choice(nodes[i].cond.key, ShapeOf(nodes, nodes[i].yes), ShapeOf(nodes, nodes[i].no))
  }

  /** Bound values are equal exactly when they are the same written out. */
  lemma {:induction false} EqualIsShape(nodes: seq<Select>, a: Bound, b: Bound)
    requires Ordered(nodes) && BoundIn(a, |nodes|) && BoundIn(b, |nodes|)
    ensures Equal(nodes, a, b) <==> ShapeOf(nodes, a) == ShapeOf(nodes, b)
    decreases Rank(a)
  {
    if a.Pick? && b.Pick? {
      EqualIsShape(nodes, nodes[a.i].yes, nodes[b.i].yes);
      EqualIsShape(nodes, nodes[a.i].no, nodes[b.i].no);
    }
  }

  // ----- Get and Merge -----

  /** The binding of a name: the one with the highest scope, the first of those. */
  function Latest(values: seq<Binding>, name: string): Opt<Binding> {
    if values == [] then None
    else
      var init := Latest(values[..|values| - 1], name);
      var b := values[|values| - 1];
      if b.name == name && name != "" && (init.None? || b.scope > init.value.scope) then Some(b) else init
  }

  /** What being the latest means. */
  lemma {:induction false} LatestIs(values: seq<Binding>, name: string)
    ensures match Latest(values, name)
            case None => forall b :: b in values ==> b.name != name || name == ""
            case Some(r) => r in values && r.name == name != "" && forall b :: b in values && b.name == name ==> b.scope <= r.scope
  {
    if values != [] {
      var init, b := values[..|values| - 1], values[|values| - 1];
      LatestIs(init, name);
      assert values == init + [b];
    }
  }

  /** Of bindings of one name and scope, the first in the list is the latest. */
  lemma {:induction false} LatestIsFirst(values: seq<Binding>, name: string) returns (i: nat)
    requires Latest(values, name).Some?
    ensures i < |values| && values[i] == Latest(values, name).value
    ensures forall j :: 0 <= j < i && values[j].name == name ==> values[j].scope < values[i].scope
  {
    var n := |values| - 1;
    var init := Latest(values[..n], name);
    if init.Some? && Latest(values, name) == init {
      i := LatestIsFirst(values[..n], name);
    } else {
      LatestIs(values[..n], name);
      i := n;
      forall j | 0 <= j < n && values[j].name == name ensures values[j].scope < values[n].scope {
        assert values[j] in values[..n];
      }
    }
  }

  /** Bindings.Get */
  method Get(values: seq<Binding>, name: string) returns (r: Opt<Binding>)
    ensures r == Latest(values, name)
  {
    r := None;
    for i := 0 to |values|
      invariant r == Latest(values[..i], name)
    {
      assert values[..i + 1][..i] == values[..i];
      var b := values[i];
      if b.name == name {
        if r.None? || b.scope > r.value.scope {
          if name != "" {
            r := Some(b);
          }
        }
      }
    }
    assert values[..|values|] == values;
  }

  ghost predicate BindingsIn(values: seq<Binding>, n: nat) {
    forall b :: b in values ==> BoundIn(b.bound, n)
  }

  predicate HasName(values: seq<Binding>, name: string) {
    exists i :: 0 <= i < |values| && values[i].name == name
  }

  /** What a merged binding of `name` means: the true-branch value, or a choice
      between both when both branches have one. */
  ghost predicate MergedMeans(nodes: seq<Select>, cond: Value, yes: seq<Binding>, no: seq<Binding>, merged: Opt<Binding>, name: string, vals: Vals)
    requires Ordered(nodes) && BindingsIn(yes, |nodes|) && BindingsIn(no, |nodes|)
  {
    LatestIs(yes, name); LatestIs(no, name);
    var t, f := Latest(yes, name), Latest(no, name);
    && (merged.Some? <==> t.Some?)
    && (merged.Some? ==> BoundIn(merged.value.bound, |nodes|))
    && (merged.Some? ==>
          Means(nodes, merged.value.bound, vals) ==
          if f.None? || True(Val(vals, cond.key)) then Means(nodes, t.value.bound, vals) else Means(nodes, f.value.bound, vals))
  }

  // ----- Phi instructions -----

  function Anon(n: nat): Key {
    Key(false, ANON, 0, n, None)
  }

  /** A value that exists when `n` anonymous values have been made. */
  predicate Usable(k: Key, n: int) {
    k.name != ANON || k.version < n
  }

  /** A valuation of all values of the program obeys a phi when the output is
      the side that the condition picks. */
  predicate PhiHolds(vals: Vals, p: PhiInstr) {
    Val(vals, p.out.key) == if True(Val(vals, p.cond.key)) then Val(vals, p.yes.key) else Val(vals, p.no.key)
  }

  ghost predicate Obeys(vals: Vals, phis: seq<PhiInstr>) {
    forall x :: 0 <= x < |phis| ==> PhiHolds(vals, phis[x])
  }

  /** A phi makes a new anonymous value from values that exist already, among
      them the outputs of other phis. */
  predicate PhiOk(p: PhiInstr, n: nat) {
    && p.out.key.version >= 0 && p.out.key == Anon(p.out.key.version) && p.out.key.version < n
    && Usable(p.cond.key, p.out.key.version) && Usable(p.yes.key, p.out.key.version) && Usable(p.no.key, p.out.key.version)
  }

  ghost predicate PhisOk(phis: seq<PhiInstr>, n: nat) {
    && (forall x :: 0 <= x < |phis| ==> PhiOk(phis[x], n))
    && forall x, y :: 0 <= x < y < |phis| ==> phis[x].out.key.version < phis[y].out.key.version
  }

  /** The phis executed in order. */
  function RunPhis(phis: seq<PhiInstr>, vals: Vals): Vals {
    if phis == [] then vals
    else
      var before, p := RunPhis(phis[..|phis| - 1], vals), phis[|phis| - 1];
      before[p.out.key := if True(Val(before, p.cond.key)) then Val(before, p.yes.key) else Val(before, p.no.key)]
  }

  /** A later phi changes nothing that an earlier one mentions. */
  lemma PhiStays(p: PhiInstr, n: nat, k: Key, before: Vals, after: Vals)
    requires PhiOk(p, n) && PhiHolds(before, p) && k.name == ANON && p.out.key.version < k.version
    requires forall o :: o != k ==> Val(after, o) == Val(before, o)
    ensures PhiHolds(after, p)
  {
  }

  lemma NewPhiHolds(p: PhiInstr, n: nat, before: Vals)
    requires PhiOk(p, n)
    ensures PhiHolds(before[p.out.key := if True(Val(before, p.cond.key)) then Val(before, p.yes.key) else Val(before, p.no.key)], p)
  {
  }

  /** Executing the phis obeys them all and changes nothing but their outputs,
      so for all values of the rest of the program there is a valuation. */
  lemma {:induction false} RunObeys(phis: seq<PhiInstr>, n: nat, vals: Vals)
    requires PhisOk(phis, n)
    ensures Obeys(RunPhis(phis, vals), phis)
    ensures forall k :: (forall x :: 0 <= x < |phis| ==> phis[x].out.key != k) ==> Val(RunPhis(phis, vals), k) == Val(vals, k)
  {
    hide True, PhiHolds, PhiOk;
    if phis != [] {
      var init, p := phis[..|phis| - 1], phis[|phis| - 1];
      RunObeys(init, n, vals);
      var before, after := RunPhis(init, vals), RunPhis(phis, vals);
      assert forall o :: o != p.out.key ==> Val(after, o) == Val(before, o);
      assert PhiOk(p, n);
      NewPhiHolds(p, n, before);
      forall x | 0 <= x < |phis| ensures PhiHolds(after, phis[x]) {
        if x < |init| {
          assert PhiOk(phis[x], n) && PhiHolds(before, init[x]);
          assert p.out.key.name == ANON by { IsAnon(p, n); }
          PhiStays(phis[x], n, p.out.key, before, after);
        }
      }
      forall k | forall x :: 0 <= x < |phis| ==> phis[x].out.key != k ensures Val(after, k) == Val(vals, k) {
        assert phis[|phis| - 1].out.key != k;
        assert forall x :: 0 <= x < |init| ==> init[x] == phis[x];
      }
    }
  }

  lemma IsAnon(p: PhiInstr, n: nat)
    requires PhiOk(p, n)
    ensures p.out.key.name == ANON
  {
  }

  /** All values of a select, and of a bound value, exist. */
  predicate NodeKeys(s: Select, n: nat) {
    Usable(s.cond.key, n) && BoundKeys(s.yes, n) && BoundKeys(s.no, n)
  }

  predicate BoundKeys(b: Bound, n: nat) {
    b.Plain? ==> Usable(b.v.key, n)
  }

  function BitsOf(nodes: seq<Select>, b: Bound): nat
    requires BoundIn(b, |nodes|)
  {
    match b
    case Plain(v) => v.bits
    case Pick(i) => nodes[i].bits
  }

  /** Value `v` is what `b` means, in every valuation that obeys the phis. */
  ghost predicate Stands(nodes: seq<Select>, phis: seq<PhiInstr>, n: nat, b: Bound, v: Value)
    requires Ordered(nodes) && BoundIn(b, |nodes|)
  {
    && Usable(v.key, n) && v.bits == BitsOf(nodes, b)
    && forall vals: Vals :: Obeys(vals, phis) ==> Val(vals, v.key) == Means(nodes, b, vals)
  }

  /** The part of the generator that select and return bindings use: the count
      of anonymous values, the select objects and the phi instructions so far. */
  class Resolver {
    var next: nat
    var nodes: seq<Select>
    var phis: seq<PhiInstr>

    constructor ()
      ensures Valid() && next == 0 && nodes == [] && phis == []
    {
      next, nodes, phis := 0, [], [];
    }

    ghost predicate Valid()
      reads this
    {
      && Ordered(nodes) && PhisOk(phis, next)
      && (forall i :: 0 <= i < |nodes| ==> NodeKeys(nodes[i], next))
      && (forall i :: 0 <= i < |nodes| && nodes[i].resolved.Some? ==> Stands(nodes, phis, next, Pick(i), nodes[i].resolved.value))
    }

    /** Only resolved values and newer selects, phis and values have come. */
    twostate predicate Later()
      reads this
    {
      && |old(nodes)| <= |nodes| && old(phis) <= phis && old(next) <= next
      && forall i :: 0 <= i < |old(nodes)| ==> SameShape(nodes[i], old(nodes)[i])
    }

    /** AnonVal: the next anonymous value, for a phi or any other instruction. */
    method AnonVal(bits: nat) returns (v: Value)
      requires Valid()
      modifies this`next
      ensures Valid() && Later() && next == old(next) + 1 && v == Value(Anon(old(next)), bits)
    {
      v := Value(Anon(next), bits);
      next := next + 1;
    }

    /** AnonVal and AddInstr of a phi. */
    method AddPhi(cond: Value, yes: Value, no: Value, bits: nat) returns (v: Value)
      requires Valid() && Usable(cond.key, next) && Usable(yes.key, next) && Usable(no.key, next)
      modifies this
      ensures Valid() && Later() && nodes == old(nodes) && v.bits == bits && Usable(v.key, next)
      ensures phis == old(phis) + [PhiInstr(cond, yes, no, v)]
    {
      v := AnonVal(bits);
      ghost var before := phis;
      phis := phis + [PhiInstr(cond, yes, no, v)];
      forall i | 0 <= i < |nodes| && nodes[i].resolved.Some?
        ensures Stands(nodes, phis, next, Pick(i), nodes[i].resolved.value)
      {
        StandsLater(nodes, nodes, before, phis, next, next, Pick(i), nodes[i].resolved.value);
      }
    }

    /** BindingValue.Value: plain values are themselves; a select resolves both
        sides and adds a phi, once. */
    method ValueOf(b: Bound) returns (v: Value)
      requires Valid() && BoundIn(b, |nodes|) && BoundKeys(b, next)
      modifies this
      ensures Valid() && Later() && |nodes| == old(|nodes|)
      ensures Stands(nodes, phis, next, b, v)
      ensures b.Plain? ==> v == b.v && phis == old(phis)
      ensures b.Pick? ==> nodes[b.i].resolved == Some(v)
      ensures b.Pick? && old(nodes)[b.i].resolved.Some? ==> Some(v) == old(nodes)[b.i].resolved && phis == old(phis)
      ensures b.Pick? && old(nodes)[b.i].resolved.None? ==>
                && |phis| > |old(phis)| && phis[|phis| - 1].cond == old(nodes)[b.i].cond && phis[|phis| - 1].out == v
                && v.bits == old(nodes)[b.i].bits
      decreases Rank(b)
    {
      if b.Plain? {
        return b.v;
      }
      var n := nodes[b.i];
      if n.resolved.Some? {
        return n.resolved.value;
      }
      var t := ValueOf(n.yes);
      ghost var nodes1, phis1, next1 := nodes, phis, next;
      var f := ValueOf(n.no);
      ghost var phis2, next2 := phis, next;
      v := AddPhi(n.cond, t, f, n.bits);
      StandsLater(nodes1, nodes, phis1, phis, next1, next, n.yes, t);
      StandsLater(nodes, nodes, phis2, phis, next2, next, n.no, f);
      ByPhi(nodes, phis2, phis, next, b.i, t, f, v);
      ghost var nodes3 := nodes;
      nodes := nodes[b.i := nodes[b.i].(resolved := Some(v))];
      forall i | 0 <= i < |nodes| && nodes[i].resolved.Some?
        ensures Stands(nodes, phis, next, Pick(i), nodes[i].resolved.value)
      {
        StandsLater(nodes3, nodes, phis, phis, next, next, Pick(i), nodes[i].resolved.value);
      }
      StandsLater(nodes3, nodes, phis, phis, next, next, b, v);
    }

  /** Bindings.Merge: for each name of the true branch, its binding, or a
        select between both branches' bindings where they differ.  Names that
        only the false branch has are dropped. */
    method Merge(cond: Value, yes: seq<Binding>, no: seq<Binding>) returns (merged: seq<Binding>)
      requires Valid() && BindingsOk(yes, |nodes|, next) && BindingsOk(no, |nodes|, next) && Usable(cond.key, next)
      modifies this`nodes
      ensures Valid() && Later() && BindingsOk(merged, |nodes|, next)
      ensures forall name, vals: Vals :: MergedMeans(nodes, cond, yes, no, Latest(merged, name), name, vals)
      ensures NamesOf(merged) == FirstNames(yes)
    {
      hide NamesOf;
      ghost var nodes0 := nodes;
      merged := [];
      NamesNone();
      for i := 0 to |yes|
        invariant Valid() && nodes0 <= nodes && BindingsOk(merged, |nodes|, next)
        invariant BindingsOk(yes, |nodes|, next) && BindingsOk(no, |nodes|, next) && NamesDistinct(merged)
        invariant forall r :: r in merged ==> EntryOk(nodes, cond, yes, no, r)
        invariant NamesOf(merged) == FirstNames(yes[..i])
        invariant forall name :: name != "" && HasName(yes[..i], name) ==> HasName(merged, name)
      {
        assert forall name :: HasName(yes[..i + 1], name) ==> HasName(yes[..i], name) || name == yes[i].name;
        var name := yes[i].name;
        assert yes[..i + 1][..i] == yes[..i];
        NameListed(merged, name);
        var seen := Contains(merged, name);
        if !seen && name != "" {
          ghost var nodes1, merged1 := nodes, merged;
          var r := MergeOne(cond, yes, no, i);
          forall e | e in merged ensures EntryOk(nodes, cond, yes, no, e) {
            EntryLater(nodes1, nodes, cond, yes, no, e);
          }
          merged := merged + [r];
          NamesNext(merged1, r);
          NamesSnoc(merged1, r);
          assert forall e :: e in merged ==> e in merged1 || e == r;
        }
      }
      assert yes[..|yes|] == yes;
      forall name, vals: Vals ensures MergedMeans(nodes, cond, yes, no, Latest(merged, name), name, vals) {
        MergedEntry(nodes, cond, yes, no, merged, name, vals);
      }
    }

    method Contains(values: seq<Binding>, name: string) returns (r: bool)
      ensures r <==> HasName(values, name)
    {
      for i := 0 to |values|
        invariant !HasName(values[..i], name)
      {
        assert values[..i + 1] == values[..i] + [values[i]];
        if values[i].name == name {
          return true;
        }
      }
      assert values[..|values|] == values;
      return false;
    }

    /** One name: the true branch's binding when the other has none or an equal one,
        else a new select as wide as the wider of both. */
    method MergeOne(cond: Value, yes: seq<Binding>, no: seq<Binding>, i: nat) returns (r: Binding)
      requires Valid() && BindingsOk(yes, |nodes|, next) && BindingsOk(no, |nodes|, next) && Usable(cond.key, next)
      requires i < |yes| && yes[i].name != ""
      modifies this`nodes
      ensures Valid() && old(nodes) <= nodes
      ensures r.name == yes[i].name && BoundIn(r.bound, |nodes|) && BoundKeys(r.bound, next)
      ensures BindingsOk(yes, |nodes|, next) && BindingsOk(no, |nodes|, next) && EntryOk(nodes, cond, yes, no, r)
      ensures MergedAs(old(nodes), nodes, cond, Latest(yes, yes[i].name), Latest(no, yes[i].name), r)
    {
      var name := yes[i].name;
      LatestIs(yes, name);
      LatestIs(no, name);
      assert yes[i] in yes;
      var t := Get(yes, name);
      var f := Get(no, name);
      if f.None? {
        return t.value;
      }
      EqualIsShape(nodes, t.value.bound, f.value.bound);
      if Equal(nodes, t.value.bound, f.value.bound) {
        forall vals: Vals ensures Means(nodes, t.value.bound, vals) == Means(nodes, f.value.bound, vals) {
          EqualMeans(nodes, t.value.bound, f.value.bound, vals);
        }
        return t.value;
      }
      var bits := if t.value.bits > f.value.bits then t.value.bits else f.value.bits;
      ghost var before := nodes;
      r := Binding(name, t.value.scope, bits, Pick(|nodes|));
      nodes := nodes + [Select(cond, bits, t.value.bound, f.value.bound, None)];
      forall x | 0 <= x < |nodes| && nodes[x].resolved.Some?
        ensures Stands(nodes, phis, next, Pick(x), nodes[x].resolved.value)
      {
        StandsLater(before, nodes, phis, phis, next, next, Pick(x), nodes[x].resolved.value);
      }
      NewEntry(before, nodes, cond, yes, no, r, t.value, f.value);
    }
  }

  ghost predicate BindingsOk(values: seq<Binding>, n: nat, anons: nat) {
    BindingsIn(values, n) && forall b :: b in values ==> BoundKeys(b.bound, anons)
  }

  predicate NamesDistinct(values: seq<Binding>) {
    forall i, j :: 0 <= i < j < |values| ==> values[i].name != values[j].name
  }

  lemma NamesSnoc(values: seq<Binding>, r: Binding)
    requires NamesDistinct(values) && !HasName(values, r.name)
    ensures NamesDistinct(values + [r]) && HasName(values + [r], r.name)
    ensures forall name :: HasName(values, name) ==> HasName(values + [r], name)
  {
    assert (values + [r])[|values|] == r;
    forall name | HasName(values, name) ensures HasName(values + [r], name) {
      var i :| 0 <= i < |values| && values[i].name == name;
      assert (values + [r])[i].name == name;
    }
  }

  /** How a name is merged, from both branches' bindings. */
  ghost predicate MergedAs(nodes: seq<Select>, more: seq<Select>, cond: Value, t: Opt<Binding>, f: Opt<Binding>, r: Binding) {
    t.Some? &&
    if f.None? then r == t.value && more == nodes
    else
      Ordered(nodes) && BoundIn(t.value.bound, |nodes|) && BoundIn(f.value.bound, |nodes|) &&
      if ShapeOf(nodes, t.value.bound) == ShapeOf(nodes, f.value.bound) then r == t.value && more == nodes
      else
        && r.name == t.value.name && r.scope == t.value.scope && r.bound == Pick(|nodes|)
        && r.bits >= t.value.bits && r.bits >= f.value.bits && (r.bits == t.value.bits || r.bits == f.value.bits)
        && more == nodes + [Select(cond, r.bits, t.value.bound, f.value.bound, None)]
  }

  /** The names of the bindings, each where it comes first. */
  function FirstNames(values: seq<Binding>): seq<string> {
    if values == [] then []
    else
      var init, name := FirstNames(values[..|values| - 1]), values[|values| - 1].name;
      if name == "" || name in init then init else init + [name]
  }

  function NamesOf(values: seq<Binding>): (names: seq<string>)
    ensures |names| == |values|
  {
    seq(|values|, i requires 0 <= i < |values| => values[i].name)
  }

  lemma NameListed(values: seq<Binding>, name: string)
    ensures HasName(values, name) <==> name in NamesOf(values)
  {
    if name in NamesOf(values) {
      var i :| 0 <= i < |values| && NamesOf(values)[i] == name;
      assert values[i].name == name;
    }
    if HasName(values, name) {
      var i :| 0 <= i < |values| && values[i].name == name;
      assert NamesOf(values)[i] == name;
    }
  }

  lemma NamesNext(values: seq<Binding>, r: Binding)
    ensures NamesOf(values + [r]) == NamesOf(values) + [r.name]
  {
  }

  lemma NamesNone()
    ensures NamesOf([]) == []
  {
  }

  /** A name that comes first at place `i` stands behind the names before it. */
  lemma {:induction false} FirstNameAt(values: seq<Binding>, i: nat)
    requires i < |values| && values[i].name != "" && !HasName(values[..i], values[i].name)
    ensures |FirstNames(values[..i])| < |FirstNames(values)|
    ensures FirstNames(values)[|FirstNames(values[..i])|] == values[i].name
    decreases |values|
  {
    var n := |values| - 1;
    if i == n {
      FirstNamesIn(values[..n], values[n].name);
    } else {
      assert values[..n][..i] == values[..i];
      FirstNameAt(values[..n], i);
    }
  }

  lemma {:induction false} FirstNamesIn(values: seq<Binding>, name: string)
    ensures name in FirstNames(values) <==> name != "" && HasName(values, name)
  {
    if values != [] {
      var n := |values| - 1;
      FirstNamesIn(values[..n], name);
      FirstNamesIn(values[..n], values[n].name);
      assert values == values[..n] + [values[n]];
      if HasName(values, name) && !HasName(values[..n], name) {
        assert values[n].name == name;
      }
      if HasName(values[..n], name) {
        var i :| 0 <= i < n && values[..n][i].name == name;
        assert values[i].name == name;
      }
    }
  }

  /** A merged binding means the true-branch value, or the choice. */
  ghost predicate EntryOk(nodes: seq<Select>, cond: Value, yes: seq<Binding>, no: seq<Binding>, r: Binding) {
    && Ordered(nodes) && BindingsIn(yes, |nodes|) && BindingsIn(no, |nodes|) && BoundIn(r.bound, |nodes|)
    && r.name != "" && Latest(yes, r.name).Some?
    && forall vals: Vals :: MergedMeans(nodes, cond, yes, no, Some(r), r.name, vals)
  }

  lemma EntryLater(nodes: seq<Select>, more: seq<Select>, cond: Value, yes: seq<Binding>, no: seq<Binding>, r: Binding)
    requires EntryOk(nodes, cond, yes, no, r) && Ordered(more) && nodes <= more
    ensures EntryOk(more, cond, yes, no, r)
  {
    LatestIs(yes, r.name);
    LatestIs(no, r.name);
    forall vals: Vals ensures MergedMeans(more, cond, yes, no, Some(r), r.name, vals) {
      assert MergedMeans(nodes, cond, yes, no, Some(r), r.name, vals);
      MeansFrame(nodes, more, r.bound, vals);
      MeansFrame(nodes, more, Latest(yes, r.name).value.bound, vals);
      if Latest(no, r.name).Some? {
        MeansFrame(nodes, more, Latest(no, r.name).value.bound, vals);
      }
    }
  }

  lemma NewEntry(nodes: seq<Select>, more: seq<Select>, cond: Value, yes: seq<Binding>, no: seq<Binding>, r: Binding, t: Binding, f: Binding)
    requires Ordered(nodes) && BindingsIn(yes, |nodes|) && BindingsIn(no, |nodes|)
    requires r.name != "" && Latest(yes, r.name) == Some(t) && Latest(no, r.name) == Some(f)
    requires r.bound == Pick(|nodes|) && more == nodes + [Select(cond, r.bits, t.bound, f.bound, None)] && Ordered(more)
    ensures EntryOk(more, cond, yes, no, r)
  {
    LatestIs(yes, r.name);
    LatestIs(no, r.name);
  }

  lemma {:induction false} OnlyOne(values: seq<Binding>, i: nat)
    requires NamesDistinct(values) && i < |values| && values[i].name != ""
    ensures Latest(values, values[i].name) == Some(values[i])
  {
    var n := |values| - 1;
    if i < n {
      OnlyOne(values[..n], i);
    } else {
      LatestIs(values[..n], values[i].name);
      forall b | b in values[..n] ensures b.name != values[i].name {
        var x :| 0 <= x < n && values[x] == b;
      }
    }
  }

  lemma MergedEntry(nodes: seq<Select>, cond: Value, yes: seq<Binding>, no: seq<Binding>, merged: seq<Binding>, name: string, vals: Vals)
    requires Ordered(nodes) && BindingsIn(yes, |nodes|) && BindingsIn(no, |nodes|) && BindingsIn(merged, |nodes|)
    requires NamesDistinct(merged) && forall r :: r in merged ==> EntryOk(nodes, cond, yes, no, r)
    requires name != "" && HasName(yes, name) ==> HasName(merged, name)
    ensures MergedMeans(nodes, cond, yes, no, Latest(merged, name), name, vals)
  {
    LatestIs(merged, name);
    LatestIs(yes, name);
    if Latest(yes, name).Some? {
      var i :| 0 <= i < |yes| && yes[i] == Latest(yes, name).value;
      assert HasName(yes, name);
      var j :| 0 <= j < |merged| && merged[j].name == name;
      OnlyOne(merged, j);
      assert EntryOk(nodes, cond, yes, no, merged[j]);
    } else {
      forall r | r in merged ensures r.name != name {
        assert EntryOk(nodes, cond, yes, no, r);
      }
    }
  }

  /** More phis, newer selects and resolved values leave standing values right. */
  lemma StandsLater(nodes: seq<Select>, more: seq<Select>, phis: seq<PhiInstr>, later: seq<PhiInstr>, n: nat, m: nat, b: Bound, v: Value)
    requires Ordered(nodes) && Ordered(more) && BoundIn(b, |nodes|) && |nodes| <= |more| && phis <= later && n <= m
    requires forall i :: 0 <= i < |nodes| ==> SameShape(more[i], nodes[i])
    requires Stands(nodes, phis, n, b, v)
    ensures Stands(more, later, m, b, v)
  {
    assert b.Pick? ==> SameShape(more[b.i], nodes[b.i]);
    forall vals: Vals | Obeys(vals, later) ensures Val(vals, v.key) == Means(more, b, vals) {
      ObeysPrefix(vals, phis, later);
      MeansFrame(nodes, more, b, vals);
    }
  }

  lemma ObeysPrefix(vals: Vals, phis: seq<PhiInstr>, later: seq<PhiInstr>)
    requires phis <= later && Obeys(vals, later)
    ensures Obeys(vals, phis)
  {
    forall x | 0 <= x < |phis| ensures PhiHolds(vals, phis[x]) {
      assert phis[x] == later[x];
    }
  }

  /** The phi of a select means what the select means. */
  lemma ByPhi(nodes: seq<Select>, phis0: seq<PhiInstr>, phis: seq<PhiInstr>, n: nat, i: nat, t: Value, f: Value, v: Value)
    requires Ordered(nodes) && i < |nodes| && BoundIn(nodes[i].yes, i) && BoundIn(nodes[i].no, i)
    requires Stands(nodes, phis, n, nodes[i].yes, t) && Stands(nodes, phis, n, nodes[i].no, f)
    requires phis == phis0 + [PhiInstr(nodes[i].cond, t, f, v)] && Usable(v.key, n) && v.bits == nodes[i].bits
    ensures Stands(nodes, phis, n, Pick(i), v)
  {
    forall vals: Vals | Obeys(vals, phis) ensures Val(vals, v.key) == Means(nodes, Pick(i), vals) {
      assert PhiHolds(vals, phis[|phis0|]);
    }
  }
}
