/** Defining and setting variables in bindings that are cloned at branches
    (compiler/ssa/bindings.go).  A clone shares the slice of its original; the
    first write to either makes its own copy. */
module Scopes {
  import opened Graph
  import opened Ssa
  import opened Bindings

  /** Replaces the binding of the same name and scope, or adds one at the end. */
  function SetIn(values: seq<Binding>, b: Binding): seq<Binding> {
    if values == [] then [b]
    else if SameVariable(values[0], b) then [b] + values[1..]
    else [values[0]] + SetIn(values[1..], b)
  }

  predicate SameVariable(a: Binding, b: Binding) {
    a.name == b.name && a.scope == b.scope
  }

  /** One binding for a name and scope. */
  ghost predicate Single(values: seq<Binding>) {
    forall i, j :: 0 <= i < j < |values| ==> !SameVariable(values[i], values[j])
  }

  lemma {:induction false} SetMembers(values: seq<Binding>, b: Binding, e: Binding)
    requires Single(values)
    ensures e in SetIn(values, b) <==> e == b || (e in values && !SameVariable(e, b))
  {
    if values != [] {
      var v, rest := values[0], values[1..];
      assert values == [v] + rest && Single(rest);
      assert e in rest ==> !SameVariable(v, e);
      if !SameVariable(v, b) {
        SetMembers(rest, b, e);
      }
    }
  }

  lemma {:induction false} SetSingle(values: seq<Binding>, b: Binding)
    requires Single(values)
    ensures Single(SetIn(values, b))
  {
    if values != [] {
      var v, rest := values[0], values[1..];
      assert values == [v] + rest && Single(rest);
      if !SameVariable(v, b) {
        SetSingle(rest, b);
        forall e | e in SetIn(rest, b) ensures !SameVariable(v, e) {
          SetMembers(rest, b, e);
        }
      }
    }
  }

  /** Two bindings that are both the latest of their name in a list are one. */
  lemma LatestOnce(values: seq<Binding>, x: Binding, y: Binding)
    requires Single(values) && x in values && y in values && x.name == y.name
    requires x.scope >= y.scope && y.scope >= x.scope
    ensures x == y
  {
    var i :| 0 <= i < |values| && values[i] == x;
    var j :| 0 <= j < |values| && values[j] == y;
  }

  /** After a set, the name means the new binding, unless a binding of a deeper
      scope hides it; every other name means what it meant. */
  lemma SetThenGet(values: seq<Binding>, b: Binding, name: string)
    requires Single(values)
    ensures Single(SetIn(values, b)) && Latest(SetIn(values, b), name) ==
            var before := Latest(values, name);
            if name == b.name && name != "" && (before.None? || before.value.scope <= b.scope) then Some(b) else before
  {
    hide SetIn, Latest, Single;
    var after := SetIn(values, b);
    SetSingle(values, b);
    forall e ensures e in after <==> e == b || (e in values && !SameVariable(e, b)) {
      SetMembers(values, b, e);
    }
    LatestIs(values, name);
    LatestIs(after, name);
    var old1, new1 := Latest(values, name), Latest(after, name);
    if old1.Some? && new1.Some? {
      if new1.value in values && old1.value in after {
        LatestOnce(values, old1.value, new1.value);
      } else if new1.value == b && old1.value in after && old1.value.scope == b.scope {
        LatestOnce(after, old1.value, b);
      }
    }
  }

  class BindingList {
    var shared: bool
    var store: array<Binding>
    var len: nat

    constructor ()
      ensures Fits() && Contents() == [] && !shared && fresh(store)
    {
      shared, len := false, 0;
      store := new Binding[0];
    }

    ghost predicate Fits()
      reads this
    {
      len <= store.Length
    }

    ghost function Contents(): seq<Binding>
      requires Fits()
      reads this, store
    {
      store[..len]
    }

    constructor Sharing(store: array<Binding>, len: nat)
      ensures this.store == store && this.len == len && shared
    {
      this.shared, this.store, this.len := true, store, len;
    }

    /** Clone; `family` are all the bindings there are. */
    method Clone(ghost family: set<BindingList>) returns (c: BindingList)
      requires this in family && Apart(family)
      modifies this`shared
      ensures fresh(c) && Apart(family + {c}) && c.Contents() == old(Contents())
      ensures forall o :: o in family ==> o.Contents() == old(o.Contents())
    {
      c := new BindingList.Sharing(store, len);
      shared := true;
    }

    /** A shared slice is copied before the first write. */
    method Unshare(ghost family: set<BindingList>)
      requires this in family && Apart(family)
      modifies this
      ensures Alone(this, family) && len == old(len) && Contents() == old(Contents())
      ensures store == old(store) || fresh(store)
      ensures forall o :: o in family && o != this ==> o.Contents() == old(o.Contents())
    {
      if shared {
        var values := new Binding[len](i requires 0 <= i < len <= store.Length reads this, store => store[i]);
        assert values[..] == store[..len];
        store := values;
        shared := false;
      }
    }

    /** The first binding of the same name and scope. */
    method Find(b: Binding) returns (idx: nat)
      requires Fits()
      ensures idx <= len && forall i :: 0 <= i < idx ==> !SameVariable(store[i], b)
      ensures idx < len ==> SameVariable(store[idx], b)
    {
      idx := 0;
      while idx < len && !SameVariable(store[idx], b)
        invariant idx <= len && forall i :: 0 <= i < idx ==> !SameVariable(store[i], b)
      {
        idx := idx + 1;
      }
    }

    /** append: in place while there is room, else in a larger slice. */
    method Append(b: Binding, ghost family: set<BindingList>)
      requires this in family && Alone(this, family)
      modifies this, store
      ensures Apart(family) && Contents() == old(Contents()) + [b]
      ensures forall o :: o in family && o != this ==> o.Contents() == old(o.Contents())
    {
      ghost var was := Contents();
      if len == store.Length {
        var grown := new Binding[2 * len + 1](i requires 0 <= i && len <= store.Length reads this, store => if i < len then store[i] else b);
        assert grown[..len] == was;
        store := grown;
      }
      store[len] := b;
      len := len + 1;
      assert store[..len - 1] == was;
    }

    /** set; the other members of the family keep their contents. */
    method SetBinding(b: Binding, ghost family: set<BindingList>)
      requires this in family && Apart(family)
      modifies this, store
      ensures Apart(family) && Contents() == SetIn(old(Contents()), b)
      ensures forall o :: o in family && o != this ==> o.Contents() == old(o.Contents())
    {
      hide SetIn, SameVariable;
      ghost var was := Contents();
      Unshare(family);
      var idx := Find(b);
      if idx < len {
        SetAt(was, b, idx);
        store[idx] := b;
        assert Contents() == was[idx := b];
      } else {
        SetNew(was, b);
        Append(b, family);
      }
    }

    /** Define */
    method Define(b: Binding, ghost family: set<BindingList>)
      requires this in family && Apart(family)
      modifies this, store
      ensures Apart(family) && Contents() == SetIn(old(Contents()), b)
      ensures forall o :: o in family && o != this ==> o.Contents() == old(o.Contents())
    {
      SetBinding(b, family);
    }

    /** Set: the name must be there, and keeps its type. */
    method Set(b: Binding, ghost family: set<BindingList>) returns (ok: bool)
      requires this in family && Apart(family)
      modifies this, store
      ensures Apart(family) && (ok <==> Latest(old(Contents()), b.name).Some?)
      ensures Contents() == if ok then SetIn(old(Contents()), b.(bits := Latest(old(Contents()), b.name).value.bits)) else old(Contents())
      ensures forall o :: o in family && o != this ==> o.Contents() == old(o.Contents())
    {
      var r := Get(store[..len], b.name);
      if r.None? {
        return false;
      }
      SetBinding(b.(bits := r.value.bits), family);
      return true;
    }
  }

  /** Bindings that share a slice all know it. */
  ghost predicate Apart(family: set<BindingList>)
    reads family
  {
    && (forall o :: o in family ==> o.Fits())
    && forall o, p :: o in family && p in family && o != p && o.store == p.store ==> o.shared && p.shared
  }

  /** No other member of the family has this one's slice. */
  ghost predicate Alone(o: BindingList, family: set<BindingList>)
    reads o, family
  {
    !o.shared && Apart(family) && forall p :: p in family && p != o ==> p.store != o.store
  }

  lemma {:induction false} SetAt(values: seq<Binding>, b: Binding, idx: nat)
    requires idx < |values| && SameVariable(values[idx], b) && forall i :: 0 <= i < idx ==> !SameVariable(values[i], b)
    ensures SetIn(values, b) == values[idx := b]
  {
    if idx > 0 {
      SetAt(values[1..], b, idx - 1);
      assert values[idx := b] == [values[0]] + values[1..][idx - 1 := b];
    }
  }

  lemma {:induction false} SetNew(values: seq<Binding>, b: Binding)
    requires forall i :: 0 <= i < |values| ==> !SameVariable(values[i], b)
    ensures SetIn(values, b) == values + [b]
  {
    if values != [] {
      SetNew(values[1..], b);
    }
  }
}
