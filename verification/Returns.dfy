/** Return bindings (ReturnBinding of compiler/ssa/block.go): one value for a
    name at the end of an acyclic block graph, made of phi instructions, with a
    cache over blocks and names. */
module Returns {
  import opened Graph
  import opened Ssa
  import opened Bindings

  datatype Block = Block(next: Opt<nat>, branch: Opt<nat>, cond: Bindings.Value, bindings: seq<Binding>)

  /** Edges go up in rank, and a block that branches also has a next block. */
  ghost predicate Acyclic(blocks: seq<Block>, rank: seq<nat>) {
    |rank| == |blocks| && forall b :: 0 <= b < |blocks| ==> EdgesUp(blocks, rank, b)
  }

  predicate EdgesUp(blocks: seq<Block>, rank: seq<nat>, b: nat)
    requires b < |blocks| == |rank|
  {
    && (blocks[b].branch.Some? ==> blocks[b].next.Some?)
    && (blocks[b].next.Some? ==> blocks[b].next.value < |blocks| && rank[b] < rank[blocks[b].next.value])
    && (blocks[b].branch.Some? ==> blocks[b].branch.value < |blocks| && rank[b] < rank[blocks[b].branch.value])
  }

  /** Sequential: no branch, or both ways lead to the same block. */
  predicate Straight(b: Block) {
    b.branch.None? || b.next == b.branch
  }

  function Height(rank: seq<nat>): nat {
    if rank == [] then 0 else var h := Height(rank[..|rank| - 1]); if rank[|rank| - 1] > h then rank[|rank| - 1] else h
  }

  lemma {:induction false} HeightBound(rank: seq<nat>, i: nat)
    requires i < |rank|
    ensures rank[i] <= Height(rank)
  {
    if i < |rank| - 1 {
      HeightBound(rank[..|rank| - 1], i);
    }
  }

  /** How far block `b` is from the top rank: what the recursion goes down on. */
  function Left(rank: seq<nat>, b: nat): nat
    requires b < |rank|
  {
    HeightBound(rank, b);
    Height(rank) - rank[b]
  }

  function Has(b: Block, name: string): bool {
    Latest(b.bindings, name).Some?
  }

  /** Whether there is a return binding: on every path from a branching block,
      and on the rest of a straight path or else in the block itself. */
  ghost predicate Returned(blocks: seq<Block>, rank: seq<nat>, b: nat, name: string)
    requires Acyclic(blocks, rank) && b < |blocks|
    decreases Left(rank, b)
  {
    assert EdgesUp(blocks, rank, b);
    Fewer(blocks, rank, b);
    if Straight(blocks[b]) then (blocks[b].next.Some? && Returned(blocks, rank, blocks[b].next.value, name)) || Has(blocks[b], name)
    else Returned(blocks, rank, blocks[b].branch.value, name) && Returned(blocks, rank, blocks[b].next.value, name)
  }

  lemma Fewer(blocks: seq<Block>, rank: seq<nat>, b: nat)
    requires Acyclic(blocks, rank) && b < |blocks|
    ensures blocks[b].next.Some? ==> blocks[b].next.value < |blocks| && Left(rank, blocks[b].next.value) < Left(rank, b)
    ensures blocks[b].branch.Some? ==> blocks[b].next.Some?
    ensures blocks[b].branch.Some? ==> blocks[b].branch.value < |blocks| && Left(rank, blocks[b].branch.value) < Left(rank, b)
  {
    assert EdgesUp(blocks, rank, b);
    if blocks[b].next.Some? {
      HeightBound(rank, blocks[b].next.value);
    }
    if blocks[b].branch.Some? {
      HeightBound(rank, blocks[b].branch.value);
    }
  }

  /** The blocks on the path that the branch conditions select. */
  ghost function Path(blocks: seq<Block>, rank: seq<nat>, b: nat, vals: Vals): (path: seq<nat>)
    requires Acyclic(blocks, rank) && b < |blocks|
    ensures forall x :: 0 <= x < |path| ==> path[x] < |blocks|
    decreases Left(rank, b)
  {
    Fewer(blocks, rank, b);
    if Straight(blocks[b]) then [b] + if blocks[b].next.Some? then Path(blocks, rank, blocks[b].next.value, vals) else []
    else if True(Val(vals, blocks[b].cond.key)) then [b] + Path(blocks, rank, blocks[b].branch.value, vals)
    else [b] + Path(blocks, rank, blocks[b].next.value, vals)
  }

  /** The last block of a path that binds the name. */
  function LastHolder(blocks: seq<Block>, path: seq<nat>, name: string): (h: Opt<nat>)
    requires forall x :: 0 <= x < |path| ==> path[x] < |blocks|
    ensures h.Some? ==> h.value < |blocks| && Has(blocks[h.value], name)
    ensures h.Some? <==> exists x :: 0 <= x < |path| && Has(blocks[path[x]], name)
  {
    if path == [] then None
    else if Has(blocks[path[|path| - 1]], name) then Some(path[|path| - 1])
    else LastHolder(blocks, path[..|path| - 1], name)
  }

  lemma {:induction false} HolderCons(blocks: seq<Block>, b: nat, path: seq<nat>, name: string)
    requires b < |blocks| && forall x :: 0 <= x < |path| ==> path[x] < |blocks|
    ensures var h := LastHolder(blocks, path, name);
            LastHolder(blocks, [b] + path, name) == if h.Some? then h else if Has(blocks[b], name) then Some(b) else None
  {
    hide Has;
    if path == [] {
      assert LastHolder(blocks, [b], name) == if Has(blocks[b], name) then Some(b) else None;
    } else {
      var init, all := path[..|path| - 1], [b] + path;
      HolderCons(blocks, b, init, name);
      assert all[..|all| - 1] == [b] + init;
      assert LastHolder(blocks, path, name) == if Has(blocks[path[|path| - 1]], name) then Some(path[|path| - 1]) else LastHolder(blocks, init, name);
    }
  }

  /** Bindings and branch conditions refer to existing selects and values. */
  ghost predicate BlocksOk(blocks: seq<Block>, nodes: nat, n: nat) {
    forall b :: 0 <= b < |blocks| ==> BindingsOk(blocks[b].bindings, nodes, n) && Usable(blocks[b].cond.key, n)
  }

  /** What a block's own binding of the name means. */
  ghost function OwnMeans(nodes: seq<Select>, values: seq<Binding>, name: string, vals: Vals): nat
    requires Ordered(nodes) && BindingsIn(values, |nodes|) && Latest(values, name).Some?
  {
    LatestIs(values, name);
    Means(nodes, Latest(values, name).value.bound, vals)
  }

  /** The value a return binding stands for. */
  ghost function PathValue(blocks: seq<Block>, rank: seq<nat>, nodes: seq<Select>, b: nat, name: string, vals: Vals): nat
    requires Acyclic(blocks, rank) && b < |blocks| && Returned(blocks, rank, b, name)
    requires Ordered(nodes) && forall c :: 0 <= c < |blocks| ==> BindingsIn(blocks[c].bindings, |nodes|)
    decreases Left(rank, b)
  {
    Fewer(blocks, rank, b);
    if Straight(blocks[b]) then
      if blocks[b].next.Some? && Returned(blocks, rank, blocks[b].next.value, name)
      then PathValue(blocks, rank, nodes, blocks[b].next.value, name, vals)
      else OwnMeans(nodes, blocks[b].bindings, name, vals)
    else if True(Val(vals, blocks[b].cond.key)) then PathValue(blocks, rank, nodes, blocks[b].branch.value, name, vals)
    else PathValue(blocks, rank, nodes, blocks[b].next.value, name, vals)
  }

  lemma {:induction false} PathFrame(blocks: seq<Block>, rank: seq<nat>, nodes: seq<Select>, more: seq<Select>, b: nat, name: string, vals: Vals)
    requires Acyclic(blocks, rank) && b < |blocks| && Returned(blocks, rank, b, name)
    requires Ordered(nodes) && Ordered(more) && |nodes| == |more| && forall i :: 0 <= i < |nodes| ==> SameShape(more[i], nodes[i])
    requires forall c :: 0 <= c < |blocks| ==> BindingsIn(blocks[c].bindings, |nodes|)
    ensures PathValue(blocks, rank, nodes, b, name, vals) == PathValue(blocks, rank, more, b, name, vals)
    decreases Left(rank, b)
  {
    Fewer(blocks, rank, b);
    if Straight(blocks[b]) {
      if blocks[b].next.Some? && Returned(blocks, rank, blocks[b].next.value, name) {
        PathFrame(blocks, rank, nodes, more, blocks[b].next.value, name, vals);
      } else {
        LatestIs(blocks[b].bindings, name);
        MeansFrame(nodes, more, Latest(blocks[b].bindings, name).value.bound, vals);
      }
    } else {
      PathFrame(blocks, rank, nodes, more, blocks[b].branch.value, name, vals);
      PathFrame(blocks, rank, nodes, more, blocks[b].next.value, name, vals);
    }
  }

  /** The block that the path goes on to. */
  function Onward(b: Block, vals: Vals): nat
    requires b.next.Some?
  {
    if !Straight(b) && True(Val(vals, b.cond.key)) then b.branch.value else b.next.value
  }

  /** The block whose own binding is taken. */
  ghost function Giver(blocks: seq<Block>, rank: seq<nat>, b: nat, name: string, vals: Vals): (g: nat)
    requires Acyclic(blocks, rank) && b < |blocks| && Returned(blocks, rank, b, name)
    ensures g < |blocks| && Has(blocks[g], name)
    decreases Left(rank, b)
  {
    Fewer(blocks, rank, b);
    if Straight(blocks[b]) && !(blocks[b].next.Some? && Returned(blocks, rank, blocks[b].next.value, name)) then b
    else Giver(blocks, rank, Onward(blocks[b], vals), name, vals)
  }

  lemma {:induction false} GiverGives(blocks: seq<Block>, rank: seq<nat>, nodes: seq<Select>, b: nat, name: string, vals: Vals)
    requires Acyclic(blocks, rank) && b < |blocks| && Returned(blocks, rank, b, name)
    requires Ordered(nodes) && forall c :: 0 <= c < |blocks| ==> BindingsIn(blocks[c].bindings, |nodes|)
    ensures var g := Giver(blocks, rank, b, name, vals);
            PathValue(blocks, rank, nodes, b, name, vals) == OwnMeans(nodes, blocks[g].bindings, name, vals)
    decreases Left(rank, b)
  {
    hide OwnMeans, Has;
    Fewer(blocks, rank, b);
    if !(Straight(blocks[b]) && !(blocks[b].next.Some? && Returned(blocks, rank, blocks[b].next.value, name))) {
      GiverGives(blocks, rank, nodes, Onward(blocks[b], vals), name, vals);
    }
  }

  /** A straight block that gets nothing from the block it leads to. */
  ghost predicate FallsBack(blocks: seq<Block>, rank: seq<nat>, b: nat, name: string)
    requires Acyclic(blocks, rank) && b < |blocks|
  {
    Fewer(blocks, rank, b);
    Straight(blocks[b]) && blocks[b].next.Some? && !Returned(blocks, rank, blocks[b].next.value, name)
  }

  /** A block of the path falls back although a later one binds the name. */
  ghost predicate PassedOver(blocks: seq<Block>, rank: seq<nat>, path: seq<nat>, name: string)
    requires Acyclic(blocks, rank) && forall x :: 0 <= x < |path| ==> path[x] < |blocks|
  {
    exists x, y :: 0 <= x < y < |path| && FallsBack(blocks, rank, path[x], name) && Has(blocks[path[y]], name)
  }

  lemma Passes(blocks: seq<Block>, rank: seq<nat>, path: seq<nat>, name: string, x: nat, y: nat)
    requires Acyclic(blocks, rank) && forall x :: 0 <= x < |path| ==> path[x] < |blocks|
    requires x < y < |path| && FallsBack(blocks, rank, path[x], name) && Has(blocks[path[y]], name)
    ensures PassedOver(blocks, rank, path, name)
  {
    hide FallsBack, Has, Acyclic;
  }

  lemma PassesOverMeans(blocks: seq<Block>, rank: seq<nat>, path: seq<nat>, name: string) returns (x: nat, y: nat)
    requires Acyclic(blocks, rank) && forall x :: 0 <= x < |path| ==> path[x] < |blocks|
    requires PassedOver(blocks, rank, path, name)
    ensures x < y < |path| && FallsBack(blocks, rank, path[x], name) && Has(blocks[path[y]], name)
  {
    hide FallsBack, Has, Acyclic;
    x, y :| 0 <= x < y < |path| && FallsBack(blocks, rank, path[x], name) && Has(blocks[path[y]], name);
  }

  lemma PassedOverCons(blocks: seq<Block>, rank: seq<nat>, b: nat, path: seq<nat>, name: string)
    requires Acyclic(blocks, rank) && b < |blocks| && forall x :: 0 <= x < |path| ==> path[x] < |blocks|
    ensures PassedOver(blocks, rank, [b] + path, name) <==>
            PassedOver(blocks, rank, path, name) || (FallsBack(blocks, rank, b, name) && LastHolder(blocks, path, name).Some?)
  {
    hide FallsBack, Has, Acyclic, PassedOver, LastHolder;
    var all := [b] + path;
    if PassedOver(blocks, rank, all, name) {
      var x, y := PassesOverMeans(blocks, rank, all, name);
      assert Has(blocks[path[y - 1]], name);
      if x > 0 {
        Passes(blocks, rank, path, name, x - 1, y - 1);
      }
    }
    if PassedOver(blocks, rank, path, name) {
      var x, y := PassesOverMeans(blocks, rank, path, name);
      Passes(blocks, rank, all, name, x + 1, y + 1);
    }
    if FallsBack(blocks, rank, b, name) && LastHolder(blocks, path, name).Some? {
      var y :| 0 <= y < |path| && Has(blocks[path[y]], name);
      Passes(blocks, rank, all, name, 0, y + 1);
    }
  }

  /** A path does not come back. */
  lemma {:induction false} PathUp(blocks: seq<Block>, rank: seq<nat>, b: nat, vals: Vals)
    requires Acyclic(blocks, rank) && b < |blocks|
    ensures forall x :: 0 <= x < |Path(blocks, rank, b, vals)| ==> rank[Path(blocks, rank, b, vals)[x]] >= rank[b]
    decreases Left(rank, b)
  {
    Fewer(blocks, rank, b);
    assert EdgesUp(blocks, rank, b);
    if blocks[b].next.Some? {
      PathUp(blocks, rank, Onward(blocks[b], vals), vals);
    }
  }

  /** A holder of the name on a path is on the path. */
  lemma {:induction false} HolderOnPath(blocks: seq<Block>, path: seq<nat>, name: string)
    requires forall x :: 0 <= x < |path| ==> path[x] < |blocks|
    ensures LastHolder(blocks, path, name).Some? ==> LastHolder(blocks, path, name).value in path
  {
    hide Has;
    if path != [] && !Has(blocks[path[|path| - 1]], name) {
      HolderOnPath(blocks, path[..|path| - 1], name);
    }
  }

  /** The binding taken is that of the last holder exactly when no block of the
      path falls back although a later one binds the name. */
  lemma {:induction false} GiverIsLast(blocks: seq<Block>, rank: seq<nat>, b: nat, name: string, vals: Vals)
    requires Acyclic(blocks, rank) && b < |blocks| && Returned(blocks, rank, b, name)
    ensures var path := Path(blocks, rank, b, vals);
            && LastHolder(blocks, path, name).Some?
            && (LastHolder(blocks, path, name) == Some(Giver(blocks, rank, b, name, vals)) <==> !PassedOver(blocks, rank, path, name))
    decreases Left(rank, b)
  {
    hide LastHolder, PassedOver, Has;
    Fewer(blocks, rank, b);
    if blocks[b].next.None? {
      assert [b] == [b] + [];
      HolderCons(blocks, b, [], name);
      PassedOverCons(blocks, rank, b, [], name);
      Nothing(blocks, rank, name);
    } else {
      var c := Onward(blocks[b], vals);
      var rest := Path(blocks, rank, c, vals);
      HolderCons(blocks, b, rest, name);
      PassedOverCons(blocks, rank, b, rest, name);
      if Returned(blocks, rank, c, name) {
        GiverIsLast(blocks, rank, c, name, vals);
      } else {
        assert EdgesUp(blocks, rank, b);
        PathUp(blocks, rank, c, vals);
        HolderOnPath(blocks, rest, name);
        if LastHolder(blocks, rest, name).None? {
          HolderlessNotPassed(blocks, rank, rest, name);
        }
      }
    }
  }

  lemma Nothing(blocks: seq<Block>, rank: seq<nat>, name: string)
    requires Acyclic(blocks, rank)
    ensures !PassedOver(blocks, rank, [], name)
  {
  }

  lemma HolderlessNotPassed(blocks: seq<Block>, rank: seq<nat>, path: seq<nat>, name: string)
    requires Acyclic(blocks, rank) && forall x :: 0 <= x < |path| ==> path[x] < |blocks|
    requires LastHolder(blocks, path, name).None?
    ensures !PassedOver(blocks, rank, path, name)
  {
    hide FallsBack, Has;
  }

  /** A block with the name, and behind it an if that binds it on one way only. */
  function OneReturn(cond: Bindings.Value, x: Binding, y: Binding): seq<Block> {
    [Block(Some(1), None, cond, [x]), Block(Some(3), Some(2), cond, []), Block(None, None, cond, [y]), Block(None, None, cond, [])]
  }

  const ONE_RANK: seq<nat> := [0, 1, 2, 2]

  /** There the way that binds the name is passed over: with the condition set
      the last holder is block 2, and the binding of block 0 is taken. */
  lemma PassesOver(cond: Bindings.Value, x: Binding, y: Binding, vals: Vals)
    requires x.name == y.name != "" && True(Val(vals, cond.key))
    ensures var blocks := OneReturn(cond, x, y);
            && Acyclic(blocks, ONE_RANK) && Returned(blocks, ONE_RANK, 0, x.name)
            && Giver(blocks, ONE_RANK, 0, x.name, vals) == 0
            && LastHolder(blocks, Path(blocks, ONE_RANK, 0, vals), x.name) == Some(2)
            && PassedOver(blocks, ONE_RANK, Path(blocks, ONE_RANK, 0, vals), x.name)
  {
    var name, blocks := x.name, OneReturn(cond, x, y);
    assert [x][..0] == [] && [y][..0] == [];
    assert Latest([], name) == None && Latest([x], name) == Some(x) && Latest([y], name) == Some(y);
    assert Returned(blocks, ONE_RANK, 2, name) && !Returned(blocks, ONE_RANK, 3, name);
    assert !Returned(blocks, ONE_RANK, 1, name);
    assert Path(blocks, ONE_RANK, 2, vals) == [2];
    assert Path(blocks, ONE_RANK, 1, vals) == [1] + [2];
    assert Path(blocks, ONE_RANK, 0, vals) == [0] + ([1] + [2]);
    NoHolder(blocks, name);
    assert [2] + [] == [2];
    HolderCons(blocks, 2, [], name);
    HolderCons(blocks, 1, [2], name);
    HolderCons(blocks, 0, [1] + [2], name);
    GiverIsLast(blocks, ONE_RANK, 0, name, vals);
  }

  // ----- The graphs of the compiler -----

  /** A block that leads nowhere and does not bind the name, like the empty
      block that all return statements lead to. */
  predicate Bare(blocks: seq<Block>, b: nat, name: string) {
    b < |blocks| && blocks[b].next.None? && blocks[b].branch.None? && !Has(blocks[b], name)
  }

  /** Whatever leads to a bare block is straight and binds the name itself, as
      every return statement sets all return values. */
  ghost predicate ReturnsBind(blocks: seq<Block>, name: string) {
    forall b, c: nat :: 0 <= b < |blocks| && Bare(blocks, c, name) && (blocks[b].next == Some(c) || blocks[b].branch == Some(c)) ==>
      Straight(blocks[b]) && Has(blocks[b], name)
  }

  /** In such a graph there is a return binding from every block that is not
      itself bare. */
  lemma {:induction false} AllReturned(blocks: seq<Block>, rank: seq<nat>, b: nat, name: string)
    requires Acyclic(blocks, rank) && b < |blocks| && ReturnsBind(blocks, name)
    ensures Returned(blocks, rank, b, name) <==> !Bare(blocks, b, name)
    decreases Left(rank, b)
  {
    Fewer(blocks, rank, b);
    if blocks[b].next.Some? {
      AllReturned(blocks, rank, blocks[b].next.value, name);
    }
    if blocks[b].branch.Some? {
      AllReturned(blocks, rank, blocks[b].branch.value, name);
    }
  }

  /** In such a graph no later binding is passed over. */
  lemma {:induction false} ReturnsSettle(blocks: seq<Block>, rank: seq<nat>, b: nat, name: string, vals: Vals)
    requires Acyclic(blocks, rank) && b < |blocks| && ReturnsBind(blocks, name)
    ensures !PassedOver(blocks, rank, Path(blocks, rank, b, vals), name)
    decreases Left(rank, b)
  {
    hide PassedOver, LastHolder, Has, Returned;
    Fewer(blocks, rank, b);
    Nothing(blocks, rank, name);
    if blocks[b].next.None? {
      assert [b] == [b] + [];
      PassedOverCons(blocks, rank, b, [], name);
      NoHolder(blocks, name);
    } else {
      var c := Onward(blocks[b], vals);
      ReturnsSettle(blocks, rank, c, name, vals);
      PassedOverCons(blocks, rank, b, Path(blocks, rank, c, vals), name);
      AllReturned(blocks, rank, c, name);
      if Bare(blocks, c, name) {
        assert Path(blocks, rank, c, vals) == [c] == [c] + [];
        NoHolder(blocks, name);
        HolderCons(blocks, c, [], name);
      }
    }
  }

  lemma NoHolder(blocks: seq<Block>, name: string)
    ensures LastHolder(blocks, [], name) == None
  {
  }

  /** Two return statements under an if, and the empty block they lead to. */
  function TwoReturns(cond: Bindings.Value, x: Binding, y: Binding): seq<Block> {
    [Block(Some(2), Some(1), cond, []), Block(Some(3), None, cond, [x]), Block(Some(3), None, cond, [y]), Block(None, None, cond, [])]
  }

  const RANK: seq<nat> := [0, 1, 1, 2]

  lemma TwoReturnsBind(cond: Bindings.Value, x: Binding, y: Binding)
    requires x.name == y.name != ""
    ensures Acyclic(TwoReturns(cond, x, y), RANK) && ReturnsBind(TwoReturns(cond, x, y), x.name)
    ensures var blocks := TwoReturns(cond, x, y);
            !Has(blocks[0], x.name) && Has(blocks[1], x.name) && Has(blocks[2], x.name) && !Has(blocks[3], x.name)
  {
    assert [x][..0] == [] && [y][..0] == [];
    assert Latest([], x.name) == None && Latest([x], x.name) == Some(x) && Latest([y], x.name) == Some(y);
  }

  lemma TwoReturnsPath(cond: Bindings.Value, x: Binding, y: Binding, vals: Vals)
    requires Acyclic(TwoReturns(cond, x, y), RANK)
    ensures Path(TwoReturns(cond, x, y), RANK, 0, vals) == [0] + ([if True(Val(vals, cond.key)) then 1 else 2] + [3])
  {
    var blocks := TwoReturns(cond, x, y);
    var c := if True(Val(vals, cond.key)) then 1 else 2;
    assert Path(blocks, RANK, 3, vals) == [3];
    assert Path(blocks, RANK, c, vals) == [c] + [3];
  }

  /** There is a return binding, and the condition picks whose. */
  lemma EmptyReturnBlock(cond: Bindings.Value, x: Binding, y: Binding, vals: Vals)
    requires x.name == y.name != ""
    ensures var blocks := TwoReturns(cond, x, y);
            && Acyclic(blocks, RANK) && ReturnsBind(blocks, x.name) && Returned(blocks, RANK, 0, x.name)
            && LastHolder(blocks, Path(blocks, RANK, 0, vals), x.name) == Some(if True(Val(vals, cond.key)) then 1 else 2)
  {
    hide Path, Returned, Acyclic, ReturnsBind, LastHolder, Has;
    var name, blocks := x.name, TwoReturns(cond, x, y);
    TwoReturnsBind(cond, x, y);
    TwoReturnsPath(cond, x, y, vals);
    AllReturned(blocks, RANK, 0, name);
    var c := if True(Val(vals, cond.key)) then 1 else 2;
    NoHolder(blocks, name);
    assert [3] + [] == [3];
    HolderCons(blocks, 3, [], name);
    HolderCons(blocks, c, [3], name);
    HolderCons(blocks, 0, [c] + [3], name);
  }

  // ----- Resolution -----

  /** What the search found for one block and name, and that it is right. */
  ghost predicate Answers(blocks: seq<Block>, rank: seq<nat>, nodes: seq<Select>, phis: seq<PhiInstr>, n: nat,
                          b: nat, name: string, v: Opt<Bindings.Value>)
    requires Acyclic(blocks, rank) && Ordered(nodes) && BlocksOk(blocks, |nodes|, n)
  {
    b < |blocks| && (v.Some? <==> Returned(blocks, rank, b, name)) &&
    (v.Some? ==>
       && Usable(v.value.key, n)
       && forall vals: Vals :: Obeys(vals, phis) ==> Val(vals, v.value.key) == PathValue(blocks, rank, nodes, b, name, vals))
  }

  /** Later phis and newly resolved selects change no answer. */
  lemma AnswersLater(blocks: seq<Block>, rank: seq<nat>, nodes: seq<Select>, phis: seq<PhiInstr>, n: nat, b: nat, name: string, v: Opt<Bindings.Value>,
                     more: seq<Select>, later: seq<PhiInstr>, m: nat)
    requires Acyclic(blocks, rank) && Ordered(nodes) && Ordered(more) && BlocksOk(blocks, |nodes|, n) && |nodes| == |more| && n <= m
    requires forall i :: 0 <= i < |nodes| ==> SameShape(more[i], nodes[i])
    requires Answers(blocks, rank, nodes, phis, n, b, name, v) && phis <= later
    ensures BlocksOk(blocks, |more|, m) && Answers(blocks, rank, more, later, m, b, name, v)
  {
    if v.Some? {
      forall vals: Vals | Obeys(vals, later) ensures Val(vals, v.value.key) == PathValue(blocks, rank, more, b, name, vals) {
        ObeysPrefix(vals, phis, later);
        PathFrame(blocks, rank, nodes, more, b, name, vals);
      }
    }
  }

  /** The answer of a branching block, from those of its two ways: none when one has
      none, the same without a phi when they are equal, else a new phi as wide as the
      wider of both. */
  ghost predicate Joined(b: Block, name: string, cache: map<(nat, string), Opt<Bindings.Value>>, phis: seq<PhiInstr>, more: seq<PhiInstr>, v: Opt<Bindings.Value>)
    requires b.next.Some? && b.branch.Some?
  {
    (b.branch.value, name) in cache &&
    var t := cache[(b.branch.value, name)];
    if t.None? then v.None?
    else
      (b.next.value, name) in cache &&
      var f := cache[(b.next.value, name)];
      if f.None? then v.None?
      else if t.value.key == f.value.key then v == t
      else
        && v.Some? && |more| > |phis| && more[|more| - 1] == PhiInstr(b.cond, t.value, f.value, v.value)
        && v.value.bits >= t.value.bits && v.value.bits >= f.value.bits && (v.value.bits == t.value.bits || v.value.bits == f.value.bits)
  }

  lemma JoinNone(b: Block, name: string, cache: map<(nat, string), Opt<Bindings.Value>>, phis: seq<PhiInstr>, more: seq<PhiInstr>)
    requires b.next.Some? && b.branch.Some? && (b.branch.value, name) in cache
    requires cache[(b.branch.value, name)].None? || ((b.next.value, name) in cache && cache[(b.next.value, name)].None?)
    ensures Joined(b, name, cache, phis, more, None)
  {
  }

  lemma JoinBoth(b: Block, name: string, cache: map<(nat, string), Opt<Bindings.Value>>, phis: seq<PhiInstr>, more: seq<PhiInstr>,
                 t: Opt<Bindings.Value>, f: Opt<Bindings.Value>, v: Opt<Bindings.Value>)
    requires b.next.Some? && b.branch.Some? && (b.branch.value, name) in cache && (b.next.value, name) in cache
    requires t.Some? && f.Some? && cache[(b.branch.value, name)] == t && cache[(b.next.value, name)] == f
    requires if t.value.key == f.value.key then v == t
             else
               && v.Some? && |more| > |phis| && more[|more| - 1] == PhiInstr(b.cond, t.value, f.value, v.value)
               && v.value.bits == if t.value.bits > f.value.bits then t.value.bits else f.value.bits
    ensures Joined(b, name, cache, phis, more, v)
  {
  }

  /** ReturnBindingCTX with the generator it resolves into. */
  class Context {
    const blocks: seq<Block>
    const gen: Resolver
    var cache: map<(nat, string), Opt<Bindings.Value>>

    constructor (blocks: seq<Block>, gen: Resolver)
      ensures this.blocks == blocks && this.gen == gen && cache == map[]
    {
      this.blocks, this.gen := blocks, gen;
      cache := map[];
    }

    ghost predicate Valid(rank: seq<nat>)
      reads this, gen
    {
      && gen.Valid() && Acyclic(blocks, rank) && BlocksOk(blocks, |gen.nodes|, gen.next)
      && forall k :: k in cache ==> Answers(blocks, rank, gen.nodes, gen.phis, gen.next, k.0, k.1, cache[k])
    }

    /** ReturnBinding: from the cache, or resolved and cached. */
    method ReturnBinding(b: nat, name: string, ghost rank: seq<nat>) returns (v: Opt<Bindings.Value>)
      requires Valid(rank) && b < |blocks|
      modifies this, gen
      ensures Valid(rank) && gen.Later() && |gen.nodes| == old(|gen.nodes|)
      ensures Answers(blocks, rank, gen.nodes, gen.phis, gen.next, b, name, v)
      ensures (b, name) in cache && cache[(b, name)] == v
      ensures forall k :: k in old(cache) ==> k in cache && cache[k] == old(cache)[k]
      ensures (b, name) in old(cache) ==> cache == old(cache) && gen.phis == old(gen.phis)
      decreases Left(rank, b), 2
    {
      if (b, name) in cache {
        return cache[(b, name)];
      }
      v := Resolve(b, name, rank);
      cache := cache[(b, name) := v];
    }

    /** returnBinding */
    method Resolve(b: nat, name: string, ghost rank: seq<nat>) returns (v: Opt<Bindings.Value>)
      requires Valid(rank) && b < |blocks|
      modifies this, gen
      ensures Valid(rank) && gen.Later() && |gen.nodes| == old(|gen.nodes|)
      ensures Answers(blocks, rank, gen.nodes, gen.phis, gen.next, b, name, v)
      ensures forall k :: k in old(cache) ==> k in cache && cache[k] == old(cache)[k]
      ensures !Straight(blocks[b]) ==> blocks[b].next.Some? && Joined(blocks[b], name, cache, old(gen.phis), gen.phis, v)
      decreases Left(rank, b), 1
    {
      hide Answers, BlocksOk, Joined;
      Fewer(blocks, rank, b);
      if Straight(blocks[b]) {
        v := ResolveStraight(b, name, rank);
      } else {
        v := ResolveBranch(b, name, rank);
      }
    }

    /** A sequential block: what the next one has, or its own latest value. */
    method ResolveStraight(b: nat, name: string, ghost rank: seq<nat>) returns (v: Opt<Bindings.Value>)
      requires Valid(rank) && b < |blocks| && Straight(blocks[b])
      modifies this, gen
      ensures Valid(rank) && gen.Later() && |gen.nodes| == old(|gen.nodes|)
      ensures Answers(blocks, rank, gen.nodes, gen.phis, gen.next, b, name, v)
      ensures forall k :: k in old(cache) ==> k in cache && cache[k] == old(cache)[k]
      decreases Left(rank, b), 0
    {
      hide Answers, BlocksOk, Acyclic, Returned;
      Fewer(blocks, rank, b);
      if blocks[b].next.Some? {
        v := ReturnBinding(blocks[b].next.value, name, rank);
        if v.Some? {
          FromNext(blocks, rank, gen.nodes, gen.phis, gen.next, b, name, v);
          return;
        }
      }
      ghost var nodes1, phis1, next1 := gen.nodes, gen.phis, gen.next;
      var own := Get(blocks[b].bindings, name);
      OwnOk(blocks, |gen.nodes|, gen.next, b, name);
      if own.None? {
        NotBound(blocks, rank, gen.nodes, gen.phis, gen.next, b, name);
        return None;
      }
      var x := gen.ValueOf(own.value.bound);
      v := Some(x);
      CacheLater(rank, nodes1, phis1, next1);
      FromOwn(blocks, rank, nodes1, phis1, next1, gen.nodes, gen.phis, gen.next, b, name, x);
      return;
    }

    /** A branching block: both ways, joined by a phi where they differ. */
    method ResolveBranch(b: nat, name: string, ghost rank: seq<nat>) returns (v: Opt<Bindings.Value>)
      requires Valid(rank) && b < |blocks| && !Straight(blocks[b])
      modifies this, gen
      ensures Valid(rank) && gen.Later() && |gen.nodes| == old(|gen.nodes|)
      ensures Answers(blocks, rank, gen.nodes, gen.phis, gen.next, b, name, v)
      ensures forall k :: k in old(cache) ==> k in cache && cache[k] == old(cache)[k]
      ensures blocks[b].next.Some? && blocks[b].branch.Some? && Joined(blocks[b], name, cache, old(gen.phis), gen.phis, v)
      decreases Left(rank, b), 0
    {
      hide Answers, BlocksOk, Acyclic, Returned, Joined, Obeys, PhisOk, NodeKeys, Bindings.Stands;
      Fewer(blocks, rank, b);
      var t := ReturnBinding(blocks[b].branch.value, name, rank);
      if t.None? {
        OneMissing(blocks, rank, gen.nodes, gen.phis, gen.next, b, name, blocks[b].branch.value);
        JoinNone(blocks[b], name, cache, old(gen.phis), gen.phis);
        return None;
      }
      ghost var nodes1, phis1, next1 := gen.nodes, gen.phis, gen.next;
      var f := ReturnBinding(blocks[b].next.value, name, rank);
      AnswersLater(blocks, rank, nodes1, phis1, next1, blocks[b].branch.value, name, t, gen.nodes, gen.phis, gen.next);
      if f.None? {
        OneMissing(blocks, rank, gen.nodes, gen.phis, gen.next, b, name, blocks[b].next.value);
        JoinNone(blocks[b], name, cache, old(gen.phis), gen.phis);
        return None;
      }
      if t.value.key == f.value.key {
        BothSame(blocks, rank, gen.nodes, gen.phis, gen.next, b, name, t, f);
        JoinBoth(blocks[b], name, cache, old(gen.phis), gen.phis, t, f, t);
        return t;
      }
      var bits := if t.value.bits > f.value.bits then t.value.bits else f.value.bits;
      ghost var nodes2, phis2, next2 := gen.nodes, gen.phis, gen.next;
      CondOk(blocks, |gen.nodes|, gen.next, b);
      AnswerUsable(blocks, rank, gen.nodes, gen.phis, gen.next, blocks[b].branch.value, name, t);
      AnswerUsable(blocks, rank, gen.nodes, gen.phis, gen.next, blocks[b].next.value, name, f);
      var x := gen.AddPhi(blocks[b].cond, t.value, f.value, bits);
      v := Some(x);
      CacheLater(rank, nodes2, phis2, next2);
      AnswersLater(blocks, rank, nodes2, phis2, next2, blocks[b].branch.value, name, t, gen.nodes, gen.phis, gen.next);
      AnswersLater(blocks, rank, nodes2, phis2, next2, blocks[b].next.value, name, f, gen.nodes, gen.phis, gen.next);
      ReturnByPhi(blocks, rank, gen.nodes, phis2, gen.phis, gen.next, b, name, t, f, x);
      JoinBoth(blocks[b], name, cache, old(gen.phis), gen.phis, t, f, v);
    }

    /** The cache stays right while the generator moves on. */
    lemma CacheLater(rank: seq<nat>, nodes: seq<Select>, phis: seq<PhiInstr>, n: nat)
      requires gen.Valid() && Acyclic(blocks, rank) && Ordered(nodes) && BlocksOk(blocks, |nodes|, n) && |nodes| == |gen.nodes|
      requires forall i :: 0 <= i < |nodes| ==> SameShape(gen.nodes[i], nodes[i])
      requires phis <= gen.phis && n <= gen.next
      requires forall k :: k in cache ==> Answers(blocks, rank, nodes, phis, n, k.0, k.1, cache[k])
      ensures Valid(rank)
    {
      hide Answers;
      forall k | k in cache ensures BlocksOk(blocks, |gen.nodes|, gen.next) && Answers(blocks, rank, gen.nodes, gen.phis, gen.next, k.0, k.1, cache[k]) {
        AnswersLater(blocks, rank, nodes, phis, n, k.0, k.1, cache[k], gen.nodes, gen.phis, gen.next);
      }
    }
  }

  lemma CondOk(blocks: seq<Block>, nodes: nat, n: nat, b: nat)
    requires BlocksOk(blocks, nodes, n) && b < |blocks|
    ensures Usable(blocks[b].cond.key, n)
  {
  }

  lemma AnswerUsable(blocks: seq<Block>, rank: seq<nat>, nodes: seq<Select>, phis: seq<PhiInstr>, n: nat, b: nat, name: string, v: Opt<Bindings.Value>)
    requires Acyclic(blocks, rank) && Ordered(nodes) && BlocksOk(blocks, |nodes|, n) && v.Some?
    requires Answers(blocks, rank, nodes, phis, n, b, name, v)
    ensures Usable(v.value.key, n)
  {
  }

  lemma FromNext(blocks: seq<Block>, rank: seq<nat>, nodes: seq<Select>, phis: seq<PhiInstr>, n: nat, b: nat, name: string, v: Opt<Bindings.Value>)
    requires Acyclic(blocks, rank) && Ordered(nodes) && BlocksOk(blocks, |nodes|, n) && b < |blocks|
    requires Straight(blocks[b]) && blocks[b].next.Some? && v.Some?
    requires Answers(blocks, rank, nodes, phis, n, blocks[b].next.value, name, v)
    ensures Answers(blocks, rank, nodes, phis, n, b, name, v)
  {
    Fewer(blocks, rank, b);
  }

  lemma OwnOk(blocks: seq<Block>, nodes: nat, n: nat, b: nat, name: string)
    requires BlocksOk(blocks, nodes, n) && b < |blocks|
    ensures var own := Latest(blocks[b].bindings, name);
            own.Some? ==> BoundIn(own.value.bound, nodes) && BoundKeys(own.value.bound, n)
  {
    LatestIs(blocks[b].bindings, name);
  }

  lemma NotBound(blocks: seq<Block>, rank: seq<nat>, nodes: seq<Select>, phis: seq<PhiInstr>, n: nat, b: nat, name: string)
    requires Acyclic(blocks, rank) && Ordered(nodes) && BlocksOk(blocks, |nodes|, n) && b < |blocks|
    requires Straight(blocks[b]) && Latest(blocks[b].bindings, name).None?
    requires blocks[b].next.Some? ==> Answers(blocks, rank, nodes, phis, n, blocks[b].next.value, name, None)
    ensures Answers(blocks, rank, nodes, phis, n, b, name, None)
  {
    Fewer(blocks, rank, b);
  }

  lemma FromOwn(blocks: seq<Block>, rank: seq<nat>, nodes0: seq<Select>, phis0: seq<PhiInstr>, n0: nat,
                nodes: seq<Select>, phis: seq<PhiInstr>, n: nat, b: nat, name: string, x: Bindings.Value)
    requires Acyclic(blocks, rank) && Ordered(nodes0) && Ordered(nodes) && |nodes0| == |nodes| && b < |blocks|
    requires BlocksOk(blocks, |nodes|, n) && BlocksOk(blocks, |nodes0|, n0)
    requires Straight(blocks[b]) && Latest(blocks[b].bindings, name).Some?
    requires blocks[b].next.Some? ==> Answers(blocks, rank, nodes0, phis0, n0, blocks[b].next.value, name, None)
    requires var own := Latest(blocks[b].bindings, name).value; BoundIn(own.bound, |nodes|) && Stands(nodes, phis, n, own.bound, x)
    ensures Answers(blocks, rank, nodes, phis, n, b, name, Some(x))
  {
    Fewer(blocks, rank, b);
  }

  lemma OneMissing(blocks: seq<Block>, rank: seq<nat>, nodes: seq<Select>, phis: seq<PhiInstr>, n: nat, b: nat, name: string, c: nat)
    requires Acyclic(blocks, rank) && Ordered(nodes) && BlocksOk(blocks, |nodes|, n) && b < |blocks| && !Straight(blocks[b])
    requires Some(c) == blocks[b].branch || Some(c) == blocks[b].next
    requires Answers(blocks, rank, nodes, phis, n, c, name, None)
    ensures Answers(blocks, rank, nodes, phis, n, b, name, None)
  {
    Fewer(blocks, rank, b);
  }

  /** Equal values on both sides need no phi. */
  lemma BothSame(blocks: seq<Block>, rank: seq<nat>, nodes: seq<Select>, phis: seq<PhiInstr>, n: nat, b: nat, name: string,
                 t: Opt<Bindings.Value>, f: Opt<Bindings.Value>)
    requires Acyclic(blocks, rank) && Ordered(nodes) && BlocksOk(blocks, |nodes|, n) && b < |blocks| && !Straight(blocks[b])
    requires blocks[b].next.Some? && t.Some? && f.Some? && t.value.key == f.value.key
    requires Answers(blocks, rank, nodes, phis, n, blocks[b].branch.value, name, t)
    requires Answers(blocks, rank, nodes, phis, n, blocks[b].next.value, name, f)
    ensures Answers(blocks, rank, nodes, phis, n, b, name, t)
  {
    Fewer(blocks, rank, b);
  }

  /** The new phi picks the side that the branch condition picks. */
  lemma ReturnByPhi(blocks: seq<Block>, rank: seq<nat>, nodes: seq<Select>, phis0: seq<PhiInstr>, phis: seq<PhiInstr>, n: nat, b: nat, name: string,
                    t: Opt<Bindings.Value>, f: Opt<Bindings.Value>, x: Bindings.Value)
    requires Acyclic(blocks, rank) && Ordered(nodes) && BlocksOk(blocks, |nodes|, n) && b < |blocks| && !Straight(blocks[b])
    requires blocks[b].next.Some? && t.Some? && f.Some? && Usable(x.key, n)
    requires Answers(blocks, rank, nodes, phis, n, blocks[b].branch.value, name, t)
    requires Answers(blocks, rank, nodes, phis, n, blocks[b].next.value, name, f)
    requires phis == phis0 + [PhiInstr(blocks[b].cond, t.value, f.value, x)]
    ensures Answers(blocks, rank, nodes, phis, n, b, name, Some(x))
  {
    Fewer(blocks, rank, b);
    forall vals: Vals | Obeys(vals, phis) ensures Val(vals, x.key) == PathValue(blocks, rank, nodes, b, name, vals) {
      assert PhiHolds(vals, phis[|phis0|]);
    }
  }

  /** The value found is the binding of one block of the selected path, and that
      block is the last one that binds the name exactly when none is passed over. */
  ghost predicate ReturnsGiver(blocks: seq<Block>, rank: seq<nat>, nodes: seq<Select>, b: nat, name: string, vals: Vals, v: Bindings.Value) {
    && Acyclic(blocks, rank) && b < |blocks| && Ordered(nodes) && Returned(blocks, rank, b, name)
    && var path, g := Path(blocks, rank, b, vals), Giver(blocks, rank, b, name, vals);
       && BindingsIn(blocks[g].bindings, |nodes|) && Val(vals, v.key) == OwnMeans(nodes, blocks[g].bindings, name, vals)
       && (LastHolder(blocks, path, name) == Some(g) <==> !PassedOver(blocks, rank, path, name))
  }

  /** In every valuation of the program's values that obeys the phis emitted for
      a name. */
  method ReturnValue(ctx: Context, b: nat, name: string, ghost rank: seq<nat>) returns (v: Opt<Bindings.Value>)
    requires ctx.Valid(rank) && b < |ctx.blocks|
    modifies ctx, ctx.gen
    ensures ctx.Valid(rank) && (v.Some? <==> Returned(ctx.blocks, rank, b, name))
    ensures v.Some? ==> forall vals: Vals :: Obeys(vals, ctx.gen.phis) ==>
              ReturnsGiver(ctx.blocks, rank, ctx.gen.nodes, b, name, vals, v.value)
  {
    hide ReturnsGiver;
    v := ctx.ReturnBinding(b, name, rank);
    if v.Some? {
      forall vals: Vals | Obeys(vals, ctx.gen.phis) ensures ReturnsGiver(ctx.blocks, rank, ctx.gen.nodes, b, name, vals, v.value) {
        AnswerIsGiven(ctx.blocks, rank, ctx.gen.nodes, ctx.gen.phis, ctx.gen.next, b, name, vals, v);
      }
    }
  }

  lemma AnswerIsGiven(blocks: seq<Block>, rank: seq<nat>, nodes: seq<Select>, phis: seq<PhiInstr>, n: nat, b: nat, name: string, vals: Vals, v: Opt<Bindings.Value>)
    requires Acyclic(blocks, rank) && Ordered(nodes) && BlocksOk(blocks, |nodes|, n)
    requires Answers(blocks, rank, nodes, phis, n, b, name, v) && v.Some? && Obeys(vals, phis)
    ensures ReturnsGiver(blocks, rank, nodes, b, name, vals, v.value)
  {
    hide LastHolder, PathValue, PassedOver, Returned;
    GiverGives(blocks, rank, nodes, b, name, vals);
    GiverIsLast(blocks, rank, b, name, vals);
  }

  /** The value is the binding held by the last block of the selected path that
      binds the name. */
  ghost predicate ReturnsLast(blocks: seq<Block>, rank: seq<nat>, nodes: seq<Select>, b: nat, name: string, vals: Vals, v: Bindings.Value) {
    && Acyclic(blocks, rank) && b < |blocks| && Ordered(nodes)
    && var h := LastHolder(blocks, Path(blocks, rank, b, vals), name);
       h.Some? && BindingsIn(blocks[h.value].bindings, |nodes|) && Val(vals, v.key) == OwnMeans(nodes, blocks[h.value].bindings, name, vals)
  }

  /** What the compiler calls it on: the return statements bind the name, so
      there is a value from the start block. */
  method ReturnOfFunction(ctx: Context, start: nat, name: string, ghost rank: seq<nat>) returns (v: Opt<Bindings.Value>)
    requires ctx.Valid(rank) && start < |ctx.blocks| && ReturnsBind(ctx.blocks, name)
    modifies ctx, ctx.gen
    ensures ctx.Valid(rank) && (v.Some? <==> !Bare(ctx.blocks, start, name))
    ensures v.Some? ==> forall vals: Vals :: Obeys(vals, ctx.gen.phis) ==>
              ReturnsLast(ctx.blocks, rank, ctx.gen.nodes, start, name, vals, v.value)
  {
    hide PassedOver, LastHolder, Returned, Giver;
    AllReturned(ctx.blocks, rank, start, name);
    v := ReturnValue(ctx, start, name, rank);
    if v.Some? {
      forall vals: Vals | Obeys(vals, ctx.gen.phis) ensures ReturnsLast(ctx.blocks, rank, ctx.gen.nodes, start, name, vals, v.value) {
        ReturnsSettle(ctx.blocks, rank, start, name, vals);
        assert ReturnsGiver(ctx.blocks, rank, ctx.gen.nodes, start, name, vals, v.value);
      }
    }
  }
}
