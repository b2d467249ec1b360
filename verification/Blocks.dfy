/** Serialisation of the basic blocks of a program (compiler/ssa/block.go). */
module Blocks {
  import opened Graph

  /** A block is named by its index; `from` lists the blocks that lead to it. */
  datatype Block<I> = Block(name: string, from: seq<nat>, next: Opt<nat>, branch: Opt<nat>, instr: seq<I>)

  datatype Step<I> = Step(tag: string, instr: I)

  predicate Leads<I>(blocks: seq<Block<I>>, b: nat, c: nat) {
    b < |blocks| && (blocks[b].next == Some(c) || blocks[b].branch == Some(c))
  }

  /** The predecessor lists are right, and every edge goes up in rank. */
  ghost predicate Acyclic<I>(blocks: seq<Block<I>>, rank: seq<nat>) {
    && |rank| == |blocks|
    && (forall b: nat, c: nat :: Leads(blocks, b, c) ==> c < |blocks| && rank[b] < rank[c])
    && (forall b: nat, c: nat :: c < |blocks| ==> (b in blocks[c].from <==> Leads(blocks, b, c)))
  }

  /** `live` is what the start block reaches, and no edge enters it from
      outside: only the start block has no predecessor. */
  ghost predicate Entered<I>(blocks: seq<Block<I>>, live: set<nat>, start: nat) {
    && start in live && (forall b :: b in live ==> b < |blocks|)
    && (forall b: nat, c: nat :: b in live && Leads(blocks, b, c) ==> c in live)
    && (forall b :: b in live ==> forall p :: p in blocks[b].from ==> p in live)
    && (forall b :: b in live ==> (blocks[b].from == [] <==> b == start))
  }

  /** The steps of one block; the label goes on its first instruction. */
  function StepsOf<I>(b: Block<I>): (steps: seq<Step<I>>)
    ensures |steps| == |b.instr|
  {
    seq(|b.instr|, i requires 0 <= i < |b.instr| => Step(if i == 0 then b.name else "", b.instr[i]))
  }

  function CodeOf<I>(blocks: seq<Block<I>>, order: seq<nat>): seq<Step<I>>
    requires forall x :: 0 <= x < |order| ==> order[x] < |blocks|
  {
    if order == [] then [] else CodeOf(blocks, order[..|order| - 1]) + StepsOf(blocks[order[|order| - 1]])
  }

  /** How many steps the blocks before place `x` have. */
  function Before<I>(blocks: seq<Block<I>>, order: seq<nat>, x: nat): nat
    requires x <= |order| && forall y :: 0 <= y < |order| ==> order[y] < |blocks|
  {
    if x == 0 then 0 else Before(blocks, order, x - 1) + |blocks[order[x - 1]].instr|
  }

  /** Instruction `i` of the block at place `x` stands behind those of all earlier
      blocks; its tag is the block's name when it is the first, else empty. */
  ghost predicate InstrAt<I>(blocks: seq<Block<I>>, order: seq<nat>, code: seq<Step<I>>, x: nat, i: nat)
    requires x < |order| && forall y :: 0 <= y < |order| ==> order[y] < |blocks|
  {
    var b, at := blocks[order[x]], Before(blocks, order, x) + i;
    at < |code| && i < |b.instr| && code[at].instr == b.instr[i] && code[at].tag == if i == 0 then b.name else ""
  }

  ghost predicate Listed<I>(blocks: seq<Block<I>>, order: seq<nat>, code: seq<Step<I>>) {
    && (forall y :: 0 <= y < |order| ==> order[y] < |blocks|) && |code| == Before(blocks, order, |order|)
    && forall x, i :: 0 <= x < |order| && 0 <= i < |blocks[order[x]].instr| ==> InstrAt(blocks, order, code, x, i)
  }

  lemma {:induction false} BeforePrefix<I>(blocks: seq<Block<I>>, order: seq<nat>, x: nat, n: nat)
    requires x <= n <= |order| && forall y :: 0 <= y < |order| ==> order[y] < |blocks|
    ensures Before(blocks, order[..n], x) == Before(blocks, order, x)
  {
    if x > 0 {
      BeforePrefix(blocks, order, x - 1, n);
    }
  }

  lemma {:induction false} CodeIsListed<I>(blocks: seq<Block<I>>, order: seq<nat>)
    requires forall x :: 0 <= x < |order| ==> order[x] < |blocks|
    ensures Listed(blocks, order, CodeOf(blocks, order))
  {
    if order != [] {
      var n := |order| - 1;
      var init, code := order[..n], CodeOf(blocks, order);
      CodeIsListed(blocks, init);
      BeforePrefix(blocks, order, n, n);
      forall x, i | 0 <= x < |order| && 0 <= i < |blocks[order[x]].instr| ensures InstrAt(blocks, order, code, x, i) {
        if x < n {
          BeforePrefix(blocks, order, x, n);
          assert InstrAt(blocks, init, CodeOf(blocks, init), x, i);
        }
      }
    }
  }

  /** Every predecessor of `c` has been emitted. */
  predicate PredsSeen<I>(blocks: seq<Block<I>>, seen: set<nat>, c: nat)
    requires c < |blocks|
  {
    forall p :: p in blocks[c].from ==> p in seen
  }

  /** A block that could be emitted but has not been. */
  predicate Waiting<I>(blocks: seq<Block<I>>, seen: set<nat>, c: nat) {
    c < |blocks| && c !in seen && PredsSeen(blocks, seen, c)
  }

  /** Blocks in the order of emission: each once, and after its predecessors. */
  ghost predicate InOrder<I>(blocks: seq<Block<I>>, order: seq<nat>) {
    && (forall x :: 0 <= x < |order| ==> order[x] < |blocks|)
    && (forall x, y :: 0 <= x < y < |order| ==> order[x] != order[y])
    && (forall x :: 0 <= x < |order| ==> Preceded(blocks, order, x))
  }

  ghost predicate Preceded<I>(blocks: seq<Block<I>>, order: seq<nat>, x: nat)
    requires x < |order| && order[x] < |blocks|
  {
    forall p :: p in blocks[order[x]].from ==> p in order[..x]
  }

  /** What comes after the block at place `x`: the block it branches to, when that
      one waits then; else its next block, when that one waits. */
  predicate Continued<I>(blocks: seq<Block<I>>, order: seq<nat>, x: nat)
    requires x < |order|
  {
    order[x] < |blocks| &&
    var b, seen := blocks[order[x]], set y | 0 <= y <= x :: order[y];
    if b.branch.Some? && Waiting(blocks, seen, b.branch.value) then x + 1 < |order| && order[x + 1] == b.branch.value
    else b.next.Some? && Waiting(blocks, seen, b.next.value) ==> x + 1 < |order| && order[x + 1] == b.next.value
  }

  lemma ContinuedLater<I>(blocks: seq<Block<I>>, order: seq<nat>, more: seq<nat>, from: nat)
    requires order <= more && forall x :: from <= x < |order| ==> Continued(blocks, order, x)
    ensures forall x :: from <= x < |order| ==> Continued(blocks, more, x)
  {
    forall x | from <= x < |order| ensures Continued(blocks, more, x) {
      assert Continued(blocks, order, x);
      assert (set y | 0 <= y <= x :: more[y]) == set y | 0 <= y <= x :: order[y];
    }
  }

  class Serializer<I> {
    const blocks: seq<Block<I>>
    var seen: set<nat>
    var code: seq<Step<I>>
    ghost var order: seq<nat>

    constructor (blocks: seq<Block<I>>)
      ensures this.blocks == blocks && seen == {} && code == [] && order == [] && Valid()
    {
      this.blocks := blocks;
      seen, code, order := {}, [], [];
    }

    ghost predicate Valid()
      reads this
    {
      && InOrder(blocks, order) && code == CodeOf(blocks, order)
      && seen == set x | 0 <= x < |order| :: order[x]
    }

    /** serialize: emits block `b`, once all its predecessors are out, and then
        what follows it.  Afterwards nothing waits that did not wait before, and
        `b` does not. */
    method Visit(b: nat, ghost live: set<nat>, ghost start: nat, ghost rank: seq<nat>)
      requires Valid() && Acyclic(blocks, rank) && Entered(blocks, live, start) && b in live && seen <= live
      modifies this
      ensures Valid() && old(seen) <= seen <= live && old(order) <= order
      ensures NothingNew(blocks, old(seen), seen, b)
      ensures if Waiting(blocks, old(seen), b) then |order| > |old(order)| && order[|old(order)|] == b else order == old(order)
      ensures forall x :: |old(order)| <= x < |order| ==> Continued(blocks, order, x)
      decreases live - seen
    {
      hide Acyclic, Entered, InOrder, Waiting, CodeOf, Continued;
      BlockInRange(blocks, live, start, b);
      ReadyWaits(blocks, seen, b);
      if b in seen {
        NothingChanged(blocks, seen, b);
        return;
      }
      var ok := AllSeen(blocks[b].from);
      if !ok {
        NothingChanged(blocks, seen, b);
        return;
      }
      ghost var seen0 := seen;
      Emit(b);
      ghost var seen1, order1 := seen, order;
      if blocks[b].branch.Some? {
        Followed(blocks, rank, live, start, b, blocks[b].branch.value);
        Visit(blocks[b].branch.value, live, start, rank);
      }
      ghost var seen2, order2 := seen, order;
      if blocks[b].next.Some? {
        Followed(blocks, rank, live, start, b, blocks[b].next.value);
        Visit(blocks[b].next.value, live, start, rank);
      }
      Chained(blocks, rank, b, seen0, seen1, seen2, seen);
      ContinuedLater(blocks, order2, order, |order1|);
      EmittedFirst(blocks, order, order1, order2, b, seen1);
    }

    method AllSeen(from: seq<nat>) returns (ok: bool)
      ensures ok <==> forall p :: p in from ==> p in seen
    {
      for i := 0 to |from|
        invariant forall p :: p in from[..i] ==> p in seen
      {
        if from[i] !in seen {
          return false;
        }
      }
      assert from[..|from|] == from;
      return true;
    }

    method Emit(b: nat)
      requires Valid() && b < |blocks| && b !in seen && PredsSeen(blocks, seen, b)
      modifies this
      ensures Valid() && seen == old(seen) + {b} && order == old(order) + [b]
    {
      seen := seen + {b};
      var tag := blocks[b].name;
      ghost var before := code;
      for i := 0 to |blocks[b].instr|
        invariant code == before + StepsOf(blocks[b])[..i]
        invariant tag == if i == 0 then blocks[b].name else ""
        invariant seen == old(seen) + {b} && order == old(order)
      {
        code := code + [Step(tag, blocks[b].instr[i])];
        tag := "";
      }
      order := order + [b];
      assert order[..|order| - 1] == old(order);
      assert StepsOf(blocks[b])[..|blocks[b].instr|] == StepsOf(blocks[b]);
      InOrderSnoc(blocks, old(order), b, old(seen));
    }
  }

  lemma InOrderSnoc<I>(blocks: seq<Block<I>>, order: seq<nat>, b: nat, seen: set<nat>)
    requires InOrder(blocks, order) && b < |blocks| && b !in seen && PredsSeen(blocks, seen, b)
    requires seen == set x | 0 <= x < |order| :: order[x]
    ensures InOrder(blocks, order + [b])
    ensures seen + {b} == set x | 0 <= x < |order + [b]| :: (order + [b])[x]
  {
    var next := order + [b];
    forall x | 0 <= x < |next| ensures Preceded(blocks, next, x) {
      assert next[..x] == order[..x];
      if x < |order| {
        assert Preceded(blocks, order, x);
      } else {
        assert order[..x] == order;
      }
    }
    forall w ensures w in seen + {b} <==> w in set x | 0 <= x < |next| :: next[x] {
      if w in seen {
        var x :| 0 <= x < |order| && order[x] == w;
        assert next[x] == w;
      }
      if w == b {
        assert next[|order|] == b;
      }
    }
  }

  /** What waits after a visit waited before, and is not the visited block. */
  ghost predicate NothingNew<I>(blocks: seq<Block<I>>, seen: set<nat>, later: set<nat>, b: nat) {
    forall c :: Waiting(blocks, later, c) ==> Waiting(blocks, seen, c) && c != b
  }

  lemma NothingChanged<I>(blocks: seq<Block<I>>, seen: set<nat>, b: nat)
    requires b < |blocks| && (b in seen || !PredsSeen(blocks, seen, b))
    ensures NothingNew(blocks, seen, seen, b)
  {
  }

  lemma BlockInRange<I>(blocks: seq<Block<I>>, live: set<nat>, start: nat, b: nat)
    requires Entered(blocks, live, start) && b in live
    ensures b < |blocks|
  {
  }

  lemma Followed<I>(blocks: seq<Block<I>>, rank: seq<nat>, live: set<nat>, start: nat, b: nat, c: nat)
    requires Acyclic(blocks, rank) && Entered(blocks, live, start) && b in live && Leads(blocks, b, c)
    ensures c in live && c < |blocks|
  {
  }

  lemma ReadyWaits<I>(blocks: seq<Block<I>>, seen: set<nat>, b: nat)
    requires b < |blocks|
    ensures Waiting(blocks, seen, b) <==> b !in seen && PredsSeen(blocks, seen, b)
  {
  }

  lemma EmittedFirst<I>(blocks: seq<Block<I>>, order: seq<nat>, order1: seq<nat>, order2: seq<nat>, b: nat, seen1: set<nat>)
    requires b < |blocks| && order1 <= order2 <= order && |order1| > 0 && order1[|order1| - 1] == b
    requires seen1 == set x | 0 <= x < |order1| :: order1[x]
    requires if blocks[b].branch.Some? && Waiting(blocks, seen1, blocks[b].branch.value) then |order2| > |order1| && order2[|order1|] == blocks[b].branch.value
             else order2 == order1
    requires order2 == order1 && blocks[b].next.Some? && Waiting(blocks, seen1, blocks[b].next.value) ==>
               |order| > |order1| && order[|order1|] == blocks[b].next.value
    ensures Continued(blocks, order, |order1| - 1)
  {
    hide Waiting;
    assert (set y | 0 <= y <= |order1| - 1 :: order[y]) == seen1;
  }

  /** Emitting a block releases only the blocks it leads to, and these are
      visited next. */
  lemma Chained<I>(blocks: seq<Block<I>>, rank: seq<nat>, b: nat, seen0: set<nat>, seen1: set<nat>, seen2: set<nat>, seen3: set<nat>)
    requires Acyclic(blocks, rank) && b < |blocks| && seen1 == seen0 + {b} && seen1 <= seen2 <= seen3
    requires if blocks[b].branch.Some? then NothingNew(blocks, seen1, seen2, blocks[b].branch.value) else seen1 == seen2
    requires if blocks[b].next.Some? then NothingNew(blocks, seen2, seen3, blocks[b].next.value) else seen2 == seen3
    ensures NothingNew(blocks, seen0, seen3, b)
  {
    forall c | Waiting(blocks, seen3, c) ensures Waiting(blocks, seen0, c) && c != b {
      assert Waiting(blocks, seen2, c) && Waiting(blocks, seen1, c);
      assert !Leads(blocks, b, c);
    }
  }

  /** The steps of the program.  Every reachable block's instructions are there
      exactly once, after those of all its predecessors; nothing else is. */
  method Serialize<I>(blocks: seq<Block<I>>, start: nat, ghost live: set<nat>, ghost rank: seq<nat>)
    returns (code: seq<Step<I>>, ghost order: seq<nat>)
    requires Acyclic(blocks, rank) && Entered(blocks, live, start)
    ensures InOrder(blocks, order) && code == CodeOf(blocks, order)
    ensures Listed(blocks, order, code)
    ensures forall b :: b in order <==> b in live
    ensures |order| > 0 && order[0] == start && forall x :: 0 <= x < |order| ==> Continued(blocks, order, x)
  {
    var s := new Serializer(blocks);
    s.Visit(start, live, start, rank);
    forall c | c in live ensures !Waiting(blocks, s.seen, c) {
      assert !Waiting(blocks, {}, c) || c == start by {
        if c != start {
          assert blocks[c].from[0] in blocks[c].from;
        }
      }
    }
    forall b | b in live ensures b in s.seen {
      NoneLeft(blocks, s.seen, live, start, rank, b);
    }
    code, order := s.code, s.order;
    CodeIsListed(blocks, order);
    ReadyWaits(blocks, {}, start);
  }

  /** When no live block waits, none is missing. */
  lemma {:induction false} NoneLeft<I>(blocks: seq<Block<I>>, seen: set<nat>, live: set<nat>, start: nat, rank: seq<nat>, b: nat)
    requires Acyclic(blocks, rank) && Entered(blocks, live, start) && b in live
    requires forall c :: c in live ==> !Waiting(blocks, seen, c)
    ensures b in seen
    decreases rank[b]
  {
    forall p | p in blocks[b].from ensures p in seen {
      assert Leads(blocks, p, b);
      NoneLeft(blocks, seen, live, start, rank, p);
    }
  }
}
