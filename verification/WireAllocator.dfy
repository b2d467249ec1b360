/** The wire allocator's hash table (compiler/ssa/wire_allocator.go): bucket
    chains linked by `next`, searched with Value.Equal, with move-to-front on deep
    hits and headers that are used again after their value was collected.

    A pointer to a header is its index in the table of headers. */
module WireAllocator {
  import opened Graph
  import opened Ssa

  const BUCKETS := 10240

  /** allocByValue: the value a header was made for, its wires, and the next
      header of the bucket. */
  datatype Header = Header(key: Key, wires: seq<nat>, next: Opt<nat>)

  datatype Entry = Entry(key: Key, wires: seq<nat>)

  /** What a bucket holds, from its head on. */
  type Chain = seq<Entry>

  /** HashCode depends only on the name, scope and version. */
  type Hash = (string, int, int) -> nat

  function Bucket(hash: Hash, k: Key): (h: nat)
    ensures h < BUCKETS
  {
    hash(k.name, k.scope, k.version) % BUCKETS
  }

  /** The table a chain stands for. */
  function Table(c: Chain): map<Key, seq<nat>> {
    if c == [] then map[] else Table(c[1..])[c[0].key := c[0].wires]
  }

  /** No value is listed twice. */
  predicate Distinct(c: Chain) {
    forall i, j :: 0 <= i < j < |c| ==> c[i].key != c[j].key
  }

  lemma {:induction false} TableHas(c: Chain, k: Key)
    ensures k in Table(c) <==> exists i :: 0 <= i < |c| && c[i].key == k
  {
    if c != [] {
      TableHas(c[1..], k);
      if k in Table(c[1..]) {
        var i :| 0 <= i < |c[1..]| && c[1..][i].key == k;
        assert c[i + 1].key == k;
      }
      if i :| 0 <= i < |c| && c[i].key == k && i > 0 {
        assert c[1..][i - 1].key == k;
      }
    }
  }

  lemma {:induction false} TableAt(c: Chain, i: nat)
    requires Distinct(c) && i < |c|
    ensures c[i].key in Table(c) && Table(c)[c[i].key] == c[i].wires
  {
    if i > 0 {
      assert c[1..][i - 1] == c[i];
      TableAt(c[1..], i - 1);
    }
  }

  /** Two chains with the same entries stand for the same table. */
  lemma SameTable(c: Chain, d: Chain)
    requires Distinct(c) && Distinct(d)
    requires forall e :: e in c <==> e in d
    ensures Table(c) == Table(d)
  {
    forall k ensures k in Table(c) <==> k in Table(d) {
      TableHas(c, k);
      TableHas(d, k);
      if i :| 0 <= i < |c| && c[i].key == k {
        assert c[i] in d;
      }
      if i :| 0 <= i < |d| && d[i].key == k {
        assert d[i] in c;
      }
    }
    forall k | k in Table(c) ensures Table(c)[k] == Table(d)[k] {
      TableHas(c, k);
      var i :| 0 <= i < |c| && c[i].key == k;
      TableAt(c, i);
      assert c[i] in d;
      var j :| 0 <= j < |d| && d[j] == c[i];
      TableAt(d, j);
    }
  }

  /** Entry `i` unlinked and put at the head. */
  function MoveToFront<T>(c: seq<T>, i: nat): seq<T>
    requires i < |c|
  {
    [c[i]] + c[..i] + c[i + 1..]
  }

  lemma FrontAt<T>(c: seq<T>, i: nat, x: nat)
    requires i < |c| && x < |c|
    ensures |MoveToFront<T>(c, i)| == |c|
    ensures MoveToFront<T>(c, i)[x] == c[if x == 0 then i else if x <= i then x - 1 else x]
  {
  }

  lemma FrontDistinct(c: Chain, i: nat)
    requires Distinct(c) && i < |c|
    ensures Distinct(MoveToFront<Entry>(c, i))
  {
    var d := MoveToFront<Entry>(c, i);
    forall x, y | 0 <= x < y < |d| ensures d[x].key != d[y].key {
      FrontAt<Entry>(c, i, x);
      FrontAt<Entry>(c, i, y);
    }
  }

  lemma FrontEntries(c: Chain, i: nat)
    requires i < |c|
    ensures multiset(MoveToFront<Entry>(c, i)) == multiset(c)
    ensures forall e :: e in c <==> e in MoveToFront<Entry>(c, i)
  {
    var d := MoveToFront<Entry>(c, i);
    assert c == c[..i] + [c[i]] + c[i + 1..];
    assert forall e :: e in c <==> e in multiset(c);
    assert forall e :: e in d <==> e in multiset(d);
  }

  lemma FrontKeeps(c: Chain, i: nat)
    requires Distinct(c) && i < |c|
    ensures Distinct(MoveToFront<Entry>(c, i)) && Table(MoveToFront<Entry>(c, i)) == Table(c)
    ensures multiset(MoveToFront<Entry>(c, i)) == multiset(c)
  {
    FrontDistinct(c, i);
    FrontEntries(c, i);
    SameTable(c, MoveToFront<Entry>(c, i));
  }

  lemma PrependTable(c: Chain, e: Entry)
    requires Distinct(c) && e.key !in Table(c)
    ensures Distinct([e] + c) && Table([e] + c) == Table(c)[e.key := e.wires]
  {
    TableHas(c, e.key);
    assert ([e] + c)[1..] == c;
  }

  /** Without entry `i`. */
  function Unlink<T>(c: seq<T>, i: nat): seq<T>
    requires i < |c|
  {
    c[..i] + c[i + 1..]
  }

  lemma UnlinkTable(c: Chain, i: nat)
    requires Distinct(c) && i < |c|
    ensures Distinct(Unlink<Entry>(c, i)) && Table(Unlink<Entry>(c, i)) == Table(c) - {c[i].key}
    ensures forall e :: e in Unlink<Entry>(c, i) ==> e in c
  {
    hide Table;
    var d := Unlink<Entry>(c, i);
    assert MoveToFront<Entry>(c, i) == [c[i]] + d;
    FrontKeeps(c, i);
    FrontEntries(c, i);
    TailTable(c[i], d);
  }

  lemma TailTable(e: Entry, d: Chain)
    requires Distinct([e] + d)
    ensures Distinct(d) && Table(d) == Table([e] + d) - {e.key}
    ensures forall x :: x in d ==> x in [e] + d
  {
    assert ([e] + d)[1..] == d;
    forall i, j | 0 <= i < j < |d| ensures d[i].key != d[j].key {
      assert ([e] + d)[i + 1] == d[i] && ([e] + d)[j + 1] == d[j];
    }
    forall i | 0 <= i < |d| ensures d[i].key != e.key {
      assert ([e] + d)[i + 1] == d[i] && ([e] + d)[0] == e;
    }
    TableHas(d, e.key);
  }

  // ----- Linked headers -----

  function At(l: seq<nat>, i: nat): Opt<nat> {
    if i < |l| then Some(l[i]) else None
  }

  /** The headers from `head` on are these. */
  predicate Linked(head: Opt<nat>, hs: seq<Header>, l: seq<nat>) {
    head == At(l, 0) && forall i :: 0 <= i < |l| ==> l[i] < |hs| && hs[l[i]].next == At(l, i + 1)
  }

  predicate Within(l: seq<nat>, n: nat) {
    forall x :: x in l ==> x < n
  }

  function ChainOf(hs: seq<Header>, l: seq<nat>): (c: Chain)
    requires Within(l, |hs|)
    ensures |c| == |l|
  {
    seq(|l|, i requires 0 <= i < |l| => assert l[i] in l; Entry(hs[l[i]].key, hs[l[i]].wires))
  }

  /** The bucket is linked, every header is in the bucket of its value, and no
      value is there twice. */
  predicate ListOk(hash: Hash, h: nat, head: Opt<nat>, hs: seq<Header>, l: seq<nat>) {
    && Linked(head, hs, l) && Within(l, |hs|) && BucketOk(hash, h, ChainOf(hs, l))
  }

  /** A header stands in one place of one bucket. */
  lemma OnePlace(hash: Hash, h: nat, g: nat, head: Opt<nat>, first: Opt<nat>, hs: seq<Header>, l: seq<nat>, m: seq<nat>, i: nat, j: nat)
    requires ListOk(hash, h, head, hs, l) && ListOk(hash, g, first, hs, m) && i < |l| && j < |m| && l[i] == m[j]
    ensures h == g && (l == m ==> i == j)
  {
    assert ChainOf(hs, l)[i].key == hs[l[i]].key == ChainOf(hs, m)[j].key;
  }

  /** A bucket none of whose headers changed. */
  lemma ListKept(hash: Hash, h: nat, head: Opt<nat>, hs: seq<Header>, more: seq<Header>, l: seq<nat>)
    requires ListOk(hash, h, head, hs, l) && |hs| <= |more| && forall x :: x in l ==> more[x] == hs[x]
    ensures ListOk(hash, h, head, more, l) && ChainOf(more, l) == ChainOf(hs, l)
  {
    assert ChainOf(more, l) == ChainOf(hs, l);
  }

  /** Two pointer updates and the new head move header `i` to the front. */
  function Relinked(hs: seq<Header>, l: seq<nat>, i: nat): seq<Header>
    requires 0 < i < |l| && l[i] < |hs| && l[i - 1] < |hs|
  {
    var unlinked := hs[l[i - 1] := hs[l[i - 1]].(next := hs[l[i]].next)];
    unlinked[l[i] := unlinked[l[i]].(next := At(l, 0))]
  }

  lemma RelinkedValue(hs: seq<Header>, l: seq<nat>, i: nat, z: nat)
    requires 0 < i < |l| && l[i] < |hs| && l[i - 1] < |hs| && l[i] != l[i - 1] && z < |hs|
    ensures |Relinked(hs, l, i)| == |hs|
    ensures Relinked(hs, l, i)[z] ==
              if z == l[i] then hs[z].(next := At(l, 0)) else if z == l[i - 1] then hs[z].(next := hs[l[i]].next) else hs[z]
  {
  }

  predicate Once(l: seq<nat>, n: nat) {
    (forall i, j :: 0 <= i < j < |l| ==> l[i] != l[j]) && forall i :: 0 <= i < |l| ==> l[i] < n
  }

  lemma ListOnce(hash: Hash, h: nat, head: Opt<nat>, hs: seq<Header>, l: seq<nat>)
    requires ListOk(hash, h, head, hs, l)
    ensures Once(l, |hs|)
  {
    forall i, j | 0 <= i < j < |l| ensures l[i] != l[j] {
      assert ChainOf(hs, l)[i].key == hs[l[i]].key && ChainOf(hs, l)[j].key == hs[l[j]].key;
    }
  }

  lemma OnceAt(l: seq<nat>, n: nat, i: nat, j: nat)
    requires Once(l, n) && i < |l| && j < |l|
    ensures l[i] < n && l[j] < n && (l[i] == l[j] <==> i == j)
  {
  }

  lemma LinkedAt(head: Opt<nat>, hs: seq<Header>, l: seq<nat>, i: nat)
    requires Linked(head, hs, l) && i < |l|
    ensures l[i] < |hs| && hs[l[i]].next == At(l, i + 1)
  {
  }

  /** Where the header at place `x` points after the move. */
  lemma FrontNext(head: Opt<nat>, hs: seq<Header>, l: seq<nat>, i: nat, x: nat)
    requires Linked(head, hs, l) && Once(l, |hs|) && 0 < i < |l| && x < |l| && l[i] < |hs| && l[i - 1] < |hs|
    ensures var more, m := Relinked(hs, l, i), MoveToFront<nat>(l, i);
            && m[x] < |more| == |hs| && more[m[x]].next == At(m, x + 1)
            && more[m[x]].key == hs[m[x]].key && more[m[x]].wires == hs[m[x]].wires
  {
    hide Linked, Once, Relinked, MoveToFront;
    var y := if x == 0 then i else if x <= i then x - 1 else x;
    FrontAt<nat>(l, i, x);
    if x + 1 < |l| {
      FrontAt<nat>(l, i, x + 1);
    }
    LinkedAt(head, hs, l, y);
    LinkedAt(head, hs, l, i);
    OnceAt(l, |hs|, y, i);
    OnceAt(l, |hs|, y, i - 1);
    OnceAt(l, |hs|, i, i - 1);
    RelinkedValue(hs, l, i, l[y]);
  }

  lemma FrontLinked(hash: Hash, h: nat, head: Opt<nat>, hs: seq<Header>, l: seq<nat>, i: nat)
    requires ListOk(hash, h, head, hs, l) && 0 < i < |l|
    ensures l[i] < |hs| && l[i - 1] < |hs|
    ensures ListOk(hash, h, Some(l[i]), Relinked(hs, l, i), MoveToFront<nat>(l, i))
    ensures ChainOf(Relinked(hs, l, i), MoveToFront<nat>(l, i)) == MoveToFront<Entry>(ChainOf(hs, l), i)
  {
    hide BucketOk, Relinked, MoveToFront, Once;
    ListOnce(hash, h, head, hs, l);
    var c := ChainOf(hs, l);
    var more, m := Relinked(hs, l, i), MoveToFront<nat>(l, i);
    FrontAt<nat>(l, i, 0);
    FrontAt<Entry>(c, i, 0);
    forall x | 0 <= x < |m|
      ensures m[x] < |more| && more[m[x]].next == At(m, x + 1)
      ensures Entry(more[m[x]].key, more[m[x]].wires) == MoveToFront<Entry>(c, i)[x]
    {
      FrontNext(head, hs, l, i, x);
      FrontAt<nat>(l, i, x);
      FrontAt<Entry>(c, i, x);
    }
    assert ChainOf(more, m) == MoveToFront<Entry>(c, i);
    FrontBucket(hash, h, c, i);
  }

  /** One pointer update unlinks header `i`. */
  function Cut(hs: seq<Header>, l: seq<nat>, i: nat): seq<Header>
    requires i < |l| && l[i] < |hs| && (i > 0 ==> l[i - 1] < |hs|)
  {
    if i == 0 then hs else hs[l[i - 1] := hs[l[i - 1]].(next := hs[l[i]].next)]
  }

  lemma UnlinkAt<T>(c: seq<T>, i: nat, x: nat)
    requires i < |c| && x + 1 < |c|
    ensures |Unlink<T>(c, i)| == |c| - 1 && Unlink<T>(c, i)[x] == c[if x < i then x else x + 1]
  {
  }

  lemma UnlinkFirst<T>(c: seq<T>, i: nat)
    requires i < |c|
    ensures |Unlink<T>(c, i)| == |c| - 1
    ensures if i == 0 then Unlink<T>(c, i) == c[1..] else Unlink<T>(c, i)[0] == c[0]
  {
  }

  lemma CutValue(hs: seq<Header>, l: seq<nat>, i: nat, z: nat)
    requires i < |l| && l[i] < |hs| && (i > 0 ==> l[i - 1] < |hs|) && z < |hs|
    ensures |Cut(hs, l, i)| == |hs|
    ensures Cut(hs, l, i)[z] == if i > 0 && z == l[i - 1] then hs[z].(next := hs[l[i]].next) else hs[z]
  {
  }

  /** Where the header at place `x` points after the cut. */
  lemma CutAt(head: Opt<nat>, hs: seq<Header>, l: seq<nat>, i: nat, x: nat)
    requires Linked(head, hs, l) && Once(l, |hs|) && i < |l| && x + 1 < |l|
    ensures |Cut(hs, l, i)| == |hs| && |Unlink<nat>(l, i)| == |l| - 1
    ensures Unlink<nat>(l, i)[x] < |hs|
    ensures Unlink<nat>(l, i)[x] != l[i]
    ensures Cut(hs, l, i)[Unlink<nat>(l, i)[x]].next == At(Unlink<nat>(l, i), x + 1)
    ensures Cut(hs, l, i)[Unlink<nat>(l, i)[x]].key == hs[Unlink<nat>(l, i)[x]].key
    ensures Cut(hs, l, i)[Unlink<nat>(l, i)[x]].wires == hs[Unlink<nat>(l, i)[x]].wires
  {
    hide Cut, Unlink, Linked, Once;
    var y := if x < i then x else x + 1;
    UnlinkAt<nat>(l, i, x);
    if x + 2 < |l| {
      UnlinkAt<nat>(l, i, x + 1);
    }
    LinkedAt(head, hs, l, y);
    LinkedAt(head, hs, l, i);
    OnceAt(l, |hs|, y, i);
    if i > 0 {
      OnceAt(l, |hs|, y, i - 1);
    }
    CutValue(hs, l, i, l[y]);
  }

  lemma CutLinked(hash: Hash, h: nat, head: Opt<nat>, hs: seq<Header>, l: seq<nat>, i: nat)
    requires ListOk(hash, h, head, hs, l) && i < |l|
    ensures l[i] < |hs| && (i > 0 ==> l[i - 1] < |hs|)
    ensures ListOk(hash, h, if i == 0 then hs[l[i]].next else head, Cut(hs, l, i), Unlink<nat>(l, i)) && l[i] !in Unlink<nat>(l, i)
    ensures ChainOf(Cut(hs, l, i), Unlink<nat>(l, i)) == Unlink<Entry>(ChainOf(hs, l), i)
  {
    hide BucketOk, Cut, Unlink, Once;
    ListOnce(hash, h, head, hs, l);
    var c := ChainOf(hs, l);
    UnlinkFirst<nat>(l, i);
    UnlinkFirst<Entry>(c, i);
    var more, m := Cut(hs, l, i), Unlink<nat>(l, i);
    forall x | 0 <= x < |m|
      ensures m[x] < |more| && m[x] != l[i] && more[m[x]].next == At(m, x + 1)
      ensures Entry(more[m[x]].key, more[m[x]].wires) == Unlink<Entry>(c, i)[x]
    {
      CutAt(head, hs, l, i, x);
      UnlinkAt<nat>(l, i, x);
      UnlinkAt<Entry>(c, i, x);
    }
    assert ChainOf(more, m) == Unlink<Entry>(c, i);
    UnlinkBucket(hash, h, c, i);
  }

  // ----- All buckets -----

  predicate AllOk(hash: Hash, heads: seq<Opt<nat>>, hs: seq<Header>, lists: seq<seq<nat>>) {
    |heads| == BUCKETS == |lists| && forall h :: 0 <= h < BUCKETS ==> ListOk(hash, h, heads[h], hs, lists[h])
  }

  /** A header that stands in no bucket. */
  predicate Apart(lists: seq<seq<nat>>, x: nat) {
    forall h :: 0 <= h < |lists| ==> x !in lists[h]
  }

  /** A change of one bucket and of headers apart leaves the others as they are. */
  lemma OneChanged(hash: Hash, heads: seq<Opt<nat>>, hs: seq<Header>, lists: seq<seq<nat>>, h: nat, first: Opt<nat>, more: seq<Header>, m: seq<nat>)
    requires AllOk(hash, heads, hs, lists) && h < BUCKETS && |hs| <= |more| && ListOk(hash, h, first, more, m)
    requires forall x :: 0 <= x < |hs| && more[x] != hs[x] ==> x in lists[h] || Apart(lists, x)
    ensures AllOk(hash, heads[h := first], more, lists[h := m])
    ensures forall g :: 0 <= g < BUCKETS && g != h ==> Within(lists[g], |hs|) && ChainOf(more, lists[g]) == ChainOf(hs, lists[g])
  {
    hide ListOk, ChainOf;
    forall g | 0 <= g < BUCKETS && g != h
      ensures ListOk(hash, g, heads[g], more, lists[g]) && Within(lists[g], |hs|) && ChainOf(more, lists[g]) == ChainOf(hs, lists[g])
    {
      OtherKept(hash, heads, hs, lists, h, more, g);
    }
  }

  lemma OtherKept(hash: Hash, heads: seq<Opt<nat>>, hs: seq<Header>, lists: seq<seq<nat>>, h: nat, more: seq<Header>, g: nat)
    requires AllOk(hash, heads, hs, lists) && h < BUCKETS && g < BUCKETS && g != h && |hs| <= |more|
    requires forall x :: 0 <= x < |hs| && more[x] != hs[x] ==> x in lists[h] || Apart(lists, x)
    ensures ListOk(hash, g, heads[g], more, lists[g]) && Within(lists[g], |hs|) && ChainOf(more, lists[g]) == ChainOf(hs, lists[g])
  {
    hide Linked, BucketOk;
    assert ListOk(hash, g, heads[g], hs, lists[g]) && ListOk(hash, h, heads[h], hs, lists[h]);
    forall x | x in lists[g] ensures more[x] == hs[x] {
      if more[x] != hs[x] {
        var i :| 0 <= i < |lists[g]| && lists[g][i] == x;
        var j :| 0 <= j < |lists[h]| && lists[h][j] == x;
        OnePlace(hash, g, h, heads[g], heads[h], hs, lists[g], lists[h], i, j);
      }
    }
    ListKept(hash, g, heads[g], hs, more, lists[g]);
  }

  /** Headers that may be used again: apart from all buckets, each listed once. */
  predicate FreeOk(free: seq<nat>, n: nat, lists: seq<seq<nat>>) {
    && (forall i, j :: 0 <= i < j < |free| ==> free[i] != free[j])
    && forall i :: 0 <= i < |free| ==> free[i] < n && Apart(lists, free[i])
  }

  lemma FreeKept(free: seq<nat>, n: nat, lists: seq<seq<nat>>, h: nat, m: seq<nat>, k: nat)
    requires FreeOk(free, n, lists) && h < |lists| && n <= k && forall x :: x in m ==> x in lists[h] || x !in free
    ensures FreeOk(free, k, lists[h := m])
  {
    forall i | 0 <= i < |free| ensures Apart(lists[h := m], free[i]) {
      assert Apart(lists, free[i]) && free[i] in free;
    }
  }

  class WireAllocator {
    const hash: Hash
    const heads: array<Opt<nat>>
    var headers: seq<Header>
    var free: seq<nat>
    ghost var lists: seq<seq<nat>>

    constructor (hash: Hash)
      ensures Valid() && fresh(heads) && this.hash == hash && forall k: Key :: Get(k) == None
    {
      this.hash := hash;
      heads := new Opt<nat>[BUCKETS](_ => None);
      headers, free := [], [];
      lists := seq(BUCKETS, i => []);
    }

    /** All buckets are linked and in order, and the free headers are in none. */
    ghost predicate Valid()
      reads this, heads
    {
      AllOk(hash, heads[..], headers, lists) && FreeOk(free, |headers|, lists)
    }

    /** What a bucket holds. */
    ghost function Held(h: nat): Chain
      requires Valid() && h < BUCKETS
      reads this, heads
    {
      assert ListOk(hash, h, heads[..][h], headers, lists[h]);
      ChainOf(headers, lists[h])
    }

    /** The abstract table: what is bound to a value, if anything. */
    ghost function Get(k: Key): Opt<seq<nat>>
      requires Valid()
      reads this, heads
    {
      var t := Table(Held(Bucket(hash, k)));
      if k in t then Some(t[k]) else None
    }

    /** The header at place `i` of bucket `h` becomes its head. */
    method Raise(h: nat, prev: nat, x: nat, ghost i: nat)
      requires Valid() && h < BUCKETS && h < |lists| && 0 < i < |lists[h]| && lists[h][i] == x && lists[h][i - 1] == prev
      modifies this, heads
      ensures Valid() && old(Valid()) && free == old(free) && |headers| == |old(headers)| && i < |old(Held(h))|
      ensures forall g :: 0 <= g < BUCKETS ==> Held(g) == if g == h then MoveToFront<Entry>(old(Held(h)), i) else old(Held(g))
      ensures x < |headers| && headers[x].key == old(headers)[x].key && headers[x].wires == old(headers)[x].wires
    {
      hide AllOk, ListOk, FreeOk, ChainOf, Table, Distinct, BucketOk, MoveToFront, Linked;
      BucketIs(hash, heads[..], headers, lists, h);
      ghost var l, hs := lists[h], headers;
      assert l[i] in l && l[i - 1] in l;
      headers := headers[prev := headers[prev].(next := headers[x].next)];
      headers := headers[x := headers[x].(next := heads[h])];
      heads[h] := Some(x);
      lists := lists[h := MoveToFront<nat>(l, i)];
      Moved(hash, old(heads[..]), hs, old(lists), free, h, i);
      assert heads[..] == old(heads[..])[h := Some(x)];
    }

    /** The search loop: the header of the value, the one before it, and how many
        were looked at. */
    method Find(k: Key) returns (prev: Opt<nat>, cur: Opt<nat>, count: nat)
      requires Valid()
      ensures Distinct(Held(Bucket(hash, k))) && |lists| == BUCKETS && |lists[Bucket(hash, k)]| == |Held(Bucket(hash, k))|
      ensures cur.None? ==> forall i :: 0 <= i < |Held(Bucket(hash, k))| ==> Held(Bucket(hash, k))[i].key != k
      ensures cur.Some? ==>
                var l, c := lists[Bucket(hash, k)], Held(Bucket(hash, k));
                && 0 < count <= |l| && cur.value == l[count - 1] && (count > 1 ==> prev == Some(l[count - 2]))
                && cur.value < |headers| && headers[cur.value].key == k && c[count - 1] == Entry(k, headers[cur.value].wires)
    {
      hide AllOk, ListOk, FreeOk, ChainOf, Table, Distinct, BucketOk, Linked;
      var h := Bucket(hash, k);
      BucketIs(hash, heads[..], headers, lists, h);
      ghost var l, c := lists[h], Held(h);
      prev, cur, count := None, heads[h], 0;
      while cur.Some?
        invariant 0 <= count <= |l| && cur == At(l, count) && (count > 0 ==> prev == Some(l[count - 1]))
        invariant forall i :: 0 <= i < count ==> c[i].key != k
        decreases |l| - count
      {
        var x := cur.value;
        assert x == l[count] && x in l;
        count := count + 1;
        if headers[x].key == k {
          return;
        }
        prev, cur := cur, headers[x].next;
      }
    }

    /** lookup: finds the header; one that is found behind the second place is
        moved to the head of its bucket. */
    method Lookup(k: Key) returns (r: Opt<nat>)
      requires Valid()
      modifies this, heads
      ensures Valid() && forall o: Key :: Get(o) == old(Get(o))
      ensures forall h :: 0 <= h < BUCKETS && h != Bucket(hash, k) ==> Held(h) == old(Held(h))
      ensures Fronted(old(Held(Bucket(hash, k))), Held(Bucket(hash, k)), k)
      ensures Get(k).Some? <==> r.Some?
      ensures r.Some? ==> r.value < |headers| && headers[r.value].key == k && Get(k) == Some(headers[r.value].wires)
    {
      hide AllOk, ListOk, FreeOk, ChainOf, Table, Distinct, BucketOk, MoveToFront, Linked, Fronted, Valid, Held;
      var prev, cur, count := Find(k);
      ghost var h, c := Bucket(hash, k), Held(Bucket(hash, k));
      if cur.None? {
        TableHas(c, k);
        NotFound(c, k);
        return None;
      }
      TableAt(c, count - 1);
      FoundAt(c, count - 1, k);
      if count > 2 {
        Raise(Bucket(hash, k), prev.value, cur.value, count - 1);
        FrontKeeps(c, count - 1);
      }
      return cur;
    }

    /** Allocated */
    method Allocated(k: Key) returns (found: bool)
      requires Valid()
      modifies this, heads
      ensures Valid() && found == Get(k).Some? && forall o: Key :: Get(o) == old(Get(o))
    {
      var x := Lookup(k);
      found := x.Some?;
    }

    /** A new header, or when asked one that is used again, at the head of its
        bucket. */
    method Insert(k: Key, wires: seq<nat>, reuse: bool)
      requires Valid() && Get(k) == None
      modifies this, heads
      ensures Valid() && forall o: Key :: Get(o) == if o == k then Some(wires) else old(Get(o))
      ensures Held(Bucket(hash, k)) == [Entry(k, wires)] + old(Held(Bucket(hash, k)))
      ensures forall h :: 0 <= h < BUCKETS && h != Bucket(hash, k) ==> Held(h) == old(Held(h))
      ensures if reuse && |old(free)| > 0 then free == old(free)[..|old(free)| - 1] && |headers| == |old(headers)|
              else free == old(free) && |headers| == |old(headers)| + 1
    {
      hide AllOk, FreeOk, ChainOf, Table, Apart, ListOk;
      var h := Bucket(hash, k);
      BucketIs(hash, heads[..], headers, lists, h);
      ghost var hs := headers;
      var x;
      if !reuse || |free| == 0 {
        x := |headers|;
        headers := headers + [Header(k, wires, None)];
        FreshApart(hash, heads[..], hs, lists, free);
      } else {
        x := free[|free| - 1];
        FreeLast(free, |headers|, lists);
        free := free[..|free| - 1];
        headers := headers[x := Header(k, wires, None)];
      }
      headers := headers[x := headers[x].(next := heads[h])];
      heads[h] := Some(x);
      lists := lists[h := [x] + lists[h]];
      Inserted(hash, old(heads[..]), hs, old(lists), free, h, x, headers, Entry(k, wires));
      assert heads[..] == old(heads[..])[h := Some(x)];
    }

    /** Wires: the wires of the value, allocated on first use. */
    method Wires(k: Key, unused: seq<nat>) returns (wires: seq<nat>)
      requires Valid()
      modifies this, heads
      ensures Valid() && wires == if old(Get(k)).Some? then old(Get(k)).value else unused
      ensures forall o: Key :: Get(o) == if o == k then Some(wires) else old(Get(o))
    {
      var x := Lookup(k);
      if x.Some? {
        return headers[x.value].wires;
      }
      Insert(k, unused, true);
      return unused;
    }

    /** SetWires; the source panics when the value has wires already. */
    method SetWires(k: Key, wires: seq<nat>) returns (ok: bool)
      requires Valid()
      modifies this, heads
      ensures Valid() && (ok <==> old(Get(k)) == None)
      ensures forall o: Key :: Get(o) == if ok && o == k then Some(wires) else old(Get(o))
    {
      var x := Lookup(k);
      if x.Some? {
        return false;
      }
      Insert(k, wires, false);
      return true;
    }

    /** remove: unlinks the header of the value. */
    method Remove(k: Key) returns (r: Opt<nat>)
      requires Valid()
      modifies this, heads
      ensures Valid() && forall o: Key :: Get(o) == if o == k then None else old(Get(o))
      ensures r.Some? <==> old(Get(k)).Some?
      ensures free == old(free) && |headers| == |old(headers)|
      ensures r.Some? ==> r.value < |headers| && r.value !in free && Apart(lists, r.value)
      ensures r.Some? ==> headers[r.value].key == k && old(Get(k)) == Some(headers[r.value].wires)
    {
      hide AllOk, ListOk, FreeOk, ChainOf, Table, Distinct, BucketOk, Unlink, Linked, Apart;
      var h := Bucket(hash, k);
      BucketIs(hash, heads[..], headers, lists, h);
      ghost var l, hs, c := lists[h], headers, Held(h);
      var prev: Opt<nat>, cur := None, heads[h];
      ghost var i := 0;
      while cur.Some?
        invariant 0 <= i <= |l| && cur == At(l, i) && prev == if i > 0 then Some(l[i - 1]) else None
        invariant forall j :: 0 <= j < i ==> c[j].key != k
        decreases |l| - i
      {
        var x := cur.value;
        assert x == l[i] && x in l;
        if headers[x].key == k {
          TableAt(c, i);
          if prev.None? {
            heads[h] := headers[x].next;
          } else {
            assert prev.value == l[i - 1] && l[i - 1] in l;
            headers := headers[prev.value := headers[prev.value].(next := headers[x].next)];
          }
          lists := lists[h := Unlink<nat>(l, i)];
          Removed(hash, old(heads[..]), hs, old(lists), free, h, i);
          CutValue(hs, l, i, x);
          assert heads[..] == old(heads[..])[h := if i == 0 then hs[x].next else At(l, 0)];
          return Some(x);
        }
        prev, cur, i := cur, headers[x].next, i + 1;
      }
      TableHas(c, k);
      return None;
    }

    /** GCWires, as far as the table goes: the header is kept for later use.  The
        source panics when the value has no wires. */
    method GCWires(k: Key) returns (wires: Opt<seq<nat>>)
      requires Valid()
      modifies this, heads
      ensures Valid() && wires == old(Get(k)) && forall o: Key :: Get(o) == if o == k then None else old(Get(o))
      ensures |free| == |old(free)| + (if wires.Some? then 1 else 0) && old(free) <= free && |headers| == |old(headers)|
    {
      hide AllOk, FreeOk, ChainOf, Table, ListOk, Apart;
      var x := Remove(k);
      if x.None? {
        return None;
      }
      wires := Some(headers[x.value].wires);
      ghost var hs, f := headers, free;
      headers := headers[x.value := headers[x.value].(wires := [], next := None)];
      free := free + [x.value];
      Released(hash, heads[..], hs, lists, f, x.value, headers);
    }
  }

  lemma FreshApart(hash: Hash, heads: seq<Opt<nat>>, hs: seq<Header>, lists: seq<seq<nat>>, free: seq<nat>)
    requires AllOk(hash, heads, hs, lists) && FreeOk(free, |hs|, lists)
    ensures Apart(lists, |hs|) && |hs| !in free
  {
    hide ListOk;
    forall h | 0 <= h < |lists| ensures |hs| !in lists[h] {
      BucketIs(hash, heads, hs, lists, h);
    }
  }

  lemma FreeLast(free: seq<nat>, n: nat, lists: seq<seq<nat>>)
    requires FreeOk(free, n, lists) && |free| > 0
    ensures var x := free[|free| - 1]; x < n && Apart(lists, x) && x !in free[..|free| - 1] && FreeOk(free[..|free| - 1], n, lists)
  {
    hide Apart;
  }

  lemma Inserted(hash: Hash, heads: seq<Opt<nat>>, hs: seq<Header>, lists: seq<seq<nat>>, free: seq<nat>, h: nat, x: nat, more: seq<Header>, e: Entry)
    requires AllOk(hash, heads, hs, lists) && FreeOk(free, |hs|, lists) && h < BUCKETS && Bucket(hash, e.key) == h
    requires Apart(lists, x) && x !in free && |hs| <= |more| && x < |more| && more[x] == Header(e.key, e.wires, heads[h])
    requires forall y :: 0 <= y < |hs| && y != x ==> more[y] == hs[y]
    requires Within(lists[h], |hs|) && e.key !in Table(ChainOf(hs, lists[h]))
    ensures AllOk(hash, heads[h := Some(x)], more, lists[h := [x] + lists[h]]) && FreeOk(free, |more|, lists[h := [x] + lists[h]])
    ensures forall g :: 0 <= g < BUCKETS ==>
              Within(lists[g], |hs|) && Within(lists[h := [x] + lists[h]][g], |more|) &&
              Table(ChainOf(more, lists[h := [x] + lists[h]][g])) ==
                if g == h then Table(ChainOf(hs, lists[g]))[e.key := e.wires] else Table(ChainOf(hs, lists[g]))
    ensures Within(lists[h], |hs|) && ChainOf(more, [x] + lists[h]) == [e] + ChainOf(hs, lists[h])
    ensures forall g :: 0 <= g < BUCKETS && g != h ==> Within(lists[g], |hs|) && ChainOf(more, lists[g]) == ChainOf(hs, lists[g])
  {
    hide AllOk, FreeOk, Table, Apart, Distinct;
    BucketIs(hash, heads, hs, lists, h);
    var l, m := lists[h], [x] + lists[h];
    assert x !in l by { ApartFrom(lists, x, h); }
    assert ChainOf(more, m) == [e] + ChainOf(hs, l);
    PrependTable(ChainOf(hs, l), e);
    PrependLinked(heads[h], hs, l, x, more);
    OneChanged(hash, heads, hs, lists, h, Some(x), more, m);
    FreeKept(free, |hs|, lists, h, m, |more|);
    forall g | 0 <= g < BUCKETS ensures Within(lists[g], |hs|) && Within(lists[h := m][g], |more|) {
      BucketIs(hash, heads, hs, lists, g);
    }
  }

  lemma ApartFrom(lists: seq<seq<nat>>, x: nat, h: nat)
    requires Apart(lists, x) && h < |lists|
    ensures x !in lists[h]
  {
  }

  lemma PrependLinked(head: Opt<nat>, hs: seq<Header>, l: seq<nat>, x: nat, more: seq<Header>)
    requires Linked(head, hs, l) && x !in l && |hs| <= |more| && x < |more| && more[x].next == head
    requires forall y :: 0 <= y < |hs| && y != x ==> more[y] == hs[y]
    ensures Linked(Some(x), more, [x] + l)
  {
    var m := [x] + l;
    forall i | 0 <= i < |m| ensures m[i] < |more| && more[m[i]].next == At(m, i + 1) {
      if i > 0 {
        assert m[i] == l[i - 1] && l[i - 1] in l;
        assert At(m, i + 1) == At(l, i);
      }
    }
  }

  lemma Removed(hash: Hash, heads: seq<Opt<nat>>, hs: seq<Header>, lists: seq<seq<nat>>, free: seq<nat>, h: nat, i: nat)
    requires AllOk(hash, heads, hs, lists) && FreeOk(free, |hs|, lists) && h < BUCKETS && i < |lists[h]|
    ensures var l := lists[h];
            && l[i] < |hs| && (i > 0 ==> l[i - 1] < |hs|) && l[i] !in free && Apart(lists[h := Unlink<nat>(l, i)], l[i])
            && AllOk(hash, heads[h := if i == 0 then hs[l[i]].next else heads[h]], Cut(hs, l, i), lists[h := Unlink<nat>(l, i)])
            && FreeOk(free, |Cut(hs, l, i)|, lists[h := Unlink<nat>(l, i)])
            && forall g :: 0 <= g < BUCKETS ==> Lost(hs, lists[g], Cut(hs, l, i), lists[h := Unlink<nat>(l, i)][g], if g == h then {hs[l[i]].key} else {})
  {
    hide AllOk, FreeOk, ChainOf, Table, BucketOk, Unlink, Linked, Apart, Cut, Distinct;
    BucketIs(hash, heads, hs, lists, h);
    var l := lists[h];
    assert ListOk(hash, h, heads[h], hs, l);
    CutLinked(hash, h, heads[h], hs, l, i);
    CutElsewhere(hs, l, i);
    var more, m, first := Cut(hs, l, i), Unlink<nat>(l, i), if i == 0 then hs[l[i]].next else heads[h];
    OneChanged(hash, heads, hs, lists, h, first, more, m);
    FreeKept(free, |hs|, lists, h, m, |more|);
    NotFree(hash, heads, hs, lists, free, h, i);
    UnlinkTable(ChainOf(hs, l), i);
    forall g | 0 <= g < BUCKETS ensures Lost(hs, lists[g], more, lists[h := m][g], if g == h then {hs[l[i]].key} else {}) {
      BucketIs(hash, heads[h := first], more, lists[h := m], g);
      BucketIs(hash, heads, hs, lists, g);
      if g == h {
        assert ChainOf(hs, l)[i].key == hs[l[i]].key;
      } else {
        assert Table(ChainOf(hs, lists[g])) - {} == Table(ChainOf(hs, lists[g]));
      }
    }
  }

  /** What a bucket holds now is what it held without these values. */
  predicate Lost(hs: seq<Header>, l: seq<nat>, more: seq<Header>, m: seq<nat>, keys: set<Key>) {
    && Within(l, |hs|) && Within(m, |more|)
    && Table(ChainOf(more, m)) == Table(ChainOf(hs, l)) - keys
  }

  lemma CutElsewhere(hs: seq<Header>, l: seq<nat>, i: nat)
    requires i < |l| && l[i] < |hs| && (i > 0 ==> l[i - 1] < |hs|)
    ensures |Cut(hs, l, i)| == |hs| && forall x :: 0 <= x < |hs| && Cut(hs, l, i)[x] != hs[x] ==> x in l
    ensures forall x :: x in Unlink<nat>(l, i) ==> x in l
  {
  }

  /** A header that is in a bucket is not free, and apart once it was unlinked. */
  lemma NotFree(hash: Hash, heads: seq<Opt<nat>>, hs: seq<Header>, lists: seq<seq<nat>>, free: seq<nat>, h: nat, i: nat)
    requires AllOk(hash, heads, hs, lists) && FreeOk(free, |hs|, lists) && h < BUCKETS && i < |lists[h]|
    requires lists[h][i] !in Unlink<nat>(lists[h], i)
    ensures lists[h][i] !in free && Apart(lists[h := Unlink<nat>(lists[h], i)], lists[h][i])
  {
    hide ListOk, Unlink;
    var x := lists[h][i];
    assert x in lists[h];
    assert forall j :: 0 <= j < |free| ==> Apart(lists, free[j]);
    forall g | 0 <= g < BUCKETS && g != h ensures x !in lists[g] {
      if x in lists[g] {
        var j :| 0 <= j < |lists[g]| && lists[g][j] == x;
        OnePlace(hash, h, g, heads[h], heads[g], hs, lists[h], lists[g], i, j);
      }
    }
  }

  lemma Released(hash: Hash, heads: seq<Opt<nat>>, hs: seq<Header>, lists: seq<seq<nat>>, free: seq<nat>, x: nat, more: seq<Header>)
    requires AllOk(hash, heads, hs, lists) && FreeOk(free, |hs|, lists) && x < |hs| && Apart(lists, x) && x !in free
    requires |more| == |hs| && forall y :: 0 <= y < |hs| && y != x ==> more[y] == hs[y]
    ensures AllOk(hash, heads, more, lists) && FreeOk(free + [x], |hs|, lists)
    ensures forall g :: 0 <= g < BUCKETS ==> Within(lists[g], |hs|) && ChainOf(more, lists[g]) == ChainOf(hs, lists[g])
  {
    hide ListOk, ChainOf, BucketOk, Linked;
    forall g | 0 <= g < BUCKETS
      ensures ListOk(hash, g, heads[g], more, lists[g]) && Within(lists[g], |hs|) && ChainOf(more, lists[g]) == ChainOf(hs, lists[g])
    {
      BucketIs(hash, heads, hs, lists, g);
      ListKept(hash, g, heads[g], hs, more, lists[g]);
    }
  }

  /** A bucket after a search for `k`: when `k` stands behind the second place its
      entry is now first and those before it have moved up by one place; else the
      bucket is as it was. */
  ghost predicate Fronted(before: Chain, after: Chain, k: Key) {
    && (forall i :: 0 <= i < |before| && before[i].key == k ==> after == if i >= 2 then [before[i]] + before[..i] + before[i + 1..] else before)
    && ((forall i :: 0 <= i < |before| ==> before[i].key != k) ==> after == before)
  }

  lemma FoundAt(c: Chain, i: nat, k: Key)
    requires Distinct(c) && i < |c| && c[i].key == k
    ensures Fronted(c, if i >= 2 then MoveToFront<Entry>(c, i) else c, k)
  {
  }

  lemma NotFound(c: Chain, k: Key)
    requires forall i :: 0 <= i < |c| ==> c[i].key != k
    ensures Fronted(c, c, k)
  {
  }

  lemma BucketIs(hash: Hash, heads: seq<Opt<nat>>, hs: seq<Header>, lists: seq<seq<nat>>, h: nat)
    requires AllOk(hash, heads, hs, lists) && h < BUCKETS
    ensures |heads| == BUCKETS == |lists|
    ensures Linked(heads[h], hs, lists[h]) && Within(lists[h], |hs|) && BucketOk(hash, h, ChainOf(hs, lists[h]))
    ensures Distinct(ChainOf(hs, lists[h])) && heads[h] == At(lists[h], 0)
    ensures forall i :: 0 <= i < |lists[h]| ==> hs[lists[h][i]].next == At(lists[h], i + 1) && ChainOf(hs, lists[h])[i] == Entry(hs[lists[h][i]].key, hs[lists[h][i]].wires)
  {
    assert ListOk(hash, h, heads[h], hs, lists[h]);
  }

  lemma Moved(hash: Hash, heads: seq<Opt<nat>>, hs: seq<Header>, lists: seq<seq<nat>>, free: seq<nat>, h: nat, i: nat)
    requires AllOk(hash, heads, hs, lists) && FreeOk(free, |hs|, lists) && h < BUCKETS && 0 < i < |lists[h]|
    ensures var l := lists[h];
            && l[i] < |hs| && l[i - 1] < |hs|
            && AllOk(hash, heads[h := Some(l[i])], Relinked(hs, l, i), lists[h := MoveToFront<nat>(l, i)])
            && FreeOk(free, |hs|, lists[h := MoveToFront<nat>(l, i)])
            && (forall g :: 0 <= g < BUCKETS ==> SameHeld(hs, lists[g], Relinked(hs, l, i), lists[h := MoveToFront<nat>(l, i)][g]))
            && ChainOf(Relinked(hs, l, i), MoveToFront<nat>(l, i)) == MoveToFront<Entry>(ChainOf(hs, l), i)
            && forall g :: 0 <= g < BUCKETS && g != h ==> ChainOf(Relinked(hs, l, i), lists[g]) == ChainOf(hs, lists[g])
  {
    hide AllOk, FreeOk, ChainOf, Table, BucketOk, MoveToFront, Linked, Relinked;
    BucketIs(hash, heads, hs, lists, h);
    var l := lists[h];
    assert ListOk(hash, h, heads[h], hs, l);
    FrontLinked(hash, h, heads[h], hs, l, i);
    FrontMembers(l, i);
    var more, m := Relinked(hs, l, i), MoveToFront<nat>(l, i);
    RelinkedElsewhere(hs, l, i);
    OneChanged(hash, heads, hs, lists, h, Some(l[i]), more, m);
    FreeKept(free, |hs|, lists, h, m, |hs|);
    FrontKeeps(ChainOf(hs, l), i);
    forall g | 0 <= g < BUCKETS ensures SameHeld(hs, lists[g], more, lists[h := m][g]) {
      BucketIs(hash, heads[h := Some(l[i])], more, lists[h := m], g);
    }
  }

  lemma RelinkedElsewhere(hs: seq<Header>, l: seq<nat>, i: nat)
    requires 0 < i < |l| && l[i] < |hs| && l[i - 1] < |hs|
    ensures |Relinked(hs, l, i)| == |hs| && forall x :: 0 <= x < |hs| && Relinked(hs, l, i)[x] != hs[x] ==> x in l
  {
  }

  /** Two states of a bucket that hold the same. */
  predicate SameHeld(hs: seq<Header>, l: seq<nat>, more: seq<Header>, m: seq<nat>) {
    && Within(l, |hs|) && Within(m, |more|)
    && Table(ChainOf(more, m)) == Table(ChainOf(hs, l)) && multiset(ChainOf(more, m)) == multiset(ChainOf(hs, l))
  }

  lemma FrontMembers(l: seq<nat>, i: nat)
    requires i < |l|
    ensures forall x :: x in MoveToFront<nat>(l, i) <==> x in l
  {
  }

  predicate BucketOk(hash: Hash, h: nat, c: Chain) {
    Distinct(c) && forall i :: 0 <= i < |c| ==> Bucket(hash, c[i].key) == h
  }

  lemma FrontBucket(hash: Hash, h: nat, c: Chain, i: nat)
    requires BucketOk(hash, h, c) && i < |c|
    ensures BucketOk(hash, h, MoveToFront<Entry>(c, i))
  {
    FrontDistinct(c, i);
    forall x | 0 <= x < |c| ensures Bucket(hash, MoveToFront<Entry>(c, i)[x].key) == h {
      FrontAt<Entry>(c, i, x);
    }
  }

  lemma UnlinkBucket(hash: Hash, h: nat, c: Chain, i: nat)
    requires BucketOk(hash, h, c) && i < |c|
    ensures BucketOk(hash, h, Unlink<Entry>(c, i))
  {
    UnlinkTable(c, i);
    forall x | 0 <= x < |Unlink<Entry>(c, i)| ensures Bucket(hash, Unlink<Entry>(c, i)[x].key) == h {
      assert Unlink<Entry>(c, i)[x] in c;
    }
  }
}
