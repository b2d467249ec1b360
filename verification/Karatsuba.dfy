/** The Karatsuba multiplier (compiler/circuits/circ_multiplier.go). */
module Karatsuba {
  import opened Nat
  import opened Circuit
  import opened Graph
  import opened Compiler
  import opened Adder
  import opened Subtractor
  import opened Multiplier

  // ----- The arithmetic -----

  /** The three half-size products recombined, all modulo m. */
  lemma Recombine(k: Parts, p: int, q: int, m: int, a: int, b: int)
    requires m > 0 && q == p * p && a == k.a0 + p * k.a1 && b == k.b0 + p * k.b1
    requires k.c0 == k.a0 * k.b0 && k.c2 == k.a1 * k.b1 && k.c1 == (k.a0 + k.a1) * (k.b0 + k.b1)
    requires Cong(k.z0, k.c0, m) && Cong(k.z2, k.c2, m)
    requires Cong(k.sub1, k.c1 - k.c2, m) && Cong(k.sub2, k.sub1 - k.z0, m)
    requires Cong(k.sh1, q * k.z2, m) && Cong(k.sh2, p * k.sub2, m)
    requires Cong(k.r, k.sh1 + k.sh2 + k.z0, m)
    ensures Cong(k.r, a * b, m)
  {
    var mid := k.c1 - k.c2;
    CongSub(k.sub1, mid, k.z0, k.c0, m);
    CongScale(p, k.sub1 - k.z0, mid - k.c0, m);
    CongScale(p, k.sub2, k.sub1 - k.z0, m);
    CongScale(q, k.z2, k.c2, m);
    CongAdd(k.sh1, q * k.c2, k.sh2, p * (mid - k.c0), m);
    CongAdd(k.sh1 + k.sh2, q * k.c2 + p * (mid - k.c0), k.z0, k.c0, m);
    KaratsubaIdentity(k.a0, k.a1, k.b0, k.b1, p, q, k.c0, k.c1, k.c2, a, b);
  }

  lemma KaratsubaIdentity(a0: int, a1: int, b0: int, b1: int, p: int, q: int, c0: int, c1: int, c2: int, a: int, b: int)
    requires q == p * p && a == a0 + p * a1 && b == b0 + p * b1
    requires c0 == a0 * b0 && c2 == a1 * b1 && c1 == (a0 + a1) * (b0 + b1)
    ensures q * c2 + p * (c1 - c2 - c0) + c0 == a * b
  {
    assert c1 - c2 - c0 == a0 * b1 + a1 * b0;
    assert p * (c1 - c2 - c0) == p * (a0 * b1) + p * (a1 * b0);
    assert a * b == a0 * b0 + p * (a0 * b1) + p * (a1 * b0) + (p * p) * (a1 * b1) by {
      assert a * b == a0 * b + (p * a1) * b;
      assert a0 * b == a0 * b0 + p * (a0 * b1);
      assert (p * a1) * b == p * (a1 * b0) + (p * p) * (a1 * b1);
    }
  }

  /** A product kept on min(w, n) wires is right modulo 2^n. */
  lemma TruncatedCong(v: int, t: nat, w: nat, n: nat)
    requires t < Pow2(w) && v == t % Pow2(Min(w, n))
    ensures Cong(v, t, Pow2(n)) && (w <= n ==> v == t)
  {
    hide Pow2;
    if w <= n {
      ModSmall(t, Pow2(w));
    } else {
      CongMod(t, Pow2(n));
    }
  }

  /** The first subtraction never loses its borrow, even when the operands were
      cut to n bits: either the result has all n bits or nothing was cut. */
  lemma DifferenceCong(s: int, v1: int, v2: int, t1: nat, t2: nat, w1: nat, w2: nat, n: nat)
    requires t1 < Pow2(w1) && v1 == t1 % Pow2(Min(w1, n))
    requires t2 < Pow2(w2) && v2 == t2 % Pow2(Min(w2, n))
    requires t2 <= t1
    requires s == (v1 - v2) % Pow2(Min(n, Max(Min(w1, n), Min(w2, n)) + 1))
    ensures Cong(s, t1 - t2, Pow2(n))
  {
    hide Pow2;
    TruncatedCong(v1, t1, w1, n);
    TruncatedCong(v2, t2, w2, n);
    var l := Max(Min(w1, n), Min(w2, n)) + 1;
    if n <= l {
      CongSub(v1, t1, v2, t2, Pow2(n));
      CongMod(v1 - v2, Pow2(n));
    } else {
      Pow2Mono(w1, l);
      ModSmall(t1 - t2, Pow2(l));
    }
  }

  lemma ProductFits(x: nat, y: nat, h: nat)
    requires x < Pow2(h) && y < Pow2(h)
    ensures x * y < Pow2(2 * h)
  {
    hide Pow2;
    Pow2Add(h, h);
    SquareBound(x, y, Pow2(h));
  }

  lemma SquareBound(x: nat, y: nat, p: nat)
    requires x < p && y < p
    ensures x * y < p * p
  {
    MulMonoLe(x, y, p);
    MulMono(p, x, p);
  }

  /** The numbers of one recombination step: the halves, the true half-size
      products c0, c1, c2, and what the wires of each stage hold. */
  datatype Parts = Parts(a0: nat, a1: nat, b0: nat, b1: nat, c0: nat, c1: nat, c2: nat,
                         z0: nat, z1: nat, z2: nat, sub1: nat, sub2: nat, sh1: nat, sh2: nat, add1: nat, r: nat)

  predicate Multiplied(k: Parts, mid: nat, hi: nat, n: nat) {
    && k.c0 == k.a0 * k.b0 && k.c0 < Pow2(2 * mid) && k.z0 == k.c0 % Pow2(Min(2 * mid, n))
    && k.c2 == k.a1 * k.b1 && k.c2 < Pow2(2 * hi) && k.z2 == k.c2 % Pow2(Min(2 * hi, n))
    && k.c1 == (k.a0 + k.a1) * (k.b0 + k.b1) && k.c1 < Pow2(2 * (hi + 1)) && k.z1 == k.c1 % Pow2(Min(2 * (hi + 1), n))
  }

  predicate Combined(k: Parts, mid: nat, hi: nat, n: nat) {
    && k.sub1 == (k.z1 - k.z2) % Pow2(Min(n, Max(Min(2 * (hi + 1), n), Min(2 * hi, n)) + 1))
    && k.sub2 == (k.sub1 - k.z0) % Pow2(n)
    && k.sh1 == (Pow2(mid + mid) * k.z2) % Pow2(n)
    && k.sh2 == (Pow2(mid) * k.sub2) % Pow2(n)
    && k.add1 == (k.sh1 + k.sh2) % Pow2(n)
    && k.r == (k.add1 + k.z0) % Pow2(n)
  }

  lemma MiddleTerm(k: Parts, mid: nat, hi: nat, n: nat)
    requires Multiplied(k, mid, hi, n) && Combined(k, mid, hi, n)
    ensures Cong(k.z0, k.c0, Pow2(n)) && Cong(k.z2, k.c2, Pow2(n))
    ensures Cong(k.sub1, k.c1 - k.c2, Pow2(n)) && Cong(k.sub2, k.sub1 - k.z0, Pow2(n))
    ensures k.c0 == k.a0 * k.b0 && k.c2 == k.a1 * k.b1 && k.c1 == (k.a0 + k.a1) * (k.b0 + k.b1)
  {
    hide Pow2, Cong;
    TruncatedCong(k.z0, k.c0, 2 * mid, n);
    TruncatedCong(k.z2, k.c2, 2 * hi, n);
    LargerProduct(k.a0, k.a1, k.b0, k.b1);
    DifferenceCong(k.sub1, k.z1, k.z2, k.c1, k.c2, 2 * (hi + 1), 2 * hi, n);
    CongMod(k.sub1 - k.z0, Pow2(n));
  }

  lemma OuterTerms(k: Parts, mid: nat, hi: nat, n: nat)
    requires Combined(k, mid, hi, n)
    ensures Cong(k.sh1, Pow2(mid + mid) * k.z2, Pow2(n)) && Cong(k.sh2, Pow2(mid) * k.sub2, Pow2(n))
    ensures Cong(k.r, k.sh1 + k.sh2 + k.z0, Pow2(n))
  {
    hide Pow2, Cong;
    CongMod(Pow2(mid + mid) * k.z2, Pow2(n));
    CongMod(Pow2(mid) * k.sub2, Pow2(n));
    LastSums(k.sh1, k.sh2, k.add1, k.z0, k.r, Pow2(n));
  }

  lemma KaratsubaNumbers(k: Parts, mid: nat, hi: nat, n: nat, a: nat, b: nat)
    requires Multiplied(k, mid, hi, n) && Combined(k, mid, hi, n)
    requires a == k.a0 + Pow2(mid) * k.a1 && b == k.b0 + Pow2(mid) * k.b1
    ensures Cong(k.r, a * b, Pow2(n))
  {
    hide Pow2, Cong, Combined, Multiplied;
    MiddleTerm(k, mid, hi, n);
    OuterTerms(k, mid, hi, n);
    Pow2Add(mid, mid);
    Recombine(k, Pow2(mid), Pow2(mid + mid), Pow2(n), a, b);
  }

  /** The recombined wires hold the product of the whole operands. */
  lemma KaratsubaValue(asg: Asg, a: seq<nat>, b: seq<nat>, mid: nat, n: nat, k: Parts, r: seq<nat>)
    requires mid <= |a| == |b| && |r| == n
    requires Multiplied(k, mid, |a| - mid, n) && Combined(k, mid, |a| - mid, n)
    requires k.a0 == Num(asg, a[..mid]) && k.a1 == Num(asg, a[mid..])
    requires k.b0 == Num(asg, b[..mid]) && k.b1 == Num(asg, b[mid..]) && k.r == Num(asg, r)
    ensures Num(asg, r) == (Num(asg, a) * Num(asg, b)) % Pow2(n)
  {
    hide Num, Pow2, Multiplied, Combined;
    assert a == a[..mid] + a[mid..] && b == b[..mid] + b[mid..];
    NumConcat(asg, a[..mid], a[mid..]);
    NumConcat(asg, b[..mid], b[mid..]);
    KaratsubaNumbers(k, mid, |a| - mid, n, Num(asg, a), Num(asg, b));
    NumBound(asg, r);
    ModSmall(Num(asg, r), Pow2(n));
  }

  lemma LargerProduct(a0: nat, a1: nat, b0: nat, b1: nat)
    ensures a1 * b1 <= (a0 + a1) * (b0 + b1)
  {
    MulMonoLe(a1, b1, b0 + b1);
    MulMonoLe(b0 + b1, a1, a0 + a1);
  }

  lemma LastSums(u: int, v: int, w: int, z: int, r: int, m: int)
    requires m > 0 && w == (u + v) % m && r == (w + z) % m
    ensures Cong(r, u + v + z, m)
  {
    CongMod(u + v, m);
    CongAdd(w, u + v, z, z, m);
    CongMod(w + z, m);
  }

  // ----- The circuit -----

  /** The array multiplier below the threshold, three half-size products above
      it.  The wires of r are all driven exactly when the operands are above
      the threshold or r is at most twice as wide as they are, and then hold
      the product modulo 2^len(r). */
  method NewKaratsubaMultiplier(cc: Compiler, limit: nat, x0: seq<nat>, y0: seq<nat>, r: array<nat>)
    requires limit >= 3
    requires cc.G().Built() && cc.G().AllDriven(x0) && cc.G().AllDriven(y0) && cc.G().Free(r[..])
    requires r.Length > 0 && Max(|x0|, |y0|) > 0
    modifies cc, r
    decreases Min(Max(|x0|, |y0|), r.Length), 3
    ensures cc.G().Built() && Grows(old(cc.G()), cc.G(), SetOf(old(r[..])))
    ensures cc.G().AllDriven(r[..]) <==> KaratsubaFits(limit, Max(|x0|, |y0|), r.Length)
    ensures forall i :: 0 <= i < r.Length && i != 1 ==> r[i] == old(r[i])
    ensures KaratsubaFits(limit, Max(|x0|, |y0|), r.Length) ==> forall asg :: Sat(cc.table, asg) ==>
              Num(asg, r[..]) == (Num(asg, x0) * Num(asg, y0)) % Pow2(r.Length)
  {
    hide State.Built, Sat, Num, Pow2, State.Driven, State.Open, Grows;
    ghost var s0, outs := cc.G(), SetOf(r[..]);
    var xp, yp := cc.ZeroPad(x0, y0);
    ghost var sp := cc.G();
    GrowsWiden(s0, sp, outs);
    KeepsFree(s0, sp, {}, r[..]);
    var a, b := xp, yp;
    if |a| > r.Length {
      a, b := a[..r.Length], b[..r.Length];
    }
    if |a| <= limit {
      NewArrayMultiplier(cc, a, b, r);
    } else {
      SplitProduct(cc, limit, a, b, r);
    }
    GrowsTrans(s0, sp, cc.G(), outs, outs);
    KeepsDriven(sp, cc.G(), outs, []);
    if KaratsubaFits(limit, |xp|, r.Length) {
      forall asg | Sat(cc.table, asg)
        ensures Num(asg, r[..]) == (Num(asg, x0) * Num(asg, y0)) % Pow2(r.Length)
      {
        SatPrefix(sp.table, cc.table, asg);
        CutProduct(asg, xp, yp, a, b, r.Length);
      }
    }
  }

  predicate KaratsubaFits(limit: nat, n: nat, width: nat) {
    Min(n, width) > limit || width <= 2 * n
  }

  /** Operands as wide as the threshold still go to the array, one bit more not. */
  lemma AtThreshold(limit: nat)
    ensures !KaratsubaFits(limit, limit, 2 * limit + 1) && KaratsubaFits(limit, limit + 1, 2 * limit + 3)
  {
  }

  /** A product on fresh wires, cut to n bits. */
  method SubProduct(cc: Compiler, limit: nat, x: seq<nat>, y: seq<nat>, n: nat) returns (z: seq<nat>)
    requires limit >= 3 && cc.G().Built() && cc.G().AllDriven(x) && cc.G().AllDriven(y)
    requires 0 < |x| == |y| < n
    modifies cc
    decreases |x|, 4
    ensures cc.G().Built() && Grows(old(cc.G()), cc.G(), {}) && cc.G().AllDriven(z) && |z| == Min(2 * |x|, n)
    ensures forall asg :: Sat(cc.table, asg) ==> Num(asg, z) == Times(Num(asg, x), Num(asg, y)) % Pow2(|z|)
  {
    hide State.Built, Sat, Num, Pow2, State.Driven, State.Open, Grows;
    ghost var s0 := cc.G();
    var ws := NewWires(cc, Min(2 * |x|, n));
    ghost var s1, w := cc.G(), ws[..];
    KeepsDriven(s0, s1, {}, x);
    KeepsDriven(s0, s1, {}, y);
    NewKaratsubaMultiplier(cc, limit, x, y, ws);
    GrowsFresh(s0, s1, cc.G(), w);
    z := ws[..];
  }

  /** The three wire products of a split, with the numbers they carry. */
  predicate SplitWires(asg: Asg, a: seq<nat>, b: seq<nat>, mid: nat, n: nat, z0: seq<nat>, z1: seq<nat>, z2: seq<nat>)
    requires mid <= |a| == |b|
  {
    var h := |a| - mid + 1;
    var a0, a1, b0, b1 := Num(asg, a[..mid]), Num(asg, a[mid..]), Num(asg, b[..mid]), Num(asg, b[mid..]);
    && |z0| == Min(2 * mid, n) && |z1| == Min(2 * h, n) && |z2| == Min(2 * (|a| - mid), n)
    && Num(asg, z0) == Times(a0, b0) % Pow2(|z0|)
    && Num(asg, z1) == Times(a0 + a1, b0 + b1) % Pow2(|z1|)
    && Num(asg, z2) == Times(a1, b1) % Pow2(|z2|)
  }

  method HalfProducts(cc: Compiler, limit: nat, a: seq<nat>, b: seq<nat>, n: nat) returns (z0: seq<nat>, z1: seq<nat>, z2: seq<nat>)
    requires 3 <= limit < |a| == |b| <= n
    requires cc.G().Built() && cc.G().AllDriven(a) && cc.G().AllDriven(b)
    modifies cc
    decreases |a|, 0
    ensures cc.G().Built() && Grows(old(cc.G()), cc.G(), {})
    ensures cc.G().AllDriven(z0) && cc.G().AllDriven(z1) && cc.G().AllDriven(z2)
    ensures |z0| == Min(2 * (|a| / 2), n) && |z1| == Min(2 * (|a| - |a| / 2 + 1), n) && |z2| == Min(2 * (|a| - |a| / 2), n)
    ensures forall asg :: Sat(cc.table, asg) ==> SplitWires(asg, a, b, |a| / 2, n, z0, z1, z2)
  {
    hide State.Built, Sat, Num, Pow2, State.Driven, State.Open, Grows, SplitWires;
    var mid := |a| / 2;
    var h := |a| - mid + 1;
    var aLow, aHigh, bLow, bHigh := a[..mid], a[mid..], b[..mid], b[mid..];
    ghost var s0 := cc.G();
    assert s0.AllDriven(aLow) && s0.AllDriven(aHigh) && s0.AllDriven(bLow) && s0.AllDriven(bHigh);
    z0 := SubProduct(cc, limit, aLow, bLow, n);
    ghost var s1 := cc.G();
    KeepAll(s0, s1, aLow, aHigh, bLow, bHigh);
    var aSum := FreshSum(cc, aLow, aHigh, h);
    ghost var s2 := cc.G();
    KeepAll(s1, s2, aLow, aHigh, bLow, bHigh, z0);
    var bSum := FreshSum(cc, bLow, bHigh, h);
    ghost var s3 := cc.G();
    KeepAll(s2, s3, aLow, aHigh, bLow, bHigh, z0, aSum);
    z1 := SubProduct(cc, limit, aSum, bSum, n);
    ghost var s4 := cc.G();
    KeepAll(s3, s4, aHigh, bHigh, z0);
    z2 := SubProduct(cc, limit, aHigh, bHigh, n);
    ghost var s5 := cc.G();
    KeepAll(s4, s5, z0, z1);
    GrowsTrans(s0, s1, s2, {}, {});
    GrowsTrans(s0, s2, s3, {}, {});
    GrowsTrans(s0, s3, s4, {}, {});
    GrowsTrans(s0, s4, s5, {}, {});
    forall asg | Sat(cc.table, asg)
      ensures SplitWires(asg, a, b, mid, n, z0, z1, z2)
    {
      SatPrefix(s4.table, s5.table, asg);
      SatPrefix(s3.table, s4.table, asg);
      SatPrefix(s2.table, s3.table, asg);
      SatPrefix(s1.table, s2.table, asg);
      SumFits(asg, aLow, aHigh, h, aSum);
      SumFits(asg, bLow, bHigh, h, bSum);
      MakeSplit(asg, a, b, mid, n, aSum, bSum, z0, z1, z2);
    }
  }

  lemma SumFits(asg: Asg, x: seq<nat>, y: seq<nat>, h: nat, sum: seq<nat>)
    requires |x| < h && |y| < h && Num(asg, sum) == (Num(asg, x) + Num(asg, y)) % Pow2(h)
    ensures Num(asg, sum) == Num(asg, x) + Num(asg, y)
  {
    hide Num;
    NumBound(asg, x);
    NumBound(asg, y);
    Pow2Mono(|x|, h - 1);
    Pow2Mono(|y|, h - 1);
    ModSmall(Num(asg, x) + Num(asg, y), Pow2(h));
  }

  lemma MakeSplit(asg: Asg, a: seq<nat>, b: seq<nat>, mid: nat, n: nat, aSum: seq<nat>, bSum: seq<nat>, z0: seq<nat>, z1: seq<nat>, z2: seq<nat>)
    requires mid <= |a| == |b|
    requires Num(asg, aSum) == Num(asg, a[..mid]) + Num(asg, a[mid..])
    requires Num(asg, bSum) == Num(asg, b[..mid]) + Num(asg, b[mid..])
    requires |z0| == Min(2 * mid, n) && |z1| == Min(2 * (|a| - mid + 1), n) && |z2| == Min(2 * (|a| - mid), n)
    requires Num(asg, z0) == Times(Num(asg, a[..mid]), Num(asg, b[..mid])) % Pow2(|z0|)
    requires Num(asg, z1) == Times(Num(asg, aSum), Num(asg, bSum)) % Pow2(|z1|)
    requires Num(asg, z2) == Times(Num(asg, a[mid..]), Num(asg, b[mid..])) % Pow2(|z2|)
    ensures SplitWires(asg, a, b, mid, n, z0, z1, z2)
  {
    hide Num, Pow2, Times;
    SameMod(Times(Num(asg, aSum), Num(asg, bSum)),
            Times(Num(asg, a[..mid]) + Num(asg, a[mid..]), Num(asg, b[..mid]) + Num(asg, b[mid..])), Pow2(|z1|), Pow2(|z1|));
  }

  /** The split multiplication: three products, two differences, two shifts and
      two sums. */
  method SplitProduct(cc: Compiler, limit: nat, a: seq<nat>, b: seq<nat>, r: array<nat>)
    requires 3 <= limit < |a| == |b| <= r.Length
    requires cc.G().Built() && cc.G().AllDriven(a) && cc.G().AllDriven(b) && cc.G().Free(r[..])
    modifies cc, r
    decreases |a|, 1
    ensures cc.G().Built() && Grows(old(cc.G()), cc.G(), SetOf(old(r[..]))) && cc.G().AllDriven(r[..])
    ensures r[..] == old(r[..])
    ensures forall asg :: Sat(cc.table, asg) ==> Num(asg, r[..]) == (Num(asg, a) * Num(asg, b)) % Pow2(r.Length)
  {
    hide State.Built, Sat, Num, Pow2, State.Driven, State.Open, Grows, SplitWires;
    ghost var s0 := cc.G();
    var n, mid := r.Length, |a| / 2;
    var z0, z1, z2 := HalfProducts(cc, limit, a, b, n);
    ghost var s1 := cc.G();
    KeepsFree(s0, s1, {}, r[..]);
    Combine(cc, a, b, mid, z0, z1, z2, r);
    GrowsWiden(s0, s1, SetOf(r[..]));
    GrowsTrans(s0, s1, cc.G(), SetOf(r[..]), SetOf(r[..]));
  }

  method Combine(cc: Compiler, ghost a: seq<nat>, ghost b: seq<nat>, mid: nat, z0: seq<nat>, z1: seq<nat>, z2: seq<nat>, r: array<nat>)
    requires 2 <= mid && 2 * mid <= |a| == |b| <= r.Length
    requires cc.G().Built() && cc.G().AllDriven(z0) && cc.G().AllDriven(z1) && cc.G().AllDriven(z2) && cc.G().Free(r[..])
    requires |z0| == Min(2 * mid, r.Length) && |z1| == Min(2 * (|a| - mid + 1), r.Length) && |z2| == Min(2 * (|a| - mid), r.Length)
    requires forall asg :: Sat(cc.table, asg) ==> SplitWires(asg, a, b, mid, r.Length, z0, z1, z2)
    modifies cc, r
    ensures cc.G().Built() && Grows(old(cc.G()), cc.G(), SetOf(old(r[..]))) && cc.G().AllDriven(r[..])
    ensures r[..] == old(r[..])
    ensures forall asg :: Sat(cc.table, asg) ==> Num(asg, r[..]) == (Num(asg, a) * Num(asg, b)) % Pow2(r.Length)
  {
    hide State.Built, Sat, Num, Pow2, State.Driven, State.Open, Grows, SplitWires;
    ghost var s0 := cc.G();
    var n := r.Length;
    var sub1 := FreshDifference(cc, z1, z2, n);
    ghost var s1 := cc.G();
    KeepAll(s0, s1, z0, z2);
    var sub2 := FreshDifference(cc, sub1, z0, n);
    ghost var s2 := cc.G();
    KeepAll(s1, s2, z0, z2);
    var shift1 := cc.ShiftLeft(z2, n, mid * 2);
    ghost var s3 := cc.G();
    KeepAll(s2, s3, z0, sub2);
    var shift2 := cc.ShiftLeft(sub2, n, mid);
    ghost var s4 := cc.G();
    KeepAll(s3, s4, z0, shift1);
    var add1 := FreshSum(cc, shift1, shift2, n);
    ghost var s5 := cc.G();
    KeepAll(s4, s5, z0);
    GrowsTrans(s0, s1, s2, {}, {});
    GrowsTrans(s0, s2, s3, {}, {});
    GrowsTrans(s0, s3, s4, {}, {});
    GrowsTrans(s0, s4, s5, {}, {});
    KeepsFree(s0, s5, {}, r[..]);
    NewAdder(cc, add1, z0, r);
    KeepsDriven(s5, cc.G(), SetOf(old(r[..])), []);
    GrowsWiden(s0, s5, SetOf(old(r[..])));
    GrowsTrans(s0, s5, cc.G(), SetOf(old(r[..])), SetOf(old(r[..])));
    forall asg | Sat(cc.table, asg)
      ensures Num(asg, r[..]) == (Num(asg, a) * Num(asg, b)) % Pow2(n)
    {
      SatPrefix(s5.table, cc.table, asg);
      SatPrefix(s4.table, s5.table, asg);
      SatPrefix(s3.table, s4.table, asg);
      SatPrefix(s2.table, s3.table, asg);
      SatPrefix(s1.table, s2.table, asg);
      SatPrefix(s0.table, s1.table, asg);
      CombinedValue(asg, a, b, mid, n, z0, z1, z2, sub1, sub2, shift1, shift2, add1, r[..]);
    }
  }

  lemma CombinedValue(asg: Asg, a: seq<nat>, b: seq<nat>, mid: nat, n: nat, z0: seq<nat>, z1: seq<nat>, z2: seq<nat>,
                      sub1: seq<nat>, sub2: seq<nat>, sh1: seq<nat>, sh2: seq<nat>, add1: seq<nat>, r: seq<nat>)
    requires 2 * mid <= |a| == |b| && |r| == n == |sub1| && SplitWires(asg, a, b, mid, n, z0, z1, z2)
    requires Num(asg, sub1) == (Num(asg, z1) - Num(asg, z2)) % Pow2(Min(n, Max(|z1|, |z2|) + 1))
    requires Num(asg, sub2) == (Num(asg, sub1) - Num(asg, z0)) % Pow2(Min(n, Max(|sub1|, |z0|) + 1))
    requires Num(asg, sh1) == (Pow2(mid * 2) * Num(asg, z2)) % Pow2(n)
    requires Num(asg, sh2) == (Pow2(mid) * Num(asg, sub2)) % Pow2(n)
    requires Num(asg, add1) == (Num(asg, sh1) + Num(asg, sh2)) % Pow2(n)
    requires Num(asg, r) == (Num(asg, add1) + Num(asg, z0)) % Pow2(n)
    ensures Num(asg, r) == (Num(asg, a) * Num(asg, b)) % Pow2(n)
  {
    hide Num, Pow2;
    var a0, a1, b0, b1 := Num(asg, a[..mid]), Num(asg, a[mid..]), Num(asg, b[..mid]), Num(asg, b[mid..]);
    var k := Parts(a0, a1, b0, b1, a0 * b0, (a0 + a1) * (b0 + b1), a1 * b1, Num(asg, z0), Num(asg, z1), Num(asg, z2),
                   Num(asg, sub1), Num(asg, sub2), Num(asg, sh1), Num(asg, sh2), Num(asg, add1), Num(asg, r));
    HalvesFit(asg, a, b, mid);
    assert mid * 2 == mid + mid;
    KaratsubaValue(asg, a, b, mid, n, k, r);
  }

  lemma HalvesFit(asg: Asg, a: seq<nat>, b: seq<nat>, mid: nat)
    requires mid <= |a| == |b|
    ensures Num(asg, a[..mid]) * Num(asg, b[..mid]) < Pow2(2 * mid)
    ensures Num(asg, a[mid..]) * Num(asg, b[mid..]) < Pow2(2 * (|a| - mid))
    ensures 2 * mid <= |a| ==> (Num(asg, a[..mid]) + Num(asg, a[mid..])) * (Num(asg, b[..mid]) + Num(asg, b[mid..])) < Pow2(2 * (|a| - mid + 1))
  {
    hide Num;
    var h := |a| - mid;
    NumBound(asg, a[..mid]);
    NumBound(asg, a[mid..]);
    NumBound(asg, b[..mid]);
    NumBound(asg, b[mid..]);
    ProductFits(Num(asg, a[..mid]), Num(asg, b[..mid]), mid);
    ProductFits(Num(asg, a[mid..]), Num(asg, b[mid..]), h);
    if 2 * mid <= |a| {
      Pow2Mono(mid, h);
      ProductFits(Num(asg, a[..mid]) + Num(asg, a[mid..]), Num(asg, b[..mid]) + Num(asg, b[mid..]), h + 1);
    }
  }
}
