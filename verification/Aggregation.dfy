/**
 Aggregation of a column (LLVMColumnMapAggregationBuilder, deltamain/colstore/LLVMColumnMapAggregation.cpp) on integer
 fields: a loop over groups of elements in a vector register, a reduction of the register to one value, and a loop over
 the rest.  The null flag of the result is aggregated the same way.
 */
module Aggregation {

  /** The aggregations, and what happens to the null flag of the result. */
  datatype Op = Min | Max | Sum | Cnt | NullFlag

  /** Signed 64-bit arithmetic wraps around. */
  function Wrap(x: int): int {
    (x + 0x8000_0000_0000_0000) % 0x1_0000_0000_0000_0000 - 0x8000_0000_0000_0000
  }

  predicate Fits(x: int) {
    -0x8000_0000_0000_0000 <= x < 0x8000_0000_0000_0000
  }

  /** One element: a value, and whether it is selected and not null. */
  datatype Element = Element(value: int, chosen: bool)

  /** buildAggregation, and the null flag, a byte of 0 or 1. */
  function Step(op: Op, dest: int, e: Element): int {
    match op
    case Min => if e.chosen && e.value < dest then e.value else dest
    case Max => if e.chosen && e.value > dest then e.value else dest
    case Sum => if e.chosen then Wrap(dest + e.value) else dest
    case Cnt => Wrap(dest + if e.chosen then 1 else 0)
    case NullFlag => if e.chosen then 0 else dest
  }

  /** How the reduction combines two lanes. */
  function Combine(op: Op, a: int, b: int): int {
    match op
    case Min => if a < b then a else b
    case Max => if a > b then a else b
    case Sum => Wrap(a + b)
    case Cnt => Wrap(a + b)
    case NullFlag => if a == 1 && b == 1 then 1 else 0
  }

  predicate Valid(op: Op, x: int) {
    if op.NullFlag? then x == 0 || x == 1 else Fits(x)
  }

  /** The plain meaning: one element after the other. */
  function Fold(op: Op, start: int, xs: seq<Element>): int {
    if xs == [] then start else Step(op, Fold(op, start, xs[..|xs| - 1]), xs[|xs| - 1])
  }

  // ------------------------------------------------------------------ laws

  lemma WrapWrap(a: int, b: int)
    ensures Wrap(Wrap(a) + b) == Wrap(a + b) && Wrap(a + Wrap(b)) == Wrap(a + b) && Fits(Wrap(a))
    ensures Fits(a) ==> Wrap(a) == a
  {
  }

  lemma CombineLaws(op: Op, a: int, b: int, c: int)
    requires Valid(op, a) && Valid(op, b) && Valid(op, c)
    ensures Combine(op, a, b) == Combine(op, b, a) && Valid(op, Combine(op, a, b))
    ensures Combine(op, Combine(op, a, b), c) == Combine(op, a, Combine(op, b, c))
  {
    WrapWrap(a + b, c);
    WrapWrap(a, b + c);
  }

  lemma StepCombineWrapped(a: int, b: int, x: int)
    requires Fits(a)
    ensures Wrap(Wrap(a + x) + b) == Wrap(Wrap(a + b) + x) && Wrap(b + Wrap(a + x)) == Wrap(Wrap(b + a) + x)
  {
    WrapWrap(a + x, b);
    WrapWrap(a + b, x);
  }

  /** Aggregating an element into one part of a combination aggregates it into the whole. */
  lemma StepCombine(op: Op, a: int, b: int, e: Element)
    requires Valid(op, a) && Valid(op, b) && Fits(e.value)
    ensures Combine(op, Step(op, a, e), b) == Step(op, Combine(op, a, b), e) && Valid(op, Step(op, a, e))
    ensures Combine(op, b, Step(op, a, e)) == Step(op, Combine(op, b, a), e)
  {
    match op
    case Sum => StepCombineWrapped(a, b, e.value);
    case Cnt => StepCombineWrapped(a, b, if e.chosen then 1 else 0);
    case _ =>
  }

  predicate AllValid(op: Op, v: seq<int>) {
    forall i | 0 <= i < |v| :: Valid(op, v[i])
  }

  predicate AllFit(xs: seq<Element>) {
    forall i | 0 <= i < |xs| :: Fits(xs[i].value)
  }

  /** All lanes combined. */
  function Total(op: Op, v: seq<int>): int
    requires v != []
  {
    if |v| == 1 then v[0] else Combine(op, Total(op, v[..|v| - 1]), v[|v| - 1])
  }

  lemma {:induction false} TotalValid(op: Op, v: seq<int>)
    requires v != [] && AllValid(op, v)
    ensures Valid(op, Total(op, v))
  {
    if |v| > 1 {
      TotalValid(op, v[..|v| - 1]);
      CombineLaws(op, Total(op, v[..|v| - 1]), v[|v| - 1], v[0]);
    }
  }

  /** A step of one lane is a step of the whole vector. */
  lemma {:induction false} StepLane(op: Op, v: seq<int>, l: nat, e: Element)
    requires AllValid(op, v) && l < |v| && Fits(e.value)
    ensures Total(op, v[l := Step(op, v[l], e)]) == Step(op, Total(op, v), e)
    ensures AllValid(op, v[l := Step(op, v[l], e)])
  {
    var w, n := v[l := Step(op, v[l], e)], |v| - 1;
    StepCombine(op, v[l], v[l], e);
    if |v| > 1 {
      TotalValid(op, v[..n]);
      if l == n {
        assert w[..n] == v[..n];
        StepCombine(op, v[n], Total(op, v[..n]), e);
      } else {
        assert w[..n] == v[..n][l := Step(op, v[l], e)];
        StepLane(op, v[..n], l, e);
        StepCombine(op, Total(op, v[..n]), v[n], e);
      }
    }
  }

  lemma {:induction false} TotalConcat(op: Op, a: seq<int>, b: seq<int>)
    requires a != [] && b != [] && AllValid(op, a + b)
    ensures Total(op, a + b) == Combine(op, Total(op, a), Total(op, b))
  {
    var n := |b| - 1;
    assert AllValid(op, a) by { assert forall i | 0 <= i < |a| :: a[i] == (a + b)[i]; }
    assert AllValid(op, b) by { assert forall i | 0 <= i < |b| :: b[i] == (a + b)[|a| + i]; }
    if |b| == 1 {
      assert (a + b)[..|a|] == a;
    } else {
      assert (a + b)[..|a| + n] == a + b[..n];
      TotalConcat(op, a, b[..n]);
      TotalValid(op, a);
      TotalValid(op, b[..n]);
      CombineLaws(op, Total(op, a), Total(op, b[..n]), b[n]);
    }
  }

  /** Combining two halves lane by lane keeps the total. */
  function Halves(op: Op, v: seq<int>, h: nat): seq<int>
    requires |v| >= 2 * h
  {
    seq(h, j requires 0 <= j < h => Combine(op, v[j], v[h + j]))
  }

  lemma {:induction false} PairsTotal(op: Op, a: seq<int>, b: seq<int>, c: seq<int>)
    requires |a| == |b| == |c| > 0 && AllValid(op, a) && AllValid(op, b)
    requires forall j | 0 <= j < |a| :: c[j] == Combine(op, a[j], b[j])
    ensures Total(op, c) == Combine(op, Total(op, a), Total(op, b))
  {
    var n := |a| - 1;
    if n > 0 {
      PairsTotal(op, a[..n], b[..n], c[..n]);
      TotalValid(op, a[..n]);
      TotalValid(op, b[..n]);
      Interchange(op, Total(op, a[..n]), Total(op, b[..n]), a[n], b[n]);
    }
  }

  lemma Interchange(op: Op, a: int, b: int, c: int, d: int)
    requires Valid(op, a) && Valid(op, b) && Valid(op, c) && Valid(op, d)
    ensures Combine(op, Combine(op, a, b), Combine(op, c, d)) == Combine(op, Combine(op, a, c), Combine(op, b, d))
  {
    CombineLaws(op, a, b, Combine(op, c, d));
    CombineLaws(op, c, d, a);
    CombineLaws(op, b, c, d);
    CombineLaws(op, c, b, d);
    CombineLaws(op, b, d, a);
    CombineLaws(op, a, c, Combine(op, b, d));
  }

  lemma HalvesTotal(op: Op, v: seq<int>, h: nat)
    requires h > 0 && |v| == 2 * h && AllValid(op, v)
    ensures AllValid(op, Halves(op, v, h)) && Total(op, Halves(op, v, h)) == Total(op, v)
  {
    var a, b := v[..h], v[h..];
    assert v == a + b;
    TotalConcat(op, a, b);
    forall j | 0 <= j < h ensures Valid(op, Halves(op, v, h)[j]) {
      CombineLaws(op, v[j], v[h + j], v[j]);
    }
    PairsTotal(op, a, b, Halves(op, v, h));
  }

  predicate PowerOfTwo(n: nat) {
    n == 1 || (n > 1 && n % 2 == 0 && PowerOfTwo(n / 2))
  }

  // ------------------------------------------------------------------ the program

  /** The start vector: broadcast, or in the first lane and neutral elsewhere. */
  function StartVector(op: Op, broadcast: bool, dest: int, lanes: nat): seq<int> {
    seq(lanes, l => if l == 0 || broadcast then dest else if op.NullFlag? then 1 else 0)
  }

  /** MIN and MAX broadcast, their null flag too; SUM and CNT and their null flag use the first lane. */
  predicate BroadcastOK(op: Op, broadcast: bool) {
    if op.Min? || op.Max? then broadcast else op.NullFlag? || !broadcast
  }

  lemma {:induction false} StartTotal(op: Op, broadcast: bool, dest: int, lanes: nat)
    requires BroadcastOK(op, broadcast) && Valid(op, dest) && lanes > 0
    ensures var v := StartVector(op, broadcast, dest, lanes); AllValid(op, v) && Total(op, v) == dest
  {
    if lanes > 1 {
      StartTotal(op, broadcast, dest, lanes - 1);
      var v := StartVector(op, broadcast, dest, lanes);
      assert v[..lanes - 1] == StartVector(op, broadcast, dest, lanes - 1);
      WrapWrap(dest, 0);
    }
  }

  /** The vector loop: lane `l` of group `g` takes element `g * lanes + l`. */
  method VectorLoop(op: Op, start: seq<int>, xs: seq<Element>, ghost dest: int) returns (v: seq<int>, k: nat)
    requires start != [] && AllValid(op, start) && Total(op, start) == dest && AllFit(xs)
    ensures |v| == |start| && AllValid(op, v) && k <= |xs| < k + |start|
    ensures Total(op, v) == Fold(op, dest, xs[..k])
  {
    var lanes := |start|;
    v, k := start, 0;
    while k + lanes <= |xs|
      invariant k <= |xs| && |v| == lanes && AllValid(op, v) && Total(op, v) == Fold(op, dest, xs[..k])
    {
      for l := 0 to lanes
        invariant |v| == lanes && AllValid(op, v) && Total(op, v) == Fold(op, dest, xs[..k + l])
      {
        StepLane(op, v, l, xs[k + l]);
        assert xs[..k + l + 1][..k + l] == xs[..k + l];
        v := v[l := Step(op, v[l], xs[k + l])];
      }
      k := k + lanes;
    }
  }

  /** The reduction: the upper half of the live lanes is combined into the lower half until one is left.  The other lanes
      are undefined from then on. */
  method Reduce(op: Op, start: seq<int>) returns (r: int)
    requires PowerOfTwo(|start|) && AllValid(op, start)
    ensures r == Total(op, start)
  {
    var v := start;
    while |v| > 1
      invariant PowerOfTwo(|v|) && AllValid(op, v) && Total(op, v) == Total(op, start)
      decreases |v|
    {
      HalvesTotal(op, v, |v| / 2);
      v := Halves(op, v, |v| / 2);
    }
    r := v[0];
  }

  /** The whole aggregation of a range of elements into the value of the previous run. */
  method Aggregate(op: Op, broadcast: bool, lanes: nat, dest: int, xs: seq<Element>) returns (r: int)
    requires PowerOfTwo(lanes) && BroadcastOK(op, broadcast) && Valid(op, dest) && AllFit(xs)
    ensures r == Fold(op, dest, xs)
  {
    var k := 0;
    r := dest;
    if |xs| >= lanes {
      StartTotal(op, broadcast, dest, lanes);
      var v;
      v, k := VectorLoop(op, StartVector(op, broadcast, dest, lanes), xs, dest);
      r := Reduce(op, v);
    }
    for i := k to |xs|
      invariant r == Fold(op, dest, xs[..i])
    {
      assert xs[..i + 1][..i] == xs[..i];
      r := Step(op, r, xs[i]);
    }
    assert xs[..|xs|] == xs;
  }

  // ------------------------------------------------------------------ what the fold means

  predicate AnyChosen(xs: seq<Element>) {
    exists i | 0 <= i < |xs| :: xs[i].chosen
  }

  lemma {:induction false} FoldMin(start: int, xs: seq<Element>)
    ensures var r := Fold(Min, start, xs);
            && r <= start && (forall i | 0 <= i < |xs| && xs[i].chosen :: r <= xs[i].value)
            && (r == start || exists i | 0 <= i < |xs| :: xs[i].chosen && xs[i].value == r)
  {
    if xs != [] {
      var n := |xs| - 1;
      var t := xs[..n];
      FoldMin(start, t);
      var r := Fold(Min, start, t);
      if r != start {
        var i :| 0 <= i < |t| && t[i].chosen && t[i].value == r;
        assert xs[i] == t[i];
      }
      assert forall i | 0 <= i < n :: xs[i] == t[i];
    }
  }

  lemma {:induction false} FoldMax(start: int, xs: seq<Element>)
    ensures var r := Fold(Max, start, xs);
            && r >= start && (forall i | 0 <= i < |xs| && xs[i].chosen :: r >= xs[i].value)
            && (r == start || exists i | 0 <= i < |xs| :: xs[i].chosen && xs[i].value == r)
  {
    if xs != [] {
      var n := |xs| - 1;
      var t := xs[..n];
      FoldMax(start, t);
      var r := Fold(Max, start, t);
      if r != start {
        var i :| 0 <= i < |t| && t[i].chosen && t[i].value == r;
        assert xs[i] == t[i];
      }
      assert forall i | 0 <= i < n :: xs[i] == t[i];
    }
  }

  function SumOf(xs: seq<Element>): int {
    if xs == [] then 0 else SumOf(xs[1..]) + if xs[0].chosen then xs[0].value else 0
  }

  function CountOf(xs: seq<Element>): int {
    if xs == [] then 0 else CountOf(xs[1..]) + if xs[0].chosen then 1 else 0
  }

  lemma {:induction false} SumsFromTheEnd(xs: seq<Element>)
    requires xs != []
    ensures var n := |xs| - 1;
            && SumOf(xs) == SumOf(xs[..n]) + (if xs[n].chosen then xs[n].value else 0)
            && CountOf(xs) == CountOf(xs[..n]) + (if xs[n].chosen then 1 else 0)
  {
    if |xs| > 1 {
      var n := |xs| - 1;
      SumsFromTheEnd(xs[1..]);
      assert xs[1..][..n - 1] == xs[..n][1..];
    }
  }

  /** The sum of the chosen elements, wrapped around. */
  lemma {:induction false} FoldSum(start: int, xs: seq<Element>)
    requires Fits(start)
    ensures Fold(Sum, start, xs) == Wrap(start + SumOf(xs))
  {
    if xs == [] {
      WrapWrap(start, 0);
    } else {
      var n := |xs| - 1;
      FoldSum(start, xs[..n]);
      SumsFromTheEnd(xs);
      WrapWrap(start + SumOf(xs[..n]), xs[n].value);
    }
  }

  /** The number of chosen elements, wrapped around. */
  lemma {:induction false} FoldCount(start: int, xs: seq<Element>)
    requires Fits(start)
    ensures Fold(Cnt, start, xs) == Wrap(start + CountOf(xs))
  {
    if xs == [] {
      WrapWrap(start, 0);
    } else {
      var n := |xs| - 1;
      FoldCount(start, xs[..n]);
      SumsFromTheEnd(xs);
      WrapWrap(start + CountOf(xs[..n]), if xs[n].chosen then 1 else 0);
    }
  }

  /** The flag stays null exactly if it was and nothing is chosen. */
  lemma {:induction false} FoldNull(start: int, xs: seq<Element>)
    requires start == 0 || start == 1
    ensures Fold(NullFlag, start, xs) == if AnyChosen(xs) then 0 else start
  {
    if xs != [] {
      var n := |xs| - 1;
      var t := xs[..n];
      FoldNull(start, t);
      if AnyChosen(t) {
        var i :| 0 <= i < |t| && t[i].chosen;
        assert xs[i].chosen;
      }
      assert forall i | 0 <= i < n :: xs[i] == t[i];
    }
  }
}
