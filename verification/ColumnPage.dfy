/**
 Column pages (deltamain/colstore/ColumnMapPage.cpp, LLVMColumnMapMaterialize.cpp): row records and ranges of elements of
 older pages are gathered into a fill page, column by column, with their variable-sized data on a heap that grows down
 from the end of the page; an element is read back as a row record.

 A page's heap is the sequence of its last bytes, so that putting data in front keeps the distances from the end.  The
 update page holds new elements in column form until the flush; its heap entries refer to the fill page.
 */
module ColumnPage {

  /** The bytes of a page (2 MB). */
  const PAGE: int := 0x20_0000

  /** The number of one-byte null columns and fixed-size columns together, of variable-sized columns, and the offset of
      the heap in a row record. */
  datatype Shape = Shape(plain: nat, vars: nat, base: nat)

  /** A row record: the null bytes and fixed-size values, the offsets of the variable-sized values with the end of the last
      one, and the heap they point into. */
  datatype Rec = Rec(plain: seq<seq<int>>, offsets: seq<int>, heap: seq<int>)

  /** What an element of a page stands for; a deletion has the size 0 and no data. */
  datatype Stored = Data(rec: Rec, size: nat) | Deleted

  datatype Page = Page(sizes: seq<nat>, plain: seq<seq<seq<int>>>, variable: seq<seq<int>>, heap: seq<int>)

  /** One element across all columns. */
  datatype Elem = Elem(size: nat, plain: seq<seq<int>>, entries: seq<int>)

  predicate RecOK(sh: Shape, r: Rec) {
    && |r.plain| == sh.plain
    && if sh.vars == 0 then r.offsets == [] && r.heap == []
       else
         && |r.offsets| == sh.vars + 1 && r.offsets[0] == sh.base && r.offsets[sh.vars] == sh.base + |r.heap|
         && forall c, d | 0 <= c <= d <= sh.vars :: r.offsets[c] <= r.offsets[d]
  }

  predicate StoredOK(sh: Shape, s: Stored) {
    s.Data? ==> s.size > 0 && RecOK(sh, s.rec)
  }

  /** The bytes of a page from offset `a` to `b`. */
  function Slice(heap: seq<int>, a: int, b: int): seq<int>
    requires PAGE - |heap| <= a <= b <= PAGE
  {
    heap[a - (PAGE - |heap|)..b - (PAGE - |heap|)]
  }

  lemma SliceBehind(front: seq<int>, heap: seq<int>, a: int, b: int)
    requires PAGE - |heap| <= a <= b <= PAGE
    ensures Slice(front + heap, a, b) == Slice(heap, a, b)
  {
  }

  lemma SliceFront(front: seq<int>, heap: seq<int>, a: int, b: int)
    requires 0 <= a <= b <= |front|
    ensures var top := PAGE - |front + heap|; Slice(front + heap, top + a, top + b) == front[a..b]
  {
  }

  predicate PageShape(sh: Shape, p: Page) {
    && |p.plain| == sh.plain && |p.variable| == sh.vars
    && (forall c | 0 <= c < sh.plain :: |p.plain[c]| == |p.sizes|)
    && (forall c | 0 <= c < sh.vars :: |p.variable[c]| == |p.sizes|)
  }

  /** Element `i` with its heap offsets corrected. */
  function ElemAt(sh: Shape, p: Page, i: nat, correction: int): (e: Elem)
    requires PageShape(sh, p) && i < |p.sizes|
    ensures |e.entries| == sh.vars && |e.plain| == sh.plain
  {
    Elem(p.sizes[i], seq(sh.plain, c requires 0 <= c < sh.plain => p.plain[c][i]),
         seq(sh.vars, c requires 0 <= c < sh.vars => p.variable[c][i] + correction))
  }

  /** Where the data of an element ends: at the data of the element before it, for the first at the end of the page. */
  function End(sh: Shape, elems: seq<Elem>, i: nat): int
    requires i <= |elems| && sh.vars > 0 && forall k | 0 <= k < i :: |elems[k].entries| == sh.vars
  {
    if i == 0 then PAGE else elems[i - 1].entries[0]
  }

  predicate ElemsShape(sh: Shape, elems: seq<Elem>) {
    forall k | 0 <= k < |elems| :: |elems[k].entries| == sh.vars && |elems[k].plain| == sh.plain
  }

  function ElemsAt(sh: Shape, p: Page, from: nat, to: nat, correction: int): (r: seq<Elem>)
    requires PageShape(sh, p) && from <= to <= |p.sizes|
    ensures |r| == to - from && ElemsShape(sh, r)
  {
    var r := seq(to - from, k requires 0 <= k < to - from => ElemAt(sh, p, from + k, correction));
    assert forall k | 0 <= k < |r| :: r[k] == ElemAt(sh, p, from + k, correction);
    r
  }

  lemma ShapeConcat(sh: Shape, a: seq<Elem>, b: seq<Elem>)
    requires ElemsShape(sh, a) && ElemsShape(sh, b)
    ensures ElemsShape(sh, a + b)
  {
  }

  /** The element's data ends at `end` on the heap and is what the element stands for. */
  predicate ElemHolds(sh: Shape, e: Elem, heap: seq<int>, s: Stored, end: int)
    requires StoredOK(sh, s) && |e.entries| == sh.vars && |e.plain| == sh.plain
  {
    match s
    case Deleted => e.size == 0 && forall c | 0 <= c < sh.vars :: e.entries[c] == end
    case Data(r, size) =>
      && e.size == size && e.plain == r.plain
      && (sh.vars > 0 ==>
            var start := e.entries[0];
            && PAGE - |heap| <= start <= end <= PAGE && end == start + |r.heap| && Slice(heap, start, end) == r.heap
            && forall c | 0 <= c < sh.vars :: e.entries[c] == start + r.offsets[c] - sh.base)
  }

  ghost predicate Holds(sh: Shape, elems: seq<Elem>, heap: seq<int>, stored: seq<Stored>) {
    && |elems| == |stored| && ElemsShape(sh, elems) && (forall i | 0 <= i < |stored| :: StoredOK(sh, stored[i]))
    && (forall i: nat | i < |elems| :: Held(sh, elems, heap, stored, i))
    && (sh.vars > 0 ==> End(sh, elems, |elems|) == PAGE - |heap|)
  }

  predicate Held(sh: Shape, elems: seq<Elem>, heap: seq<int>, stored: seq<Stored>, i: nat)
    requires ElemsShape(sh, elems) && i < |elems| == |stored| && StoredOK(sh, stored[i])
  {
    ElemHolds(sh, elems[i], heap, stored[i], if sh.vars > 0 then End(sh, elems, i) else 0)
  }

  /** A finished page stands for the list of elements. */
  ghost predicate PageHolds(sh: Shape, p: Page, stored: seq<Stored>) {
    && PageShape(sh, p) && (forall i | 0 <= i < |stored| :: StoredOK(sh, stored[i]))
    && |p.sizes| == |stored|
    && forall i: nat | i < |p.sizes| :: PageElem(sh, p, stored, i)
  }

  predicate PageElem(sh: Shape, p: Page, stored: seq<Stored>, i: nat)
    requires PageShape(sh, p) && i < |p.sizes| == |stored| && StoredOK(sh, stored[i])
  {
    ElemHolds(sh, ElemAt(sh, p, i, 0), p.heap, stored[i], if sh.vars > 0 then PageEnd(sh, p, i) else 0)
  }

  function PageEnd(sh: Shape, p: Page, i: nat): int
    requires PageShape(sh, p) && i <= |p.sizes| && sh.vars > 0
  {
    if i == 0 then PAGE else p.variable[0][i - 1]
  }

  // ------------------------------------------------------------------ reading an element back

  /** The heap offset where column `c` of element `i` starts; column `vars` stands for the end of the last one. */
  function StartOf(sh: Shape, p: Page, i: nat, c: nat): int
    requires PageShape(sh, p) && i < |p.sizes| && sh.vars > 0 && c <= sh.vars
  {
    if c < sh.vars then p.variable[c][i] else PageEnd(sh, p, i)
  }

  lemma StartOfData(sh: Shape, p: Page, i: nat, stored: seq<Stored>, c: nat)
    requires PageHolds(sh, p, stored) && i < |stored| && stored[i].Data? && sh.vars > 0 && c <= sh.vars
    ensures StartOf(sh, p, i, c) == StartOf(sh, p, i, 0) + stored[i].rec.offsets[c] - sh.base
  {
    var e := ElemAt(sh, p, i, 0);
    assert PageElem(sh, p, stored, i);
    assert e.entries[0] == p.variable[0][i];
    if c < sh.vars {
      assert e.entries[c] == p.variable[c][i];
    }
  }

  lemma HeapOfData(sh: Shape, p: Page, i: nat, stored: seq<Stored>)
    requires PageHolds(sh, p, stored) && i < |stored| && stored[i].Data? && sh.vars > 0
    ensures var start, end := StartOf(sh, p, i, 0), PageEnd(sh, p, i);
            PAGE - |p.heap| <= start <= end <= PAGE && Slice(p.heap, start, end) == stored[i].rec.heap
            && end == start + |stored[i].rec.heap|
  {
    var e := ElemAt(sh, p, i, 0);
    assert PageElem(sh, p, stored, i);
    assert e.entries[0] == p.variable[0][i];
  }

  lemma MaterialOf(sh: Shape, p: Page, i: nat, stored: seq<Stored>)
    requires PageHolds(sh, p, stored) && i < |stored| && stored[i].Data?
    ensures ElemAt(sh, p, i, 0).plain == stored[i].rec.plain && RecOK(sh, stored[i].rec)
    ensures sh.vars > 0 ==> forall c: nat | c <= sh.vars ::
              StartOf(sh, p, i, c) == StartOf(sh, p, i, 0) + stored[i].rec.offsets[c] - sh.base
  {
    assert PageElem(sh, p, stored, i);
    if sh.vars > 0 {
      forall c: nat | c <= sh.vars
        ensures StartOf(sh, p, i, c) == StartOf(sh, p, i, 0) + stored[i].rec.offsets[c] - sh.base
      {
        StartOfData(sh, p, i, stored, c);
      }
    }
  }

  /** The materialize function: the columns' values, the offsets rebased to the row record, the heap in one copy. */
  method Materialize(sh: Shape, p: Page, i: nat, ghost stored: seq<Stored>) returns (r: Rec)
    requires PageHolds(sh, p, stored) && i < |stored| && stored[i].Data?
    ensures r == stored[i].rec
  {
    var plain := seq(sh.plain, c requires 0 <= c < sh.plain => p.plain[c][i]);
    MaterialOf(sh, p, i, stored);
    assert plain == ElemAt(sh, p, i, 0).plain;
    if sh.vars == 0 {
      return Rec(plain, [], []);
    }
    HeapOfData(sh, p, i, stored);
    var offsets := MaterializeOffsets(sh, p, i, stored[i].rec);
    var start := p.variable[0][i];
    r := Rec(plain, offsets, Slice(p.heap, start, start + (offsets[sh.vars] - sh.base)));
  }

  /** The loop over the variable-sized columns. */
  method MaterializeOffsets(sh: Shape, p: Page, i: nat, ghost rec: Rec) returns (offsets: seq<int>)
    requires PageShape(sh, p) && i < |p.sizes| && sh.vars > 0 && RecOK(sh, rec)
    requires forall c: nat | c <= sh.vars :: StartOf(sh, p, i, c) == StartOf(sh, p, i, 0) + rec.offsets[c] - sh.base
    ensures offsets == rec.offsets
  {
    var correction := p.variable[0][i] - sh.base;
    offsets := [sh.base];
    for c := 0 to sh.vars
      invariant offsets == rec.offsets[..c + 1]
    {
      var next := if c + 1 < sh.vars then p.variable[c + 1][i] else if i == 0 then PAGE else p.variable[0][i - 1];
      assert next == StartOf(sh, p, i, c + 1);
      offsets := offsets + [next - correction];
    }
  }

  // ------------------------------------------------------------------ adding elements

  /** The heap entries of a record whose heap was put in front of `heap`. */
  function EntriesFor(sh: Shape, r: Rec, heap: seq<int>): seq<int>
    requires RecOK(sh, r)
  {
    seq(sh.vars, c requires 0 <= c < sh.vars => PAGE - |heap| - |r.heap| + r.offsets[c] - sh.base)
  }

  lemma EndStays(sh: Shape, elems: seq<Elem>, more: seq<Elem>, i: nat)
    requires sh.vars > 0 && i <= |elems| && ElemsShape(sh, elems) && ElemsShape(sh, elems + more)
    ensures End(sh, elems + more, i) == End(sh, elems, i)
  {
  }

  /** Data put in front of the heap leaves the elements as they are. */
  lemma HeldStays(sh: Shape, elems: seq<Elem>, heap: seq<int>, stored: seq<Stored>, front: seq<int>, more: seq<Elem>,
                  others: seq<Stored>, i: nat)
    requires ElemsShape(sh, elems) && ElemsShape(sh, elems + more) && i < |elems| == |stored| && |more| == |others|
    requires StoredOK(sh, stored[i]) && Held(sh, elems, heap, stored, i)
    ensures Held(sh, elems + more, front + heap, stored + others, i)
  {
    if sh.vars > 0 {
      EndStays(sh, elems, more, i);
      if stored[i].Data? {
        SliceBehind(front, heap, elems[i].entries[0], End(sh, elems, i));
      }
    }
  }

  lemma HoldsData(sh: Shape, elems: seq<Elem>, heap: seq<int>, stored: seq<Stored>, r: Rec, size: nat)
    requires Holds(sh, elems, heap, stored) && RecOK(sh, r) && size > 0
    ensures Holds(sh, elems + [Elem(size, r.plain, EntriesFor(sh, r, heap))], r.heap + heap, stored + [Data(r, size)])
  {
    var e := Elem(size, r.plain, EntriesFor(sh, r, heap));
    var elems', heap', stored' := elems + [e], r.heap + heap, stored + [Data(r, size)];
    forall i: nat | i < |elems'| ensures Held(sh, elems', heap', stored', i) {
      if i < |elems| {
        HeldStays(sh, elems, heap, stored, r.heap, [e], [Data(r, size)], i);
      } else if sh.vars > 0 {
        EndStays(sh, elems, [e], i);
        SliceFront(r.heap, heap, 0, |r.heap|);
      }
    }
  }

  lemma HoldsDelete(sh: Shape, elems: seq<Elem>, heap: seq<int>, stored: seq<Stored>, e: Elem)
    requires Holds(sh, elems, heap, stored) && e.size == 0 && |e.plain| == sh.plain && |e.entries| == sh.vars
    requires forall c | 0 <= c < sh.vars :: e.entries[c] == PAGE - |heap|
    ensures Holds(sh, elems + [e], heap, stored + [Deleted])
  {
    var elems' := elems + [e];
    assert [] + heap == heap;
    forall i: nat | i < |elems'| ensures Held(sh, elems', heap, stored + [Deleted], i) {
      if i < |elems| {
        HeldStays(sh, elems, heap, stored, [], [e], [Deleted], i);
      } else if sh.vars > 0 {
        EndStays(sh, elems, [e], i);
      }
    }
  }

  lemma {:induction false} RangesNest(sh: Shape, p: Page, stored: seq<Stored>, i: nat, j: nat)
    requires PageHolds(sh, p, stored) && sh.vars > 0 && i <= j <= |stored|
    requires PAGE - |p.heap| <= PAGE
    ensures PageEnd(sh, p, j) <= PageEnd(sh, p, i) <= PAGE
    ensures PAGE - |p.heap| <= PageEnd(sh, p, j)
    decreases j
  {
    if i < j {
      RangesNest(sh, p, stored, i, j - 1);
      assert PageElem(sh, p, stored, j - 1);
      assert ElemAt(sh, p, j - 1, 0).entries[0] == PageEnd(sh, p, j);
    } else if i > 0 {
      RangesNest(sh, p, stored, i - 1, i - 1);
      assert PageElem(sh, p, stored, i - 1);
      assert ElemAt(sh, p, i - 1, 0).entries[0] == PageEnd(sh, p, i);
    }
  }

  /** The same element with another heap correction. */
  predicate Corrected(sh: Shape, e: Elem, f: Elem, correction: int) {
    && f.size == e.size && f.plain == e.plain && |e.entries| == |f.entries| == sh.vars
    && forall c | 0 <= c < sh.vars :: f.entries[c] == e.entries[c] + correction
  }

  lemma ElemAtCorrected(sh: Shape, p: Page, i: nat, correction: int)
    requires PageShape(sh, p) && i < |p.sizes|
    ensures var e := ElemAt(sh, p, i, 0);
            && Corrected(sh, e, ElemAt(sh, p, i, correction), correction)
            && (sh.vars > 0 ==> e.entries[0] == PageEnd(sh, p, i + 1))
  {
  }

  lemma ElemHoldsCorrected(sh: Shape, e: Elem, f: Elem, correction: int, was: seq<int>, heap: seq<int>, s: Stored,
                           start: int, end: int)
    requires StoredOK(sh, s) && Corrected(sh, e, f, correction) && |e.plain| == sh.plain && ElemHolds(sh, e, was, s, end)
    requires sh.vars > 0 && e.entries[0] == start
    requires PAGE - |was| <= start <= end <= PAGE && PAGE - |heap| <= start + correction <= end + correction <= PAGE
    requires Slice(heap, start + correction, end + correction) == Slice(was, start, end)
    ensures ElemHolds(sh, f, heap, s, end + correction)
  {
    match s
    case Deleted =>
    case Data(r, size) =>
      assert f.entries[0] == start + correction;
  }

  lemma PageElemHolds(sh: Shape, p: Page, stored: seq<Stored>, i: nat)
    requires PageHolds(sh, p, stored) && i < |stored| && sh.vars > 0
    ensures StoredOK(sh, stored[i]) && ElemHolds(sh, ElemAt(sh, p, i, 0), p.heap, stored[i], PageEnd(sh, p, i))
  {
    assert PageElem(sh, p, stored, i);
  }

  /** Moving an element's data by a constant. */
  lemma ElemMoved(sh: Shape, p: Page, s: Stored, i: nat, correction: int, heap: seq<int>)
    requires PageShape(sh, p) && i < |p.sizes| && sh.vars > 0
    requires StoredOK(sh, s) && ElemHolds(sh, ElemAt(sh, p, i, 0), p.heap, s, PageEnd(sh, p, i))
    requires var a, b := PageEnd(sh, p, i + 1), PageEnd(sh, p, i);
             && PAGE - |p.heap| <= a <= b <= PAGE && PAGE - |heap| <= a + correction <= b + correction <= PAGE
             && Slice(heap, a + correction, b + correction) == Slice(p.heap, a, b)
    ensures ElemHolds(sh, ElemAt(sh, p, i, correction), heap, s, PageEnd(sh, p, i) + correction)
  {
    var e, f := ElemAt(sh, p, i, 0), ElemAt(sh, p, i, correction);
    ElemAtCorrected(sh, p, i, correction);
    ElemHoldsCorrected(sh, e, f, correction, p.heap, heap, s, PageEnd(sh, p, i + 1), PageEnd(sh, p, i));
  }

  lemma RangeSlice(sh: Shape, p: Page, stored: seq<Stored>, from: nat, to: nat, i: nat, heap: seq<int>)
    requires PageHolds(sh, p, stored) && sh.vars > 0 && from <= i < to <= |stored|
    requires PAGE - |p.heap| <= PageEnd(sh, p, to) <= PageEnd(sh, p, from) <= PAGE
    ensures var begin, end := PageEnd(sh, p, to), PageEnd(sh, p, from);
            var front := Slice(p.heap, begin, end);
            var correction := PAGE - |front + heap| - begin;
            var a, b := PageEnd(sh, p, i + 1), PageEnd(sh, p, i);
            && PAGE - |p.heap| <= a <= b <= PAGE
            && PAGE - |front + heap| <= a + correction <= b + correction <= PAGE
            && Slice(front + heap, a + correction, b + correction) == Slice(p.heap, a, b)
  {
    var begin, end := PageEnd(sh, p, to), PageEnd(sh, p, from);
    var a, b := PageEnd(sh, p, i + 1), PageEnd(sh, p, i);
    RangesNest(sh, p, stored, i + 1, to);
    RangesNest(sh, p, stored, i, i + 1);
    RangesNest(sh, p, stored, from, i);
    var front := Slice(p.heap, begin, end);
    SliceFront(front, heap, a - begin, b - begin);
    SubSlice(p.heap, begin, end, a, b);
  }

  lemma SubSlice(heap: seq<int>, begin: int, end: int, a: int, b: int)
    requires PAGE - |heap| <= begin <= a <= b <= end <= PAGE
    ensures Slice(heap, begin, end)[a - begin..b - begin] == Slice(heap, a, b)
  {
    var x, y := begin - (PAGE - |heap|), end - (PAGE - |heap|);
    SliceOfSlice(heap, x, y, a - begin, b - begin);
  }

  lemma SliceOfSlice(s: seq<int>, x: nat, y: nat, u: nat, v: nat)
    requires x <= y <= |s| && u <= v <= y - x
    ensures s[x..y][u..v] == s[x + u..x + v]
  {
    assert forall i | 0 <= i < v - u :: s[x..y][u..v][i] == s[x + u..x + v][i];
  }

  /** An element of the range is found at its new place. */
  lemma RangeHeld(sh: Shape, elems: seq<Elem>, heap: seq<int>, stored: seq<Stored>, p: Page, was: seq<Stored>,
                  from: nat, to: nat, k: nat)
    requires Holds(sh, elems, heap, stored) && PageHolds(sh, p, was) && from <= k < to <= |was| && sh.vars > 0
    requires PAGE - |p.heap| <= PageEnd(sh, p, to) <= PageEnd(sh, p, from) <= PAGE
    ensures var begin, end := PageEnd(sh, p, to), PageEnd(sh, p, from);
            var heap' := Slice(p.heap, begin, end) + heap;
            var elems' := elems + ElemsAt(sh, p, from, to, PAGE - |heap'| - begin);
            && ElemsShape(sh, elems') && StoredOK(sh, was[k]) && elems'[|elems| + (k - from)] == ElemAt(sh, p, k, PAGE - |heap'| - begin)
            && ElemHolds(sh, elems'[|elems| + (k - from)], heap', was[k], End(sh, elems', |elems| + (k - from)))
  {
    hide Held, ElemHolds;
    var begin, end := PageEnd(sh, p, to), PageEnd(sh, p, from);
    var heap' := Slice(p.heap, begin, end) + heap;
    var correction := PAGE - |heap'| - begin;
    RangeSlice(sh, p, was, from, to, k, heap);
    PageElemHolds(sh, p, was, k);
    RangeElem(sh, elems, p, was[k], from, to, correction, heap', k);
  }

  /** The heap offset correction of addCleanAction keeps every element of the range. */
  lemma HoldsRange(sh: Shape, elems: seq<Elem>, heap: seq<int>, stored: seq<Stored>, p: Page, was: seq<Stored>,
                   from: nat, to: nat)
    requires Holds(sh, elems, heap, stored) && PageHolds(sh, p, was) && from < to <= |was| && sh.vars > 0
    requires PAGE - |p.heap| <= PageEnd(sh, p, to) <= PageEnd(sh, p, from) <= PAGE
    ensures var begin, end := PageEnd(sh, p, to), PageEnd(sh, p, from);
            var heap' := Slice(p.heap, begin, end) + heap;
            Holds(sh, elems + ElemsAt(sh, p, from, to, PAGE - |heap'| - begin), heap', stored + was[from..to])
  {
    hide ElemHolds, StoredOK;
    var begin, end := PageEnd(sh, p, to), PageEnd(sh, p, from);
    var front := Slice(p.heap, begin, end);
    var heap' := front + heap;
    var correction := PAGE - |heap'| - begin;
    var more := ElemsAt(sh, p, from, to, correction);
    var elems', stored' := elems + more, stored + was[from..to];
    var n := |elems|;
    ShapeConcat(sh, elems, more);
    forall i: nat | i < |elems'| ensures Held(sh, elems', heap', stored', i) {
      if i < n {
        HeldStays(sh, elems, heap, stored, front, more, was[from..to], i);
      } else {
        var k: nat := from + (i - n);
        RangeHeld(sh, elems, heap, stored, p, was, from, to, k);
        assert stored'[i] == was[k];
      }
    }
    EndMoved(sh, elems, p, from, to, correction, to);
  }

  lemma RangeElem(sh: Shape, elems: seq<Elem>, p: Page, s: Stored, from: nat, to: nat, correction: int,
                  heap: seq<int>, k: nat)
    requires ElemsShape(sh, elems) && PageShape(sh, p) && from <= k < to <= |p.sizes| && sh.vars > 0
    requires End(sh, elems, |elems|) == PageEnd(sh, p, from) + correction
    requires StoredOK(sh, s) && ElemHolds(sh, ElemAt(sh, p, k, 0), p.heap, s, PageEnd(sh, p, k))
    requires var a, b := PageEnd(sh, p, k + 1), PageEnd(sh, p, k);
             && PAGE - |p.heap| <= a <= b <= PAGE && PAGE - |heap| <= a + correction <= b + correction <= PAGE
             && Slice(heap, a + correction, b + correction) == Slice(p.heap, a, b)
    ensures var elems' := elems + ElemsAt(sh, p, from, to, correction);
            ElemsShape(sh, elems')
            && ElemHolds(sh, ElemAt(sh, p, k, correction), heap, s, End(sh, elems', |elems| + (k - from)))
  {
    ElemMoved(sh, p, s, k, correction, heap);
    EndMoved(sh, elems, p, from, to, correction, k);
  }

  lemma EndMoved(sh: Shape, elems: seq<Elem>, p: Page, from: nat, to: nat, correction: int, k: nat)
    requires ElemsShape(sh, elems) && PageShape(sh, p) && from <= k <= to <= |p.sizes| && sh.vars > 0
    requires End(sh, elems, |elems|) == PageEnd(sh, p, from) + correction
    ensures var elems' := elems + ElemsAt(sh, p, from, to, correction);
            ElemsShape(sh, elems') && End(sh, elems', |elems| + (k - from)) == PageEnd(sh, p, k) + correction
  {
    var more := ElemsAt(sh, p, from, to, correction);
    ShapeConcat(sh, elems, more);
    if k == from {
      EndStays(sh, elems, more, |elems|);
    } else {
      assert (elems + more)[|elems| + (k - from) - 1] == ElemAt(sh, p, k - 1, correction);
    }
  }

  /** Without variable-sized columns nothing is corrected. */
  lemma HoldsPlainRange(sh: Shape, elems: seq<Elem>, heap: seq<int>, stored: seq<Stored>, p: Page, was: seq<Stored>,
                        from: nat, to: nat)
    requires Holds(sh, elems, heap, stored) && PageHolds(sh, p, was) && from < to <= |was| && sh.vars == 0
    ensures Holds(sh, elems + ElemsAt(sh, p, from, to, 0), heap, stored + was[from..to])
  {
    var more := ElemsAt(sh, p, from, to, 0);
    var elems', stored' := elems + more, stored + was[from..to];
    ShapeConcat(sh, elems, more);
    forall i: nat | i < |elems'| ensures Held(sh, elems', heap, stored', i) {
      if i < |elems| {
        assert Held(sh, elems, heap, stored, i);
      } else {
        var k: nat := from + (i - |elems|);
        assert PageElem(sh, p, was, k);
        assert elems'[i] == ElemAt(sh, p, k, 0) && stored'[i] == was[k];
      }
    }
  }

  // ------------------------------------------------------------------ the modifier

  /** A range of columns to copy: from an older page, with the correction of its heap offsets, or from the update page. */
  datatype Action = FromMain(page: Page, from: nat, to: nat, correction: int) | FromUpdate(from: nat, to: nat)

  predicate ActionOK(sh: Shape, a: Action, update: Page) {
    && PageShape(sh, update)
    && match a
       case FromMain(page, from, to, _) => PageShape(sh, page) && from <= to <= |page.sizes|
       case FromUpdate(from, to) => from <= to <= |update.sizes|
  }

  predicate ActionsOK(sh: Shape, actions: seq<Action>, update: Page) {
    forall i | 0 <= i < |actions| :: ActionOK(sh, actions[i], update)
  }

  function ElemsOf(sh: Shape, a: Action, update: Page): (r: seq<Elem>)
    requires ActionOK(sh, a, update)
    ensures |r| == a.to - a.from && ElemsShape(sh, r)
  {
    match a
    case FromMain(page, from, to, correction) => ElemsAt(sh, page, from, to, correction)
    case FromUpdate(from, to) => ElemsAt(sh, update, from, to, 0)
  }

  function AllElems(sh: Shape, actions: seq<Action>, update: Page): (r: seq<Elem>)
    requires ActionsOK(sh, actions, update)
    ensures ElemsShape(sh, r)
  {
    if actions == [] then []
    else
      var before, last := AllElems(sh, actions[..|actions| - 1], update), ElemsOf(sh, actions[|actions| - 1], update);
      ShapeConcat(sh, before, last);
      before + last
  }

  /** The update page with one more element. */
  function Extended(sh: Shape, p: Page, e: Elem): Page
    requires PageShape(sh, p) && |e.plain| == sh.plain && |e.entries| == sh.vars
  {
    Page(p.sizes + [e.size], seq(sh.plain, c requires 0 <= c < sh.plain => p.plain[c] + [e.plain[c]]),
         seq(sh.vars, c requires 0 <= c < sh.vars => p.variable[c] + [e.entries[c]]), p.heap)
  }

  lemma ElemAtExtended(sh: Shape, p: Page, e: Elem, i: nat)
    requires PageShape(sh, p) && |e.plain| == sh.plain && |e.entries| == sh.vars && i <= |p.sizes|
    ensures PageShape(sh, Extended(sh, p, e))
    ensures ElemAt(sh, Extended(sh, p, e), i, 0) == if i < |p.sizes| then ElemAt(sh, p, i, 0) else e
  {
    var q := Extended(sh, p, e);
    if i == |p.sizes| {
      var f := ElemAt(sh, q, i, 0);
      assert f.plain == e.plain;
      assert forall c | 0 <= c < sh.vars :: f.entries[c] == e.entries[c];
      assert f.entries == e.entries;
    } else {
      assert ElemAt(sh, q, i, 0).plain == ElemAt(sh, p, i, 0).plain;
      assert ElemAt(sh, q, i, 0).entries == ElemAt(sh, p, i, 0).entries;
    }
  }

  lemma ElemsAtExtended(sh: Shape, p: Page, e: Elem, from: nat, to: nat)
    requires PageShape(sh, p) && |e.plain| == sh.plain && |e.entries| == sh.vars && from <= to <= |p.sizes|
    ensures PageShape(sh, Extended(sh, p, e))
    ensures ElemsAt(sh, Extended(sh, p, e), from, to, 0) == ElemsAt(sh, p, from, to, 0)
    ensures ElemsAt(sh, Extended(sh, p, e), from, |p.sizes| + 1, 0) == ElemsAt(sh, p, from, |p.sizes|, 0) + [e]
  {
    ElemAtExtended(sh, p, e, 0);
    forall i: nat | from <= i <= |p.sizes|
      ensures ElemAt(sh, Extended(sh, p, e), i, 0) == if i < |p.sizes| then ElemAt(sh, p, i, 0) else e
    {
      ElemAtExtended(sh, p, e, i);
    }
  }

  lemma {:induction false} AllElemsExtended(sh: Shape, actions: seq<Action>, p: Page, e: Elem)
    requires ActionsOK(sh, actions, p) && PageShape(sh, p) && |e.plain| == sh.plain && |e.entries| == sh.vars
    ensures ActionsOK(sh, actions, Extended(sh, p, e))
    ensures AllElems(sh, actions, Extended(sh, p, e)) == AllElems(sh, actions, p)
  {
    ElemAtExtended(sh, p, e, 0);
    if actions != [] {
      var a := actions[|actions| - 1];
      AllElemsExtended(sh, actions[..|actions| - 1], p, e);
      if a.FromUpdate? {
        ElemsAtExtended(sh, p, e, a.from, a.to);
      }
    }
  }

  class Modifier {
    const sh: Shape
    /** The heap of the fill page. */
    var heap: seq<int>
    var update: Page
    /** The first element of the update page that no action covers yet. */
    var start: nat
    var actions: seq<Action>
    /** What the elements gathered so far stand for. */
    ghost var stored: seq<Stored>

    ghost predicate Shaped()
      reads this
    {
      PageShape(sh, update) && start <= |update.sizes| && ActionsOK(sh, actions, update)
    }

    /** All elements gathered so far. */
    ghost function Elems(): seq<Elem>
      reads this
      requires Shaped()
    {
      AllElems(sh, actions, update) + ElemsAt(sh, update, start, |update.sizes|, 0)
    }

    ghost predicate Valid()
      reads this
    {
      Shaped() && Holds(sh, Elems(), heap, stored)
    }

    constructor (sh: Shape)
      ensures Valid() && this.sh == sh && stored == []
    {
      this.sh := sh;
      heap, start, actions, stored := [], 0, [], [];
      update := Page([], seq(sh.plain, _ => []), seq(sh.vars, _ => []), []);
    }

    /** writeData: the plain values go to the update page, the heap to the fill page. */
    method WriteData(r: Rec, size: nat)
      requires Valid() && RecOK(sh, r) && size > 0
      modifies this`heap, this`update, this`stored
      ensures Valid() && stored == old(stored) + [Data(r, size)]
    {
      ghost var elems := Elems();
      var entries := WriteHeap(r);
      var e := Elem(size, r.plain, entries);
      HoldsData(sh, elems, old(heap), stored, r, size);
      Append(e);
      stored := stored + [Data(r, size)];
    }

    /** The part of writeData for the variable-sized columns. */
    method WriteHeap(r: Rec) returns (entries: seq<int>)
      requires RecOK(sh, r)
      modifies this`heap
      ensures heap == r.heap + old(heap) && entries == EntriesFor(sh, r, old(heap))
    {
      heap := r.heap + heap;
      var heapOffset := PAGE - |heap|;
      entries := [];
      for c := 0 to sh.vars
        invariant heap == r.heap + old(heap) && entries == EntriesFor(sh, r, old(heap))[..c]
        invariant sh.vars > 0 ==> heapOffset == PAGE - |heap| + r.offsets[c] - sh.base
      {
        var varSize := r.offsets[c + 1] - r.offsets[c];
        entries := entries + [heapOffset];
        heapOffset := heapOffset + varSize;
      }
    }

    /** A new element at the end of the update page. */
    method Append(e: Elem)
      requires Shaped() && |e.plain| == sh.plain && |e.entries| == sh.vars
      modifies this`update
      ensures Shaped() && Elems() == old(Elems()) + [e]
    {
      AllElemsExtended(sh, actions, update, e);
      ElemsAtExtended(sh, update, e, start, |update.sizes|);
      update := Extended(sh, update, e);
    }

    /** writeUpdate for a deletion: no data, but heap entries that point to the current end of the heap. */
    method WriteDelete()
      requires Valid()
      modifies this`update, this`stored
      ensures Valid() && stored == old(stored) + [Deleted]
    {
      var entry := PAGE - |heap|;
      var e := Elem(0, seq(sh.plain, _ => []), seq(sh.vars, _ => entry));
      HoldsDelete(sh, Elems(), heap, stored, e);
      Append(e);
      stored := stored + [Deleted];
    }

    /** Enqueues the new elements of the update page. */
    method EnqueueUpdates()
      requires Valid()
      modifies this`start, this`actions
      ensures Valid() && Elems() == old(Elems()) && start == |update.sizes|
    {
      if start != |update.sizes| {
        var a := FromUpdate(start, |update.sizes|);
        assert (actions + [a])[..|actions|] == actions;
        actions := actions + [a];
        start := |update.sizes|;
      }
      assert AllElems(sh, actions, update) + ElemsAt(sh, update, start, start, 0) == old(Elems());
    }

    /** addCleanAction: copies the heap of the range and enqueues it with its offset correction. */
    method AddCleanAction(page: Page, from: nat, to: nat, ghost was: seq<Stored>)
      requires Valid() && start == |update.sizes| && PageHolds(sh, page, was) && from < to <= |was|
      modifies this`heap, this`actions, this`stored
      ensures Valid() && start == |update.sizes| && stored == old(stored) + was[from..to]
    {
      ghost var elems := Elems();
      var correction := 0;
      if sh.vars > 0 {
        var begin := page.variable[0][to - 1];
        var end := if from == 0 then PAGE else page.variable[0][from - 1];
        RangesNest(sh, page, was, from, to);
        HoldsRange(sh, elems, heap, stored, page, was, from, to);
        heap := Slice(page.heap, begin, end) + heap;
        correction := PAGE - |heap| - begin;
      } else {
        HoldsPlainRange(sh, elems, heap, stored, page, was, from, to);
      }
      Enqueue(FromMain(page, from, to, correction));
      stored := stored + was[from..to];
    }

    method Enqueue(a: Action)
      requires Shaped() && start == |update.sizes| && ActionOK(sh, a, update)
      modifies this`actions
      ensures Shaped() && Elems() == old(Elems()) + ElemsOf(sh, a, update)
    {
      assert (actions + [a])[..|actions|] == actions;
      assert ElemsAt(sh, update, start, start, 0) == [];
      actions := actions + [a];
    }

    /** flushFillPage: enqueues the remaining new elements and gathers every column of the fill page. */
    method Flush() returns (page: Page)
      requires Valid()
      modifies this`start, this`actions
      ensures PageHolds(sh, page, stored)
    {
      EnqueueUpdates();
      ghost var elems := AllElems(sh, actions, update);
      assert elems == Elems() by {
        assert elems + ElemsAt(sh, update, start, start, 0) == elems;
      }
      page := Gather();
      GatheredHolds(sh, page, elems, stored);
    }

    method Gather() returns (page: Page)
      requires Shaped()
      ensures Gathered(sh, page, AllElems(sh, actions, update)) && page.heap == heap
    {
      ghost var elems := AllElems(sh, actions, update);
      var sizes := GatherSizes();
      var plain: seq<seq<seq<int>>> := [];
      for c := 0 to sh.plain
        invariant |plain| == c && forall d | 0 <= d < c :: plain[d] == PlainOf(sh, elems, d)
      {
        var column := GatherPlain(c);
        plain := plain + [column];
      }
      var variable: seq<seq<int>> := [];
      for c := 0 to sh.vars
        invariant |variable| == c && forall d | 0 <= d < c :: variable[d] == EntriesOf(sh, elems, d)
      {
        var column := GatherEntries(c);
        variable := variable + [column];
      }
      page := Page(sizes, plain, variable, heap);
    }

    method GatherSizes() returns (sizes: seq<nat>)
      requires Shaped()
      ensures sizes == SizesOf(sh, AllElems(sh, actions, update))
    {
      sizes := [];
      for k := 0 to |actions|
        invariant sizes == SizesOf(sh, AllElems(sh, actions[..k], update))
      {
        var a := actions[k];
        AllElemsStep(sh, actions, update, k);
        SizesSource(sh, a, update);
        sizes := sizes + Source(a, update).sizes[a.from..a.to];
      }
      assert actions[..|actions|] == actions;
    }

    /** One null-byte or fixed-size column. */
    method GatherPlain(c: nat) returns (column: seq<seq<int>>)
      requires Shaped() && c < sh.plain
      ensures column == PlainOf(sh, AllElems(sh, actions, update), c)
    {
      column := [];
      for k := 0 to |actions|
        invariant column == PlainOf(sh, AllElems(sh, actions[..k], update), c)
      {
        var a := actions[k];
        AllElemsStep(sh, actions, update, k);
        PlainSource(sh, a, update, c);
        PlainConcat(sh, AllElems(sh, actions[..k], update), ElemsOf(sh, a, update), c);
        column := column + Source(a, update).plain[c][a.from..a.to];
      }
      assert actions[..|actions|] == actions;
    }

    /** One column of heap entries: copied at once, or corrected one by one. */
    method GatherEntries(c: nat) returns (column: seq<int>)
      requires Shaped() && c < sh.vars
      ensures column == EntriesOf(sh, AllElems(sh, actions, update), c)
    {
      column := [];
      for k := 0 to |actions|
        invariant column == EntriesOf(sh, AllElems(sh, actions[..k], update), c)
      {
        AllElemsStep(sh, actions, update, k);
        EntriesConcat(sh, AllElems(sh, actions[..k], update), ElemsOf(sh, actions[k], update), c);
        var part := CorrectEntries(actions[k], c);
        column := column + part;
      }
      assert actions[..|actions|] == actions;
    }

    method CorrectEntries(a: Action, c: nat) returns (part: seq<int>)
      requires Shaped() && c < sh.vars && ActionOK(sh, a, update)
      ensures part == EntriesOf(sh, ElemsOf(sh, a, update), c)
    {
      var source := Source(a, update).variable[c];
      var correction := CorrectionOf(a);
      EntriesSource(sh, a, update, c);
      if correction == 0 {
        return source[a.from..a.to];
      }
      part := [];
      for i := a.from to a.to
        invariant |part| == i - a.from && forall k | 0 <= k < |part| :: part[k] == source[a.from + k] + correction
      {
        part := part + [source[i] + correction];
      }
    }
  }

  function SizesOf(sh: Shape, elems: seq<Elem>): seq<nat> {
    seq(|elems|, i requires 0 <= i < |elems| => elems[i].size)
  }

  function PlainOf(sh: Shape, elems: seq<Elem>, c: nat): seq<seq<int>>
    requires ElemsShape(sh, elems) && c < sh.plain
  {
    seq(|elems|, i requires 0 <= i < |elems| => elems[i].plain[c])
  }

  function EntriesOf(sh: Shape, elems: seq<Elem>, c: nat): seq<int>
    requires ElemsShape(sh, elems) && c < sh.vars
  {
    seq(|elems|, i requires 0 <= i < |elems| => elems[i].entries[c])
  }

  function Source(a: Action, update: Page): Page {
    if a.FromMain? then a.page else update
  }

  lemma AllElemsStep(sh: Shape, actions: seq<Action>, update: Page, k: nat)
    requires ActionsOK(sh, actions, update) && k < |actions|
    ensures AllElems(sh, actions[..k + 1], update) == AllElems(sh, actions[..k], update) + ElemsOf(sh, actions[k], update)
  {
    assert actions[..k + 1][..k] == actions[..k];
  }

  function CorrectionOf(a: Action): int {
    if a.FromMain? then a.correction else 0
  }

  lemma ElemsSource(sh: Shape, a: Action, update: Page)
    requires ActionOK(sh, a, update)
    ensures var es := ElemsOf(sh, a, update);
            forall k | 0 <= k < |es| :: es[k] == ElemAt(sh, Source(a, update), a.from + k, CorrectionOf(a))
  {
  }

  lemma PlainConcat(sh: Shape, a: seq<Elem>, b: seq<Elem>, c: nat)
    requires ElemsShape(sh, a) && ElemsShape(sh, b) && ElemsShape(sh, a + b) && c < sh.plain
    ensures PlainOf(sh, a + b, c) == PlainOf(sh, a, c) + PlainOf(sh, b, c)
  {
  }

  lemma EntriesConcat(sh: Shape, a: seq<Elem>, b: seq<Elem>, c: nat)
    requires ElemsShape(sh, a) && ElemsShape(sh, b) && ElemsShape(sh, a + b) && c < sh.vars
    ensures EntriesOf(sh, a + b, c) == EntriesOf(sh, a, c) + EntriesOf(sh, b, c)
  {
  }

  lemma SizesSource(sh: Shape, a: Action, update: Page)
    requires ActionOK(sh, a, update)
    ensures Source(a, update).sizes[a.from..a.to] == SizesOf(sh, ElemsOf(sh, a, update))
  {
    ElemsSource(sh, a, update);
  }

  lemma PlainSource(sh: Shape, a: Action, update: Page, c: nat)
    requires ActionOK(sh, a, update) && c < sh.plain
    ensures Source(a, update).plain[c][a.from..a.to] == PlainOf(sh, ElemsOf(sh, a, update), c)
  {
    ElemsSource(sh, a, update);
  }

  lemma EntriesSource(sh: Shape, a: Action, update: Page, c: nat)
    requires ActionOK(sh, a, update) && c < sh.vars
    ensures var es, source := EntriesOf(sh, ElemsOf(sh, a, update), c), Source(a, update).variable[c];
            |es| == a.to - a.from && forall k | 0 <= k < |es| ::
              es[k] == source[a.from + k] + CorrectionOf(a)
  {
    ElemsSource(sh, a, update);
  }

  /** The columns of the page are those of the elements. */
  predicate Gathered(sh: Shape, p: Page, elems: seq<Elem>)
    requires ElemsShape(sh, elems)
  {
    && p.sizes == SizesOf(sh, elems)
    && |p.plain| == sh.plain && (forall c | 0 <= c < sh.plain :: p.plain[c] == PlainOf(sh, elems, c))
    && |p.variable| == sh.vars && (forall c | 0 <= c < sh.vars :: p.variable[c] == EntriesOf(sh, elems, c))
  }

  /** A page whose columns are those of the elements has the elements. */
  lemma GatheredHolds(sh: Shape, p: Page, elems: seq<Elem>, stored: seq<Stored>)
    requires Holds(sh, elems, p.heap, stored) && Gathered(sh, p, elems)
    ensures PageHolds(sh, p, stored)
  {
    forall i: nat | i < |p.sizes| ensures PageElem(sh, p, stored, i) {
      assert Held(sh, elems, p.heap, stored, i);
      GatheredElem(sh, p, elems, i);
    }
  }

  lemma GatheredElem(sh: Shape, p: Page, elems: seq<Elem>, i: nat)
    requires ElemsShape(sh, elems) && Gathered(sh, p, elems) && i < |elems|
    ensures PageShape(sh, p) && ElemAt(sh, p, i, 0) == elems[i]
    ensures sh.vars > 0 ==> PageEnd(sh, p, i) == End(sh, elems, i)
  {
    var e := ElemAt(sh, p, i, 0);
    assert e.plain == elems[i].plain && e.entries == elems[i].entries;
  }

  // ------------------------------------------------------------------ the capacity of a page

  /** The bytes of null columns and of fixed-size values of an element, and the number of variable-sized columns. */
  datatype Widths = Widths(header: nat, fixed: nat, vars: nat)

  function Align8(n: nat): nat {
    (n + 7) / 8 * 8
  }

  /** The page header, an entry, a size, a heap entry, and the bound on the padding of a page. */
  const PAGE_HEADER := 16
  const ENTRY := 24
  const SIZE := 4
  const HEAP_ENTRY := 8
  const PADDING := 17
  const MAX_DATA_SIZE := PAGE - (PAGE_HEADER + HEAP_ENTRY + PADDING)

  function StaticSize(w: Widths): nat {
    ENTRY + SIZE + w.header + w.fixed + w.vars * HEAP_ENTRY
  }

  function HeaderOffset(n: nat): nat {
    Align8(PAGE_HEADER + n * (ENTRY + SIZE))
  }

  function FixedOffset(w: Widths, n: nat): nat {
    Align8(HeaderOffset(n) + n * w.header)
  }

  /** The heap entries, behind the sentinel for the end of the page. */
  function VariableOffset(w: Widths, n: nat): nat {
    Align8(FixedOffset(w, n) + n * w.fixed) + if w.vars > 0 then HEAP_ENTRY else 0
  }

  function PageUsed(w: Widths, n: nat): nat {
    VariableOffset(w, n) + n * (w.vars * HEAP_ENTRY)
  }

  lemma Align8Bound(n: nat)
    ensures n <= Align8(n) <= n + 7 && Align8(n) % 8 == 0
    ensures n % 4 == 0 ==> Align8(n) <= n + 4
    ensures n % 2 == 0 ==> Align8(n) <= n + 6
  {
  }

  /** The next multiple of 8. */
  predicate NextMultiple(a: nat, n: nat) {
    a % 8 == 0 && n <= a < n + 8
  }

  lemma Align8IsNext(n: nat)
    ensures NextMultiple(Align8(n), n)
  {
  }

  /** Headers, fixed-size values and heap entries follow each other without overlap, each from the next multiple of 8 on;
      a page with heap entries has a sentinel in front of them. */
  lemma ColumnsInOrder(w: Widths, n: nat)
    ensures NextMultiple(HeaderOffset(n), 16 + n * 28)
    ensures NextMultiple(FixedOffset(w, n), HeaderOffset(n) + n * w.header)
    ensures NextMultiple(VariableOffset(w, n), FixedOffset(w, n) + n * w.fixed + if w.vars == 0 then 0 else 8)
  {
    hide Align8, NextMultiple;
    Align8IsNext(16 + n * 28);
    Align8IsNext(HeaderOffset(n) + n * w.header);
    Align8IsNext(FixedOffset(w, n) + n * w.fixed);
    NextWithSentinel(VariableOffset(w, n), FixedOffset(w, n) + n * w.fixed, w);
  }

  lemma NextWithSentinel(a: nat, n: nat, w: Widths)
    requires w.vars > 0 ==> a >= 8
    requires NextMultiple(if w.vars == 0 then a else a - 8, n)
    ensures NextMultiple(a, n + if w.vars == 0 then 0 else 8)
  {
  }

  lemma {:induction false} MultipleOf2(n: nat, m: nat)
    requires m % 2 == 0
    ensures n * m >= 0 && (n * m) % 2 == 0
  {
    if n > 0 {
      MultipleOf2(n - 1, m);
      assert n * m == (n - 1) * m + m;
    }
  }

  lemma PaddingValues(entries: nat, header: nat, fixed: nat)
    requires entries % 4 == 0 && fixed % 2 == 0
    ensures Align8(Align8(Align8(PAGE_HEADER + entries) + header) + fixed)
            <= PAGE_HEADER + entries + header + fixed + PADDING
  {
    Align8Bound(PAGE_HEADER + entries);
    Align8Bound(Align8(PAGE_HEADER + entries) + header);
    Align8Bound(Align8(Align8(PAGE_HEADER + entries) + header) + fixed);
  }

  /** The padding of a page is at most 17 bytes, for every schema and number of elements: fixed-size values have an even
      number of bytes. */
  lemma PaddingSuffices(w: Widths, n: nat)
    requires w.fixed % 2 == 0
    ensures PageUsed(w, n) <= PAGE_HEADER + HEAP_ENTRY + PADDING + n * StaticSize(w)
  {
    MultipleOf2(n, w.fixed);
    PaddingValues(n * 28, n * w.header, n * w.fixed);
    Distribute(n, w.header, w.fixed, w.vars * HEAP_ENTRY);
  }

  lemma Distribute(n: nat, a: nat, b: nat, c: nat)
    ensures n * (28 + a + b + c) == n * 28 + n * a + n * b + n * c
  {
  }

  /** No smaller bound would do. */
  lemma PaddingIsTight()
    ensures var w := Widths(1, 2, 1); PageUsed(w, 1) == PAGE_HEADER + HEAP_ENTRY + PADDING + StaticSize(w)
  {
  }

  /** What the modifier adds up for the elements: the static size and the heap data of each. */
  function FillSize(w: Widths, stored: seq<Stored>): nat {
    if stored == [] then 0
    else FillSize(w, stored[..|stored| - 1]) + StaticSize(w) + HeapSize(stored[|stored| - 1])
  }

  function HeapSize(s: Stored): nat {
    if s.Data? then |s.rec.heap| else 0
  }

  lemma {:induction false} FillIsStatic(sh: Shape, w: Widths, elems: seq<Elem>, heap: seq<int>, stored: seq<Stored>,
                                        n: nat)
    requires Holds(sh, elems, heap, stored) && n <= |stored|
    ensures FillSize(w, stored[..n]) >= n * StaticSize(w)
    ensures sh.vars > 0 ==> FillSize(w, stored[..n]) == n * StaticSize(w) + (PAGE - End(sh, elems, n))
  {
    hide StaticSize, HeapSize;
    if n > 0 {
      FillIsStatic(sh, w, elems, heap, stored, n - 1);
      assert stored[..n][..n - 1] == stored[..n - 1];
      OneMoreStatic(n, StaticSize(w));
      HeldHeap(sh, elems, heap, stored, n - 1);
    }
  }

  lemma OneMoreStatic(n: nat, size: nat)
    requires n > 0
    ensures n * size == (n - 1) * size + size
  {
  }

  /** The heap bytes of an element lie between the ends of its predecessor and of itself. */
  lemma HeldHeap(sh: Shape, elems: seq<Elem>, heap: seq<int>, stored: seq<Stored>, i: nat)
    requires Holds(sh, elems, heap, stored) && i < |stored|
    ensures sh.vars > 0 ==> HeapSize(stored[i]) == End(sh, elems, i) - End(sh, elems, i + 1)
  {
    assert Held(sh, elems, heap, stored, i);
  }

  /** As long as the accumulated size stays within the limit, the columns end before the heap begins. */
  lemma HeapFits(sh: Shape, w: Widths, elems: seq<Elem>, heap: seq<int>, stored: seq<Stored>)
    requires Holds(sh, elems, heap, stored) && sh.vars == w.vars && w.fixed % 2 == 0
    requires FillSize(w, stored) <= MAX_DATA_SIZE
    ensures PageUsed(w, |stored|) <= if w.vars > 0 then PAGE - |heap| else PAGE
  {
    FillIsStatic(sh, w, elems, heap, stored, |stored|);
    assert stored[..|stored|] == stored;
    PaddingSuffices(w, |stored|);
  }
}
