/**
 Garbage collection of the delta-main row store (deltamain/rowstore/RowStorePage.cpp,
 deltamain/rowstore/RowStoreRecord.cpp, deltamain/Record.cpp): a record and its update chain are rewritten into a new
 main record that keeps only the versions some snapshot may still read.

 A stored element of size zero is a deletion; here that is the kind `Delete`.
 */
module RowStoreGc {
  import opened Common
  import opened DeltaMain

  // ------------------------------------------------------------------ collecting the elements of a record

  /** The elements up to and including the first one that is not newer than `min`. */
  function UpTo(v: seq<Entry>, min: nat): seq<Entry> {
    if v == [] then [] else if v[0].version <= min then [v[0]] else [v[0]] + UpTo(v[1..], min)
  }

  predicate Newer(v: seq<Entry>, min: nat) {
    forall i | 0 <= i < |v| :: min < v[i].version
  }

  function WithoutFinalDelete(v: seq<Entry>): seq<Entry> {
    if v != [] && v[|v| - 1].kind.Delete? then v[..|v| - 1] else v
  }

  /** What the base record adds when `highest` is the lowest version of the update log. */
  function FromBase(base: seq<Entry>, insert: bool, min: nat, highest: nat): seq<Entry> {
    if highest <= min then [] else if insert then base else UpTo(Older(base, highest), min)
  }

  /** The elements of the rewritten record: none means that the record is invalidated. */
  function Collected(c: seq<Entry>, base: seq<Entry>, insert: bool, min: nat): seq<Entry>
    requires base != []
  {
    var r := Iterate(c, base[0].version);
    if Newer(r.0, min) then WithoutFinalDelete(r.0 + FromBase(base, insert, min, r.1))
    else WithoutFinalDelete(UpTo(r.0, min))
  }

  lemma {:induction false} UpToConcat(a: seq<Entry>, b: seq<Entry>, min: nat)
    ensures Newer(a, min) ==> UpTo(a + b, min) == a + UpTo(b, min)
    ensures !Newer(a, min) ==> UpTo(a + b, min) == UpTo(a, min)
    ensures Newer(a, min) ==> UpTo(a, min) == a
  {
    if a == [] {
      assert a + b == b;
    } else {
      assert (a + b)[1..] == a[1..] + b;
      UpToConcat(a[1..], b, min);
      if a[0].version > min {
        NewerTail(a, min);
        assert a == [a[0]] + a[1..];
      }
    }
  }

  lemma NewerTail(a: seq<Entry>, min: nat)
    requires a != [] && a[0].version > min
    ensures Newer(a, min) <==> Newer(a[1..], min)
  {
    assert forall i | 1 <= i < |a| :: a[i] == a[1..][i - 1];
  }

  /** collectElements without the final invalidation: the loop over the update log, then the base, then the trailing
      deletion. */
  method CollectElements(c: seq<Entry>, base: seq<Entry>, insert: bool, min: nat) returns (elements: seq<Entry>)
    requires base != []
    ensures elements == Collected(c, base, insert, min)
  {
    var lowest;
    elements, lowest := CollectUpdates(c, base[0].version, min);
    var own := CollectBase(base, insert, min, lowest);
    elements := elements + own;
    if |elements| > 0 && elements[|elements| - 1].kind.Delete? {
      elements := elements[..|elements| - 1];
    }
  }

  /** The loop of collectElements over the update log, and the lowest version at its end. */
  method CollectUpdates(c: seq<Entry>, b: nat, min: nat) returns (elements: seq<Entry>, lowest: nat)
    ensures var r := Iterate(c, b);
            if Newer(r.0, min) then (elements, lowest) == r else elements == UpTo(r.0, min) && lowest <= min
  {
    ghost var all := Iterate(c, b).0;
    elements := [];
    var it := new UpdateRecordIterator(c, b);
    while !it.Done()
      invariant it.Valid() && it.chain == c && it.base == b && fresh(it)
      invariant it.delivered == elements + if it.Done() then [] else [c[it.pos]]
      invariant Newer(elements, min)
      decreases |c| - it.pos
    {
      var e := c[it.pos];
      if e.version <= min {
        CutHere(all, elements, e, After(c, b, it.pos).0, min);
        return elements + [e], it.lowest;
      }
      elements := elements + [e];
      it.Next();
    }
    assert it.delivered == elements;
    lowest := it.lowest;
  }

  lemma CutHere(all: seq<Entry>, before: seq<Entry>, e: Entry, rest: seq<Entry>, min: nat)
    requires all == before + [e] + rest && Newer(before, min) && e.version <= min
    ensures !Newer(all, min) && UpTo(all, min) == before + [e]
  {
    assert all == before + ([e] + rest) && all[|before|] == e;
    UpToConcat(before, [e] + rest, min);
  }

  /** RowStoreRecordImpl::collect and InsertRecordImpl::collect. */
  method CollectBase(base: seq<Entry>, insert: bool, min: nat, highest: nat) returns (elements: seq<Entry>)
    ensures elements == FromBase(base, insert, min, highest)
  {
    if highest <= min {
      return [];
    }
    if insert {
      return base;
    }
    var i := SkipHidden(base, highest);
    elements := [];
    while i < |base| && base[i].version > min
      invariant i <= |base| && UpTo(Older(base, highest), min) == elements + UpTo(base[i..], min)
    {
      assert base[i..][1..] == base[i + 1..];
      elements := elements + [base[i]];
      i := i + 1;
    }
    if i < |base| {
      elements := elements + [base[i]];
    }
  }

  // ------------------------------------------------------------------ lists of versions that read alike

  /** The snapshot reads every version up to `min`. */
  ghost predicate ReadsAll(s: nat -> bool, min: nat) {
    forall v: nat | v <= min :: s(v)
  }

  /** The same tuple with the same version and flag, or no tuple on both sides. */
  predicate Same(a: Outcome, b: Outcome) {
    a == b || (!a.Tuple? && !b.Tuple?)
  }

  ghost predicate Alike(v: seq<Entry>, w: seq<Entry>, s: nat -> bool) {
    forall n: bool :: Same(Read(v, s, n), Read(w, s, n))
  }

  /** No snapshot that reads all versions up to `min` can tell the two lists apart, and none will after further updates
      with versions above `min` have hidden the newest part of both. */
  ghost predicate Equivalent(v: seq<Entry>, w: seq<Entry>, min: nat) {
    forall s: nat -> bool, low: nat | ReadsAll(s, min) && min < low :: Alike(Under(v, low), Under(w, low), s)
  }

  lemma EquivalentTransitive(u: seq<Entry>, v: seq<Entry>, w: seq<Entry>, min: nat)
    requires Equivalent(u, v, min) && Equivalent(v, w, min)
    ensures Equivalent(u, w, min)
  {
    forall s: nat -> bool, low: nat | ReadsAll(s, min) && min < low ensures Alike(Under(u, low), Under(w, low), s) {
      assert Alike(Under(u, low), Under(v, low), s);
      assert Alike(Under(v, low), Under(w, low), s);
    }
  }

  lemma EquivalentLater(v: seq<Entry>, w: seq<Entry>, min: nat, min': nat)
    requires Equivalent(v, w, min) && min <= min'
    ensures Equivalent(v, w, min')
  {
    forall s: nat -> bool, low: nat | ReadsAll(s, min') && min' < low ensures Alike(Under(v, low), Under(w, low), s) {
      assert ReadsAll(s, min);
    }
  }

  lemma {:induction false} AlikeBehind(p: seq<Entry>, v: seq<Entry>, w: seq<Entry>, s: nat -> bool)
    requires Alike(v, w, s)
    ensures Alike(p + v, p + w, s)
  {
    if p == [] {
      assert p + v == v && p + w == w;
    } else {
      AlikeBehind(p[1..], v, w, s);
      assert (p + v)[1..] == p[1..] + v && (p + w)[1..] == p[1..] + w;
      forall n: bool ensures Same(Read(p + v, s, n), Read(p + w, s, n)) {
        assert Same(Read(p[1..] + v, s, false), Read(p[1..] + w, s, false));
      }
    }
  }

  lemma {:induction false} UnderConcat(a: seq<Entry>, b: seq<Entry>, low: nat)
    ensures Under(a + b, low) == if Under(a, low) == [] then Under(b, low) else Under(a, low) + b
  {
    if a == [] {
      assert a + b == b;
    } else {
      assert (a + b)[1..] == a[1..] + b;
      UnderConcat(a[1..], b, low);
    }
  }

  lemma {:induction false} UnderUnder(s: seq<Entry>, a: nat, b: nat)
    ensures a <= b ==> Under(Under(s, a), b) == Under(s, a) && Under(Under(s, b), a) == Under(s, a)
  {
    if s != [] {
      UnderUnder(s[1..], a, b);
    }
  }

  /** Keeping only what is needed for `min` changes nothing. */
  lemma UpToEquivalent(v: seq<Entry>, min: nat)
    ensures Equivalent(v, UpTo(v, min), min)
  {
    forall s: nat -> bool, low: nat | ReadsAll(s, min) && min < low
      ensures Alike(Under(v, low), Under(UpTo(v, min), low), s)
    {
      UnderUpTo(v, low, min);
      UpToAlike(Under(v, low), min, s);
    }
  }

  lemma {:induction false} UnderUpTo(v: seq<Entry>, low: nat, min: nat)
    requires min < low
    ensures Under(UpTo(v, min), low) == UpTo(Under(v, low), min)
  {
    if v != [] {
      UnderUpTo(v[1..], low, min);
      if v[0].version > min {
        assert UpTo(v, min)[1..] == UpTo(v[1..], min);
      }
    }
  }

  lemma {:induction false} UpToAlike(v: seq<Entry>, min: nat, s: nat -> bool)
    requires ReadsAll(s, min)
    ensures Alike(v, UpTo(v, min), s)
  {
    if v != [] && v[0].version > min {
      UpToAlike(v[1..], min, s);
      AlikeBehind([v[0]], v[1..], UpTo(v[1..], min), s);
      assert [v[0]] + v[1..] == v;
    }
  }

  /** A list whose first readable element is no tuple reads like the empty one. */
  lemma TailEquivalent(v: seq<Entry>, t: seq<Entry>, min: nat)
    requires t != [] && !t[0].kind.Data?
    requires |t| == 1 || t[0].version <= min
    ensures Equivalent(v, v + t, min)
  {
    forall s: nat -> bool, low: nat | ReadsAll(s, min) && min < low
      ensures Alike(Under(v, low), Under(v + t, low), s)
    {
      UnderConcat(v, t, low);
      if Under(v, low) == [] {
        if t[0].version >= low {
          assert t[1..] == [];
        }
      } else {
        assert Alike([], t, s) by {
          assert |t| == 1 ==> t[1..] == [];
        }
        AlikeBehind(Under(v, low), [], t, s);
        assert Under(v, low) + [] == Under(v, low);
      }
    }
  }

  lemma FinalDeleteEquivalent(v: seq<Entry>, min: nat)
    ensures Equivalent(v, WithoutFinalDelete(v), min)
  {
    var w := WithoutFinalDelete(v);
    if w != v {
      var t := v[|v| - 1..];
      assert v == w + t;
      TailEquivalent(w, t, min);
      EquivalentSymmetric(w, v, min);
    } else {
      EquivalentReflexive(v, min);
    }
  }

  lemma EquivalentSymmetric(v: seq<Entry>, w: seq<Entry>, min: nat)
    requires Equivalent(v, w, min)
    ensures Equivalent(w, v, min)
  {
    forall s: nat -> bool, low: nat | ReadsAll(s, min) && min < low ensures Alike(Under(w, low), Under(v, low), s) {
      assert Alike(Under(v, low), Under(w, low), s);
      forall n: bool ensures Same(Read(Under(w, low), s, n), Read(Under(v, low), s, n)) {
        assert Same(Read(Under(v, low), s, n), Read(Under(w, low), s, n));
      }
    }
  }

  lemma EquivalentReflexive(v: seq<Entry>, min: nat)
    ensures Equivalent(v, v, min)
  {
  }

  predicate NonIncreasing(v: seq<Entry>) {
    forall i, j | 0 <= i < j < |v| :: v[j].version <= v[i].version
  }

  /** A second element with the version of the first is never read. */
  lemma TwinEquivalent(v: seq<Entry>, x: Entry, min: nat)
    requires v != [] && v[|v| - 1].version == x.version
    ensures Equivalent(v, v + [x], min)
  {
    var y := v[|v| - 1];
    var w := v[..|v| - 1];
    assert v == w + [y] && v + [x] == w + [y, x];
    forall s: nat -> bool, low: nat | ReadsAll(s, min) && min < low
      ensures Alike(Under(v, low), Under(v + [x], low), s)
    {
      UnderConcat(w, [y], low);
      UnderConcat(w, [y, x], low);
      assert [y, x][1..] == [x] && [y][1..] == [] && [x][1..] == [];
      assert Under([x], low) == if x.version < low then [x] else [];
      assert Under([y, x], low) == if y.version < low then [y, x] else [];
      assert Alike([y], [y, x], s) by {
        assert Read([x], s, false) == if s(x.version) && x.kind.Data? then Tuple(x.data, x.version, false) else Missing(false);
      }
      AlikeBehind(Under(w, low), [y], [y, x], s);
    }
  }

  // ------------------------------------------------------------------ chains that grow

  lemma {:induction false} VisibleUnder(c: seq<Entry>, low: nat, l: nat)
    ensures Visible(c, if l < low then l else low) == Under(Visible(c, low), l)
  {
    VisibleSorted(c, low);
    if c != [] {
      var v, t := c[0].version, c[1..];
      if v >= low {
        VisibleUnder(t, low, l);
      } else {
        VisibleUnder(t, v, l);
        if v >= l && !c[0].kind.Revert? {
          assert Visible(c, low)[1..] == Visible(t, v);
        }
      }
    }
  }

  lemma {:induction false} LowestUnder(c: seq<Entry>, low: nat, l: nat)
    ensures Lowest(c, if l < low then l else low) == if l < Lowest(c, low) then l else Lowest(c, low)
    ensures Lowest(c, low) <= low
    ensures forall i | 0 <= i < |c| :: Lowest(c, low) <= c[i].version
  {
    if c != [] {
      var t := c[1..];
      LowestUnder(t, if c[0].version < low then c[0].version else low, l);
      assert forall i | 1 <= i < |c| :: c[i] == t[i - 1];
    }
  }

  lemma {:induction false} VisibleAboveLowest(c: seq<Entry>, low: nat)
    ensures forall i | 0 <= i < |Visible(c, low)| :: Lowest(c, low) <= Visible(c, low)[i].version
  {
    if c != [] {
      LowestUnder(c, low, low);
      VisibleAboveLowest(c[1..], if c[0].version < low then c[0].version else low);
    }
  }

  lemma {:induction false} UnderNone(s: seq<Entry>, low: nat)
    requires AllAbove(s, low)
    ensures Under(s, low) == []
  {
    if s != [] {
      UnderNone(s[1..], low);
    }
  }

  /** The versions of a chain over a base record, below `low`. */
  function Layers(c: seq<Entry>, base: seq<Entry>, low: nat): seq<Entry> {
    Visible(c, low) + Under(base, Lowest(c, low))
  }

  lemma ViewIsLayers(c: seq<Entry>, base: seq<Entry>)
    requires base != [] && AllAbove(c, base[0].version) && BelowMax(c)
    ensures View(c, base) == Layers(c, base, MAX)
  {
    IterateIsVisible(c, base[0].version);
    OlderIsUnder(base, Lowest(c, MAX));
  }

  lemma LayersUnder(c: seq<Entry>, base: seq<Entry>, low: nat, l: nat)
    requires l <= low
    ensures Layers(c, base, l) == Under(Layers(c, base, low), l)
  {
    var a, m := Visible(c, low), Lowest(c, low);
    VisibleUnder(c, low, l);
    LowestUnder(c, low, l);
    VisibleAboveLowest(c, low);
    UnderConcat(a, Under(base, m), l);
    if l <= m {
      UnderNone(a, l);
      UnderUnder(base, l, m);
    } else {
      UnderUnder(base, m, l);
    }
  }

  /** New records hide the part of the versions at or above their lowest version and put their own in front. */
  lemma ViewOfGrown(ext: seq<Entry>, c: seq<Entry>, base: seq<Entry>)
    requires base != [] && AllAbove(ext, base[0].version) && AllAbove(c, base[0].version) && BelowMax(ext + c)
    ensures View(ext + c, base) == Visible(ext, MAX) + Under(View(c, base), Lowest(ext, MAX))
  {
    var low := Lowest(ext, MAX);
    assert BelowMax(c) by {
      assert forall i | 0 <= i < |c| :: c[i] == (ext + c)[|ext| + i];
    }
    ViewIsLayers(ext + c, base);
    ViewIsLayers(c, base);
    VisibleConcat(ext, c, MAX);
    LowestUnder(ext, MAX, MAX);
    LayersUnder(c, base, MAX, low);
    assert Layers(ext + c, base, MAX) == Visible(ext, MAX) + Layers(c, base, low);
  }

  /** Equivalent versions stay equivalent under the same new records. */
  lemma GrowEquivalent(ext: seq<Entry>, v: seq<Entry>, w: seq<Entry>, min: nat)
    requires Equivalent(v, w, min) && Newer(ext, min) && min < MAX
    ensures var p, low := Visible(ext, MAX), Lowest(ext, MAX);
            Equivalent(p + Under(v, low), p + Under(w, low), min)
  {
    var p, low := Visible(ext, MAX), Lowest(ext, MAX);
    VisibleAboveLowest(ext, MAX);
    LowestNewer(ext, MAX, min);
    forall s: nat -> bool, l: nat | ReadsAll(s, min) && min < l
      ensures Alike(Under(p + Under(v, low), l), Under(p + Under(w, low), l), s)
    {
      UnderConcat(p, Under(v, low), l);
      UnderConcat(p, Under(w, low), l);
      assert Alike(Under(v, low), Under(w, low), s) && Alike(Under(v, l), Under(w, l), s);
      if l <= low {
        UnderNone(p, l);
        UnderUnder(v, l, low);
        UnderUnder(w, l, low);
      } else {
        UnderUnder(v, low, l);
        UnderUnder(w, low, l);
        AlikeBehind(Under(p, l), Under(v, low), Under(w, low), s);
      }
    }
  }

  lemma {:induction false} LowestNewer(c: seq<Entry>, low: nat, min: nat)
    requires Newer(c, min) && min < low
    ensures min < Lowest(c, low)
  {
    if c != [] {
      LowestNewer(c[1..], if c[0].version < low then c[0].version else low, min);
    }
  }

  // ------------------------------------------------------------------ the collected elements

  /** A base record: elements newest first, where two neighbours may share a version; an insert record has one tuple. */
  predicate RecordOK(base: seq<Entry>, insert: bool) {
    && base != [] && BelowMax(base) && NonIncreasing(base)
    && (forall i | 0 <= i < |base| :: !base[i].kind.Revert?)
    && (insert ==> |base| == 1 && base[0].kind.Data?)
  }

  predicate ChainOK(c: seq<Entry>, base: seq<Entry>)
    requires base != []
  {
    AllAbove(c, base[0].version) && BelowMax(c)
  }

  /** A revert at or below `min` makes the collector take the tuple under it for one already collected. */
  predicate Swallows(c: seq<Entry>, base: seq<Entry>, min: nat)
    requires base != []
  {
    var r := Iterate(c, base[0].version);
    var o := Under(base, r.1);
    Newer(r.0, min) && r.1 <= min && o != [] && o[0].kind.Data?
  }

  /** An insert record that only a revert hides is collected as if it were visible. */
  predicate Resurrects(c: seq<Entry>, base: seq<Entry>, min: nat)
    requires base != []
  {
    var r := Iterate(c, base[0].version);
    min < r.1 == base[0].version && (r.0 == [] || r.0[|r.0| - 1].version != base[0].version)
  }

  predicate Unfaithful(c: seq<Entry>, base: seq<Entry>, insert: bool, min: nat)
    requires base != []
  {
    Swallows(c, base, min) || (insert && Resurrects(c, base, min))
  }

  lemma ViewSorted(c: seq<Entry>, base: seq<Entry>)
    requires base != [] && NonIncreasing(base) && ChainOK(c, base)
    ensures NonIncreasing(View(c, base))
  {
    var low := Lowest(c, MAX);
    ViewIsLayers(c, base);
    VisibleSorted(c, MAX);
    VisibleAboveLowest(c, MAX);
    UnderBelow(base, low);
  }

  lemma {:induction false} UnderBelow(s: seq<Entry>, low: nat)
    requires NonIncreasing(s)
    ensures NonIncreasing(Under(s, low)) && forall i | 0 <= i < |Under(s, low)| :: Under(s, low)[i].version < low
    ensures forall i | 0 <= i < |Under(s, low)| :: Under(s, low)[i] in s
  {
    if s != [] && s[0].version >= low {
      var t := s[1..];
      UnderBelow(t, low);
    }
  }

  /** The cases of a collection: the versions needed for `min`, the update records alone because nothing readable is
      below them, or, for an insert record, the hidden base as a twin of the oldest update record. */
  lemma CollectedCases(c: seq<Entry>, base: seq<Entry>, insert: bool, min: nat)
    requires RecordOK(base, insert) && ChainOK(c, base) && !Unfaithful(c, base, insert, min)
    ensures var v, e := View(c, base), Collected(c, base, insert, min);
            var d := Visible(c, MAX);
            || e == WithoutFinalDelete(UpTo(v, min))
            || (e == WithoutFinalDelete(d) && d < v && !v[|d|].kind.Data? && v[|d|].version <= min)
            || (insert && v != [] && v[|v| - 1].version == base[0].version && e == v + [base[0]])
  {
    var d, low := Visible(c, MAX), Lowest(c, MAX);
    ViewIsLayers(c, base);
    IterateIsVisible(c, base[0].version);
    OlderIsUnder(base, low);
    UnderBelow(base, low);
    LowestReached(c, MAX, base[0].version);
    if Newer(d, min) {
      FromBaseCases(d, low, base, insert, min);
    } else {
      UpToConcat(d, Under(base, low), min);
    }
  }

  lemma FromBaseCases(d: seq<Entry>, low: nat, base: seq<Entry>, insert: bool, min: nat)
    requires RecordOK(base, insert) && Newer(d, min) && base[0].version <= low
    requires low <= min && Under(base, low) != [] ==> !Under(base, low)[0].kind.Data? && Under(base, low)[0].version < low
    requires insert && min < low == base[0].version ==> d != [] && d[|d| - 1].version == base[0].version
    ensures var v, g := d + Under(base, low), d + FromBase(base, insert, min, low);
            || g == UpTo(v, min)
            || (g == d && d < v && !v[|d|].kind.Data? && v[|d|].version <= min)
            || (insert && v != [] && v[|v| - 1].version == base[0].version && WithoutFinalDelete(g) == g == v + [base[0]])
  {
    assert d + [] == d;
    if low <= min {
      FromBaseSettled(d, low, base, min);
    } else if insert {
      FromInsert(d, low, base, min);
    } else {
      OlderIsUnder(base, low);
      UpToConcat(d, Under(base, low), min);
    }
  }

  lemma FromBaseSettled(d: seq<Entry>, low: nat, base: seq<Entry>, min: nat)
    requires Newer(d, min) && low <= min
    requires Under(base, low) != [] ==> !Under(base, low)[0].kind.Data? && Under(base, low)[0].version < low
    ensures var v := d + Under(base, low);
            d == UpTo(v, min) || (d < v && !v[|d|].kind.Data? && v[|d|].version <= min)
  {
    var o := Under(base, low);
    UpToConcat(d, o, min);
    if o == [] {
      assert d + o == d && UpTo(o, min) == [];
    } else {
      assert (d + o)[|d|] == o[0];
    }
  }

  lemma FromInsert(d: seq<Entry>, low: nat, base: seq<Entry>, min: nat)
    requires RecordOK(base, true) && Newer(d, min) && min < low && base[0].version <= low
    requires low == base[0].version ==> d != [] && d[|d| - 1].version == base[0].version
    ensures var v, g := d + Under(base, low), d + base;
            || g == UpTo(v, min)
            || (v != [] && v[|v| - 1].version == base[0].version && WithoutFinalDelete(g) == g == v + [base[0]])
  {
    assert base == [base[0]] && base[1..] == [];
    assert UpTo(base, min) == base;
    UpToConcat(d, base, min);
    assert d + [] == d;
  }

  lemma {:induction false} LowestReached(c: seq<Entry>, low: nat, b: nat)
    requires AllAbove(c, b) && b <= low
    ensures b <= Lowest(c, low)
  {
    if c != [] {
      LowestReached(c[1..], if c[0].version < low then c[0].version else low, b);
    }
  }

  /** Collecting keeps every lookup of every snapshot that reads all versions up to `min`. */
  lemma CollectedEquivalent(c: seq<Entry>, base: seq<Entry>, insert: bool, min: nat)
    requires RecordOK(base, insert) && ChainOK(c, base) && !Unfaithful(c, base, insert, min)
    ensures Equivalent(View(c, base), Collected(c, base, insert, min), min)
  {
    var v, e := View(c, base), Collected(c, base, insert, min);
    var d := Visible(c, MAX);
    CollectedCases(c, base, insert, min);
    if e == WithoutFinalDelete(UpTo(v, min)) {
      UpToEquivalent(v, min);
      FinalDeleteEquivalent(UpTo(v, min), min);
      EquivalentTransitive(v, UpTo(v, min), e, min);
    } else if e == WithoutFinalDelete(d) && d < v && !v[|d|].kind.Data? && v[|d|].version <= min {
      assert v == d + v[|d|..];
      TailEquivalent(d, v[|d|..], min);
      EquivalentSymmetric(d, v, min);
      FinalDeleteEquivalent(d, min);
      EquivalentTransitive(v, d, e, min);
    } else {
      TwinEquivalent(v, base[0], min);
    }
  }

  lemma {:induction false} UpToPrefix(v: seq<Entry>, min: nat)
    ensures UpTo(v, min) <= v && (v != [] ==> UpTo(v, min) != [])
  {
    if v != [] && v[0].version > min {
      UpToPrefix(v[1..], min);
      assert v == [v[0]] + v[1..];
    }
  }

  lemma ViewOK(c: seq<Entry>, base: seq<Entry>)
    requires RecordOK(base, false) && ChainOK(c, base)
    ensures NonIncreasing(View(c, base)) && BelowMax(View(c, base))
    ensures forall i | 0 <= i < |View(c, base)| :: !View(c, base)[i].kind.Revert?
  {
    ViewSorted(c, base);
    ViewIsLayers(c, base);
    VisibleSorted(c, MAX);
    UnderBelow(base, Lowest(c, MAX));
  }

  lemma TwinOK(v: seq<Entry>, x: Entry)
    requires v != [] && BelowMax(v) && NonIncreasing(v) && forall i | 0 <= i < |v| :: !v[i].kind.Revert?
    requires x.version < MAX && !x.kind.Revert? && (forall i | 0 <= i < |v| :: x.version <= v[i].version)
    ensures RecordOK(v + [x], false) && (v + [x])[0] == v[0]
  {
  }

  lemma PrefixOK(e: seq<Entry>, v: seq<Entry>)
    requires e != [] && e <= v && BelowMax(v) && NonIncreasing(v) && forall i | 0 <= i < |v| :: !v[i].kind.Revert?
    ensures RecordOK(e, false) && v[0] == e[0]
  {
    assert forall i | 0 <= i < |e| :: e[i] == v[i];
  }

  /** What is collected is the newest part of the versions, or for an insert record all of them and a twin. */
  lemma CollectedShape(c: seq<Entry>, base: seq<Entry>, insert: bool, min: nat)
    requires RecordOK(base, insert) && ChainOK(c, base) && !Unfaithful(c, base, insert, min)
    ensures var v, e := View(c, base), Collected(c, base, insert, min);
            e <= v || (v != [] && v[|v| - 1].version == base[0].version && e == v + [base[0]])
  {
    CollectedCases(c, base, insert, min);
    UpToPrefix(View(c, base), min);
  }

  /** The rewritten record is a main record again, and starts with the newest version. */
  lemma CollectedOK(c: seq<Entry>, base: seq<Entry>, insert: bool, min: nat)
    requires RecordOK(base, insert) && ChainOK(c, base) && !Unfaithful(c, base, insert, min)
    requires Collected(c, base, insert, min) != []
    ensures var v, e := View(c, base), Collected(c, base, insert, min);
            RecordOK(e, false) && v != [] && v[0] == e[0]
  {
    var v, e := View(c, base), Collected(c, base, insert, min);
    CollectedShape(c, base, insert, min);
    ViewOK(c, base);
    if e <= v {
      PrefixOK(e, v);
    } else {
      TwinOK(v, base[0]);
    }
  }

  // ------------------------------------------------------------------ nothing but what is needed is collected

  /** The elements before the trailing deletion is dropped. */
  function Gathered(c: seq<Entry>, base: seq<Entry>, insert: bool, min: nat): seq<Entry>
    requires base != []
  {
    var r := Iterate(c, base[0].version);
    if Newer(r.0, min) then r.0 + FromBase(base, insert, min, r.1) else UpTo(r.0, min)
  }

  predicate EndsInTwoDeletes(v: seq<Entry>) {
    |v| > 1 && v[|v| - 1].kind.Delete? && v[|v| - 2].kind.Delete?
  }

  /** A list of elements as they are gathered: no reverts, and only the last one may be old. */
  predicate Gatherable(g: seq<Entry>, min: nat) {
    forall i | 0 <= i < |g| :: !g[i].kind.Revert? && (i < |g| - 1 ==> min < g[i].version)
  }

  lemma GatherConcat(a: seq<Entry>, b: seq<Entry>, min: nat)
    requires NoReverts(a) && Newer(a, min) && Gatherable(b, min)
    ensures Gatherable(a + b, min)
  {
  }

  lemma {:induction false} UpToGatherable(v: seq<Entry>, min: nat)
    requires NoReverts(v)
    ensures Gatherable(UpTo(v, min), min)
  {
    if v != [] && v[0].version > min {
      UpToGatherable(v[1..], min);
    }
  }

  lemma FromBaseGatherable(base: seq<Entry>, insert: bool, min: nat, highest: nat)
    requires RecordOK(base, insert)
    ensures Gatherable(FromBase(base, insert, min, highest), min)
  {
    OlderHasNoReverts(base, highest);
    UpToGatherable(Older(base, highest), min);
  }

  lemma GatheredShape(c: seq<Entry>, base: seq<Entry>, insert: bool, min: nat)
    requires RecordOK(base, insert)
    ensures var g := Gathered(c, base, insert, min);
            && Gatherable(g, min)
            && Collected(c, base, insert, min) == if g != [] && g[|g| - 1].kind == Delete then g[..|g| - 1] else g
  {
    hide Iterate, Rest, FromBase, UpTo, Gatherable;
    var r := Iterate(c, base[0].version);
    IterateHasNoReverts(c, base[0].version);
    if Newer(r.0, min) {
      FromBaseGatherable(base, insert, min, r.1);
      GatherConcat(r.0, FromBase(base, insert, min, r.1), min);
    } else {
      UpToGatherable(r.0, min);
    }
  }

  /** Every collected element but the oldest is newer than `min`, and an element that is not is a tuple. */
  lemma OnlyNeededIsKept(c: seq<Entry>, base: seq<Entry>, insert: bool, min: nat)
    requires RecordOK(base, insert)
    ensures var e := Collected(c, base, insert, min);
            forall i | 0 <= i < |e| :: min < e[i].version || (i == |e| - 1 && e[i].kind == Data)
  {
    GatheredShape(c, base, insert, min);
  }

  /** The oldest collected element is a tuple, as the code asserts, if and only if not both of the two oldest elements that
      were gathered are deletions. */
  lemma OldestIsTuple(c: seq<Entry>, base: seq<Entry>, insert: bool, min: nat)
    requires RecordOK(base, insert) && Collected(c, base, insert, min) != []
    ensures var e := Collected(c, base, insert, min);
            e[|e| - 1].kind == Data <==> !EndsInTwoDeletes(Gathered(c, base, insert, min))
  {
    GatheredShape(c, base, insert, min);
  }

  /** A key whose newest version is a deletion not newer than `min` has no elements: its record is invalidated. */
  lemma DeletedIsDropped(c: seq<Entry>, base: seq<Entry>, insert: bool, min: nat)
    requires RecordOK(base, insert) && View(c, base) != []
    requires View(c, base)[0].kind == Delete && View(c, base)[0].version <= min
    ensures Collected(c, base, insert, min) == []
  {
    GatheredShape(c, base, insert, min);
    var r := Iterate(c, base[0].version);
    if r.0 == [] {
      var o := Older(base, r.1);
      assert View(c, base) == o && Gathered(c, base, insert, min) == FromBase(base, insert, min, r.1);
      assert UpTo(o, min) == [o[0]];
      if insert {
        assert base[1..] == [] && Older([], r.1) == [];
      }
    } else {
      assert View(c, base)[0] == r.0[0];
    }
  }

  /** For every tuple that a faithful collection keeps there is a snapshot with all versions up to `min` that reads it. */
  lemma KeptTupleIsRead(c: seq<Entry>, base: seq<Entry>, insert: bool, min: nat, i: nat)
    requires RecordOK(base, insert) && ChainOK(c, base) && !Unfaithful(c, base, insert, min) && Decreasing(View(c, base))
    requires Collected(c, base, insert, min) <= View(c, base) && i < |Collected(c, base, insert, min)|
    requires Collected(c, base, insert, min)[i].kind == Data
    ensures var x := Collected(c, base, insert, min)[i];
            Read(View(c, base), (u: nat) => u <= min || u == x.version, true) == Tuple(x.data, x.version, i == 0)
  {
    var v, e := View(c, base), Collected(c, base, insert, min);
    OnlyNeededIsKept(c, base, insert, min);
    assert forall j | 0 <= j < |e| :: v[j] == e[j];
    ReadIsFirst(v, (u: nat) => u <= min || u == e[i].version, true, i);
  }

  // ------------------------------------------------------------------ the old chain over the new record

  /** The part of a chain before the first record older than `b`. */
  function Prefix(c: seq<Entry>, b: nat): seq<Entry> {
    if c == [] || c[0].version < b then [] else [c[0]] + Prefix(c[1..], b)
  }

  lemma {:induction false} PrefixAbove(c: seq<Entry>, b: nat)
    ensures AllAbove(Prefix(c, b), b) && (BelowMax(c) ==> BelowMax(Prefix(c, b)))
    ensures AllAbove(c, b) ==> Prefix(c, b) == c
  {
    if c != [] && c[0].version >= b {
      PrefixAbove(c[1..], b);
      assert c == [c[0]] + c[1..];
    }
  }

  lemma {:induction false} PrefixConcat(a: seq<Entry>, c: seq<Entry>, b: nat)
    requires AllAbove(a, b)
    ensures Prefix(a + c, b) == a + Prefix(c, b)
  {
    if a == [] {
      assert a + c == c;
    } else {
      assert (a + c)[1..] == a[1..] + c;
      PrefixConcat(a[1..], c, b);
    }
  }

  lemma {:induction false} RestStops(c: seq<Entry>, b: nat, low: nat)
    ensures Rest(c, b, low) == Rest(Prefix(c, b), b, low)
  {
    if c != [] && c[0].version >= b {
      var t := c[1..];
      assert Prefix(c, b)[1..] == Prefix(t, b);
      RestStops(t, b, low);
      RestStops(t, b, c[0].version);
    }
  }

  /** The iterator does not look behind the first record older than the base. */
  lemma ViewStops(c: seq<Entry>, base: seq<Entry>)
    requires base != [] && c != [] && c[0].version >= base[0].version
    ensures View(c, base) == View(Prefix(c, base[0].version), base)
  {
    IterateStops(c, base[0].version);
  }

  lemma {:induction false} FirstVisible(c: seq<Entry>, low: nat, x: Entry)
    requires Visible(c, low) != [] && Visible(c, low)[0] == x
    ensures Visible(Prefix(c, x.version), low) == [x] && Lowest(Prefix(c, x.version), low) == x.version
  {
    VisibleSorted(c, low);
    var t, p := c[1..], Prefix(c[1..], x.version);
    PrefixAbove(t, x.version);
    if c[0].version >= low {
      FirstVisible(t, low, x);
      assert Prefix(c, x.version)[1..] == p;
    } else {
      VisibleSorted(t, c[0].version);
      assert Prefix(c, x.version)[1..] == p;
      if c[0].kind.Revert? {
        FirstVisible(t, c[0].version, x);
      } else {
        HiddenByLow(p, x.version);
      }
    }
  }

  lemma TwinsEquivalent(e: seq<Entry>, min: nat)
    requires e != [] && NonIncreasing(e)
    ensures Equivalent(e, [e[0]] + Under(e, e[0].version), min)
  {
    var x := e[0];
    var w := [x] + Under(e, x.version);
    forall s: nat -> bool, low: nat | ReadsAll(s, min) && min < low ensures Alike(Under(e, low), Under(w, low), s) {
      if x.version < low {
        TwinsAlike(e[1..], x.version, s);
        assert w[1..] == Under(e[1..], x.version);
      } else {
        assert w[1..] == Under(e, x.version);
        UnderUnder(e, x.version, low);
        UnderBelow(e, x.version);
        TwinsGone(e, low);
      }
    }
  }

  lemma TwinsGone(e: seq<Entry>, low: nat)
    requires e != [] && e[0].version >= low
    ensures Under(e, low) == Under(Under(e, e[0].version), low)
  {
    UnderUnder(e, low, e[0].version);
  }

  lemma {:induction false} TwinsAlike(t: seq<Entry>, v: nat, s: nat -> bool)
    requires forall i | 0 <= i < |t| :: t[i].version <= v
    ensures !s(v) ==> Read(t, s, false) == Read(Under(t, v), s, false)
  {
    if t != [] && t[0].version >= v {
      TwinsAlike(t[1..], v, s);
    }
  }

  // ------------------------------------------------------------------ chains that reach below their base record

  /** Cut at version `x`, the chain shows `x` alone, or nothing and hides nothing of it. */
  ghost predicate Shows(c: seq<Entry>, x: Entry, low: nat) {
    var p := Prefix(c, x.version);
    || (Visible(p, low) == [] && x.version < Lowest(p, low))
    || (Visible(p, low) == [x] && Lowest(p, low) == x.version)
  }

  /** The chain agrees with the list of versions `v` wherever a later revert may uncover it. */
  ghost predicate Covers(c: seq<Entry>, v: seq<Entry>) {
    forall l: nat | l <= MAX && Under(v, l) != [] :: Shows(c, Under(v, l)[0], l)
  }

  /** Wherever `w` starts when its newest part is hidden, `v` starts as well. */
  ghost predicate SameHeads(w: seq<Entry>, v: seq<Entry>) {
    forall l: nat | Under(w, l) != [] :: Under(v, l) != [] && Under(v, l)[0] == Under(w, l)[0]
  }

  lemma CoversHeads(c: seq<Entry>, v: seq<Entry>, w: seq<Entry>)
    requires Covers(c, v) && SameHeads(w, v)
    ensures Covers(c, w)
  {
  }

  lemma CoversNothing(v: seq<Entry>)
    ensures Covers([], v)
  {
    forall l: nat | l <= MAX && Under(v, l) != [] ensures Shows([], Under(v, l)[0], l) {
      UnderHead(v, l);
    }
  }

  lemma {:induction false} UnderHead(v: seq<Entry>, l: nat)
    ensures Under(v, l) != [] ==> Under(v, l)[0].version < l
  {
    if v != [] && v[0].version >= l {
      UnderHead(v[1..], l);
    }
  }

  lemma CoversGrown(ext: seq<Entry>, c: seq<Entry>, v: seq<Entry>)
    requires Covers(c, v)
    ensures Covers(ext + c, Visible(ext, MAX) + Under(v, Lowest(ext, MAX)))
  {
    var p, low := Visible(ext, MAX), Lowest(ext, MAX);
    var w := p + Under(v, low);
    forall l: nat | l <= MAX && Under(w, l) != [] ensures Shows(ext + c, Under(w, l)[0], l) {
      CoversGrownAt(ext, c, v, l);
    }
  }

  lemma CoversGrownAt(ext: seq<Entry>, c: seq<Entry>, v: seq<Entry>, l: nat)
    requires Covers(c, v) && l <= MAX
    requires Under(Visible(ext, MAX) + Under(v, Lowest(ext, MAX)), l) != []
    ensures Shows(ext + c, Under(Visible(ext, MAX) + Under(v, Lowest(ext, MAX)), l)[0], l)
  {
    var p, low := Visible(ext, MAX), Lowest(ext, MAX);
    var x := Under(p + Under(v, low), l)[0];
    UnderConcat(p, Under(v, low), l);
    VisibleUnder(ext, MAX, l);
    LowestUnder(ext, MAX, l);
    if Under(p, l) != [] {
      VisibleConcat(ext, c, l);
      FirstVisible(ext + c, l, x);
    } else {
      var m := if l < low then l else low;
      UnderUnder(v, m, if l < low then low else l);
      UnderHead(v, m);
      assert Shows(c, x, m);
      PrefixConcat(ext, c, x.version);
      VisibleConcat(ext, Prefix(c, x.version), l);
      assert [] + Visible(Prefix(c, x.version), m) == Visible(Prefix(c, x.version), m);
    }
  }

  lemma PrefixHeads(e: seq<Entry>, v: seq<Entry>)
    requires e <= v
    ensures SameHeads(e, v)
  {
    var t := v[|e|..];
    assert v == e + t;
    forall l: nat | Under(e, l) != [] ensures Under(v, l) != [] && Under(v, l)[0] == Under(e, l)[0] {
      UnderConcat(e, t, l);
    }
  }

  lemma TwinHeads(v: seq<Entry>, x: Entry)
    requires v != [] && v[|v| - 1].version == x.version && NonIncreasing(v)
    ensures SameHeads(v + [x], v)
  {
    forall l: nat | Under(v + [x], l) != [] ensures Under(v, l) != [] && Under(v, l)[0] == Under(v + [x], l)[0] {
      UnderConcat(v, [x], l);
      assert Under([x], l) == if x.version < l then [x] else [] by { assert [x][1..] == []; }
      if Under(v, l) == [] {
        UnderEmpty(v, l);
      }
    }
  }

  lemma {:induction false} UnderEmpty(v: seq<Entry>, l: nat)
    requires Under(v, l) == [] && v != []
    ensures l <= v[|v| - 1].version
  {
    if |v| > 1 {
      UnderEmpty(v[1..], l);
    }
  }

  // ------------------------------------------------------------------ records with any chain

  /** A record with its chain: the newest update record is not older than the base, and what lies behind the first older
      one agrees with the base. */
  ghost predicate Sound(c: seq<Entry>, base: seq<Entry>, insert: bool) {
    && RecordOK(base, insert) && BelowMax(c) && (c != [] ==> base[0].version <= c[0].version)
    && Covers(c, View(c, base))
  }

  lemma IterateStops(c: seq<Entry>, b: nat)
    requires c != [] ==> b <= c[0].version
    ensures Iterate(c, b) == Iterate(Prefix(c, b), b)
  {
    if c != [] {
      assert Prefix(c, b)[1..] == Prefix(c[1..], b);
      RestStops(c[1..], b, c[0].version);
    }
  }

  /** What is read and collected depends only on the chain down to the base version. */
  lemma SoundPrefix(c: seq<Entry>, base: seq<Entry>, insert: bool, min: nat)
    requires Sound(c, base, insert)
    ensures var p := Prefix(c, base[0].version);
            && ChainOK(p, base) && View(c, base) == View(p, base)
            && Collected(c, base, insert, min) == Collected(p, base, insert, min)
            && Unfaithful(c, base, insert, min) == Unfaithful(p, base, insert, min)
  {
    PrefixAbove(c, base[0].version);
    IterateStops(c, base[0].version);
  }

  lemma SoundGrown(ext: seq<Entry>, c: seq<Entry>, base: seq<Entry>, insert: bool)
    requires Sound(c, base, insert) && ChainOK(ext, base)
    ensures Sound(ext + c, base, insert)
    ensures View(ext + c, base) == Visible(ext, MAX) + Under(View(c, base), Lowest(ext, MAX))
  {
    var b := base[0].version;
    if ext == [] {
      assert ext + c == c;
      NothingAdded(c, base, insert);
    } else {
      SoundPrefix(c, base, insert, 0);
      ViewStops(ext + c, base);
      PrefixConcat(ext, c, b);
      ViewOfGrown(ext, Prefix(c, b), base);
      CoversGrown(ext, c, View(c, base));
    }
  }

  lemma NothingAdded(c: seq<Entry>, base: seq<Entry>, insert: bool)
    requires Sound(c, base, insert)
    ensures View(c, base) == Visible([], MAX) + Under(View(c, base), Lowest([], MAX))
  {
    SoundPrefix(c, base, insert, 0);
    ViewOK(Prefix(c, base[0].version), base);
    UnderAll(View(c, base), MAX);
  }

  lemma CollectedHeads(c: seq<Entry>, base: seq<Entry>, insert: bool, min: nat)
    requires RecordOK(base, insert) && ChainOK(c, base) && !Unfaithful(c, base, insert, min)
    ensures SameHeads(Collected(c, base, insert, min), View(c, base))
  {
    var v, e := View(c, base), Collected(c, base, insert, min);
    CollectedShape(c, base, insert, min);
    ViewOK(c, base);
    if e <= v {
      PrefixHeads(e, v);
    } else {
      TwinHeads(v, base[0]);
    }
  }

  /** The old chain over the rewritten record. */
  lemma RewrittenView(c: seq<Entry>, v: seq<Entry>, e: seq<Entry>, min: nat)
    requires BelowMax(c) && Covers(c, v) && RecordOK(e, false) && SameHeads(e, v) && v != [] && BelowMax(v) && v[0] == e[0]
    ensures var y := View(Prefix(c, e[0].version), e); Equivalent(e, y, min) && Covers(c, y)
  {
    var x := e[0];
    var p := Prefix(c, x.version);
    UnderAll(v, MAX);
    assert Shows(c, x, MAX);
    PrefixAbove(c, x.version);
    ViewIsLayers(p, e);
    CoversHeads(c, v, e);
    if Visible(p, MAX) == [] {
      assert View(p, e) == [] + Under(e, Lowest(p, MAX)) == e;
      EquivalentReflexive(e, min);
    } else {
      assert View(p, e) == [x] + Under(e, x.version);
      TwinsEquivalent(e, min);
      DropTwinsHeads(e);
      CoversHeads(c, e, [x] + Under(e, x.version));
    }
  }

  lemma DropTwinsHeads(e: seq<Entry>)
    requires e != []
    ensures SameHeads([e[0]] + Under(e, e[0].version), e)
  {
    var x := e[0];
    var w := [x] + Under(e, x.version);
    assert w[1..] == Under(e, x.version);
    forall l: nat | Under(w, l) != [] ensures Under(e, l) != [] && Under(e, l)[0] == Under(w, l)[0] {
      if l <= x.version {
        UnderUnder(e, l, x.version);
      }
    }
  }

  /** The update chain of the rewritten record when `ext` was written on top of `c` during the collection. */
  function NewChain(ext: seq<Entry>, c: seq<Entry>): seq<Entry> {
    if ext == [] then [] else ext + c
  }

  /** The rewritten record over the chain as it is when the record is replaced. */
  lemma RewrittenSound(ext: seq<Entry>, c: seq<Entry>, base: seq<Entry>, insert: bool, min: nat)
    requires Sound(c, base, insert) && !Unfaithful(c, base, insert, min) && min < MAX
    requires ChainOK(ext, base) && Newer(ext, min)
    requires var e := Collected(c, base, insert, min); e != [] && AllAbove(ext, e[0].version)
    ensures var e := Collected(c, base, insert, min);
            Sound(NewChain(ext, c), e, false) && Equivalent(View(ext + c, base), View(NewChain(ext, c), e), min)
  {
    hide Read, Visible, UpTo, Unfaithful, Collected;
    var v, e := View(c, base), Collected(c, base, insert, min);
    var b := base[0].version;
    SoundPrefix(c, base, insert, min);
    CollectedEquivalent(Prefix(c, b), base, insert, min);
    CollectedOK(Prefix(c, b), base, insert, min);
    if ext == [] {
      assert ext + c == c && View([], e) == e by { OlderIsUnder(e, MAX); }
      CoversNothing(e);
    } else {
      ViewOK(Prefix(c, b), base);
      CollectedHeads(Prefix(c, b), base, insert, min);
      RewrittenView(c, v, e, min);
      var y := View(Prefix(c, e[0].version), e);
      EquivalentTransitive(v, e, y, min);
      GrowEquivalent(ext, v, y, min);
      SoundGrown(ext, c, base, insert);
      RewrittenGrown(ext, c, e);
      CoversGrown(ext, c, y);
    }
  }

  lemma RewrittenGrown(ext: seq<Entry>, c: seq<Entry>, e: seq<Entry>)
    requires e != [] && ext != [] && AllAbove(ext, e[0].version) && BelowMax(ext) && BelowMax(c)
    ensures View(ext + c, e) == Visible(ext, MAX) + Under(View(Prefix(c, e[0].version), e), Lowest(ext, MAX))
  {
    PrefixAbove(c, e[0].version);
    PrefixConcat(ext, c, e[0].version);
    ViewStops(ext + c, e);
    ViewOfGrown(ext, Prefix(c, e[0].version), e);
  }

  /** A chain without records older than the base is sound. */
  lemma AboveIsSound(c: seq<Entry>, base: seq<Entry>, insert: bool)
    requires RecordOK(base, insert) && ChainOK(c, base)
    ensures Sound(c, base, insert)
  {
    CoversNothing(View([], base));
    SoundGrown(c, [], base, insert);
    assert c + [] == c;
  }

  // ------------------------------------------------------------------ main results

  lemma EquivalentReads(v: seq<Entry>, w: seq<Entry>, min: nat, s: nat -> bool)
    requires Equivalent(v, w, min) && ReadsAll(s, min) && min < MAX && BelowMax(v) && BelowMax(w)
    ensures Same(Read(v, s, true), Read(w, s, true))
  {
    UnderAll(v, MAX);
    UnderAll(w, MAX);
    assert Alike(Under(v, MAX), Under(w, MAX), s);
  }

  /** Without reverts in the chain no collection is unfaithful. */
  lemma RevertFreeIsFaithful(c: seq<Entry>, base: seq<Entry>, insert: bool, min: nat)
    requires RecordOK(base, insert) && ChainOK(c, base)
    requires min < MAX && forall i | 0 <= i < |c| :: !c[i].kind.Revert?
    ensures !Unfaithful(c, base, insert, min)
  {
    IterateIsVisible(c, base[0].version);
    LowestIsLast(c, MAX);
  }

  lemma {:induction false} LowestIsLast(c: seq<Entry>, low: nat)
    requires forall i | 0 <= i < |c| :: !c[i].kind.Revert?
    ensures var d := Visible(c, low); Lowest(c, low) == if d == [] then low else d[|d| - 1].version
  {
    if c != [] {
      LowestIsLast(c[1..], if c[0].version < low then c[0].version else low);
    }
  }

  /** Collection is right exactly if it is not unfaithful: otherwise some snapshot that reads all versions up to `min`
      loses the key or sees a reverted insert. */
  lemma FaithfulExactly(c: seq<Entry>, base: seq<Entry>, insert: bool, min: nat)
    requires Sound(c, base, insert) && min < MAX
    ensures Equivalent(View(c, base), Collected(c, base, insert, min), min) <==> !Unfaithful(c, base, insert, min)
  {
    SoundPrefix(c, base, insert, min);
    var p := Prefix(c, base[0].version);
    if !Unfaithful(p, base, insert, min) {
      CollectedEquivalent(p, base, insert, min);
    } else if Swallows(p, base, min) {
      SwallowLoses(p, base, insert, min);
    } else {
      ResurrectShows(p, base, min);
    }
  }

  lemma NoneReadable(v: seq<Entry>, s: nat -> bool, n: bool)
    requires forall i | 0 <= i < |v| :: !s(v[i].version)
    ensures Read(v, s, n) == Missing(n && v == [])
  {
    ReadConcat(v, [], s, n);
    assert v + [] == v;
  }

  lemma SwallowLoses(c: seq<Entry>, base: seq<Entry>, insert: bool, min: nat)
    requires RecordOK(base, insert) && ChainOK(c, base) && min < MAX && Swallows(c, base, min)
    ensures !Equivalent(View(c, base), Collected(c, base, insert, min), min)
  {
    var s := (u: nat) => u <= min;
    var d, low := Visible(c, MAX), Lowest(c, MAX);
    var v, e, o := View(c, base), Collected(c, base, insert, min), Under(base, Lowest(c, MAX));
    ViewIsLayers(c, base);
    IterateIsVisible(c, base[0].version);
    OlderIsUnder(base, low);
    UnderBelow(base, low);
    assert d + [] == d;
    ReadConcat(d, o, s, true);
    NoneReadable(e, s, true);
    ViewOK(c, base);
    assert BelowMax(e) by { assert forall i | 0 <= i < |e| :: e[i] == v[i]; }
    if Equivalent(v, e, min) {
      EquivalentReads(v, e, min, s);
      assert false;
    }
  }

  lemma ResurrectShape(c: seq<Entry>, base: seq<Entry>, min: nat)
    requires RecordOK(base, true) && ChainOK(c, base) && Resurrects(c, base, min)
    ensures var d := View(c, base);
            && Collected(c, base, true, min) == d + base && Newer(d, min) && BelowMax(d)
            && forall i | 0 <= i < |d| :: d[i].version != base[0].version
  {
    hide Swallows, Unfaithful, UpTo, NonIncreasing;
    var x := base[0];
    var d := Visible(c, MAX);
    IterateIsVisible(c, x.version);
    assert Older(base, x.version) == [] by { assert base[1..] == []; }
    assert d + [] == d;
    VisibleSorted(c, MAX);
    VisibleAboveLowest(c, MAX);
    if d != [] {
      var y := d[|d| - 1];
      assert forall i | 0 <= i < |d| - 1 :: y.version < d[i].version;
    }
  }

  lemma ResurrectShows(c: seq<Entry>, base: seq<Entry>, min: nat)
    requires RecordOK(base, true) && ChainOK(c, base) && min < MAX && Resurrects(c, base, min)
    ensures !Equivalent(View(c, base), Collected(c, base, true, min), min)
  {
    var x, d := base[0], View(c, base);
    var s := (u: nat) => u <= min || u == x.version;
    ResurrectShape(c, base, min);
    NoneReadable(d, s, true);
    ReadConcat(d, base, s, true);
    if Equivalent(d, d + base, min) {
      EquivalentReads(d, d + base, min, s);
      assert false;
    }
  }

  lemma SoundViewOK(c: seq<Entry>, base: seq<Entry>, insert: bool)
    requires Sound(c, base, insert)
    ensures BelowMax(View(c, base)) && NonIncreasing(View(c, base))
  {
    SoundPrefix(c, base, insert, 0);
    ViewOK(Prefix(c, base[0].version), base);
  }

  /** Lookups on the rewritten record, with the updates `ext` that arrived during the collection, give what lookups on
      the old record give. */
  lemma CollectionKeepsReads(ext: seq<Entry>, c: seq<Entry>, base: seq<Entry>, insert: bool, min: nat, s: nat -> bool)
    requires Sound(c, base, insert) && !Unfaithful(c, base, insert, min)
    requires ChainOK(ext, base) && Newer(ext, min) && min < MAX && ReadsAll(s, min)
    requires var e := Collected(c, base, insert, min); e != [] && AllAbove(ext, e[0].version)
    ensures var e := Collected(c, base, insert, min);
            Same(Read(View(ext + c, base), s, true), Read(View(NewChain(ext, c), e), s, true))
  {
    var e := Collected(c, base, insert, min);
    RewrittenSound(ext, c, base, insert, min);
    SoundGrown(ext, c, base, insert);
    SoundViewOK(ext + c, base, insert);
    SoundViewOK(NewChain(ext, c), e, false);
    EquivalentReads(View(ext + c, base), View(NewChain(ext, c), e), min, s);
  }

  lemma SoundCollected(c: seq<Entry>, base: seq<Entry>, insert: bool, min: nat)
    requires Sound(c, base, insert) && !Unfaithful(c, base, insert, min)
    ensures Equivalent(View(c, base), Collected(c, base, insert, min), min)
  {
    SoundPrefix(c, base, insert, min);
    CollectedEquivalent(Prefix(c, base[0].version), base, insert, min);
  }

  /** An invalidated record had no tuple to read. */
  lemma InvalidatedHasNothing(c: seq<Entry>, base: seq<Entry>, insert: bool, min: nat, s: nat -> bool)
    requires Sound(c, base, insert) && !Unfaithful(c, base, insert, min)
    requires min < MAX && ReadsAll(s, min) && Collected(c, base, insert, min) == []
    ensures !Read(View(c, base), s, true).Tuple?
  {
    SoundCollected(c, base, insert, min);
    SoundViewOK(c, base, insert);
    EquivalentReads(View(c, base), [], min, s);
  }

  /** Version 5 updates a key and reverts; with `min` at 6 the tuple of version 1 is lost with its record. */
  lemma RevertLosesKey(s: nat -> bool)
    requires ReadsAll(s, 6)
    ensures var c, base := [Entry(5, Revert, []), Entry(5, Data, [50])], [Entry(1, Data, [10])];
            && Read(View(c, base), s, true) == Tuple([10], 1, true)
            && Collected(c, base, false, 6) == [] && Collected(c, base, true, 6) == []
  {
    var c, base := [Entry(5, Revert, []), Entry(5, Data, [50])], [Entry(1, Data, [10])];
    assert c[1..] == [c[1]] && c[1..][1..] == [];
    assert Rest([], 1, 5) == ([], 5) && Rest(c[1..], 1, 5) == ([], 5);
    assert Iterate(c, 1) == ([], 5);
    assert View(c, base) == base;
  }

  /** Version 5 inserts a key and reverts; with `min` at 3 the collection brings the tuple back. */
  lemma RevertedInsertComesBack()
    ensures var c, base := [Entry(5, Revert, [])], [Entry(5, Data, [50])];
            View(c, base) == [] && Collected(c, base, true, 3) == base
  {
    var c, base := [Entry(5, Revert, [])], [Entry(5, Data, [50])];
    assert Iterate(c, 5) == ([], 5);
    assert Older(base, 5) == [] by { assert base[1..] == []; }
    assert [] + base == base;
  }

  /** The failing input of the assertion: version 3 deletes a key, and 5 inserts and deletes it; with `min` at 3 the record
      is rewritten although all that is left of it is the deletion of version 5. */
  lemma DeletionIsKept(sees: (nat, nat) -> bool)
    requires ReadsOK(sees) && sees(3, 1) && sees(5, 3) && sees(5, 5)
    ensures var base := [Entry(1, Data, [10])];
            var h := [Write(5, Data, Delete, []), Write(5, Delete, Data, [50]), Write(3, Data, Delete, [])];
            BaseOK(base) && History(sees, base, h) && Collected(Records(h), base, true, 3) == [Entry(5, Delete, [])]
  {
    hide History, Accepted, View, Read, Visible;
    var base := [Entry(1, Data, [10])];
    var a, b, d := Write(3, Data, Delete, []), Write(5, Delete, Data, [50]), Write(5, Data, Delete, []);
    var view := [Record(a), base[0]];
    NothingWritten(sees, base);
    AcceptedOn(sees, Records([]), base, a, base);
    HistoryCons(sees, base, [], a);
    assert [a] + [] == [a] && Push(base, Record(a)) == view;
    AcceptedOn(sees, Records([a]), base, b, view);
    HistoryCons(sees, base, [a], b);
    assert [b] + [a] == [b, a] && Push(view, Record(b)) == [Record(b)] + view;
    AcceptedOn(sees, Records([b, a]), base, d, [Record(b)] + view);
    HistoryCons(sees, base, [b, a], d);
    assert [d] + [b, a] == [d, b, a];
    GatheredDeletions();
  }

  lemma NothingWritten(sees: (nat, nat) -> bool, base: seq<Entry>)
    requires BaseOK(base)
    ensures History(sees, base, []) && NoneBelow(base, []) && View(Records([]), base) == base
  {
    assert Records([]) == [] && [] + base == base;
  }

  lemma GatheredDeletions()
    ensures var c := [Entry(5, Delete, []), Entry(5, Data, [50]), Entry(3, Delete, [])];
            Collected(c, [Entry(1, Data, [10])], true, 3) == [Entry(5, Delete, [])]
  {
    var x, y, z := Entry(5, Delete, []), Entry(5, Data, [50]), Entry(3, Delete, []);
    assert [x, y, z][1..] == [y, z] && [y, z][1..] == [z] && [z][1..] == [];
    assert [z] + [] == [z] && Rest([], 1, 3) == ([], 3);
    assert Rest([z], 1, 5) == ([z] + [], 3);
    assert Rest([y, z], 1, 5) == ([z], 3);
    assert Iterate([x, y, z], 1) == ([x] + [z], 3) && [x] + [z] == [x, z] && [x, z][1..] == [z];
    assert UpTo([z], 3) == [z] && UpTo([x, z], 3) == [x] + [z] && [x, z][..1] == [x];
  }
}
