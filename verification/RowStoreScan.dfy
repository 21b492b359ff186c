/**
 The row-store scan (deltamain/rowstore/RowStoreScanProcessor.cpp): it does not ask a snapshot while it walks the
 versions of a record, but hands out every tuple with the versions between which it is valid; the query then admits a
 tuple if its snapshot reads the first and not the second version (util/ScanQuery.hpp).
 */
module RowStoreScan {
  import opened Common
  import opened DeltaMain
  import opened RowStoreGc
  import opened Relocation

  /** A tuple as handed to the queries. */
  datatype Interval = Interval(from: nat, to: nat, data: seq<int>)

  /** The tuples of a list of versions, newest first; the newest is valid until `to`. */
  function Intervals(v: seq<Entry>, to: nat): seq<Interval> {
    if v == [] then []
    else Own(v[0], to) + Intervals(v[1..], v[0].version)
  }

  function Own(e: Entry, to: nat): seq<Interval> {
    if e.kind.Data? then [Interval(e.version, to, e.data)] else []
  }

  function Until(v: seq<Entry>, to: nat): nat {
    if v == [] then to else v[|v| - 1].version
  }

  lemma {:induction false} IntervalsConcat(a: seq<Entry>, b: seq<Entry>, to: nat)
    ensures Intervals(a + b, to) == Intervals(a, to) + Intervals(b, Until(a, to))
  {
    if a == [] {
      assert a + b == b;
    } else {
      var t := a[1..];
      assert (a + b)[1..] == t + b;
      IntervalsConcat(t, b, a[0].version);
      assert Until(t, a[0].version) == Until(a, to);
    }
  }

  lemma IntervalsLast(a: seq<Entry>, e: Entry, to: nat)
    ensures Intervals(a + [e], to)
            == Intervals(a, to) + Own(e, Until(a, to))
  {
    IntervalsConcat(a, [e], to);
    assert [e][1..] == [];
  }

  /** processUpdateRecord. */
  method ProcessUpdateRecord(c: seq<Entry>, b: nat, to: nat) returns (lowest: nat, validTo: nat, out: seq<Interval>)
    ensures var r := Iterate(c, b); lowest == r.1 && validTo == Until(r.0, to) && out == Intervals(r.0, to)
  {
    validTo, out := to, [];
    var it := new UpdateRecordIterator(c, b);
    ghost var done: seq<Entry> := [];
    while !it.Done()
      invariant it.Valid() && it.chain == c && it.base == b && fresh(it)
      invariant it.delivered == done + if it.Done() then [] else [c[it.pos]]
      invariant validTo == Until(done, to) && out == Intervals(done, to)
      decreases |c| - it.pos
    {
      var e := c[it.pos];
      IntervalsLast(done, e, to);
      if !e.kind.Delete? {
        out := out + [Interval(e.version, validTo, e.data)];
      }
      validTo := e.version;
      done := done + [e];
      it.Next();
    }
    assert it.delivered == done;
    lowest := it.lowest;
  }

  lemma BaseAlone(base: seq<Entry>, insert: bool)
    requires RecordOK(base, insert)
    ensures Iterate([], base[0].version) == ([], MAX) && Older(base, MAX) == base[0..]
  {
    assert base[0..] == base;
  }

  /** processMainRecord and processInsertRecord: follows the links of replaced records, then hands out the tuples of the
      update log and of the base elements that it does not hide. */
  method ProcessRecord(recs: seq<Rec>, i: nat) returns (out: seq<Interval>)
    requires Linked(recs) && i < |recs| && forall j | 0 <= j < |recs| :: RecordOK(recs[j].base, recs[j].insert)
    ensures var r := recs[|recs| - 1];
            out == if r.newest.Invalid? then [] else Intervals(View(r.newest.chain, r.base), MAX)
    decreases |recs| - i
  {
    match recs[i].newest
    case Invalid => out := [];
    case Main(j) => out := ProcessRecord(recs, j);
    case Update(c) =>
      var base := recs[i].base;
      ghost var r := Iterate(c, base[0].version);
      var validTo, k := MAX, 0;
      out := [];
      if c != [] {
        var lowest;
        lowest, validTo, out := ProcessUpdateRecord(c, base[0].version, MAX);
        k := SkipHidden(base, lowest);
      } else {
        BaseAlone(base, recs[i].insert);
      }
      IntervalsConcat(r.0, base[k..], MAX);
      var rest := ProcessElements(base, k, validTo);
      out := out + rest;
  }

  /** The loop over the elements of a record. */
  method ProcessElements(base: seq<Entry>, start: nat, to: nat) returns (out: seq<Interval>)
    requires start <= |base| && forall i | 0 <= i < |base| :: !base[i].kind.Revert?
    ensures out == Intervals(base[start..], to)
  {
    var validTo := to;
    out := [];
    var i := start;
    while i < |base|
      invariant start <= i <= |base|
      invariant Intervals(base[start..], to) == out + Intervals(base[i..], validTo)
    {
      IntervalsStep(base, i, validTo, out);
      if base[i].kind.Data? {
        out := out + [Interval(base[i].version, validTo, base[i].data)];
      }
      validTo := base[i].version;
      i := i + 1;
    }
  }

  lemma IntervalsStep(base: seq<Entry>, i: nat, to: nat, out: seq<Interval>)
    requires i < |base|
    ensures out + Intervals(base[i..], to) == (out + Own(base[i], to)) + Intervals(base[i + 1..], base[i].version)
    ensures !base[i].kind.Data? ==> out + Own(base[i], to) == out
  {
    assert base[i..][1..] == base[i + 1..];
  }

  // ------------------------------------------------------------------ what a query receives

  /** The tuples that a query with the given snapshot keeps. */
  function Admitted(x: seq<Interval>, snapshot: nat -> bool): seq<Interval> {
    if x == [] then []
    else (if snapshot(x[0].from) && !snapshot(x[0].to) then [x[0]] else []) + Admitted(x[1..], snapshot)
  }

  lemma {:induction false} AdmittedConcat(a: seq<Interval>, b: seq<Interval>, snapshot: nat -> bool)
    ensures Admitted(a + b, snapshot) == Admitted(a, snapshot) + Admitted(b, snapshot)
  {
    if a == [] {
      assert a + b == b;
    } else {
      assert (a + b)[1..] == a[1..] + b;
      AdmittedConcat(a[1..], b, snapshot);
    }
  }

  /** Every version was written by a transaction that read all older ones. */
  ghost predicate SeenBelow(sees: (nat, nat) -> bool, v: seq<Entry>) {
    forall i, j | 0 <= i < j < |v| :: sees(v[i].version, v[j].version)
  }

  ghost predicate Transitive(sees: (nat, nat) -> bool) {
    forall a, b, c | sees(a, b) && sees(b, c) :: sees(a, c)
  }

  /** The tuple of a lookup, as a list. */
  function Found(o: Outcome): seq<(nat, seq<int>)> {
    if o.Tuple? then [(o.version, o.data)] else []
  }

  function Contents(x: seq<Interval>): seq<(nat, seq<int>)> {
    seq(|x|, i requires 0 <= i < |x| => (x[i].from, x[i].data))
  }

  lemma {:induction false} ReadBelow(sees: (nat, nat) -> bool, v: seq<Entry>, t: nat, to: nat)
    requires sees(t, to) && forall i | 0 <= i < |v| :: sees(t, v[i].version)
    ensures Admitted(Intervals(v, to), (u: nat) => sees(t, u)) == []
  {
    var snapshot := (u: nat) => sees(t, u);
    if v != [] {
      var first := Own(v[0], to);
      AdmittedConcat(first, Intervals(v[1..], v[0].version), snapshot);
      ReadBelow(sees, v[1..], t, v[0].version);
      assert first != [] ==> first[1..] == [];
    }
  }

  /** The intervals of a list of versions admit exactly the tuple that a lookup in the list returns. */
  lemma {:induction false} AdmittedIsRead(sees: (nat, nat) -> bool, v: seq<Entry>, t: nat, to: nat, newest: bool)
    requires Transitive(sees) && SeenBelow(sees, v) && !sees(t, to)
    ensures var snapshot := (u: nat) => sees(t, u);
            Contents(Admitted(Intervals(v, to), snapshot)) == Found(Read(v, snapshot, newest))
  {
    var snapshot := (u: nat) => sees(t, u);
    if v != [] {
      var e, rest := v[0], v[1..];
      var first := Own(e, to);
      AdmittedConcat(first, Intervals(rest, e.version), snapshot);
      assert first != [] ==> first[1..] == [];
      assert forall i | 0 <= i < |rest| :: rest[i] == v[i + 1];
      if sees(t, e.version) {
        assert forall i | 0 <= i < |rest| :: sees(e.version, rest[i].version);
        ReadBelow(sees, rest, t, e.version);
      } else {
        AdmittedIsRead(sees, rest, t, e.version, false);
      }
    }
  }

  /** Accepted writes see everything below them. */
  lemma {:induction false} StackSeen(sees: (nat, nat) -> bool, base: seq<Entry>, h: seq<Op>)
    requires BaseOK(base) && ReadsOK(sees) && Transitive(sees) && SeenBelow(sees, base)
    requires History(sees, base, h) && NoneBelow(base, h)
    ensures SeenBelow(sees, Stack(base, h))
  {
    if h != [] {
      var t := h[1..];
      StackSeen(sees, base, t);
      ViewIsStack(sees, base, t);
      if h[0].Write? {
        PushSeen(sees, Stack(base, t), Record(h[0]));
      }
    }
  }

  lemma PushSeen(sees: (nat, nat) -> bool, below: seq<Entry>, e: Entry)
    requires Transitive(sees) && SeenBelow(sees, below) && (below != [] ==> sees(e.version, below[0].version))
    ensures SeenBelow(sees, Push(below, e))
  {
    var v := Push(below, e);
    forall i, j | 0 <= i < j < |v| ensures sees(v[i].version, v[j].version) {
      var d := |below| + 1 - |v|;
      assert v[j] == below[j - 1 + d];
      if i > 0 {
        assert v[i] == below[i - 1 + d];
      } else if j - 1 + d > 0 {
        assert sees(below[0].version, below[j - 1 + d].version);
      }
    }
  }

  /** For every history of a record and every transaction, with transitive read sets, the scan admits exactly the one
      version that a lookup of the transaction returns, or none if it returns none. */
  lemma ScanAgreesWithLookup(sees: (nat, nat) -> bool, base: seq<Entry>, h: seq<Op>, t: nat)
    requires BaseOK(base) && ReadsOK(sees) && Transitive(sees) && SeenBelow(sees, base) && !sees(t, MAX)
    requires History(sees, base, h) && NoneBelow(base, h)
    ensures var v, snapshot := View(Records(h), base), (u: nat) => sees(t, u);
            Contents(Admitted(Intervals(v, MAX), snapshot)) == Found(Read(v, snapshot, true))
  {
    StackSeen(sees, base, h);
    ViewIsStack(sees, base, h);
    AdmittedIsRead(sees, Stack(base, h), t, MAX, true);
  }

  // ------------------------------------------------------------------ scans of rewritten records

  function Versions(v: seq<Entry>): set<nat> {
    set i | 0 <= i < |v| :: v[i].version
  }

  ghost predicate Reflexive(sees: (nat, nat) -> bool) {
    forall a: nat :: sees(a, a)
  }

  lemma IndexOf(v: seq<Entry>, u: nat) returns (i: nat)
    requires u in Versions(v)
    ensures i < |v| && v[i].version == u
  {
    var k :| 0 <= k < |v| && v[k].version == u;
    i := k;
  }

  /** Whether every writer saw all older versions depends on the set of versions only. */
  lemma SeenSubset(sees: (nat, nat) -> bool, v: seq<Entry>, w: seq<Entry>)
    requires Reflexive(sees) && SeenBelow(sees, v) && NonIncreasing(v) && NonIncreasing(w) && Versions(w) <= Versions(v)
    ensures SeenBelow(sees, w)
  {
    forall i, j | 0 <= i < j < |w| ensures sees(w[i].version, w[j].version) {
      assert w[i].version in Versions(w) && w[j].version in Versions(w);
      var p := IndexOf(v, w[i].version);
      var q := IndexOf(v, w[j].version);
      assert w[i].version != w[j].version ==> p < q;
    }
  }

  lemma VersionsConcat(a: seq<Entry>, b: seq<Entry>)
    ensures Versions(a + b) == Versions(a) + Versions(b)
  {
    forall u | u in Versions(b) ensures u in Versions(a + b) {
      var i := IndexOf(b, u);
      assert (a + b)[|a| + i] == b[i];
    }
    forall u | u in Versions(a) ensures u in Versions(a + b) {
      var i := IndexOf(a, u);
      assert (a + b)[i] == a[i];
    }
  }

  lemma {:induction false} UnderVersions(v: seq<Entry>, low: nat)
    requires NonIncreasing(v)
    ensures Versions(Under(v, low)) == set u | u in Versions(v) && u < low
  {
    if v != [] {
      var t := v[1..];
      assert v == [v[0]] + t;
      VersionsConcat([v[0]], t);
      assert Versions([v[0]]) == {v[0].version};
      if v[0].version >= low {
        UnderVersions(t, low);
      } else {
        forall u | u in Versions(v) ensures u < low {
          var i := IndexOf(v, u);
        }
      }
    }
  }

  /** The collected elements have no new versions, and the old chain over them shows none either. */
  lemma CollectedVersions(c: seq<Entry>, base: seq<Entry>, insert: bool, min: nat)
    requires RecordOK(base, insert) && ChainOK(c, base) && !Unfaithful(c, base, insert, min)
    ensures Versions(Collected(c, base, insert, min)) <= Versions(View(c, base))
  {
    var v, e := View(c, base), Collected(c, base, insert, min);
    CollectedShape(c, base, insert, min);
    if e <= v {
      VersionsConcat(e, v[|e|..]);
      assert v == e + v[|e|..];
    } else {
      VersionsConcat(v, [base[0]]);
      assert v[|v| - 1].version in Versions(v);
    }
  }

  lemma OldChainVersions(c: seq<Entry>, v: seq<Entry>, e: seq<Entry>)
    requires BelowMax(c) && Covers(c, v) && RecordOK(e, false) && v != [] && BelowMax(v) && v[0] == e[0]
    ensures var y := View(Prefix(c, e[0].version), e); NonIncreasing(y) && Versions(y) <= Versions(e)
  {
    hide Covers;
    var x := e[0];
    var p := Prefix(c, x.version);
    CoversFirst(c, v, x);
    PrefixAbove(c, x.version);
    ViewIsLayers(p, e);
    ViewOK(p, e);
    if Visible(p, MAX) == [] {
      assert View(p, e) == [] + Under(e, Lowest(p, MAX));
      UnderVersions(e, Lowest(p, MAX));
      assert [] + Under(e, Lowest(p, MAX)) == Under(e, Lowest(p, MAX));
    } else {
      assert View(p, e) == [x] + Under(e, x.version);
      VersionsConcat([x], Under(e, x.version));
      UnderVersions(e, x.version);
      assert x.version in Versions(e);
    }
  }

  lemma CoversFirst(c: seq<Entry>, v: seq<Entry>, x: Entry)
    requires Covers(c, v) && v != [] && BelowMax(v) && v[0] == x
    ensures Shows(c, x, MAX)
  {
    UnderAll(v, MAX);
  }

  /** Rewriting a record adds no version to what lookups consider. */
  lemma RewrittenVersions(ext: seq<Entry>, c: seq<Entry>, base: seq<Entry>, insert: bool, min: nat)
    requires Sound(c, base, insert) && !Unfaithful(c, base, insert, min) && ChainOK(ext, base)
    requires var e := Collected(c, base, insert, min); e != [] && AllAbove(ext, e[0].version)
    ensures var e := Collected(c, base, insert, min);
            Versions(View(NewChain(ext, c), e)) <= Versions(View(ext + c, base))
  {
    hide Covers, Unfaithful, Collected;
    var v, e, p := View(c, base), Collected(c, base, insert, min), Prefix(c, base[0].version);
    var low := Lowest(ext, MAX);
    SoundPrefix(c, base, insert, min);
    SoundViewOK(c, base, insert);
    CollectedVersions(p, base, insert, min);
    CollectedOK(p, base, insert, min);
    if ext == [] {
      assert ext + c == c;
      PlainView(e);
    } else {
      var y := View(Prefix(c, e[0].version), e);
      OldChainVersions(c, v, e);
      SoundGrown(ext, c, base, insert);
      RewrittenGrown(ext, c, e);
      VersionsConcat(Visible(ext, MAX), Under(v, low));
      VersionsConcat(Visible(ext, MAX), Under(y, low));
      UnderVersions(v, low);
      UnderVersions(y, low);
    }
  }

  lemma PlainView(e: seq<Entry>)
    requires RecordOK(e, false)
    ensures View([], e) == e
  {
    ViewIsLayers([], e);
    UnderAll(e, MAX);
    assert [] + e == e;
  }

  /** Every version that lookups consider was written by a transaction that read all older ones. */
  ghost predicate ActualSeen(sees: (nat, nat) -> bool, s: State) {
    s.recs != [] && Last(s).base != [] && SeenBelow(sees, Actual(s))
  }

  lemma {:induction false} SuffixSeen(sees: (nat, nat) -> bool, v: seq<Entry>, low: nat)
    requires SeenBelow(sees, v)
    ensures SeenBelow(sees, Under(v, low))
  {
    if v != [] && v[0].version >= low {
      var t := v[1..];
      assert forall i, j | 0 <= i < j < |t| :: t[i] == v[i + 1] && t[j] == v[j + 1];
      SuffixSeen(sees, t, low);
    }
  }

  lemma {:induction false} UnderIn(v: seq<Entry>, low: nat)
    ensures forall i | 0 <= i < |Under(v, low)| :: Under(v, low)[i] in v
  {
    if v != [] && v[0].version >= low {
      UnderIn(v[1..], low);
    }
  }

  /** An accepted operation on top of a list of versions. */
  lemma AcceptedSeen(sees: (nat, nat) -> bool, c: seq<Entry>, base: seq<Entry>, insert: bool, op: Op)
    requires Transitive(sees) && Sound(c, base, insert) && Accepted(sees, c, base, op) && base[0].version <= op.version
    requires SeenBelow(sees, View(c, base))
    ensures SeenBelow(sees, View([Record(op)] + c, base))
  {
    hide Covers;
    var e, v := Record(op), View(c, base);
    var low := Lowest([e], MAX);
    AcceptedSees(sees, c, base, op);
    SoundGrown([e], c, base, insert);
    SuffixSeen(sees, v, low);
    UnderIn(v, low);
    ShownSeen(sees, Visible([e], MAX), v, Under(v, low));
  }

  lemma AcceptedSees(sees: (nat, nat) -> bool, c: seq<Entry>, base: seq<Entry>, op: Op)
    requires base != [] && Accepted(sees, c, base, op)
    ensures Visible([Record(op)], MAX) != [] ==>
              Visible([Record(op)], MAX) == [Record(op)] && (View(c, base) != [] ==> sees(op.version, View(c, base)[0].version))
  {
    assert [Record(op)][1..] == [];
  }

  lemma ShownSeen(sees: (nat, nat) -> bool, top: seq<Entry>, v: seq<Entry>, rest: seq<Entry>)
    requires Transitive(sees) && SeenBelow(sees, v) && SeenBelow(sees, rest) && forall i | 0 <= i < |rest| :: rest[i] in v
    requires |top| <= 1 && (top != [] && v != [] ==> sees(top[0].version, v[0].version))
    ensures SeenBelow(sees, top + rest)
  {
    forall i, j | 0 <= i < j < |top + rest| ensures sees((top + rest)[i].version, (top + rest)[j].version) {
      if i < |top| {
        assert rest[j - |top|] in v;
        var k :| 0 <= k < |v| && v[k] == rest[j - |top|];
        assert k > 0 ==> sees(v[0].version, v[k].version);
      }
    }
  }

  lemma SwapSeen(sees: (nat, nat) -> bool, s: State, t: nat, s': State)
    requires Transitive(sees) && Inv(sees, s) && SwapStep(s, t, s') && ActualSeen(sees, s)
    ensures ActualSeen(sees, s')
  {
    hide Sound, Accepted, Equivalent, CollectorInv, View, Record, RecordOK;
    var w := s.writers[t];
    if s.recs[w.record].newest == Update(w.expected) {
      assert w.record == |s.recs| - 1;
      var r := Last(s);
      AcceptedSeen(sees, w.expected, r.base, r.insert, w.op);
    }
  }

  lemma RelinkSeen(sees: (nat, nat) -> bool, s: State, s': State)
    requires Reflexive(sees) && Inv(sees, s) && Inv(sees, s') && RelinkStep(s, s') && ActualSeen(sees, s)
    ensures ActualSeen(sees, s')
  {
    hide Sound, Accepted, Equivalent, View, Unfaithful, Collected, RecordOK, SeenBelow, WriterInv, Grew, Layers;
    if Last(s).newest == Update(s.gc.held) {
      var r, r' := Last(s), Last(s');
      assert r' == Rec(s.gc.elements, false, Update(s.gc.copy));
      SoundViewOK(s.gc.held, r.base, r.insert);
      SoundViewOK(s.gc.copy, s.gc.elements, false);
      MovedVersionSet(s.gc, r, s.min);
      SeenSubset(sees, View(s.gc.held, r.base), View(s.gc.copy, s.gc.elements));
    }
  }

  lemma MovedVersionSet(gc: Collector, r: Rec, min: nat)
    requires gc.Moving? && r.base != [] && MovingOK(gc, r, min) && gc.elements != [] && r.newest == Update(gc.held)
    ensures Versions(View(gc.copy, gc.elements)) <= Versions(View(gc.held, r.base))
  {
    hide Sound, View, Unfaithful, Collected, RecordOK;
    if Copied(gc, r) {
      return;
    }
    var c, seen := gc.held, gc.seen;
    var ext := c[..|c| - |seen|];
    assert gc.copy == NewChain(ext, seen) by {
      if ext == [] {
        assert [] + seen == seen;
      } else {
        assert |c| != |seen|;
      }
    }
    RewrittenVersions(ext, seen, r.base, r.insert, min);
  }

  lemma NextSeen(sees: (nat, nat) -> bool, s: State, l: Label, s': State)
    requires Transitive(sees) && Reflexive(sees) && Inv(sees, s) && Inv(sees, s') && Next(sees, s, l, s') && ActualSeen(sees, s)
    ensures ActualSeen(sees, s')
  {
    hide Accepted, View, Unfaithful, Collected, Transitive, Reflexive, RecordInv, WriterInv;
    match l
    case Check(t, i, op) =>
    case Swap(t) => SwapSeen(sees, s, t, s');
    case Collect(min) =>
    case Copy(min) =>
    case Relink => RelinkSeen(sees, s, s');
    case Invalidate =>
  }

  lemma {:induction false} RunSeen(sees: (nat, nat) -> bool, run: seq<State>, labels: seq<Label>, i: nat)
    requires Transitive(sees) && Reflexive(sees) && Execution(sees, run, labels) && i < |run|
    requires SeenBelow(sees, run[0].recs[0].base)
    ensures ActualSeen(sees, run[i])
  {
    hide Inv, Accepted, Next, SeenBelow, Transitive, Reflexive;
    if i == 0 {
      PlainView(run[0].recs[0].base);
    } else {
      RunSeen(sees, run, labels, i - 1);
      ExecutionInv(sees, run, labels, i - 1);
      ExecutionInv(sees, run, labels, i);
      NextSeen(sees, run[i - 1], labels[i - 1], run[i]);
    }
  }

  /** In every state of every run, whatever has been collected and moved, a scan of the key from any of its records
      admits exactly the one version, or none, that a lookup would find had all updates stayed on the first record. */
  lemma ScanSeesAllUpdates(sees: (nat, nat) -> bool, run: seq<State>, labels: seq<Label>, i: nat, t: nat)
    requires Transitive(sees) && Reflexive(sees) && Execution(sees, run, labels) && i < |run| && !sees(t, MAX)
    requires SeenBelow(sees, run[0].recs[0].base) && ReadsAll((u: nat) => sees(t, u), run[i].min)
    ensures var s, snapshot := run[i], (u: nat) => sees(t, u);
            && Linked(s.recs)
            && var out := if Last(s).newest.Invalid? then [] else Intervals(View(Last(s).newest.chain, Last(s).base), MAX);
               Contents(Admitted(out, snapshot)) == Found(Read(Ideal(s), snapshot, true))
  {
    var s, snapshot := run[i], (u: nat) => sees(t, u);
    RunSeen(sees, run, labels, i);
    LookupsSeeAllUpdates(sees, run, labels, i, snapshot);
    AdmittedIsRead(sees, Actual(s), t, MAX, true);
  }

  // ------------------------------------------------------------------ exactly when the intervals are right

  /** The first version that the snapshot reads. */
  function FirstReadable(v: seq<Entry>, snapshot: nat -> bool): (k: nat)
    ensures k <= |v| && (k < |v| ==> snapshot(v[k].version))
    ensures forall i | 0 <= i < k :: !snapshot(v[i].version)
  {
    if v == [] || snapshot(v[0].version) then 0 else 1 + FirstReadable(v[1..], snapshot)
  }

  /** If the snapshot reads tuple `i`, it also reads the version directly above, or `to` above the first. */
  predicate Covered(v: seq<Entry>, to: nat, snapshot: nat -> bool, i: nat) {
    i < |v| && v[i].kind.Data? && snapshot(v[i].version) ==> snapshot(if i == 0 then to else v[i - 1].version)
  }

  predicate AllCovered(v: seq<Entry>, to: nat, snapshot: nat -> bool, start: nat) {
    forall i: nat | start <= i < |v| :: Covered(v, to, snapshot, i)
  }

  lemma AllCoveredTail(v: seq<Entry>, to: nat, snapshot: nat -> bool, start: nat)
    requires v != []
    ensures AllCovered(v, to, snapshot, start + 1) <==> AllCovered(v[1..], v[0].version, snapshot, start)
  {
    var t := v[1..];
    forall i: nat | i < |t| ensures Covered(v, to, snapshot, i + 1) <==> Covered(t, v[0].version, snapshot, i) {
      assert i > 0 ==> t[i - 1] == v[i];
    }
    if AllCovered(t, v[0].version, snapshot, start) {
      forall i: nat | start + 1 <= i < |v| ensures Covered(v, to, snapshot, i) {
        assert Covered(t, v[0].version, snapshot, i - 1);
      }
    }
  }

  lemma AdmittedFirst(v: seq<Entry>, to: nat, snapshot: nat -> bool)
    requires v != []
    ensures Admitted(Intervals(v, to), snapshot)
            == (if v[0].kind.Data? && snapshot(v[0].version) && !snapshot(to) then Own(v[0], to) else [])
               + Admitted(Intervals(v[1..], v[0].version), snapshot)
  {
    var first := Own(v[0], to);
    AdmittedConcat(first, Intervals(v[1..], v[0].version), snapshot);
    assert first != [] ==> first[1..] == [];
  }

  /** Nothing is admitted exactly if every readable tuple is covered. */
  lemma {:induction false} NothingAdmitted(v: seq<Entry>, to: nat, snapshot: nat -> bool)
    ensures Admitted(Intervals(v, to), snapshot) == [] <==> AllCovered(v, to, snapshot, 0)
  {
    if v != [] {
      AdmittedFirst(v, to, snapshot);
      NothingAdmitted(v[1..], v[0].version, snapshot);
      AllCoveredTail(v, to, snapshot, 0);
      assert AllCovered(v, to, snapshot, 0) <==> Covered(v, to, snapshot, 0) && AllCovered(v, to, snapshot, 1);
    }
  }

  /** For every list of versions and every snapshot, the admitted intervals are exactly the tuple that a lookup returns
      if and only if, behind the first readable version, every readable tuple stands directly below a readable one. */
  lemma {:induction false} AdmittedExactly(v: seq<Entry>, to: nat, snapshot: nat -> bool, newest: bool)
    requires !snapshot(to)
    ensures Contents(Admitted(Intervals(v, to), snapshot)) == Found(Read(v, snapshot, newest))
            <==> AllCovered(v, to, snapshot, FirstReadable(v, snapshot) + 1)
  {
    if v != [] {
      var rest := Admitted(Intervals(v[1..], v[0].version), snapshot);
      AdmittedFirst(v, to, snapshot);
      if !snapshot(v[0].version) {
        assert [] + rest == rest;
        AdmittedExactly(v[1..], v[0].version, snapshot, false);
        AllCoveredTail(v, to, snapshot, FirstReadable(v[1..], snapshot) + 1);
      } else {
        NothingAdmitted(v[1..], v[0].version, snapshot);
        AllCoveredTail(v, to, snapshot, 0);
        OwnContents(v[0], to, rest);
      }
    }
  }

  lemma OwnContents(e: Entry, to: nat, rest: seq<Interval>)
    ensures Contents([] + rest) == [] <==> rest == []
    ensures e.kind.Data? ==> (Contents(Own(e, to) + rest) == [(e.version, e.data)] <==> rest == [])
  {
    assert |Contents([] + rest)| == |rest|;
    if e.kind.Data? {
      assert |Contents(Own(e, to) + rest)| == 1 + |rest|;
      assert Contents(Own(e, to) + rest)[0] == (e.version, e.data);
    }
  }

  /** The failing case: 5 updates the 3 it sees, 7 updates the 5 it sees, and transaction 8 reads 7 and 3 but not 5.
      The scan of 8 admits both. */
  lemma TransitivityIsNeeded(sees: (nat, nat) -> bool)
    requires ReadsOK(sees) && sees(5, 3) && sees(7, 5) && sees(8, 7) && sees(8, 3) && !sees(8, 5)
    ensures var base, h := [Entry(3, Data, [30])], [Write(7, Data, Data, [70]), Write(5, Data, Data, [50])];
            var snapshot := (u: nat) => sees(8, u);
            && BaseOK(base) && History(sees, base, h) && NoneBelow(base, h)
            && Read(View(Records(h), base), snapshot, true) == Tuple([70], 7, true)
            && Admitted(Intervals(View(Records(h), base), MAX), snapshot) == [Interval(7, MAX, [70]), Interval(3, 5, [30])]
  {
    var base, h := [Entry(3, Data, [30])], [Write(7, Data, Data, [70]), Write(5, Data, Data, [50])];
    var x, y, z := Entry(7, Data, [70]), Entry(5, Data, [50]), base[0];
    var snapshot := (u: nat) => sees(8, u);
    TwoUpdates(sees, base, h[1], h[0]);
    assert [x, y] + base == [x, y, z];
    ThreeTuples(x, y, z, MAX, snapshot);
    assert Own(x, MAX) + Own(z, 5) == [Interval(7, MAX, [70]), Interval(3, 5, [30])];
  }

  /** The first and the third of three tuples are admitted, the second is not read. */
  lemma ThreeTuples(x: Entry, y: Entry, z: Entry, to: nat, snapshot: nat -> bool)
    requires x.kind.Data? && y.kind.Data? && z.kind.Data?
    requires snapshot(x.version) && !snapshot(y.version) && snapshot(z.version) && !snapshot(to)
    ensures Admitted(Intervals([x, y, z], to), snapshot) == Own(x, to) + Own(z, y.version)
    ensures Read([x, y, z], snapshot, true) == Tuple(x.data, x.version, true)
  {
    assert [x, y, z][1..] == [y, z] && [y, z][1..] == [z] && [z][1..] == [];
    AdmittedFirst([x, y, z], to, snapshot);
    AdmittedFirst([y, z], x.version, snapshot);
    AdmittedFirst([z], y.version, snapshot);
  }

  /** An update of the newest version by a transaction that sees it is accepted and put on top. */
  lemma UpdateOnTop(sees: (nat, nat) -> bool, base: seq<Entry>, h: seq<Op>, w: Op, view: seq<Entry>)
    requires BaseOK(base) && ReadsOK(sees) && History(sees, base, h) && NoneBelow(base, h)
    requires View(Records(h), base) == view && view != [] && view[0].kind.Data?
    requires w.Write? && w.expected.Data? && OpOK(w) && base[0].version <= w.version
    requires view[0].version < w.version && sees(w.version, view[0].version)
    ensures History(sees, base, [w] + h) && NoneBelow(base, [w] + h)
    ensures View(Records([w] + h), base) == [Record(w)] + view
  {
    AcceptedOn(sees, Records(h), base, w, view);
    HistoryCons(sees, base, h, w);
  }

  /** Two accepted updates on a base record. */
  lemma TwoUpdates(sees: (nat, nat) -> bool, base: seq<Entry>, v: Op, w: Op)
    requires BaseOK(base) && base[0].kind.Data? && ReadsOK(sees)
    requires OpOK(v) && OpOK(w) && v.Write? && w.Write? && v.expected.Data? && w.expected.Data? && v.kind.Data?
    requires base[0].version < v.version < w.version && sees(v.version, base[0].version) && sees(w.version, v.version)
    ensures History(sees, base, [w, v]) && NoneBelow(base, [w, v])
    ensures View(Records([w, v]), base) == [Record(w), Record(v)] + base
  {
    FirstUpdate(sees, base, v);
    var one := [Record(v)] + base;
    assert one[0] == Record(v) && [Record(w)] + one == [Record(w), Record(v)] + base;
    UpdateOnTop(sees, base, [v], w, one);
    assert [w] + [v] == [w, v];
  }

  lemma FirstUpdate(sees: (nat, nat) -> bool, base: seq<Entry>, v: Op)
    requires BaseOK(base) && base[0].kind.Data? && ReadsOK(sees)
    requires OpOK(v) && v.Write? && v.expected.Data? && base[0].version < v.version && sees(v.version, base[0].version)
    ensures History(sees, base, [v]) && NoneBelow(base, [v]) && View(Records([v]), base) == [Record(v)] + base
  {
    assert Stack(base, []) == base;
    ViewIsStack(sees, base, []);
    UpdateOnTop(sees, base, [], v, base);
    assert [v] + [] == [v];
  }
}
