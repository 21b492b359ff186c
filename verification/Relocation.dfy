/**
 Relocation of a record under concurrent writers (RowStorePageModifier::collectElements and recycleEntry in
 deltamain/rowstore/RowStorePage.cpp, internalUpdate and internalRevert in deltamain/Table.cpp).

 The records of one key are kept in the order of their creation.  The `newest` pointer of a record leads to its update
 chain, to the main record that replaced it, or is marked invalid; it changes by compare-and-swap only.  A chain stands
 for the pointer to its newest record: chains only grow, so equal chains are equal pointers.
 */
module Relocation {
  import opened Common
  import opened DeltaMain
  import opened RowStoreGc

  datatype Newest = Update(chain: seq<Entry>) | Main(target: nat) | Invalid

  datatype Rec = Rec(base: seq<Entry>, insert: bool, newest: Newest)

  /** A writer between its check and its compare-and-swap. */
  datatype Writer = Writer(record: nat, expected: seq<Entry>, op: Op)

  /** The collector between reading the newest record and its compare-and-swap: the pointer it expects, the chain it
      collected, the elements of the new record and the chain stored in the new record. */
  datatype Collector = Idle | Moving(held: seq<Entry>, seen: seq<Entry>, elements: seq<Entry>, copy: seq<Entry>)

  /** `history` holds every update record whose compare-and-swap succeeded, newest first. */
  datatype State = State(recs: seq<Rec>, writers: map<nat, Writer>, gc: Collector, min: nat, history: seq<Entry>)

  datatype Label =
    | Check(writer: nat, record: nat, op: Op)
    | Swap(writer: nat)
    | Collect(min: nat)
    | Copy(min: nat)
    | Relink
    | Invalidate

  function Last(s: State): Rec
    requires s.recs != []
  {
    s.recs[|s.recs| - 1]
  }

  function SetLast(recs: seq<Rec>, n: Newest): seq<Rec>
    requires recs != []
  {
    recs[|recs| - 1 := recs[|recs| - 1].(newest := n)]
  }

  /** What the store relies on: the writer's transaction is not older than `min`, and its version is not below the base
      version of the record it writes or of the record under construction. */
  predicate Live(s: State, op: Op)
    requires s.recs != []
  {
    && s.min < op.version < MAX
    && Last(s).base != [] && Last(s).base[0].version <= op.version
    && (s.gc.Moving? && s.gc.elements != [] ==> s.gc.elements[0].version <= op.version)
  }

  ghost predicate CheckStep(sees: (nat, nat) -> bool, s: State, t: nat, i: nat, op: Op, s': State) {
    && t !in s.writers && i < |s.recs| && s.recs[i].newest.Update? && s.recs[i].base != []
    && Accepted(sees, s.recs[i].newest.chain, s.recs[i].base, op)
    && s' == s.(writers := s.writers[t := Writer(i, s.recs[i].newest.chain, op)])
  }

  ghost predicate SwapStep(s: State, t: nat, s': State) {
    && t in s.writers && s.writers[t].record < |s.recs|
    && var w := s.writers[t];
       if s.recs[w.record].newest == Update(w.expected) then
         && Live(s, w.op)
         && s' == s.(recs := s.recs[w.record := s.recs[w.record].(newest := Update([Record(w.op)] + w.expected))],
                     writers := s.writers - {t},
                     history := [Record(w.op)] + s.history)
       else
         s' == s.(writers := s.writers - {t})
  }

  /** needsCleaning: a main record without updates stays as it is if it has one element or may not lose its last one. */
  predicate NeedsCleaning(r: Rec, min: nat) {
    r.newest != Update([]) || (|r.base| > 1 && r.base[|r.base| - 1].version < min)
  }

  ghost predicate CollectStep(s: State, min: nat, s': State) {
    && s.gc.Idle? && s.min <= min < MAX && s.recs != [] && Last(s).newest.Update? && Last(s).base != []
    && (Last(s).insert || NeedsCleaning(Last(s), min))
    && var c := Last(s).newest.chain;
       && !Unfaithful(c, Last(s).base, Last(s).insert, min)
       && s' == s.(min := min, gc := Moving(c, c, Collected(c, Last(s).base, Last(s).insert, min), []))
  }

  /** A main record that needs no cleaning, on a page with others that do, is copied as a whole. */
  ghost predicate CopyStep(s: State, min: nat, s': State) {
    && s.gc.Idle? && s.min <= min < MAX && s.recs != [] && Last(s).newest.Update? && Last(s).base != []
    && !Last(s).insert && !NeedsCleaning(Last(s), min)
    && s' == s.(min := min, gc := Moving([], [], Last(s).base, []))
  }

  /** recycleEntry: one attempt to replace the record by the new main record. */
  ghost predicate RelinkStep(s: State, s': State) {
    && s.gc.Moving? && s.gc.elements != [] && s.recs != []
    && var n := Last(s).newest;
       if n == Update(s.gc.held) then
         s' == s.(recs := SetLast(s.recs, Main(|s.recs|)) + [Rec(s.gc.elements, false, Update(s.gc.copy))], gc := Idle)
       else
         n.Update? && s' == s.(gc := s.gc.(held := n.chain, copy := n.chain))
  }

  /** One attempt to invalidate a record without elements; a failed one collects again. */
  ghost predicate InvalidateStep(s: State, s': State) {
    && s.gc.Moving? && s.gc.elements == [] && s.recs != [] && Last(s).base != []
    && var n := Last(s).newest;
       if n == Update(s.gc.held) then
         s' == s.(recs := SetLast(s.recs, Invalid), gc := Idle)
       else
         && n.Update? && !Unfaithful(n.chain, Last(s).base, Last(s).insert, s.min)
         && s' == s.(gc := Moving(n.chain, n.chain, Collected(n.chain, Last(s).base, Last(s).insert, s.min), []))
  }

  ghost predicate Next(sees: (nat, nat) -> bool, s: State, l: Label, s': State) {
    match l
    case Check(t, i, op) => CheckStep(sees, s, t, i, op, s')
    case Swap(t) => SwapStep(s, t, s')
    case Collect(min) => CollectStep(s, min, s')
    case Copy(min) => CopyStep(s, min, s')
    case Relink => RelinkStep(s, s')
    case Invalidate => InvalidateStep(s, s')
  }

  ghost predicate Initial(s: State) {
    && |s.recs| == 1 && s.recs[0].newest == Update([]) && RecordOK(s.recs[0].base, s.recs[0].insert)
    && s.writers == map[] && s.gc.Idle? && s.min < MAX && s.history == []
  }

  ghost predicate Execution(sees: (nat, nat) -> bool, run: seq<State>, labels: seq<Label>) {
    && |run| == |labels| + 1 && Initial(run[0])
    && forall i | 0 <= i < |labels| :: Next(sees, run[i], labels[i], run[i + 1])
  }

  // ------------------------------------------------------------------ lookups

  /** All records but the last have been replaced by their successor. */
  predicate Linked(recs: seq<Rec>) {
    && recs != [] && (forall i | 0 <= i < |recs| - 1 :: recs[i].newest == Main(i + 1))
    && !recs[|recs| - 1].newest.Main?
    && (forall i | 0 <= i < |recs| :: recs[i].base != [])
  }

  /** internalGet from any record of the key: follows the links to main records; an invalid record holds nothing. */
  method Lookup(recs: seq<Rec>, i: nat, snapshot: nat -> bool) returns (o: Outcome)
    requires Linked(recs) && i < |recs|
    ensures var r := recs[|recs| - 1];
            o == if r.newest.Invalid? then NotFound else Read(View(r.newest.chain, r.base), snapshot, true)
    decreases |recs| - i
  {
    match recs[i].newest
    case Invalid => o := NotFound;
    case Main(j) => o := Lookup(recs, j, snapshot);
    case Update(c) => o := InternalGet(c, recs[i].base, snapshot);
  }

  // ------------------------------------------------------------------ the invariant

  /** The versions of the key if nothing had ever been collected. */
  function Ideal(s: State): seq<Entry>
    requires s.recs != []
  {
    Layers(s.history, s.recs[0].base, MAX)
  }

  /** The versions that lookups find. */
  function Actual(s: State): seq<Entry>
    requires s.recs != [] && Last(s).base != []
  {
    if Last(s).newest.Update? then View(Last(s).newest.chain, Last(s).base) else []
  }

  /** The chain is the collected one with new records on top that suit both the old and the new base record. */
  predicate Grew(c: seq<Entry>, seen: seq<Entry>, base: seq<Entry>, elements: seq<Entry>, min: nat)
    requires base != []
  {
    && |seen| <= |c|
    && var ext := c[..|c| - |seen|];
       c == ext + seen && ChainOK(ext, base) && Newer(ext, min) && (elements != [] ==> AllAbove(ext, elements[0].version))
  }

  predicate Suffix(a: seq<Entry>, c: seq<Entry>) {
    |a| <= |c| && a == c[|c| - |a|..]
  }

  predicate Copied(gc: Collector, r: Rec)
    requires gc.Moving?
  {
    gc.seen == [] && gc.elements == r.base && !r.insert
  }

  /** The elements of the new record are the collected ones, or those of a copied main record. */
  ghost predicate Chosen(gc: Collector, r: Rec, min: nat)
    requires gc.Moving? && r.base != []
  {
    || (!Unfaithful(gc.seen, r.base, r.insert, min) && gc.elements == Collected(gc.seen, r.base, r.insert, min))
    || Copied(gc, r)
  }

  /** What holds of a collector at work on record `r`. */
  ghost predicate MovingOK(gc: Collector, r: Rec, min: nat)
    requires gc.Moving? && r.base != []
  {
    && r.newest.Update?
    && Sound(gc.seen, r.base, r.insert) && Chosen(gc, r, min)
    && gc.copy == (if gc.held == gc.seen then [] else gc.held)
    && (gc.elements == [] ==> gc.held == gc.seen)
    && Suffix(gc.held, r.newest.chain) && |gc.seen| <= |gc.held|
    && Grew(r.newest.chain, gc.seen, r.base, gc.elements, min)
  }

  ghost predicate CollectorInv(s: State)
    requires s.recs != [] && Last(s).base != []
  {
    s.gc.Moving? ==> MovingOK(s.gc, Last(s), s.min)
  }

  ghost predicate WriterInv(sees: (nat, nat) -> bool, s: State) {
    forall t | t in s.writers ::
      && s.writers[t].record < |s.recs| && s.recs[s.writers[t].record].base != []
      && Accepted(sees, s.writers[t].expected, s.recs[s.writers[t].record].base, s.writers[t].op)
  }

  /** What holds of the record that lookups resolve to and of the collector at work on it. */
  ghost predicate RecordInv(s: State)
    requires s.recs != []
  {
    && s.min < MAX
    && RecordOK(Last(s).base, Last(s).insert)
    && (Last(s).newest.Update? ==> Sound(Last(s).newest.chain, Last(s).base, Last(s).insert))
    && Equivalent(Ideal(s), Actual(s), s.min)
    && CollectorInv(s)
  }

  ghost predicate Inv(sees: (nat, nat) -> bool, s: State) {
    Linked(s.recs) && WriterInv(sees, s) && RecordInv(s)
  }

  lemma InitialInv(sees: (nat, nat) -> bool, s: State)
    requires Initial(s)
    ensures Inv(sees, s)
  {
    var base := s.recs[0].base;
    AboveIsSound([], base, s.recs[0].insert);
    ViewIsLayers([], base);
    EquivalentReflexive(Ideal(s), s.min);
  }

  /** Records are added and their base never changes. */
  predicate SameBases(recs: seq<Rec>, recs': seq<Rec>) {
    |recs| <= |recs'| && forall i | 0 <= i < |recs| :: recs'[i].base == recs[i].base
  }

  lemma WritersKept(sees: (nat, nat) -> bool, s: State, s': State)
    requires WriterInv(sees, s) && SameBases(s.recs, s'.recs)
    requires forall t | t in s'.writers :: t in s.writers && s'.writers[t] == s.writers[t]
    ensures WriterInv(sees, s')
  {
    forall t | t in s'.writers
      ensures && s'.writers[t].record < |s'.recs| && s'.recs[s'.writers[t].record].base != []
              && Accepted(sees, s'.writers[t].expected, s'.recs[s'.writers[t].record].base, s'.writers[t].op)
    {
      assert s'.writers[t] == s.writers[t];
    }
  }

  lemma SetLastLinks(recs: seq<Rec>, n: Newest)
    requires Linked(recs)
    ensures SameBases(recs, SetLast(recs, n)) && (!n.Main? ==> Linked(SetLast(recs, n)))
  {
  }

  lemma MovedLinks(recs: seq<Rec>, r: Rec)
    requires Linked(recs) && r.base != [] && !r.newest.Main?
    ensures var recs' := SetLast(recs, Main(|recs|)) + [r]; Linked(recs') && SameBases(recs, recs')
  {
  }

  lemma SwapLinks(s: State, t: nat, s': State)
    requires Linked(s.recs) && SwapStep(s, t, s')
    ensures Linked(s'.recs) && SameBases(s.recs, s'.recs)
    ensures s'.recs != s.recs ==> s.writers[t].record == |s.recs| - 1
  {
    var w := s.writers[t];
    if s.recs[w.record].newest == Update(w.expected) {
      assert w.record == |s.recs| - 1;
      SetLastLinks(s.recs, Update([Record(w.op)] + w.expected));
    }
  }

  lemma LinksKept(sees: (nat, nat) -> bool, s: State, l: Label, s': State)
    requires Linked(s.recs) && Next(sees, s, l, s')
    ensures Linked(s'.recs) && SameBases(s.recs, s'.recs)
  {
    match l
    case Check(t, i, op) =>
    case Swap(t) =>
      SwapLinks(s, t, s');
    case Collect(min) =>
    case Copy(min) =>
    case Relink =>
      if Last(s).newest == Update(s.gc.held) {
        MovedLinks(s.recs, Rec(s.gc.elements, false, Update(s.gc.copy)));
      }
    case Invalidate =>
      SetLastLinks(s.recs, Invalid);
  }

  lemma IdealGrown(e: Entry, h: seq<Entry>, base: seq<Entry>)
    ensures Layers([e] + h, base, MAX) == Visible([e], MAX) + Under(Layers(h, base, MAX), Lowest([e], MAX))
  {
    var low := Lowest([e], MAX);
    VisibleConcat([e], h, MAX);
    LowestUnder([e], MAX, MAX);
    LayersUnder(h, base, MAX, low);
    assert Layers([e] + h, base, MAX) == Visible([e], MAX) + Layers(h, base, low);
  }

  /** A successful swap hits the last record and keeps everything the invariant says about it. */
  lemma SwapKeepsRecord(s: State, t: nat, s': State)
    requires Linked(s.recs) && RecordInv(s) && SwapStep(s, t, s')
    ensures RecordInv(s')
  {
    hide Sound, Equivalent, MovingOK, View, Layers, RecordOK;
    var w := s.writers[t];
    if s.recs[w.record].newest == Update(w.expected) {
      assert w.record == |s.recs| - 1;
      var e := Record(w.op);
      if s.gc.Moving? {
        SwapKeepsCollector(s.gc, Last(s), e, s.min);
      }
      assert Last(s') == Last(s).(newest := Update([e] + w.expected)) && s'.recs[0].base == s.recs[0].base;
      SwapKeepsVersions(e, w.expected, Last(s).base, Last(s).insert, s.history, s.recs[0].base, s.min);
    }
  }

  lemma SwapKeepsVersions(e: Entry, c: seq<Entry>, base: seq<Entry>, insert: bool, h: seq<Entry>, first: seq<Entry>,
                          min: nat)
    requires Sound(c, base, insert) && base[0].version <= e.version && min < e.version < MAX
    requires Equivalent(Layers(h, first, MAX), View(c, base), min)
    ensures Sound([e] + c, base, insert) && Equivalent(Layers([e] + h, first, MAX), View([e] + c, base), min)
  {
    SoundGrown([e], c, base, insert);
    IdealGrown(e, h, first);
    GrowEquivalent([e], Layers(h, first, MAX), View(c, base), min);
  }

  lemma SwapKeepsCollector(gc: Collector, r: Rec, e: Entry, min: nat)
    requires gc.Moving? && r.base != [] && MovingOK(gc, r, min)
    requires min < e.version < MAX && r.base[0].version <= e.version
    requires gc.elements != [] ==> gc.elements[0].version <= e.version
    ensures MovingOK(gc, r.(newest := Update([e] + r.newest.chain)), min)
  {
    GrewMore(e, r.newest.chain, gc.seen, r.base, gc.elements, min);
    SuffixMore(e, gc.held, r.newest.chain);
  }

  lemma SuffixMore(e: Entry, a: seq<Entry>, c: seq<Entry>)
    requires Suffix(a, c)
    ensures Suffix(a, [e] + c)
  {
  }

  lemma GrewMore(e: Entry, c: seq<Entry>, seen: seq<Entry>, base: seq<Entry>, elements: seq<Entry>, min: nat)
    requires base != [] && Grew(c, seen, base, elements, min)
    requires min < e.version < MAX && base[0].version <= e.version && (elements != [] ==> elements[0].version <= e.version)
    ensures Grew([e] + c, seen, base, elements, min)
  {
    var c', n := [e] + c, |c| - |seen|;
    var ext := c[..n];
    assert c'[..n + 1] == [e] + ext;
    assert c' == ([e] + ext) + seen;
  }

  lemma CollectKeepsRecord(s: State, min: nat, s': State)
    requires s.recs != [] && RecordInv(s) && CollectStep(s, min, s')
    ensures RecordInv(s')
  {
    hide Sound, Equivalent, Unfaithful, Collected, MovingOK, View, Layers;
    EquivalentLater(Ideal(s), Actual(s), s.min, min);
    JustCollected(Last(s), min);
  }

  /** A collector that has just read the chain. */
  lemma JustCollected(r: Rec, min: nat)
    requires r.base != [] && r.newest.Update? && Sound(r.newest.chain, r.base, r.insert)
    requires !Unfaithful(r.newest.chain, r.base, r.insert, min)
    ensures var c := r.newest.chain; MovingOK(Moving(c, c, Collected(c, r.base, r.insert, min), []), r, min)
  {
    hide Collected, Unfaithful, Sound;
    GrewNothing(r.newest.chain, r.base, Collected(r.newest.chain, r.base, r.insert, min), min);
  }

  lemma CopyKeepsRecord(s: State, min: nat, s': State)
    requires s.recs != [] && RecordInv(s) && CopyStep(s, min, s')
    ensures RecordInv(s')
  {
    hide Sound, Equivalent, Unfaithful, Collected, View, Layers;
    EquivalentLater(Ideal(s), Actual(s), s.min, min);
    GrewNothing([], Last(s).base, Last(s).base, min);
  }

  lemma GrewNothing(c: seq<Entry>, base: seq<Entry>, elements: seq<Entry>, min: nat)
    requires base != []
    ensures Grew(c, c, base, elements, min) && Suffix(c, c)
  {
    assert c[..0] == [] && c == [] + c && c[0..] == c;
  }

  lemma RelinkKeepsRecord(s: State, s': State)
    requires Linked(s.recs) && RecordInv(s) && RelinkStep(s, s')
    ensures RecordInv(s')
  {
    hide Sound, Equivalent, View, Layers, RecordOK, Unfaithful, Collected, Grew;
    if Last(s).newest == Update(s.gc.held) {
      assert s'.recs[0].base == s.recs[0].base && Last(s') == Rec(s.gc.elements, false, Update(s.gc.copy));
      if Copied(s.gc, Last(s)) {
        assert s.gc.copy == s.gc.held && Actual(s') == Actual(s);
      } else {
        MovedVersions(s.gc.held, s.gc.seen, s.gc.copy, Last(s).base, Last(s).insert, s.min);
        EquivalentTransitive(Ideal(s), Actual(s), Actual(s'), s.min);
      }
    } else {
      var c := Last(s).newest.chain;
      SuffixSmaller(s.gc.held, c);
      assert c[0..] == c;
    }
  }

  lemma SuffixSmaller(a: seq<Entry>, c: seq<Entry>)
    requires Suffix(a, c) && a != c
    ensures |a| < |c|
  {
    assert c[0..] == c;
  }

  lemma MovedVersions(c: seq<Entry>, seen: seq<Entry>, copy: seq<Entry>, base: seq<Entry>, insert: bool, min: nat)
    requires Sound(seen, base, insert) && !Unfaithful(seen, base, insert, min) && min < MAX
    requires var e := Collected(seen, base, insert, min); e != [] && Grew(c, seen, base, e, min)
    requires copy == if c == seen then [] else c
    ensures var e := Collected(seen, base, insert, min);
            Sound(copy, e, false) && Equivalent(View(c, base), View(copy, e), min)
  {
    var ext := c[..|c| - |seen|];
    assert copy == NewChain(ext, seen) by {
      if ext == [] {
        assert [] + seen == seen;
      } else {
        assert |c| != |seen|;
      }
    }
    RewrittenSound(ext, seen, base, insert, min);
  }

  lemma InvalidateKeepsRecord(s: State, s': State)
    requires Linked(s.recs) && RecordInv(s) && InvalidateStep(s, s')
    ensures RecordInv(s')
  {
    hide Sound, Equivalent, View, Layers, RecordOK, Unfaithful, Collected, Grew;
    if Last(s).newest == Update(s.gc.held) {
      SoundCollected(s.gc.seen, Last(s).base, Last(s).insert, s.min);
      assert s'.recs[0].base == s.recs[0].base && Last(s') == Last(s).(newest := Invalid);
      EquivalentTransitive(Ideal(s), Actual(s), [], s.min);
    } else {
      JustCollected(Last(s), s.min);
    }
  }

  lemma CheckKeeps(sees: (nat, nat) -> bool, s: State, t: nat, i: nat, op: Op, s': State)
    requires Inv(sees, s) && CheckStep(sees, s, t, i, op, s')
    ensures WriterInv(sees, s') && RecordInv(s')
  {
    hide Sound, Equivalent, MovingOK, View, Layers, RecordOK;
    forall u | u in s'.writers
      ensures && s'.writers[u].record < |s'.recs| && s'.recs[s'.writers[u].record].base != []
              && Accepted(sees, s'.writers[u].expected, s'.recs[s'.writers[u].record].base, s'.writers[u].op)
    {
      if u != t {
        assert s'.writers[u] == s.writers[u];
      }
    }
  }

  lemma NextKeepsInv(sees: (nat, nat) -> bool, s: State, l: Label, s': State)
    requires Inv(sees, s) && Next(sees, s, l, s')
    ensures Inv(sees, s')
  {
    hide RecordInv, CollectorInv, Accepted;
    LinksKept(sees, s, l, s');
    match l
    case Check(t, i, op) =>
      CheckKeeps(sees, s, t, i, op, s');
    case Swap(t) =>
      WritersKept(sees, s, s');
      SwapKeepsRecord(s, t, s');
    case Collect(min) =>
      WritersKept(sees, s, s');
      CollectKeepsRecord(s, min, s');
    case Copy(min) =>
      WritersKept(sees, s, s');
      CopyKeepsRecord(s, min, s');
    case Relink =>
      WritersKept(sees, s, s');
      RelinkKeepsRecord(s, s');
    case Invalidate =>
      WritersKept(sees, s, s');
      InvalidateKeepsRecord(s, s');
  }

  lemma {:induction false} ExecutionInv(sees: (nat, nat) -> bool, run: seq<State>, labels: seq<Label>, i: nat)
    requires Execution(sees, run, labels) && i < |run|
    ensures Inv(sees, run[i])
  {
    if i == 0 {
      InitialInv(sees, run[0]);
    } else {
      ExecutionInv(sees, run, labels, i - 1);
      NextKeepsInv(sees, run[i - 1], labels[i - 1], run[i]);
    }
  }

  /** A main record that needs no cleaning is copied with exactly the elements that would be collected. */
  lemma UncleanedIsCollected(r: Rec, min: nat)
    requires BaseOK(r.base) && min < MAX && !NeedsCleaning(r, min) && r.base[|r.base| - 1].kind.Data?
    ensures Collected([], r.base, false, min) == r.base && !Unfaithful([], r.base, false, min)
  {
    hide BelowMax, NoReverts, UpTo, Under;
    var base := r.base;
    assert base[0].version < MAX by { FirstBelowMax(base); }
    assert Older(base, MAX) == base;
    AllUpTo(base, min);
    assert [] + base == base;
  }

  lemma FirstBelowMax(base: seq<Entry>)
    requires BaseOK(base)
    ensures base[0].version < MAX
  {
  }

  lemma {:induction false} AllUpTo(v: seq<Entry>, min: nat)
    requires forall i | 0 <= i < |v| - 1 :: min < v[i].version
    ensures UpTo(v, min) == v
  {
    if |v| > 1 {
      AllUpTo(v[1..], min);
    }
  }

  // ------------------------------------------------------------------ main results

  /** In every run, whatever was collected and moved in between, a lookup that starts at any record of the key, old or
      new, finds the tuple it would find if all updates that succeeded were still on the first record. */
  lemma LookupsSeeAllUpdates(sees: (nat, nat) -> bool, run: seq<State>, labels: seq<Label>, i: nat,
                             snapshot: nat -> bool)
    requires Execution(sees, run, labels) && i < |run| && ReadsAll(snapshot, run[i].min)
    ensures var s := run[i];
            && Linked(s.recs)
            && Same(Read(Ideal(s), snapshot, true),
                    if Last(s).newest.Invalid? then NotFound
                    else Read(View(Last(s).newest.chain, Last(s).base), snapshot, true))
  {
    var s := run[i];
    ExecutionInv(sees, run, labels, i);
    IdealBelowMax(sees, run, labels, i);
    if Last(s).newest.Update? {
      SoundViewOK(Last(s).newest.chain, Last(s).base, Last(s).insert);
    }
    EquivalentReads(Ideal(s), Actual(s), s.min, snapshot);
  }

  /** Records stay linked and the first record of a key stays what it was. */
  lemma {:induction false} FirstBase(sees: (nat, nat) -> bool, run: seq<State>, labels: seq<Label>, i: nat)
    requires Execution(sees, run, labels) && i < |run|
    ensures Linked(run[i].recs) && run[i].recs[0].base == run[0].recs[0].base
  {
    if i > 0 {
      FirstBase(sees, run, labels, i - 1);
      LinksKept(sees, run[i - 1], labels[i - 1], run[i]);
    }
  }

  lemma IdealBelowMax(sees: (nat, nat) -> bool, run: seq<State>, labels: seq<Label>, i: nat)
    requires Execution(sees, run, labels) && i < |run|
    ensures run[i].recs != [] && BelowMax(Ideal(run[i]))
  {
    FirstBase(sees, run, labels, i);
    var s := run[i];
    VisibleSorted(s.history, MAX);
    UnderBelow(s.recs[0].base, Lowest(s.history, MAX));
  }

  /** An update succeeds only on the record that lookups resolve to, never on a replaced or invalidated one, and only
      if its check still holds for what lookups find there. */
  lemma SwapHitsCurrentRecord(sees: (nat, nat) -> bool, run: seq<State>, labels: seq<Label>, i: nat)
    requires Execution(sees, run, labels) && i < |labels| && run[i + 1].history != run[i].history
    ensures labels[i].Swap? && labels[i].writer in run[i].writers
    ensures var s, w := run[i], run[i].writers[labels[i].writer];
            && s.recs != [] && w.record == |s.recs| - 1 && Last(s).newest.Update? && Last(s).base != []
            && Accepted(sees, Last(s).newest.chain, Last(s).base, w.op)
            && run[i + 1].history == [Record(w.op)] + s.history
            && |run[i + 1].recs| == |s.recs| && Last(run[i + 1]).newest == Update([Record(w.op)] + Last(s).newest.chain)
  {
    ExecutionInv(sees, run, labels, i);
    assert Next(sees, run[i], labels[i], run[i + 1]);
  }

  /** Once the record that lookups resolve to is invalid, the key has no tuple and takes no update any more. */
  lemma {:induction false} InvalidIsFinal(sees: (nat, nat) -> bool, run: seq<State>, labels: seq<Label>, i: nat, j: nat)
    requires Execution(sees, run, labels) && i <= j < |run| && run[i].recs != [] && Last(run[i]).newest.Invalid?
    ensures run[j].recs == run[i].recs && run[j].history == run[i].history
  {
    hide Next, Initial;
    if i < j {
      InvalidIsFinal(sees, run, labels, i, j - 1);
      InvalidStaysAt(sees, run, labels, j - 1);
    }
  }

  lemma InvalidStaysAt(sees: (nat, nat) -> bool, run: seq<State>, labels: seq<Label>, i: nat)
    requires Execution(sees, run, labels) && i < |labels| && run[i].recs != [] && Last(run[i]).newest.Invalid?
    ensures run[i + 1].recs == run[i].recs && run[i + 1].history == run[i].history
  {
    ExecutionInv(sees, run, labels, i);
    InvalidStays(sees, run[i], labels[i], run[i + 1]);
  }

  lemma InvalidStays(sees: (nat, nat) -> bool, s: State, l: Label, s': State)
    requires Linked(s.recs) && CollectorInv(s) && Next(sees, s, l, s') && Last(s).newest.Invalid?
    ensures s'.recs == s.recs && s'.history == s.history
  {
    match l
    case Check(t, i, op) =>
    case Swap(t) =>
    case Collect(min) =>
    case Copy(min) =>
    case Relink =>
    case Invalidate =>
  }
}
