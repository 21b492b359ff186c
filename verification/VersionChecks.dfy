/**
 Writes succeed only on what their transaction reads (logstructured/Table.cpp): at the swap of an insert a lookup by its
 own snapshot finds no tuple, at the swap of an update or a removal it finds one, although the swap compares nothing but
 the head pointer.
 */
module VersionChecks {
  import opened Common
  import opened VersionChain
  import opened VersionWrites
  import VersionLookup

  // ------------------------------------------------------------------ walks that end above a version

  /** The raw walk from `i` meets the end of the list, or a valid record of version `low` or below, before it meets a record
      below version `f`. */
  predicate Guarded(recs: seq<Rec>, i: Option<nat>, f: nat, low: nat)
    requires Ranked(recs) && In(recs, i)
    decreases if i.Some? then recs[i.value].version + 1 else 0, if i.Some? then |recs| - i.value else 0
  {
    i.None? ||
      (assert Link(recs, i.value);
       var r := recs[i.value];
       f <= r.version && ((!r.invalid && r.version <= low) || Guarded(recs, r.next, f, low)))
  }

  lemma {:induction false} GuardedLater(recs: seq<Rec>, i: Option<nat>, f: nat, low: nat, low': nat)
    requires Ranked(recs) && In(recs, i) && Guarded(recs, i, f, low) && low <= low'
    ensures Guarded(recs, i, f, low')
    decreases if i.Some? then recs[i.value].version + 1 else 0, if i.Some? then |recs| - i.value else 0
  {
    if i.Some? {
      assert Link(recs, i.value);
      if Guarded(recs, recs[i.value].next, f, low) {
        GuardedLater(recs, recs[i.value].next, f, low, low');
      }
    }
  }

  lemma {:induction false} GuardedSameLinks(recs: seq<Rec>, recs': seq<Rec>, i: Option<nat>, f: nat, low: nat)
    requires Ranked(recs) && Ranked(recs') && In(recs, i) && SameLinks(recs, recs') && Guarded(recs, i, f, low)
    ensures Guarded(recs', i, f, low)
    decreases if i.Some? then recs[i.value].version + 1 else 0, if i.Some? then |recs| - i.value else 0
  {
    if i.Some? {
      assert Link(recs, i.value);
      if Guarded(recs, recs[i.value].next, f, low) {
        GuardedSameLinks(recs, recs', recs[i.value].next, f, low);
      }
    }
  }

  /** A record nobody points to is not on the walk. */
  lemma {:induction false} GuardedFresh(recs: seq<Rec>, x: nat, r: Rec, i: Option<nat>, f: nat, low: nat)
    requires Ranked(recs) && x < |recs| && Untouched(recs, x) && In(recs, i) && i != Some(x)
    requires Ranked(Put(recs, x, r)) && Guarded(recs, i, f, low)
    ensures Guarded(Put(recs, x, r), i, f, low)
    decreases if i.Some? then recs[i.value].version + 1 else 0, if i.Some? then |recs| - i.value else 0
  {
    if i.Some? {
      assert Link(recs, i.value);
      if Guarded(recs, recs[i.value].next, f, low) {
        GuardedFresh(recs, x, r, recs[i.value].next, f, low);
      }
    }
  }

  lemma {:induction false} GuardedUnlink(recs: seq<Rec>, p: nat, i: Option<nat>, f: nat, low: nat)
    requires Ranked(recs) && p < |recs| && recs[p].next.Some? && recs[p].next.value < |recs| && In(recs, i)
    requires !recs[p].invalid && recs[recs[p].next.value].invalid && Guarded(recs, i, f, low)
    ensures Ranked(Unlink(recs, p)) && Guarded(Unlink(recs, p), i, f, low)
    decreases if i.Some? then recs[i.value].version + 1 else 0, if i.Some? then |recs| - i.value else 0
  {
    UnlinkRanked(recs, p);
    if i.Some? {
      assert Link(recs, i.value);
      if Guarded(recs, recs[i.value].next, f, low) {
        if i.value == p {
          var n := recs[p].next.value;
          assert Link(recs, n);
          GuardedUnlink(recs, p, recs[n].next, f, low);
        } else {
          GuardedUnlink(recs, p, recs[i.value].next, f, low);
        }
      }
    }
  }

  /** Invalidating a record above `low` removes nothing the walk may stop at. */
  lemma {:induction false} GuardedMark(recs: seq<Rec>, x: nat, i: Option<nat>, f: nat, low: nat)
    requires x < |recs| && Ranked(recs) && Ranked(Mark(recs, x)) && low < recs[x].version && In(recs, i)
    requires Guarded(recs, i, f, low)
    ensures Guarded(Mark(recs, x), i, f, low)
    decreases if i.Some? then recs[i.value].version + 1 else 0, if i.Some? then |recs| - i.value else 0
  {
    if i.Some? {
      assert Link(recs, i.value);
      if Guarded(recs, recs[i.value].next, f, low) {
        GuardedMark(recs, x, recs[i.value].next, f, low);
      }
    }
  }

  lemma {:induction false} GuardedCut(recs: seq<Rec>, x: nat, i: Option<nat>, f: nat, low: nat)
    requires x < |recs| && Ranked(recs) && Ranked(Cut(recs, x)) && In(recs, i) && Guarded(recs, i, f, low)
    ensures Guarded(Cut(recs, x), i, f, low)
    decreases if i.Some? then recs[i.value].version + 1 else 0, if i.Some? then |recs| - i.value else 0
  {
    if i.Some? {
      assert Link(recs, i.value);
      if i.value == x {
        assert Guarded(Cut(recs, x), None, f, low);
      } else if Guarded(recs, recs[i.value].next, f, low) {
        GuardedCut(recs, x, recs[i.value].next, f, low);
      }
    }
  }

  lemma {:induction false} GuardedSwap(recs: seq<Rec>, x: nat, deletion: bool, data: seq<int>, i: Option<nat>, f: nat, low: nat)
    requires Ranked(recs) && x < |recs| && In(recs, i) && !recs[x].invalid && Guarded(recs, i, f, low)
    ensures Ranked(Swap(recs, x, deletion, data)) && Guarded(Swap(recs, x, deletion, data), i, f, low)
    decreases if i.Some? then recs[i.value].version + 1 else 0, if i.Some? then |recs| - i.value else 0
  {
    SwapRanked(recs, x, deletion, data);
    var recs' := Swap(recs, x, deletion, data);
    if i.Some? {
      assert Link(recs, i.value);
      if Guarded(recs, recs[i.value].next, f, low) {
        GuardedSwap(recs, x, deletion, data, recs[i.value].next, f, low);
      }
      if i.value == x {
        assert Link(recs', |recs|);
        assert Guarded(recs', Some(|recs|), f, low);
      }
    }
  }

  /** The walk stops at a valid record of version `low` or below. */
  lemma {:induction false} ShadowGuards(recs: seq<Rec>, p: nat, i: Option<nat>, f: nat, low: nat)
    requires Ranked(recs) && In(recs, i) && p in Chain(recs, i) && p < |recs| && f <= recs[p].version <= low
    ensures Guarded(recs, i, f, low)
    decreases if i.Some? then recs[i.value].version + 1 else 0, if i.Some? then |recs| - i.value else 0
  {
    assert Link(recs, i.value);
    ChainSorted(recs, i);
    if i.value != p {
      ShadowGuards(recs, p, recs[i.value].next, f, low);
    }
  }

  /** A walk that has been cut at a record does not go below it. */
  lemma {:induction false} CutGuards(recs: seq<Rec>, x: nat, i: Option<nat>, f: nat, low: nat)
    requires x < |recs| && Ranked(recs) && Ranked(Cut(recs, x)) && In(recs, i) && x in Chain(recs, i) && f <= recs[x].version
    ensures Guarded(Cut(recs, x), i, f, low)
    decreases if i.Some? then recs[i.value].version + 1 else 0, if i.Some? then |recs| - i.value else 0
  {
    assert Link(recs, i.value);
    ChainSorted(recs, i);
    if i.value == x {
      assert Guarded(Cut(recs, x), None, f, low);
    } else {
      CutGuards(recs, x, recs[i.value].next, f, low);
    }
  }

  // ------------------------------------------------------------------ steps

  /** The walk from the head does not get down to version `v`, which is not above `low`. */
  predicate Above(s: State, v: nat)
    requires WF(s)
  {
    v <= s.low && Guarded(s.recs, s.head, v + 1, s.low)
  }

  /** Versions of running transactions are above `low`. */
  lemma LiveIsAboveLow(sees: Snapshots, s: State, v: nat)
    requires Inv(sees, s) && v in s.live
    ensures s.low < v
  {
  }

  lemma FireStaysAbove(sees: Snapshots, s: State, l: Label, v: nat)
    requires Inv(sees, s) && Enabled(sees, s, l) && l.Fire? && Above(s, v) && WF(Next(s, l))
    ensures Above(Next(s, l), v)
  {
    hide VersionsOK, Known, Adjacent, ExpiryOK, Separate;
    var th := s.threads[l.tid];
    assert ThreadOK(s, th) && ThreadInv(sees, s, th);
    var e := th.elem;
    LiveIsAboveLow(sees, s, s.recs[e].version);
    GuardedFresh(s.recs, e, s.recs[e].(next := th.cur), s.head, v + 1, s.low);
    assert Link(Next(s, l).recs, e);
  }

  lemma DisarmStaysAbove(sees: Snapshots, s: State, l: Label, v: nat)
    requires Inv(sees, s) && Enabled(sees, s, l) && l.Disarm? && Above(s, v) && WF(Next(s, l))
    ensures Above(Next(s, l), v)
  {
    hide VersionsOK, Known, Adjacent, ExpiryOK, Separate;
    var th := s.threads[l.tid];
    assert ThreadOK(s, th) && ThreadInv(sees, s, th);
    GuardedFresh(s.recs, th.elem, s.recs[th.elem].(invalid := true, sealed := true), s.head, v + 1, s.low);
  }

  lemma HeadStaysAbove(s: State, v: nat)
    requires WF(s) && s.head.Some? && s.recs[s.head.value].invalid && Above(s, v)
    ensures In(s.recs, s.recs[s.head.value].next) && Guarded(s.recs, s.recs[s.head.value].next, v + 1, s.low)
  {
    assert Link(s.recs, s.head.value);
  }

  lemma StaysAbove(sees: Snapshots, s: State, l: Label, v: nat)
    requires Inv(sees, s) && Enabled(sees, s, l) && Above(s, v) && WF(Next(s, l))
    ensures Above(Next(s, l), v)
  {
    hide VersionsOK, Known, Adjacent, ExpiryOK, Separate, ThreadInv, Leads, Guarded, Chain;
    var s' := Next(s, l);
    match l
    case Fire(_) => FireStaysAbove(sees, s, l, v);
    case Disarm(_) => DisarmStaysAbove(sees, s, l, v);
    case Replace(_, _, cur, op, data) => GuardedSwap(s.recs, cur, op.Delete?, data, s.head, v + 1, s.low);
    case Recycle(_, cur) => GuardedSwap(s.recs, cur, s.recs[cur].deletion, s.recs[cur].data, s.head, v + 1, s.low);
    case Remove(_, w, cur) =>
      LiveIsAboveLow(sees, s, w);
      GuardedMark(s.recs, cur, s.head, v + 1, s.low);
    case UnlinkHead => HeadStaysAbove(s, v);
    case UnlinkNext(p) => GuardedUnlink(s.recs, p, s.head, v + 1, s.low);
    case GcExpired(x, _) => GuardedCut(s.recs, x, s.head, v + 1, s.low);
    case GcDeletion(x, _) => GuardedCut(s.recs, x, s.head, v + 1, s.low);
    case Advance(b) => GuardedLater(s.recs, s.head, v + 1, s.low, b);
    case _ => GuardedSameLinks(s.recs, s'.recs, s.head, v + 1, s.low);
  }

  // ------------------------------------------------------------------ records that have left the list

  /** A published valid record is in the list, or the list does not get down to it any more. */
  ghost predicate ReachInv(s: State)
    requires WF(s)
  {
    forall x | 0 <= x < |s.recs| :: ReachOK(s, x)
  }

  ghost predicate ReachOK(s: State, x: nat)
    requires WF(s) && x < |s.recs|
  {
    !s.recs[x].invalid && VersionLookup.Published(s, Some(x)) ==> x in List(s) || Above(s, s.recs[x].version)
  }

  lemma {:induction false} BehindIsOlder(recs: seq<Rec>, c: seq<nat>, z: nat, x: nat)
    requires (forall k | 0 <= k < |c| :: c[k] < |recs|) && Descending(recs, c) && x in c && x !in Before(c, z)
    ensures z in c && z < |recs| && x < |recs| && (x == z || recs[x].version < recs[z].version)
  {
    var k :| 0 <= k < |c| && c[k] == x;
    BeforePrefix(c, z);
    var n := |Before(c, z)|;
    assert forall m | 0 <= m < n :: Before(c, z)[m] == c[m] && c[m] in Before(c, z);
  }

  /** A record in the list behind the place of a cut. */
  lemma CutOff(sees: Snapshots, s: State, l: Label, x: nat)
    requires Inv(sees, s) && Enabled(sees, s, l) && (l.GcExpired? || l.GcDeletion?) && WF(Next(s, l))
    requires x < |s.recs| && x in List(s) && x !in Before(List(s), l.rec)
    ensures x == l.rec || Above(Next(s, l), s.recs[x].version)
  {
    hide VersionsOK, Known, Adjacent, Separate, ThreadInv, Leads, ExpiryOK, Descending, Chain, Guarded, Before;
    ChainSorted(s.recs, s.head);
    BehindIsOlder(s.recs, List(s), l.rec, x);
    CutIsOld(sees, s, l);
    if x != l.rec {
      CutGuards(s.recs, l.rec, s.head, s.recs[x].version + 1, s.low);
    }
  }

  /** What is cut is not above `low`. */
  lemma CutIsOld(sees: Snapshots, s: State, l: Label)
    requires Inv(sees, s) && Enabled(sees, s, l) && (l.GcExpired? || l.GcDeletion?) && l.rec in List(s)
    ensures s.recs[l.rec].version <= s.low
    ensures l.GcExpired? ==> exists p | p in List(s) :: s.recs[l.rec].version < s.recs[p].version <= s.low
  {
    hide VersionsOK, Known, Adjacent, Separate, ThreadInv, Leads, ExpiryOK;
    if l.GcExpired? {
      ExpiredIsShadowed(sees, s, l, u => u <= s.low);
      ChainSorted(s.recs, s.head);
      BeforePrefix(List(s), l.rec);
      var n := |Before(List(s), l.rec)|;
      assert List(s)[n - 1] in List(s);
    }
  }

  lemma OldStaysReached(sees: Snapshots, s: State, l: Label, x: nat)
    requires ReadsOK(sees) && Inv(sees, s) && Enabled(sees, s, l) && x < |s.recs| && ReachOK(s, x)
    ensures WF(Next(s, l)) && x < |Next(s, l).recs| && ReachOK(Next(s, l), x)
  {
    hide VersionsOK, Known, Adjacent, ExpiryOK, Separate, ThreadInv, Ranked, Chain, Leads, Untouched, Guarded, Above;
    var s', c := Next(s, l), List(s);
    ContentPersists(sees, s, l);
    StepList(sees, s, l);
    if !s'.recs[x].invalid && VersionLookup.Published(s', Some(x)) {
      WasPublished(sees, s, l, x);
      if s.recs[x].invalid {
        InvalidPersists(sees, s, l, x);
      } else if l.Fire? && s.threads[l.tid].elem == x {
        assert List(s')[0] == x;
      } else if x !in c {
        StaysAbove(sees, s, l, s.recs[x].version);
      } else if l.GcExpired? || l.GcDeletion? {
        if x !in Before(c, l.rec) {
          CutOff(sees, s, l, x);
        }
      } else {
        UncutStays(sees, s, l, x);
      }
    }
  }

  lemma UncutStays(sees: Snapshots, s: State, l: Label, x: nat)
    requires ReadsOK(sees) && Inv(sees, s) && Enabled(sees, s, l) && WF(Next(s, l)) && !l.GcExpired? && !l.GcDeletion?
    requires x < |s.recs| && x in List(s) && x < |Next(s, l).recs| && !Next(s, l).recs[x].invalid
    ensures x in List(Next(s, l))
  {
    hide VersionsOK, Known, Adjacent, ExpiryOK, Separate, ThreadInv, Ranked, Chain, Leads, Untouched;
    var c, c' := List(s), List(Next(s, l));
    StepList(sees, s, l);
    if l.Fire? {
      assert c'[1..] == c;
    } else if l.Replace? || l.Recycle? {
      RenamedKeeps(c, l.cur, |s.recs|, x);
    } else if l.Remove? {
      assert l.cur in c ==> c == [c[0]] + c[1..];
    }
  }

  lemma NewIsReached(sees: Snapshots, s: State, l: Label)
    requires ReadsOK(sees) && Inv(sees, s) && Enabled(sees, s, l) && ReachInv(s) && |Next(s, l).recs| > |s.recs|
    ensures WF(Next(s, l)) && ReachOK(Next(s, l), |s.recs|)
  {
    hide VersionsOK, Known, Adjacent, ExpiryOK, Separate, ThreadInv, Ranked, Chain, Leads, Untouched, Guarded, Above;
    var s' := Next(s, l);
    StepList(sees, s, l);
    if l.Arm? {
      assert s'.threads[l.tid] == Armed(|s.recs|, l.below);
    } else {
      SealedIsPublished(sees, s, l.cur);
      assert ReachOK(s, l.cur);
      if l.cur in List(s) {
        var k :| 0 <= k < |List(s)| && List(s)[k] == l.cur;
        assert Renamed(List(s), l.cur, |s.recs|)[k] == |s.recs|;
      } else {
        StaysAbove(sees, s, l, s.recs[l.cur].version);
      }
    }
  }

  lemma NextKeepsReach(sees: Snapshots, s: State, l: Label)
    requires ReadsOK(sees) && Inv(sees, s) && Enabled(sees, s, l) && ReachInv(s)
    ensures WF(Next(s, l)) && ReachInv(Next(s, l))
  {
    hide VersionsOK, Known, Adjacent, ExpiryOK, Separate, ThreadInv, ReachOK, Next;
    NextKeepsInv(sees, s, l);
    forall x | 0 <= x < |Next(s, l).recs| ensures ReachOK(Next(s, l), x) {
      if x < |s.recs| {
        OldStaysReached(sees, s, l, x);
      } else {
        OneRecordAdded(sees, s, l);
        NewIsReached(sees, s, l);
      }
    }
  }

  // ------------------------------------------------------------------ the record under an armed write

  /** The walk from `x` starts with a record of the same version, kind and data; or `x` was a deletion and nothing is left,
      or the list does not get down to it any more. */
  predicate Kept(s: State, x: nat)
    requires WF(s) && x < |s.recs|
  {
    var c := Chain(s.recs, Some(x));
    if c == [] then s.recs[x].deletion || Above(s, s.recs[x].version)
    else c[0] < |s.recs| && SameContent(s.recs[c[0]], s.recs[x])
  }

  predicate SameContent(r: Rec, q: Rec) {
    r.version == q.version && r.deletion == q.deletion && r.data == q.data
  }

  ghost predicate ArmedInv(s: State)
    requires WF(s)
  {
    forall t | t in s.threads :: ArmedOK(s, s.threads[t])
  }

  predicate ArmedOK(s: State, th: Local)
    requires WF(s) && ThreadOK(s, th)
  {
    th.Armed? && th.cur.Some? ==> Kept(s, th.cur.value)
  }

  /** The version under an armed write belongs to a finished transaction. */
  lemma UnderIsOver(sees: Snapshots, s: State, t: nat)
    requires Inv(sees, s) && t in s.threads && s.threads[t].Armed? && s.threads[t].cur.Some?
    ensures s.threads[t].cur.value < |s.recs| && s.recs[s.threads[t].cur.value].version in s.over
  {
    assert ThreadOK(s, s.threads[t]) && ThreadInv(sees, s, s.threads[t]);
  }

  /** Steps that change no walk and no content. */
  lemma SameWalkKeeps(sees: Snapshots, s: State, l: Label, x: nat)
    requires Inv(sees, s) && Enabled(sees, s, l) && WF(Next(s, l)) && x < |s.recs| && Kept(s, x)
    requires Chain(Next(s, l).recs, Some(x)) == Chain(s.recs, Some(x))
    ensures x < |Next(s, l).recs| && Kept(Next(s, l), x)
  {
    hide VersionsOK, Known, Adjacent, ExpiryOK, Separate, ThreadInv, Leads, Untouched, Above;
    ContentPersists(sees, s, l);
    if Chain(s.recs, Some(x)) == [] && !s.recs[x].deletion {
      StaysAbove(sees, s, l, s.recs[x].version);
    }
  }

  lemma SwapKeepsKept(sees: Snapshots, s: State, l: Label, x: nat)
    requires Inv(sees, s) && Enabled(sees, s, l) && (l.Replace? || l.Recycle?) && WF(Next(s, l))
    requires x < |s.recs| && s.recs[x].version in s.over && Kept(s, x)
    ensures x < |Next(s, l).recs| && Kept(Next(s, l), x)
  {
    hide Known, Adjacent, ExpiryOK, Separate, ThreadInv, Leads, Untouched, Above;
    SwapWalk(s, l, Some(x));
    ContentPersists(sees, s, l);
    if Chain(s.recs, Some(x)) == [] && !s.recs[x].deletion {
      StaysAbove(sees, s, l, s.recs[x].version);
    }
  }

  lemma RemoveKeepsKept(sees: Snapshots, s: State, l: Label, x: nat)
    requires Inv(sees, s) && Enabled(sees, s, l) && l.Remove? && WF(Next(s, l))
    requires x < |s.recs| && s.recs[x].version in s.over && Kept(s, x)
    ensures x < |Next(s, l).recs| && Kept(Next(s, l), x)
  {
    hide Known, Adjacent, ExpiryOK, Separate, ThreadInv, Leads, Untouched, Above;
    ChainMark(s.recs, l.cur, Some(x));
    ContentPersists(sees, s, l);
    if Chain(s.recs, Some(x)) == [] && !s.recs[x].deletion {
      StaysAbove(sees, s, l, s.recs[x].version);
    }
  }

  lemma CutKeepsKept(sees: Snapshots, s: State, l: Label, x: nat)
    requires Inv(sees, s) && Enabled(sees, s, l) && (l.GcExpired? || l.GcDeletion?) && WF(Next(s, l)) && ReachInv(s)
    requires x < |s.recs| && Kept(s, x)
    ensures x < |Next(s, l).recs| && Kept(Next(s, l), x)
  {
    hide Known, Adjacent, ExpiryOK, Separate, ThreadInv, Leads, Untouched, Above, VersionsOK;
    ChainCut(s.recs, l.rec, Some(x));
    ContentPersists(sees, s, l);
    var c := Chain(s.recs, Some(x));
    if c == [] {
      if !s.recs[x].deletion {
        StaysAbove(sees, s, l, s.recs[x].version);
      }
    } else if c[0] == l.rec && !s.recs[x].deletion {
      ExpiredIsAbove(sees, s, l);
    }
  }

  /** When an expired record is cut off, the list does not get down to its version any more. */
  lemma ExpiredIsAbove(sees: Snapshots, s: State, l: Label)
    requires Inv(sees, s) && Enabled(sees, s, l) && WF(Next(s, l)) && ReachInv(s) && l.GcExpired?
    ensures Above(Next(s, l), s.recs[l.rec].version)
  {
    hide Known, Adjacent, ExpiryOK, Separate, ThreadInv, Leads, Untouched, VersionsOK;
    var v := s.recs[l.rec].version;
    SealedIsPublished(sees, s, l.rec);
    assert ReachOK(s, l.rec);
    if l.rec in List(s) {
      CutIsOld(sees, s, l);
      var p :| p in List(s) && v < s.recs[p].version <= s.low;
      ShadowGuards(s.recs, p, s.head, v + 1, s.low);
    }
    StaysAbove(sees, s, l, v);
  }

  lemma UnderIsPublished(sees: Snapshots, s: State, t: nat)
    requires Inv(sees, s) && t in s.threads && s.threads[t].Armed? && s.threads[t].cur.Some?
    ensures VersionLookup.Published(s, s.threads[t].cur)
  {
    assert ThreadOK(s, s.threads[t]) && ThreadInv(sees, s, s.threads[t]);
    forall u | u in s.threads && s.threads[u].Armed? ensures s.threads[t].cur != Some(s.threads[u].elem) {
      if u != t {
        assert Separate(s.threads[u], s.threads[t]);
      }
    }
  }

  lemma StaysKept(sees: Snapshots, s: State, l: Label, x: nat)
    requires ReadsOK(sees) && Inv(sees, s) && Enabled(sees, s, l) && ReachInv(s)
    requires x < |s.recs| && s.recs[x].version in s.over && VersionLookup.Published(s, Some(x)) && Kept(s, x)
    ensures WF(Next(s, l)) && x < |Next(s, l).recs| && Kept(Next(s, l), x)
  {
    hide VersionsOK, Known, Adjacent, ExpiryOK, Separate, ThreadInv, Leads, Untouched, Above, Kept, ReachOK, Chain, Ranked;
    VersionLookup.WalkStep(sees, s, l, Some(x));
    ContentPersists(sees, s, l);
    match l
    case Replace(_, _, _, _, _) => SwapKeepsKept(sees, s, l, x);
    case Recycle(_, _) => SwapKeepsKept(sees, s, l, x);
    case Remove(_, _, _) => RemoveKeepsKept(sees, s, l, x);
    case GcExpired(_, _) => CutKeepsKept(sees, s, l, x);
    case GcDeletion(_, _) => CutKeepsKept(sees, s, l, x);
    case _ => SameWalkKeeps(sees, s, l, x);
  }

  lemma JustArmed(sees: Snapshots, s: State, l: Label)
    requires ReadsOK(sees) && Inv(sees, s) && Enabled(sees, s, l) && l.Arm? && l.below.Some? && WF(Next(s, l))
    ensures l.below.value < |Next(s, l).recs| && Kept(Next(s, l), l.below.value)
  {
    hide VersionsOK, Known, Adjacent, ExpiryOK, Separate, ThreadInv, Leads, Untouched, Above;
    ArmWalks(sees, s, l);
    ContentPersists(sees, s, l);
    assert Chain(s.recs, l.below)[0] == l.below.value;
  }

  lemma NextKeepsArmed(sees: Snapshots, s: State, l: Label)
    requires ReadsOK(sees) && Inv(sees, s) && Enabled(sees, s, l) && ReachInv(s) && ArmedInv(s)
    ensures WF(Next(s, l)) && ArmedInv(Next(s, l))
  {
    hide VersionsOK, Known, Adjacent, ExpiryOK, Separate, ThreadInv, Leads, Untouched, Above, Kept, ReachOK, Chain, Ranked;
    var s' := Next(s, l);
    NextKeepsInv(sees, s, l);
    forall t | t in s'.threads ensures ArmedOK(s', s'.threads[t]) {
      if s'.threads[t].Armed? && s'.threads[t].cur.Some? {
        if l.Arm? && l.tid == t {
          JustArmed(sees, s, l);
        } else {
          ArmedBefore(sees, s, l, t);
          UnderIsOver(sees, s, t);
          UnderIsPublished(sees, s, t);
          assert ArmedOK(s, s.threads[t]);
          StaysKept(sees, s, l, s.threads[t].cur.value);
        }
      }
    }
  }

  lemma ArmedBefore(sees: Snapshots, s: State, l: Label, t: nat)
    requires WF(s) && Enabled(sees, s, l) && t in Next(s, l).threads && Next(s, l).threads[t].Armed?
    requires !(l.Arm? && l.tid == t)
    ensures t in s.threads && s.threads[t] == Next(s, l).threads[t]
  {
  }

  lemma {:induction false} RunArmed(sees: Snapshots, ss: seq<State>, ls: seq<Label>, i: nat)
    requires Execution(sees, ss, ls) && i < |ss|
    ensures Inv(sees, ss[i]) && ReachInv(ss[i]) && ArmedInv(ss[i])
  {
    hide VersionsOK, Known, Adjacent, ExpiryOK, Separate, ThreadInv, ReachOK, ArmedOK, Next, Enabled;
    ExecutionInv(sees, ss, ls, i);
    if i > 0 {
      RunArmed(sees, ss, ls, i - 1);
      assert Step(sees, ss[i - 1], ls[i - 1], ss[i]);
      NextKeepsReach(sees, ss[i - 1], ls[i - 1]);
      NextKeepsArmed(sees, ss[i - 1], ls[i - 1]);
    }
  }

  // ------------------------------------------------------------------ main result

  lemma {:induction false} ContentKept(sees: Snapshots, ss: seq<State>, ls: seq<Label>, k: nat, i: nat, x: nat)
    requires Execution(sees, ss, ls) && k <= i < |ss| && x < |ss[k].recs|
    ensures x < |ss[i].recs| && SameContent(ss[i].recs[x], ss[k].recs[x])
  {
    hide Inv, Next, Enabled;
    if k < i {
      ContentKept(sees, ss, ls, k, i - 1, x);
      ExecutionInv(sees, ss, ls, i - 1);
      assert Step(sees, ss[i - 1], ls[i - 1], ss[i]);
      ContentPersists(sees, ss[i - 1], ls[i - 1]);
    }
  }

  /** What a transaction reads: its read set and its own version. */
  function Own(sees: Snapshots, v: nat): nat -> bool {
    (u: nat) => u == v || sees(v, u)
  }

  /** The head of the list decides the lookup of a transaction that reads it. */
  lemma TopDecides(s: State, snapshot: nat -> bool)
    requires WF(s) && Inside(s.recs, List(s)) && List(s) != [] && snapshot(s.recs[List(s)[0]].version)
    ensures Lookup(s, snapshot).Tuple? <==> !s.recs[List(s)[0]].deletion
    ensures Lookup(s, snapshot).Tuple? ==> Lookup(s, snapshot).newest
  {
  }

  /** The list under an armed write is what the write was checked against, when its swap succeeds. */
  lemma UnderAtSwap(sees: Snapshots, s: State, t: nat, snapshot: nat -> bool)
    requires Inv(sees, s) && ArmedInv(s) && t in s.threads && s.threads[t].Armed? && s.head == s.threads[t].cur
    requires s.head.Some? ==> snapshot(s.recs[s.head.value].version)
    ensures Lookup(s, snapshot).Tuple? <==> s.head.Some? && !s.recs[s.head.value].deletion
    ensures Lookup(s, snapshot).Tuple? ==> Lookup(s, snapshot).newest
  {
    hide VersionsOK, Known, Adjacent, ExpiryOK, Separate, ThreadInv, Leads, Untouched;
    if s.head.Some? {
      assert ArmedOK(s, s.threads[t]) && Kept(s, s.head.value);
      if List(s) != [] {
        TopDecides(s, snapshot);
      }
    }
  }

  /** Every write succeeds on what its transaction reads: in the state of its swap the lookup by its own snapshot finds no
      tuple for an insert, and the newest version for an update or a removal. */
  lemma WriteMeetsLookup(sees: Snapshots, ss: seq<State>, ls: seq<Label>, i: nat, v: nat, op: Op, data: seq<int>)
    requires Execution(sees, ss, ls) && i < |ls| && WritesVersion(ls, i, v, op, data)
    ensures WF(ss[i]) && Inside(ss[i].recs, List(ss[i]))
    ensures op.Insert? <==> !Lookup(ss[i], Own(sees, v)).Tuple?
    ensures !op.Insert? ==> Lookup(ss[i], Own(sees, v)).newest
  {
    hide VersionsOK, Known, Adjacent, ExpiryOK, Separate, ThreadInv, Leads, Untouched, ArmedOK, ReachOK, LiveOK;
    RunArmed(sees, ss, ls, i);
    assert Step(sees, ss[i], ls[i], ss[i + 1]);
    if ls[i].Fire? {
      FireMeetsLookup(sees, ss, ls, i, v, op, data);
    } else {
      RunLiveInv(sees, ss, ls, i);
      ReplaceMeetsLookup(sees, ss[i], ls[i]);
    }
  }

  lemma ReplaceMeetsLookup(sees: Snapshots, s: State, l: Label)
    requires Inv(sees, s) && LiveInv(s) && Enabled(sees, s, l) && l.Replace?
    ensures l.op.Insert? <==> !Lookup(s, Own(sees, l.version)).Tuple?
    ensures !l.op.Insert? ==> Lookup(s, Own(sees, l.version)).newest
  {
    hide VersionsOK, Known, Adjacent, ExpiryOK, Separate, ThreadInv, Leads, Untouched;
    SealedIsPublished(sees, s, l.cur);
    assert LiveOK(s, l.cur);
    OwnIsNewest(sees, s, l.cur, l.version);
    TopDecides(s, Own(sees, l.version));
  }

  lemma FireMeetsLookup(sees: Snapshots, ss: seq<State>, ls: seq<Label>, i: nat, v: nat, op: Op, data: seq<int>)
    requires Execution(sees, ss, ls) && i < |ls| && WritesVersion(ls, i, v, op, data) && ls[i].Fire?
    requires Inv(sees, ss[i]) && ArmedInv(ss[i]) && Enabled(sees, ss[i], ls[i])
    ensures op.Insert? <==> !Lookup(ss[i], Own(sees, v)).Tuple?
    ensures !op.Insert? ==> Lookup(ss[i], Own(sees, v)).newest
  {
    hide VersionsOK, Known, Adjacent, ExpiryOK, Separate, ThreadInv, Leads, Untouched, ArmedOK, Lookup, Inv;
    var t := ls[i].tid;
    var k: nat, below :| WrittenAt(ls, k, i, t, below, v, op, data);
    WrittenUntil(sees, ss, ls, k, i, t, below, v, op, data);
    assert Step(sees, ss[k], ls[k], ss[k + 1]);
    if below.Some? {
      ContentKept(sees, ss, ls, k, i, below.value);
    }
    UnderAtSwap(sees, ss[i], t, Own(sees, v));
  }
}
