/**
 A lookup whose steps interleave with everything else (Table::get in logstructured/Table.hpp on top of
 VersionRecordIterator in logstructured/VersionRecordIterator.cpp): between any two of its accesses other threads write,
 revert, unlink, recycle and collect.

 The lookup loads the next pointer and the invalid marker of one record at a time, which are one word.  At an invalid record it goes on behind it, or, if the swap
 that was to unlink the record fails, at the current successor of the record it passed last, or at the head again.
 */
module VersionLookup {
  import opened Common
  import opened VersionChain

  /** The record a lookup has passed last, if it has not begun anew since, and the record it looks at next. */
  datatype Reader = Reader(prev: Option<nat>, cur: Option<nat>)

  /** One access of a lookup that does not find its tuple yet. */
  predicate Moves(s: State, snapshot: nat -> bool, r: Reader, r': Reader) {
    || r' == Reader(None, s.head)
    || (r.cur.Some? && r.cur.value < |s.recs|
        && var c := s.recs[r.cur.value];
           if c.invalid then r' == r.(cur := c.next) else !snapshot(c.version) && r' == Reader(r.cur, c.next))
    || (r.prev.Some? && r.prev.value < |s.recs| && !s.recs[r.prev.value].invalid
        && r' == r.(cur := s.recs[r.prev.value].next))
  }

  /** The access at which a lookup ends, with its tuple if there is one. */
  predicate Ends(s: State, snapshot: nat -> bool, r: Reader, found: Option<(nat, seq<int>)>) {
    if r.cur.None? then found.None?
    else
      && r.cur.value < |s.recs|
      && var c := s.recs[r.cur.value];
         !c.invalid && snapshot(c.version) && found == if c.deletion then None else Some((c.version, c.data))
  }

  /** A lookup during a run: `times` are the states in which its accesses take place, the first one loads the head. */
  ghost predicate LookupRun(ss: seq<State>, snapshot: nat -> bool, times: seq<nat>, readers: seq<Reader>) {
    && |times| == |readers| > 0 && (forall m | 0 <= m < |times| :: times[m] < |ss|)
    && (forall m, n | 0 <= m <= n < |times| :: times[m] <= times[n])
    && readers[0] == Reader(None, ss[times[0]].head)
    && forall m | 0 < m < |times| :: Moves(ss[times[m]], snapshot, readers[m - 1], readers[m])
  }

  // ------------------------------------------------------------------ which walks lead a snapshot to its record

  function V(recs: seq<Rec>, r: nat): nat {
    if r < |recs| then recs[r].version else 0
  }

  /** No record of the list is read. */
  ghost predicate Unread(recs: seq<Rec>, c: seq<nat>, snapshot: nat -> bool) {
    forall r | r in c :: !snapshot(V(recs, r))
  }

  /** The record of the list that is read. */
  ghost predicate First(recs: seq<Rec>, c: seq<nat>, f: nat, snapshot: nat -> bool) {
    f in c && snapshot(V(recs, f)) && forall r | r in c && V(recs, r) > V(recs, f) :: !snapshot(V(recs, r))
  }

  /** All newer records of `c` are in `all`. */
  ghost predicate NewerIn(recs: seq<Rec>, c: seq<nat>, f: nat, all: seq<nat>) {
    forall r | r in c && V(recs, r) > V(recs, f) :: r in all
  }

  /** The walk `c` leads to the record that is read in `all`, over records of `all` only. */
  ghost predicate Tracks(recs: seq<Rec>, c: seq<nat>, all: seq<nat>, snapshot: nat -> bool) {
    && (Unread(recs, all, snapshot) ==> Unread(recs, c, snapshot))
    && forall f | First(recs, all, f, snapshot) :: f in c && NewerIn(recs, c, f, all)
  }

  predicate SameVersions(recs: seq<Rec>, recs': seq<Rec>) {
    forall r: nat | r < |recs| :: V(recs', r) == V(recs, r)
  }

  ghost predicate Sorted(recs: seq<Rec>, c: seq<nat>) {
    Inside(recs, c) && Descending(recs, c)
  }

  lemma {:induction false} FirstExists(recs: seq<Rec>, c: seq<nat>, snapshot: nat -> bool) returns (f: nat)
    requires Sorted(recs, c) && !Unread(recs, c, snapshot)
    ensures First(recs, c, f, snapshot)
  {
    var t := c[1..];
    assert forall r | r in c :: r == c[0] || r in t;
    assert forall r | r in t :: r in c;
    if snapshot(V(recs, c[0])) {
      f := c[0];
      forall r | r in c ensures V(recs, r) <= V(recs, f) {
        var k :| 0 <= k < |c| && c[k] == r;
      }
    } else {
      assert forall k | 0 <= k < |t| :: t[k] == c[k + 1];
      f := FirstExists(recs, t, snapshot);
    }
  }

  lemma SameRecord(recs: seq<Rec>, c: seq<nat>, a: nat, b: nat)
    requires Sorted(recs, c) && a in c && b in c && V(recs, a) == V(recs, b)
    ensures a == b
  {
    var j :| 0 <= j < |c| && c[j] == a;
    var k :| 0 <= k < |c| && c[k] == b;
  }

  /** A lookup in the list returns the record that is read. */
  lemma {:induction false} ReadFirst(recs: seq<Rec>, c: seq<nat>, f: nat, snapshot: nat -> bool, newest: bool)
    requires Sorted(recs, c) && First(recs, c, f, snapshot)
    ensures f < |recs|
    ensures Visible(Read(recs, c, snapshot, newest)) == if recs[f].deletion then None else Some((recs[f].version, recs[f].data))
  {
    var t := c[1..];
    assert forall r | r in t :: r in c;
    assert forall k | 0 <= k < |t| :: t[k] == c[k + 1];
    if c[0] != f {
      assert f in t;
      var k :| 0 <= k < |c| && c[k] == f;
      assert c[0] in c;
      ReadFirst(recs, t, f, snapshot, false);
    }
  }

  lemma {:induction false} ReadUnread(recs: seq<Rec>, c: seq<nat>, snapshot: nat -> bool, newest: bool)
    requires Inside(recs, c) && Unread(recs, c, snapshot)
    ensures Visible(Read(recs, c, snapshot, newest)) == None
  {
    if c != [] {
      var t := c[1..];
      assert c[0] in c && forall r | r in t :: r in c;
      assert forall k | 0 <= k < |t| :: t[k] == c[k + 1];
      ReadUnread(recs, t, snapshot, false);
    }
  }

  // ------------------------------------------------------------------ what the steps of others do to a walk

  lemma TracksSame(recs: seq<Rec>, recs': seq<Rec>, c: seq<nat>, all: seq<nat>, snapshot: nat -> bool)
    requires Tracks(recs, c, all, snapshot) && Inside(recs, c) && Inside(recs, all) && SameVersions(recs, recs')
    ensures Tracks(recs', c, all, snapshot)
  {
    SameInside(recs, recs', c);
    SameInside(recs, recs', all);
    forall f | First(recs', all, f, snapshot) ensures f in c && NewerIn(recs', c, f, all) {
      assert First(recs, all, f, snapshot);
    }
  }

  lemma SameInside(recs: seq<Rec>, recs': seq<Rec>, c: seq<nat>)
    requires Inside(recs, c) && SameVersions(recs, recs')
    ensures forall r | r in c :: V(recs', r) == V(recs, r)
  {
  }

  /** A new record that is not read in front of the list. */
  lemma TracksPush(recs: seq<Rec>, c: seq<nat>, all: seq<nat>, e: nat, snapshot: nat -> bool)
    requires Tracks(recs, c, all, snapshot) && !snapshot(V(recs, e))
    ensures Tracks(recs, c, [e] + all, snapshot)
  {
    assert forall r | r in all :: r in [e] + all;
    forall f | First(recs, [e] + all, f, snapshot) ensures f in c && NewerIn(recs, c, f, [e] + all) {
      assert First(recs, all, f, snapshot);
      assert NewerIn(recs, c, f, all);
    }
  }

  function Name(r: nat, x: nat, y: nat): nat {
    if r == x then y else r
  }

  lemma RenamedMembers(c: seq<nat>, x: nat, y: nat)
    ensures forall r | r in c :: Name(r, x, y) in Renamed(c, x, y)
    ensures forall q | q in Renamed(c, x, y) :: exists r :: r in c && q == Name(r, x, y)
  {
    forall r | r in c ensures Name(r, x, y) in Renamed(c, x, y) {
      var k :| 0 <= k < |c| && c[k] == r;
      assert Renamed(c, x, y)[k] == Name(r, x, y);
    }
    forall q | q in Renamed(c, x, y) ensures exists r :: r in c && q == Name(r, x, y) {
      var k :| 0 <= k < |c| && Renamed(c, x, y)[k] == q;
      assert c[k] in c && q == Name(c[k], x, y);
    }
  }

  /** A record replaced by a copy of the same version. */
  lemma TracksRename(recs: seq<Rec>, c: seq<nat>, all: seq<nat>, x: nat, y: nat, snapshot: nat -> bool)
    requires Tracks(recs, c, all, snapshot) && V(recs, y) == V(recs, x) && y !in all && y !in c
    ensures Tracks(recs, Renamed(c, x, y), Renamed(all, x, y), snapshot)
  {
    hide Renamed;
    var c', all' := Renamed(c, x, y), Renamed(all, x, y);
    RenamedMembers(c, x, y);
    RenamedMembers(all, x, y);
    if Unread(recs, all', snapshot) {
      forall r | r in all ensures !snapshot(V(recs, r)) {
        assert Name(r, x, y) in all';
      }
      assert Unread(recs, all, snapshot);
    }
    forall f' | First(recs, all', f', snapshot) ensures f' in c' && NewerIn(recs, c', f', all') {
      var f :| f in all && f' == Name(f, x, y);
      forall r | r in all && V(recs, r) > V(recs, f) ensures !snapshot(V(recs, r)) {
        assert Name(r, x, y) in all';
      }
      assert First(recs, all, f, snapshot);
      assert NewerIn(recs, c, f, all) && Name(f, x, y) in c';
      forall q | q in c' && V(recs, q) > V(recs, f') ensures q in all' {
        var r :| r in c && q == Name(r, x, y);
        assert r in all;
      }
    }
  }

  lemma {:induction false} WithoutMembers(c: seq<nat>, x: nat, r: nat)
    ensures r in Without(c, x) <==> r in c && r != x
  {
    if c != [] {
      WithoutMembers(c[1..], x, r);
    }
  }

  /** A record that is not read is invalidated. */
  lemma TracksWithout(recs: seq<Rec>, c: seq<nat>, all: seq<nat>, x: nat, snapshot: nat -> bool)
    requires Tracks(recs, c, all, snapshot) && !snapshot(V(recs, x))
    ensures Tracks(recs, Without(c, x), Without(all, x), snapshot)
  {
    hide Without;
    var c', all' := Without(c, x), Without(all, x);
    forall r: nat ensures (r in c' <==> r in c && r != x) && (r in all' <==> r in all && r != x) {
      WithoutMembers(c, x, r);
      WithoutMembers(all, x, r);
    }
    if Unread(recs, all', snapshot) {
      assert Unread(recs, all, snapshot);
    }
    forall f | First(recs, all', f, snapshot) ensures f in c' && NewerIn(recs, c', f, all') {
      assert First(recs, all, f, snapshot);
      assert NewerIn(recs, c, f, all);
    }
  }

  lemma {:induction false} BeforeMembers(recs: seq<Rec>, c: seq<nat>, x: nat, r: nat)
    requires Sorted(recs, c)
    ensures r in Before(c, x) <==> r in c && (x in c ==> V(recs, r) > V(recs, x))
  {
    if c != [] && c[0] != x {
      var t := c[1..];
      assert forall k | 0 <= k < |t| :: t[k] == c[k + 1];
      assert forall q | q in c :: q == c[0] || q in t;
      BeforeMembers(recs, t, x, r);
      if x in c {
        var k :| 0 <= k < |c| && c[k] == x;
      }
    } else if c != [] && r in c {
      var k :| 0 <= k < |c| && c[k] == r;
    }
  }

  /** A cut behind or at the record that is read. */
  lemma TracksBefore(recs: seq<Rec>, c: seq<nat>, all: seq<nat>, x: nat, snapshot: nat -> bool)
    requires Tracks(recs, c, all, snapshot) && Sorted(recs, c) && Sorted(recs, all)
    requires x in all ==> snapshot(V(recs, x)) || exists g :: g in all && V(recs, g) > V(recs, x) && snapshot(V(recs, g))
    ensures Tracks(recs, Before(c, x), Before(all, x), snapshot)
  {
    hide Before, Sorted;
    var c', all' := Before(c, x), Before(all, x);
    forall r: nat
      ensures r in c' <==> r in c && (x in c ==> V(recs, r) > V(recs, x))
      ensures r in all' <==> r in all && (x in all ==> V(recs, r) > V(recs, x))
    {
      BeforeMembers(recs, c, x, r);
      BeforeMembers(recs, all, x, r);
    }
    if Unread(recs, all', snapshot) && !Unread(recs, all, snapshot) {
      CutAtFirst(recs, c, all, x, snapshot, c', all');
    }
    forall f | First(recs, all', f, snapshot) ensures f in c' && NewerIn(recs, c', f, all') {
      assert First(recs, all, f, snapshot);
      assert NewerIn(recs, c, f, all);
      if x in c && x !in all {
        assert V(recs, x) <= V(recs, f);
        if V(recs, x) == V(recs, f) {
          SameRecord(recs, c, x, f);
        }
      }
    }
  }

  lemma CutAtFirst(recs: seq<Rec>, c: seq<nat>, all: seq<nat>, x: nat, snapshot: nat -> bool, c': seq<nat>,
                   all': seq<nat>)
    requires Tracks(recs, c, all, snapshot) && Sorted(recs, c) && Sorted(recs, all)
    requires x in all ==> snapshot(V(recs, x)) || exists g :: g in all && V(recs, g) > V(recs, x) && snapshot(V(recs, g))
    requires forall r: nat | r in all && (x in all ==> V(recs, r) > V(recs, x)) :: r in all'
    requires forall r: nat | r in c' :: r in c && (x in c ==> V(recs, r) > V(recs, x))
    requires Unread(recs, all', snapshot) && !Unread(recs, all, snapshot)
    ensures Unread(recs, c', snapshot)
  {
    hide Sorted;
    var f := FirstExists(recs, all, snapshot);
    assert f !in all' && x in all && V(recs, f) <= V(recs, x);
    forall g | g in all && V(recs, g) > V(recs, x) ensures !snapshot(V(recs, g)) {
      assert g in all';
    }
    assert snapshot(V(recs, x));
    assert V(recs, x) == V(recs, f);
    SameRecord(recs, all, x, f);
    assert NewerIn(recs, c, f, all);
  }

  // ------------------------------------------------------------------ positions of a lookup

  /** Nobody is about to publish the record. */
  predicate Published(s: State, i: Option<nat>) {
    forall t | t in s.threads && s.threads[t].Armed? :: i != Some(s.threads[t].elem)
  }

  ghost predicate OnTrack(s: State, snapshot: nat -> bool, i: Option<nat>)
    requires WF(s)
  {
    In(s.recs, i) && Published(s, i) && Tracks(s.recs, Chain(s.recs, i), List(s), snapshot)
  }

  lemma HeadOnTrack(sees: Snapshots, s: State, snapshot: nat -> bool)
    requires Inv(sees, s)
    ensures OnTrack(s, snapshot, s.head)
  {
    hide Chain, VersionsOK, Known, Adjacent, Separate, ExpiryOK;
    forall t | t in s.threads && s.threads[t].Armed? ensures s.head != Some(s.threads[t].elem) {
      assert ThreadInv(sees, s, s.threads[t]);
    }
  }

  /** A walk is changed by a step of others as the whole list is. */
  lemma WalkStep(sees: Snapshots, s: State, l: Label, i: Option<nat>)
    requires ReadsOK(sees) && Inv(sees, s) && Enabled(sees, s, l) && In(s.recs, i) && Published(s, i)
    ensures WF(Next(s, l)) && In(Next(s, l).recs, i) && Published(Next(s, l), i)
    ensures var c, c' := Chain(s.recs, i), Chain(Next(s, l).recs, i);
            match l
            case Replace(_, _, x, _, _) => c' == Renamed(c, x, |s.recs|)
            case Recycle(_, x) => c' == Renamed(c, x, |s.recs|)
            case Remove(_, _, x) => c' == Without(c, x)
            case GcExpired(x, _) => c' == Before(c, x)
            case GcDeletion(x, _) => c' == Before(c, x)
            case _ => c' == c
  {
    hide VersionsOK, Known, Adjacent, Separate, ExpiryOK, ThreadInv, Chain, Ranked;
    StepList(sees, s, l);
    match l
    case Arm(_, _, _, _, _) => ArmWalks(sees, s, l);
    case Fire(_) => FireWalks(sees, s, l);
    case Disarm(_) => DisarmWalks(sees, s, l);
    case Expire(_) => SetToKeepsWalks(sees, s, l);
    case Seal(_) => SealWalks(s, l);
    case Replace(_, _, _, _, _) => SwapWalk(s, l, i);
    case Recycle(_, _) => SwapWalk(s, l, i);
    case Remove(_, _, _) => ChainMark(s.recs, l.cur, i);
    case Reactivate(_) => SetToKeepsWalks(sees, s, l);
    case UnlinkHead => UnlinkWalks(sees, s, l);
    case UnlinkNext(_) => UnlinkWalks(sees, s, l);
    case GcExpired(_, _) => ChainCut(s.recs, l.rec, i);
    case GcDeletion(_, _) => ChainCut(s.recs, l.rec, i);
    case Start(_) =>
    case Finish(_) =>
    case Advance(_) =>
  }

  lemma WalkSorted(s: State, i: Option<nat>)
    requires WF(s) && In(s.recs, i)
    ensures Sorted(s.recs, Chain(s.recs, i))
  {
    ChainSorted(s.recs, i);
  }

  lemma StepVersions(sees: Snapshots, s: State, l: Label)
    requires Inv(sees, s) && Enabled(sees, s, l)
    ensures SameVersions(s.recs, Next(s, l).recs)
    ensures (l.Replace? || l.Recycle?) ==> V(Next(s, l).recs, |s.recs|) == V(s.recs, l.cur)
  {
    hide Inv;
    assert WF(s) by { InvWF(sees, s); }
    ContentPersists(sees, s, l);
  }

  lemma InvWF(sees: Snapshots, s: State)
    requires Inv(sees, s)
    ensures WF(s)
  {
  }

  /** Collected records are read below a newer one, or are deletions that everybody reads. */
  lemma CutIsBelowRead(sees: Snapshots, s: State, l: Label, snapshot: nat -> bool)
    requires Inv(sees, s) && Enabled(sees, s, l) && (l.GcExpired? || l.GcDeletion?) && ReadsBelow(snapshot, s.low)
    ensures l.rec in List(s) ==> || snapshot(V(s.recs, l.rec))
                                 || exists g :: g in List(s) && V(s.recs, g) > V(s.recs, l.rec) && snapshot(V(s.recs, g))
  {
    hide VersionsOK, Known, Adjacent, Separate, ThreadInv, ExpiryOK, Chain;
    if l.GcExpired? && l.rec in List(s) {
      ExpiredIsShadowed(sees, s, l, snapshot);
      WalkSorted(s, s.head);
      var c := List(s);
      BeforePrefix(c, l.rec);
      var n := |Before(c, l.rec)|;
      var g := c[n - 1];
      assert g in c && V(s.recs, g) > V(s.recs, c[n]) && c[n] == l.rec;
    }
  }

  /** A step that is none of the snapshot's business keeps every position of a lookup on track. */
  lemma StepKeepsTrack(sees: Snapshots, s: State, l: Label, snapshot: nat -> bool, i: Option<nat>)
    requires ReadsOK(sees) && Inv(sees, s) && Foreign(sees, s, l, snapshot) && OnTrack(s, snapshot, i)
    ensures WF(Next(s, l)) && OnTrack(Next(s, l), snapshot, i)
  {
    hide Inv, Next, Chain, Tracks, Writer, ReadsBelow, SameVersions, Sorted;
    InvWF(sees, s);
    var s', c, all := Next(s, l), Chain(s.recs, i), List(s);
    WalkStep(sees, s, l, i);
    StepList(sees, s, l);
    StepVersions(sees, s, l);
    WalkInside(s, i);
    WalkInside(s, s.head);
    TracksSame(s.recs, s'.recs, c, all, snapshot);
    if l.Fire? {
      FireIsUnread(sees, s, l, snapshot);
      TracksPush(s'.recs, c, all, s.threads[l.tid].elem, snapshot);
    } else if l.Replace? || l.Recycle? {
      SwapVersions(sees, s, l);
      TracksRename(s'.recs, c, all, l.cur, |s.recs|, snapshot);
    } else if l.Remove? {
      RemoveKeepsTrack(sees, s, l, snapshot, c, all);
    } else if l.GcExpired? || l.GcDeletion? {
      CutKeepsTrack(sees, s, l, snapshot, c, all, i);
    }
  }

  lemma WalkInside(s: State, i: Option<nat>)
    requires WF(s) && In(s.recs, i)
    ensures Inside(s.recs, Chain(s.recs, i))
  {
    ChainSorted(s.recs, i);
  }

  lemma FireIsUnread(sees: Snapshots, s: State, l: Label, snapshot: nat -> bool)
    requires Inv(sees, s) && Foreign(sees, s, l, snapshot) && l.Fire?
    ensures l.tid in s.threads && s.threads[l.tid].Armed? && !snapshot(V(Next(s, l).recs, s.threads[l.tid].elem))
  {
    hide Inv, Chain;
    InvWF(sees, s);
    assert ThreadOK(s, s.threads[l.tid]);
    ContentPersists(sees, s, l);
  }

  lemma SwapVersions(sees: Snapshots, s: State, l: Label)
    requires Inv(sees, s) && Enabled(sees, s, l) && (l.Replace? || l.Recycle?)
    ensures V(Next(s, l).recs, |s.recs|) == V(Next(s, l).recs, l.cur)
  {
    hide Inv, Chain;
    InvWF(sees, s);
  }

  lemma RemoveKeepsTrack(sees: Snapshots, s: State, l: Label, snapshot: nat -> bool, c: seq<nat>, all: seq<nat>)
    requires ReadsOK(sees) && Inv(sees, s) && Foreign(sees, s, l, snapshot) && l.Remove? && WF(Next(s, l))
    requires all == List(s) && Tracks(Next(s, l).recs, c, all, snapshot)
    ensures Tracks(Next(s, l).recs, Without(c, l.cur), List(Next(s, l)), snapshot)
  {
    hide Inv, Chain, Tracks;
    InvWF(sees, s);
    HeadOnTrack(sees, s, snapshot);
    WalkStep(sees, s, l, s.head);
    StepVersions(sees, s, l);
    assert V(Next(s, l).recs, l.cur) == l.version;
    TracksWithout(Next(s, l).recs, c, all, l.cur, snapshot);
  }

  lemma CutKeepsTrack(sees: Snapshots, s: State, l: Label, snapshot: nat -> bool, c: seq<nat>, all: seq<nat>,
                      i: Option<nat>)
    requires Inv(sees, s) && Foreign(sees, s, l, snapshot) && (l.GcExpired? || l.GcDeletion?) && WF(Next(s, l)) && In(s.recs, i)
    requires all == List(s) && c == Chain(s.recs, i) && Tracks(s.recs, c, all, snapshot)
    ensures Tracks(Next(s, l).recs, Before(c, l.rec), Before(all, l.rec), snapshot)
  {
    hide Inv, Chain, Tracks, Before, Sorted;
    InvWF(sees, s);
    CutIsBelowRead(sees, s, l, snapshot);
    WalkSorted(s, i);
    WalkSorted(s, s.head);
    TracksBefore(s.recs, c, all, l.rec, snapshot);
    StepVersions(sees, s, l);
    BeforeInside(s.recs, c, l.rec);
    BeforeInside(s.recs, all, l.rec);
    TracksSame(s.recs, Next(s, l).recs, Before(c, l.rec), Before(all, l.rec), snapshot);
  }

  lemma BeforeInside(recs: seq<Rec>, c: seq<nat>, x: nat)
    requires Sorted(recs, c)
    ensures Inside(recs, Before(c, x))
  {
    BeforePrefix(c, x);
  }

  // ------------------------------------------------------------------ the accesses of a lookup

  /** Behind an invalid record, and behind a valid one that is not read, the walk is still on track. */
  lemma BehindOnTrack(sees: Snapshots, s: State, snapshot: nat -> bool, x: nat)
    requires Inv(sees, s) && OnTrack(s, snapshot, Some(x)) && (s.recs[x].invalid || !snapshot(s.recs[x].version))
    ensures OnTrack(s, snapshot, s.recs[x].next)
  {
    hide VersionsOK, Known, Adjacent, Separate, ExpiryOK;
    var i := s.recs[x].next;
    assert Link(s.recs, x);
    var c, c' := Chain(s.recs, Some(x)), Chain(s.recs, i);
    forall t | t in s.threads && s.threads[t].Armed? ensures i != Some(s.threads[t].elem) {
      assert ThreadInv(sees, s, s.threads[t]);
    }
    if !s.recs[x].invalid {
      assert c == [x] + c';
      WalkTail(s.recs, x, c', List(s), snapshot);
    }
  }

  lemma WalkTail(recs: seq<Rec>, x: nat, c': seq<nat>, all: seq<nat>, snapshot: nat -> bool)
    requires Tracks(recs, [x] + c', all, snapshot) && !snapshot(V(recs, x))
    ensures Tracks(recs, c', all, snapshot)
  {
    var c := [x] + c';
    assert forall r | r in c' :: r in c;
    assert forall r | r in c :: r == x || r in c';
    forall f | First(recs, all, f, snapshot) ensures f in c' && NewerIn(recs, c', f, all) {
      assert f in c && NewerIn(recs, c, f, all);
    }
  }

  /** Both positions of a lookup are on track, and the record it passed last is not read while it is valid. */
  ghost predicate ReaderOK(s: State, snapshot: nat -> bool, r: Reader)
    requires WF(s)
  {
    && OnTrack(s, snapshot, r.cur)
    && (r.prev.Some? ==> OnTrack(s, snapshot, r.prev) && !snapshot(V(s.recs, r.prev.value)))
  }

  lemma MoveKeepsTrack(sees: Snapshots, s: State, snapshot: nat -> bool, r: Reader, r': Reader)
    requires Inv(sees, s) && ReaderOK(s, snapshot, r) && Moves(s, snapshot, r, r')
    ensures ReaderOK(s, snapshot, r')
  {
    hide Inv, Chain, Tracks;
    InvWF(sees, s);
    HeadOnTrack(sees, s, snapshot);
    if r' == Reader(None, s.head) {
    } else if r.prev.Some? && r.prev.value < |s.recs| && !s.recs[r.prev.value].invalid
              && r' == r.(cur := s.recs[r.prev.value].next) {
      BehindOnTrack(sees, s, snapshot, r.prev.value);
    } else {
      BehindOnTrack(sees, s, snapshot, r.cur.value);
    }
  }

  lemma StepKeepsReader(sees: Snapshots, s: State, l: Label, snapshot: nat -> bool, r: Reader)
    requires ReadsOK(sees) && Inv(sees, s) && Foreign(sees, s, l, snapshot) && ReaderOK(s, snapshot, r)
    ensures WF(Next(s, l)) && ReaderOK(Next(s, l), snapshot, r)
  {
    hide Inv, Enabled, Next, Chain, Tracks;
    StepKeepsTrack(sees, s, l, snapshot, r.cur);
    if r.prev.Some? {
      StepKeepsTrack(sees, s, l, snapshot, r.prev);
      StepVersions(sees, s, l);
    }
  }

  lemma {:induction false} WaitKeepsReader(sees: Snapshots, ss: seq<State>, ls: seq<Label>, i: nat, j: nat,
                                           snapshot: nat -> bool, r: Reader)
    requires Execution(sees, ss, ls) && i <= j < |ss| && WF(ss[i]) && ReaderOK(ss[i], snapshot, r)
    requires forall k | i <= k < j :: Foreign(sees, ss[k], ls[k], snapshot)
    ensures WF(ss[j]) && ReaderOK(ss[j], snapshot, r)
    decreases j
  {
    hide Inv, Foreign, ReaderOK, Enabled, Next;
    if i < j {
      WaitKeepsReader(sees, ss, ls, i, j - 1, snapshot, r);
      ExecutionInv(sees, ss, ls, j - 1);
      assert Step(sees, ss[j - 1], ls[j - 1], ss[j]);
      assert Foreign(sees, ss[j - 1], ls[j - 1], snapshot);
      StepKeepsReader(sees, ss[j - 1], ls[j - 1], snapshot, r);
    }
  }

  lemma {:induction false} RunKeepsReader(sees: Snapshots, ss: seq<State>, ls: seq<Label>, snapshot: nat -> bool,
                                          times: seq<nat>, readers: seq<Reader>, m: nat)
    requires Execution(sees, ss, ls) && LookupRun(ss, snapshot, times, readers) && m < |times|
    requires forall k | times[0] <= k < times[m] :: Foreign(sees, ss[k], ls[k], snapshot)
    ensures WF(ss[times[m]]) && ReaderOK(ss[times[m]], snapshot, readers[m])
  {
    hide Inv, Foreign, ReaderOK, Moves;
    ExecutionInv(sees, ss, ls, times[m]);
    InvWF(sees, ss[times[m]]);
    if m == 0 {
      StartsOnTrack(sees, ss[times[0]], snapshot);
    } else {
      RunKeepsReader(sees, ss, ls, snapshot, times, readers, m - 1);
      WaitKeepsReader(sees, ss, ls, times[m - 1], times[m], snapshot, readers[m - 1]);
      MoveKeepsTrack(sees, ss[times[m]], snapshot, readers[m - 1], readers[m]);
    }
  }

  lemma StartsOnTrack(sees: Snapshots, s: State, snapshot: nat -> bool)
    requires Inv(sees, s)
    ensures WF(s) && ReaderOK(s, snapshot, Reader(None, s.head))
  {
    HeadOnTrack(sees, s, snapshot);
  }

  /** What a lookup that ends finds is what a lookup in this very state finds. */
  lemma EndFinds(sees: Snapshots, s: State, snapshot: nat -> bool, r: Reader, found: Option<(nat, seq<int>)>)
    requires Inv(sees, s) && ReaderOK(s, snapshot, r) && Ends(s, snapshot, r, found)
    ensures Visible(Lookup(s, snapshot)) == found
  {
    hide VersionsOK, Known, Adjacent, Separate, ExpiryOK, ThreadInv;
    var c, all := Chain(s.recs, r.cur), List(s);
    WalkSorted(s, s.head);
    WalkSorted(s, r.cur);
    ChainSorted(s.recs, r.cur);
    if Unread(s.recs, all, snapshot) {
      ReadUnread(s.recs, all, snapshot, true);
      StartsWalk(s, r.cur);
    } else {
      var f := FirstExists(s.recs, all, snapshot);
      ReadFirst(s.recs, all, f, snapshot, true);
      assert f in c && NewerIn(s.recs, c, f, all);
      EndsAtFirst(s.recs, c, all, f, snapshot, r.cur.value);
    }
  }

  lemma StartsWalk(s: State, i: Option<nat>)
    requires WF(s) && In(s.recs, i)
    ensures i.Some? && !s.recs[i.value].invalid ==> i.value in Chain(s.recs, i)
  {
    ChainSorted(s.recs, i);
  }

  lemma NewestFirst(recs: seq<Rec>, c: seq<nat>)
    requires Sorted(recs, c)
    ensures forall r | r in c :: V(recs, r) <= V(recs, c[0])
  {
    forall r | r in c ensures V(recs, r) <= V(recs, c[0]) {
      var k :| 0 <= k < |c| && c[k] == r;
    }
  }

  lemma EndsAtFirst(recs: seq<Rec>, c: seq<nat>, all: seq<nat>, f: nat, snapshot: nat -> bool, x: nat)
    requires Sorted(recs, c) && First(recs, all, f, snapshot) && f in c && NewerIn(recs, c, f, all)
    requires c != [] && c[0] == x && snapshot(V(recs, x))
    ensures f == x
  {
    NewestFirst(recs, c);
    assert x in c;
    assert V(recs, x) == V(recs, f);
    SameRecord(recs, c, x, f);
  }

  /** A lookup during any run, whatever others write, revert, unlink, recycle and collect between its accesses: if none of
      the writers' versions is in the snapshot and all versions up to the lowest active one are, it finds what a lookup
      in a single state finds, in the state in which it began, in the one in which it ends and in all in between. */
  lemma LookupIsAtomic(sees: Snapshots, ss: seq<State>, ls: seq<Label>, snapshot: nat -> bool, times: seq<nat>,
                       readers: seq<Reader>, found: Option<(nat, seq<int>)>, j: nat)
    requires Execution(sees, ss, ls) && LookupRun(ss, snapshot, times, readers)
    requires var end := times[|times| - 1];
             && (forall k | times[0] <= k < end :: Foreign(sees, ss[k], ls[k], snapshot))
             && Ends(ss[end], snapshot, readers[|times| - 1], found)
             && times[0] <= j <= end
    ensures WF(ss[j]) && Inside(ss[j].recs, List(ss[j])) && Visible(Lookup(ss[j], snapshot)) == found
  {
    hide Inv, Foreign, ReaderOK, Ends, Lookup;
    var n: nat := |times| - 1;
    RunKeepsReader(sees, ss, ls, snapshot, times, readers, n);
    ExecutionInv(sees, ss, ls, times[n]);
    EndFinds(sees, ss[times[n]], snapshot, readers[n], found);
    SnapshotIsStable(sees, ss, ls, j, times[n], snapshot);
  }
}
