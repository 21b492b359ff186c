/**
 What a transaction has written is what is read (logstructured/Table.cpp, logstructured/Table.hpp): the runs of
 VersionChain, seen from the labels of the writes in them.
 */
module VersionWrites {
  import opened Common
  import opened VersionChain
  import VersionLookup

  // ------------------------------------------------------------------ what is written

  /** The record holds what transaction `v` wrote. */
  predicate Holds(r: Rec, v: nat, op: Op, data: seq<int>) {
    r.version == v && (r.deletion <==> op.Delete?) && r.data == data
  }

  /** The newest version of the key is what transaction `v` wrote. */
  predicate OnTop(s: State, v: nat, op: Op, data: seq<int>) {
    && WF(s) && Inside(s.recs, List(s)) && List(s) != []
    && Holds(s.recs[List(s)[0]], v, op, data)
  }

  /** Thread `t` has written the record `elem`, and will swap it in. */
  predicate Wrote(s: State, t: nat, elem: nat, below: Option<nat>, v: nat, op: Op, data: seq<int>) {
    t in s.threads && s.threads[t] == Armed(elem, below) && elem < |s.recs| && Holds(s.recs[elem], v, op, data)
  }

  lemma ArmWrites(s: State, l: Label)
    requires WF(s) && l.Arm? && l.tid !in s.threads
    ensures Wrote(Next(s, l), l.tid, |s.recs|, l.below, l.version, l.op, l.data)
  {
  }

  lemma StaysWritten(sees: Snapshots, s: State, l: Label, t: nat, elem: nat, below: Option<nat>, v: nat, op: Op,
                     data: seq<int>)
    requires Inv(sees, s) && Enabled(sees, s, l) && Wrote(s, t, elem, below, v, op, data)
    requires l != Fire(t) && l != Disarm(t)
    ensures Wrote(Next(s, l), t, elem, below, v, op, data)
  {
    hide Inv, Holds;
    assert WF(s) by { InvWF(sees, s); }
    HeldPersists(sees, s, l, elem, v, op, data);
  }

  lemma HeldPersists(sees: Snapshots, s: State, l: Label, r: nat, v: nat, op: Op, data: seq<int>)
    requires Inv(sees, s) && Enabled(sees, s, l) && r < |s.recs| && Holds(s.recs[r], v, op, data)
    ensures r < |Next(s, l).recs| && Holds(Next(s, l).recs[r], v, op, data)
  {
    hide Inv, Next, Enabled;
    assert WF(s) by { InvWF(sees, s); }
    ContentPersists(sees, s, l);
  }

  lemma InvWF(sees: Snapshots, s: State)
    requires Inv(sees, s)
    ensures WF(s) && Inside(s.recs, List(s))
  {
  }

  // ------------------------------------------------------------------ records of running transactions

  /** Every record belongs to a transaction that has started, and a published valid one of a running transaction is in
      the list. */
  ghost predicate LiveInv(s: State)
    requires WF(s)
  {
    forall x | 0 <= x < |s.recs| :: LiveOK(s, x)
  }

  ghost predicate LiveOK(s: State, x: nat)
    requires WF(s) && x < |s.recs|
  {
    && (s.recs[x].version in s.live || s.recs[x].version in s.over)
    && (s.recs[x].version in s.live && !s.recs[x].invalid && VersionLookup.Published(s, Some(x)) ==> x in List(s))
  }

  /** The collector never cuts the list at or above the record of a running transaction. */
  lemma CutsBelow(sees: Snapshots, s: State, l: Label, x: nat)
    requires Inv(sees, s) && Enabled(sees, s, l) && (l.GcExpired? || l.GcDeletion?)
    requires x in List(s) && x < |s.recs| && s.recs[x].version in s.live
    ensures WF(Next(s, l)) && List(Next(s, l)) != [] && List(Next(s, l))[0] == List(s)[0] == x
  {
    hide Separate, Known, Adjacent;
    CutKeepsInv(sees, s, l);
    CutKeepsList(sees, s, l.rec);
    OwnIsNewest(sees, s, x, s.recs[x].version);
    BeforePrefix(List(s), l.rec);
    if l.rec in List(s) && l.GcExpired? {
      ExpiredIsShadowed(sees, s, l, u => true);
    }
  }

  lemma WasPublished(sees: Snapshots, s: State, l: Label, x: nat)
    requires Inv(sees, s) && Enabled(sees, s, l) && x < |s.recs| && WF(Next(s, l))
    requires VersionLookup.Published(Next(s, l), Some(x)) && x < |Next(s, l).recs| && !Next(s, l).recs[x].invalid
    ensures VersionLookup.Published(s, Some(x)) || (l.Fire? && s.threads[l.tid].elem == x)
  {
    hide VersionsOK, Known, Adjacent, ExpiryOK, Separate, Ranked, Chain, ThreadInv;
    forall t | t in s.threads && s.threads[t].Armed? && s.threads[t].elem == x
      ensures l.Fire? && s.threads[l.tid].elem == x
    {
      if t in Next(s, l).threads {
        assert Next(s, l).threads[t].Armed? ==> Next(s, l).threads[t].elem != x;
      }
    }
  }

  /** A sealed record has been published. */
  lemma SealedIsPublished(sees: Snapshots, s: State, x: nat)
    requires Inv(sees, s) && x < |s.recs| && s.recs[x].sealed
    ensures VersionLookup.Published(s, Some(x))
  {
    forall t | t in s.threads && s.threads[t].Armed? ensures s.threads[t].elem != x {
      assert ThreadOK(s, s.threads[t]) && ThreadInv(sees, s, s.threads[t]);
    }
  }

  lemma OldRecordOK(sees: Snapshots, s: State, l: Label, x: nat)
    requires ReadsOK(sees) && Inv(sees, s) && Enabled(sees, s, l) && x < |s.recs| && LiveOK(s, x)
    ensures WF(Next(s, l)) && x < |Next(s, l).recs| && LiveOK(Next(s, l), x)
  {
    hide VersionsOK, Known, Adjacent, ExpiryOK, Separate, ThreadInv, Ranked, Chain, Leads, Untouched;
    var s', c := Next(s, l), List(s);
    ContentPersists(sees, s, l);
    StepList(sees, s, l);
    if s'.recs[x].version in s'.live && !s'.recs[x].invalid && VersionLookup.Published(s', Some(x)) {
      WasPublished(sees, s, l, x);
      if s.recs[x].invalid {
        InvalidPersists(sees, s, l, x);
      } else if l.Fire? && s.threads[l.tid].elem == x {
        assert List(s')[0] == x;
      } else {
        StaysInList(sees, s, l, x);
      }
    }
  }

  lemma StaysInList(sees: Snapshots, s: State, l: Label, x: nat)
    requires ReadsOK(sees) && Inv(sees, s) && Enabled(sees, s, l) && WF(Next(s, l))
    requires x < |s.recs| && x in List(s) && s.recs[x].version in s.live
    requires x < |Next(s, l).recs| && !Next(s, l).recs[x].invalid
    ensures x in List(Next(s, l))
  {
    hide VersionsOK, Known, Adjacent, ExpiryOK, Separate, ThreadInv, Ranked, Chain, Leads, Untouched;
    var c, c' := List(s), List(Next(s, l));
    StepList(sees, s, l);
    if l.Fire? {
      assert c'[1..] == c;
    } else if l.Replace? || l.Recycle? {
      RenamedKeeps(c, l.cur, |s.recs|, x);
    } else if l.Remove? {
      assert l.cur in c ==> c == [c[0]] + c[1..];
    } else if l.GcExpired? || l.GcDeletion? {
      CutsBelow(sees, s, l, x);
    }
  }

  lemma NewRecordOK(sees: Snapshots, s: State, l: Label)
    requires ReadsOK(sees) && Inv(sees, s) && Enabled(sees, s, l) && LiveInv(s) && |Next(s, l).recs| > |s.recs|
    ensures WF(Next(s, l)) && LiveOK(Next(s, l), |s.recs|)
  {
    hide VersionsOK, Known, Adjacent, ExpiryOK, Separate, ThreadInv, Ranked, Chain, Leads, Untouched;
    var s' := Next(s, l);
    StepList(sees, s, l);
    if l.Arm? {
      assert s'.threads[l.tid] == Armed(|s.recs|, l.below);
    } else {
      SealedIsPublished(sees, s, l.cur);
      assert LiveOK(s, l.cur);
      if s.recs[l.cur].version in s.live {
        var k :| 0 <= k < |List(s)| && List(s)[k] == l.cur;
        assert Renamed(List(s), l.cur, |s.recs|)[k] == |s.recs|;
      }
    }
  }

  lemma NextKeepsLiveInv(sees: Snapshots, s: State, l: Label)
    requires ReadsOK(sees) && Inv(sees, s) && Enabled(sees, s, l) && LiveInv(s)
    ensures WF(Next(s, l)) && LiveInv(Next(s, l))
  {
    hide VersionsOK, Known, Adjacent, ExpiryOK, Separate, ThreadInv, LiveOK, Next;
    NextKeepsInv(sees, s, l);
    forall x | 0 <= x < |Next(s, l).recs| ensures LiveOK(Next(s, l), x) {
      if x < |s.recs| {
        OldRecordOK(sees, s, l, x);
      } else {
        OneRecordAdded(sees, s, l);
        NewRecordOK(sees, s, l);
      }
    }
  }

  lemma OneRecordAdded(sees: Snapshots, s: State, l: Label)
    requires Inv(sees, s) && Enabled(sees, s, l)
    ensures |s.recs| <= |Next(s, l).recs| <= |s.recs| + 1
  {
    hide VersionsOK, Known, Adjacent, ExpiryOK, Separate, ThreadInv, Ranked, Chain, Leads, Untouched;
  }

  lemma {:induction false} RunLiveInv(sees: Snapshots, ss: seq<State>, ls: seq<Label>, i: nat)
    requires Execution(sees, ss, ls) && i < |ss|
    ensures Inv(sees, ss[i]) && LiveInv(ss[i])
  {
    hide Inv, LiveOK, Next, Enabled;
    ExecutionInv(sees, ss, ls, i);
    InvWF(sees, ss[i]);
    if i > 0 {
      RunLiveInv(sees, ss, ls, i - 1);
      assert Step(sees, ss[i - 1], ls[i - 1], ss[i]);
      NextKeepsLiveInv(sees, ss[i - 1], ls[i - 1]);
    }
  }

  // ------------------------------------------------------------------ what a transaction reads of its own writes

  /** Transaction `v` replaces or reverts its own version. */
  predicate Rewrites(l: Label, v: nat) {
    (l.Replace? || l.Remove?) && l.version == v
  }

  /** A new version comes on top of those of finished transactions only. */
  lemma NoFireAbove(sees: Snapshots, s: State, l: Label, v: nat, op: Op, data: seq<int>)
    requires Inv(sees, s) && Enabled(sees, s, l) && l.Fire? && OnTop(s, v, op, data)
    ensures v !in s.live
  {
    assert ThreadInv(sees, s, s.threads[l.tid]);
  }

  lemma OnTopStays(sees: Snapshots, s: State, l: Label, v: nat, op: Op, data: seq<int>)
    requires ReadsOK(sees) && Inv(sees, s) && Enabled(sees, s, l) && OnTop(s, v, op, data) && v in s.live
    requires !Rewrites(l, v)
    ensures OnTop(Next(s, l), v, op, data)
  {
    hide VersionsOK, Known, Adjacent, ExpiryOK, Separate, ThreadInv, Ranked, Chain, Leads, Untouched;
    var s', x := Next(s, l), List(s)[0];
    NextKeepsInv(sees, s, l);
    StepList(sees, s, l);
    ContentPersists(sees, s, l);
    if l.Fire? {
      NoFireAbove(sees, s, l, v, op, data);
    } else if l.GcExpired? || l.GcDeletion? {
      CutsBelow(sees, s, l, x);
    } else if (l.Replace? || l.Remove?) && l.cur in List(s) {
      OwnIsNewest(sees, s, l.cur, l.version);
    }
  }

  /** A snapshot that reads the newest version finds it. */
  lemma TopIsFound(s: State, v: nat, op: Op, data: seq<int>, snapshot: nat -> bool)
    requires OnTop(s, v, op, data) && snapshot(v)
    ensures Visible(Lookup(s, snapshot)) == if op.Delete? then None else Some((v, data))
  {
  }

  /** Step `i` of the run swaps in what transaction `v` writes: the record that its thread has written in a step `k` before,
      or a record in place of its own earlier version. */
  ghost predicate WritesVersion(ls: seq<Label>, i: nat, v: nat, op: Op, data: seq<int>)
    requires i < |ls|
  {
    match ls[i]
    case Fire(t) => exists k: nat, below :: WrittenAt(ls, k, i, t, below, v, op, data)
    case Replace(_, u, _, o, d) => (u, o, d) == (v, op, data)
    case _ => false
  }

  ghost predicate WrittenAt(ls: seq<Label>, k: nat, i: nat, t: nat, below: Option<nat>, v: nat, op: Op, data: seq<int>)
    requires i < |ls|
  {
    && k < i && ls[k] == Arm(t, v, op, data, below)
    && forall m | k < m < i :: ls[m] != Fire(t) && ls[m] != Disarm(t)
  }

  lemma {:induction false} WrittenUntil(sees: Snapshots, ss: seq<State>, ls: seq<Label>, k: nat, i: nat, t: nat,
                                        below: Option<nat>, v: nat, op: Op, data: seq<int>)
    requires Execution(sees, ss, ls) && i < |ls| && k < i && ls[k] == Arm(t, v, op, data, below)
    requires forall m | k < m < i :: ls[m] != Fire(t) && ls[m] != Disarm(t)
    ensures Wrote(ss[i], t, |ss[k].recs|, below, v, op, data)
  {
    hide Inv, Enabled, Next, Wrote;
    ExecutionInv(sees, ss, ls, i - 1);
    assert Step(sees, ss[i - 1], ls[i - 1], ss[i]);
    if k == i - 1 {
      StepWF(sees, ss[k], ls[k]);
      ArmWrites(ss[k], ls[k]);
    } else {
      WrittenUntil(sees, ss, ls, k, i - 1, t, below, v, op, data);
      StaysWritten(sees, ss[i - 1], ls[i - 1], t, |ss[k].recs|, below, v, op, data);
    }
  }

  lemma StepWF(sees: Snapshots, s: State, l: Label)
    requires WF(s) && Enabled(sees, s, l)
    ensures l.Arm? ==> l.tid !in s.threads
  {
  }

  lemma SwappedIn(sees: Snapshots, ss: seq<State>, ls: seq<Label>, i: nat, v: nat, op: Op, data: seq<int>)
    requires Execution(sees, ss, ls) && i < |ls| && WritesVersion(ls, i, v, op, data)
    ensures OnTop(ss[i + 1], v, op, data)
  {
    hide VersionsOK, Known, Adjacent, ExpiryOK, Separate, ThreadInv, Ranked, Chain, Leads, Untouched;
    var s, l := ss[i], ls[i];
    RunLiveInv(sees, ss, ls, i);
    assert Step(sees, s, l, ss[i + 1]);
    NextKeepsInv(sees, s, l);
    StepList(sees, s, l);
    ContentPersists(sees, s, l);
    if l.Fire? {
      var k: nat, below :| WrittenAt(ls, k, i, l.tid, below, v, op, data);
      WrittenUntil(sees, ss, ls, k, i, l.tid, below, v, op, data);
    } else {
      SealedIsPublished(sees, s, l.cur);
      assert LiveOK(s, l.cur);
      OwnIsNewest(sees, s, l.cur, v);
      assert Renamed(List(s), l.cur, |s.recs|)[0] == |s.recs|;
    }
  }

  lemma NotOver(sees: Snapshots, s: State, l: Label, v: nat)
    requires Inv(sees, s) && Enabled(sees, s, l) && Inv(sees, Next(s, l)) && v in Next(s, l).live
    ensures v !in s.over
  {
    hide Known, Adjacent, ExpiryOK, Separate, ThreadInv, Ranked, Chain;
  }

  lemma {:induction false} LiveOrOver(sees: Snapshots, ss: seq<State>, ls: seq<Label>, i: nat, j: nat, v: nat)
    requires Execution(sees, ss, ls) && i <= j < |ss| && v in ss[i].live
    ensures v in ss[j].live || v in ss[j].over
  {
    if i < j {
      LiveOrOver(sees, ss, ls, i, j - 1, v);
      assert Step(sees, ss[j - 1], ls[j - 1], ss[j]);
      StepLive(sees, ss[j - 1], ls[j - 1], v);
    }
  }

  lemma StepLive(sees: Snapshots, s: State, l: Label, v: nat)
    requires WF(s) && Enabled(sees, s, l) && (v in s.live || v in s.over)
    ensures v in Next(s, l).live || v in Next(s, l).over
  {
  }

  lemma {:induction false} StaysOnTop(sees: Snapshots, ss: seq<State>, ls: seq<Label>, i: nat, j: nat, v: nat, op: Op,
                                      data: seq<int>)
    requires Execution(sees, ss, ls) && i <= j < |ss| && OnTop(ss[i], v, op, data)
    requires v in ss[i].live && v in ss[j].live && forall m | i <= m < j :: !Rewrites(ls[m], v)
    ensures OnTop(ss[j], v, op, data)
  {
    hide Inv, Next, OnTop;
    if i < j {
      assert Step(sees, ss[j - 1], ls[j - 1], ss[j]);
      ExecutionInv(sees, ss, ls, j - 1);
      ExecutionInv(sees, ss, ls, j);
      LiveOrOver(sees, ss, ls, i, j - 1, v);
      NotOver(sees, ss[j - 1], ls[j - 1], v);
      StaysOnTop(sees, ss, ls, i, j - 1, v, op, data);
      OnTopStays(sees, ss[j - 1], ls[j - 1], v, op, data);
    }
  }

  /** A transaction reads what it has written last: from the swap on, while it is running and neither replaces nor reverts
      its version, every snapshot that reads the version finds the data of the write, or nothing if it was a removal. */
  lemma WriteIsFound(sees: Snapshots, ss: seq<State>, ls: seq<Label>, i: nat, j: nat, v: nat, op: Op, data: seq<int>,
                     snapshot: nat -> bool)
    requires Execution(sees, ss, ls) && i < j < |ss| && WritesVersion(ls, i, v, op, data)
    requires v in ss[j].live && (forall m | i < m < j :: !Rewrites(ls[m], v)) && snapshot(v)
    ensures WF(ss[j]) && Inside(ss[j].recs, List(ss[j]))
    ensures Visible(Lookup(ss[j], snapshot)) == if op.Delete? then None else Some((v, data))
  {
    hide Inv, Next, OnTop, WritesVersion, Lookup, VersionChain.Visible;
    SwappedIn(sees, ss, ls, i, v, op, data);
    WriterIsLive(sees, ss, ls, i, v, op, data);
    StaysOnTop(sees, ss, ls, i + 1, j, v, op, data);
    ExecutionInv(sees, ss, ls, j);
    InvWF(sees, ss[j]);
    TopIsFound(ss[j], v, op, data, snapshot);
  }

  lemma WriterIsLive(sees: Snapshots, ss: seq<State>, ls: seq<Label>, i: nat, v: nat, op: Op, data: seq<int>)
    requires Execution(sees, ss, ls) && i < |ls| && WritesVersion(ls, i, v, op, data)
    ensures v in ss[i + 1].live
  {
    hide VersionsOK, Known, Adjacent, ExpiryOK, Separate, Ranked, Chain, Leads, Untouched;
    var s, l := ss[i], ls[i];
    ExecutionInv(sees, ss, ls, i);
    assert Step(sees, s, l, ss[i + 1]);
    if l.Fire? {
      var k: nat, below :| WrittenAt(ls, k, i, l.tid, below, v, op, data);
      WrittenUntil(sees, ss, ls, k, i, l.tid, below, v, op, data);
      assert ThreadInv(sees, s, s.threads[l.tid]);
    }
  }

  /** And when it has finished, every snapshot that reads it and none of those that write later keeps finding it, whatever
      the others and the garbage collection do. */
  lemma CommittedWriteIsFound(sees: Snapshots, ss: seq<State>, ls: seq<Label>, i: nat, j: nat, n: nat, v: nat, op: Op,
                              data: seq<int>, snapshot: nat -> bool)
    requires Execution(sees, ss, ls) && i < j <= n < |ss| && WritesVersion(ls, i, v, op, data)
    requires v in ss[j].live && (forall m | i < m < j :: !Rewrites(ls[m], v)) && snapshot(v)
    requires forall m | j <= m < n :: Foreign(sees, ss[m], ls[m], snapshot)
    ensures WF(ss[n]) && Inside(ss[n].recs, List(ss[n]))
    ensures Visible(Lookup(ss[n], snapshot)) == if op.Delete? then None else Some((v, data))
  {
    WriteIsFound(sees, ss, ls, i, j, v, op, data, snapshot);
    SnapshotIsStable(sees, ss, ls, j, n, snapshot);
  }

  // ------------------------------------------------------------------ reverts

  /** What a snapshot reads without version `v`. */
  function Except(snapshot: nat -> bool, v: nat): nat -> bool {
    (u: nat) => snapshot(u) && u != v
  }

  /** A list without version `v` is read in the same way with and without it. */
  lemma {:induction false} ReadExcept(recs: seq<Rec>, c: seq<nat>, snapshot: nat -> bool, v: nat, newest: bool)
    requires Inside(recs, c) && forall k | 0 <= k < |c| :: recs[c[k]].version != v
    ensures Read(recs, c, snapshot, newest) == Read(recs, c, Except(snapshot, v), newest)
  {
    if c != [] {
      ReadExcept(recs, c[1..], snapshot, v, false);
    }
  }

  lemma RevertedIsGone(sees: Snapshots, ss: seq<State>, ls: seq<Label>, i: nat, snapshot: nat -> bool)
    requires Execution(sees, ss, ls) && i < |ls| && ls[i].Remove?
    ensures WF(ss[i + 1]) && Inside(ss[i + 1].recs, List(ss[i + 1]))
    ensures Lookup(ss[i + 1], snapshot) == Lookup(ss[i + 1], Except(snapshot, ls[i].version))
  {
    hide VersionsOK, Known, Adjacent, ExpiryOK, Separate, ThreadInv, Ranked, Chain, Leads, Untouched;
    var s, l, s' := ss[i], ls[i], ss[i + 1];
    RunLiveInv(sees, ss, ls, i);
    ExecutionInv(sees, ss, ls, i + 1);
    assert Step(sees, s, l, s');
    StepList(sees, s, l);
    ContentPersists(sees, s, l);
    SealedIsPublished(sees, s, l.cur);
    assert LiveOK(s, l.cur);
    ChainSorted(s.recs, s.head);
    ReadExcept(s'.recs, List(s'), snapshot, l.version, true);
  }

  /** A write and its revert take each other back: between the swap of version `v` and its revert let all other writers be
      outside the snapshot; then the snapshot finds after the revert what it found before the write. */
  lemma RevertRestores(sees: Snapshots, ss: seq<State>, ls: seq<Label>, i: nat, j: nat, snapshot: nat -> bool)
    requires Execution(sees, ss, ls) && i <= j < |ls| && ls[j].Remove?
    requires forall m | i <= m <= j :: Foreign(sees, ss[m], ls[m], Except(snapshot, ls[j].version))
    ensures WF(ss[i]) && Inside(ss[i].recs, List(ss[i])) && WF(ss[j + 1]) && Inside(ss[j + 1].recs, List(ss[j + 1]))
    ensures Visible(Lookup(ss[j + 1], snapshot)) == Visible(Lookup(ss[i], Except(snapshot, ls[j].version)))
  {
    SnapshotIsStable(sees, ss, ls, i, j + 1, Except(snapshot, ls[j].version));
    RevertedIsGone(sees, ss, ls, j, snapshot);
  }

  // ------------------------------------------------------------------ seals

  /** What a thread still has to seal is not sealed. */
  ghost predicate Unsealed(s: State)
    requires WF(s)
  {
    forall t | t in s.threads :: ElemUnsealed(s, s.threads[t])
  }

  predicate ElemUnsealed(s: State, th: Local)
    requires WF(s) && ThreadOK(s, th)
  {
    th.Reactivating? || !s.recs[th.elem].sealed
  }

  lemma NextKeepsUnsealed(sees: Snapshots, s: State, l: Label)
    requires ReadsOK(sees) && Inv(sees, s) && Enabled(sees, s, l) && Unsealed(s)
    ensures WF(Next(s, l)) && Unsealed(Next(s, l))
  {
    hide VersionsOK, Known, Adjacent, ExpiryOK, Ranked, Chain, Leads, Untouched;
    var s' := Next(s, l);
    NextKeepsInv(sees, s, l);
    forall t | t in s'.threads ensures ElemUnsealed(s', s'.threads[t]) {
      if t in s.threads {
        assert ElemUnsealed(s, s.threads[t]);
        if (l.Seal? || l.Disarm?) && l.tid != t {
          assert Separate(s.threads[l.tid], s.threads[t]);
        }
      }
    }
  }

  /** In every run a record is unsealed from its creation until its own thread seals it: nobody writes over a version whose
      predecessor has not been set to expire yet. */
  lemma {:induction false} SealedLast(sees: Snapshots, ss: seq<State>, ls: seq<Label>, i: nat)
    requires Execution(sees, ss, ls) && i < |ss|
    ensures WF(ss[i]) && Unsealed(ss[i])
  {
    hide Inv, Next, Enabled, ElemUnsealed;
    ExecutionInv(sees, ss, ls, i);
    InvWF(sees, ss[i]);
    if i > 0 {
      SealedLast(sees, ss, ls, i - 1);
      ExecutionInv(sees, ss, ls, i - 1);
      assert Step(sees, ss[i - 1], ls[i - 1], ss[i]);
      NextKeepsUnsealed(sees, ss[i - 1], ls[i - 1]);
    }
  }

  /** Every unsealed record has a thread that will seal it. */
  ghost predicate Attended(s: State, e: nat)
    requires e < |s.recs|
  {
    s.recs[e].sealed || exists t | t in s.threads && !s.threads[t].Reactivating? :: s.threads[t].elem == e
  }

  lemma NextKeepsAttended(sees: Snapshots, s: State, l: Label, e: nat)
    requires Inv(sees, s) && Enabled(sees, s, l) && (e < |s.recs| ==> Attended(s, e)) && e < |Next(s, l).recs|
    ensures Attended(Next(s, l), e)
  {
    hide VersionsOK, Known, Adjacent, ExpiryOK, Ranked, Chain, Leads, Untouched, Separate, ThreadInv;
    var s' := Next(s, l);
    if e >= |s.recs| {
      assert s'.threads[l.tid].elem == e;
    } else if !s'.recs[e].sealed {
      var t :| t in s.threads && !s.threads[t].Reactivating? && s.threads[t].elem == e;
      assert t in s'.threads && s'.threads[t].elem == e;
    }
  }

  /** When no thread is at work, every record of the log is sealed, those of failed writes too. */
  lemma {:induction false} AllSealed(sees: Snapshots, ss: seq<State>, ls: seq<Label>, i: nat)
    requires Execution(sees, ss, ls) && i < |ss|
    ensures forall e | 0 <= e < |ss[i].recs| :: Attended(ss[i], e)
    ensures ss[i].threads == map[] ==> forall e | 0 <= e < |ss[i].recs| :: ss[i].recs[e].sealed
  {
    hide Inv, Next, Enabled;
    if i > 0 {
      AllSealed(sees, ss, ls, i - 1);
      ExecutionInv(sees, ss, ls, i - 1);
      assert Step(sees, ss[i - 1], ls[i - 1], ss[i]);
      forall e | 0 <= e < |ss[i].recs| ensures Attended(ss[i], e) {
        NextKeepsAttended(sees, ss[i - 1], ls[i - 1], e);
      }
    }
    if ss[i].threads == map[] {
      forall e | 0 <= e < |ss[i].recs| ensures ss[i].recs[e].sealed {
        assert Attended(ss[i], e);
      }
    }
  }

  /** Everything that no snapshot of a running transaction reads any more may be collected. */
  lemma GarbageIsCollected(sees: Snapshots, s: State, x: nat, bound: nat)
    requires WF(s) && x < |s.recs| && !s.recs[x].invalid && s.recs[x].sealed && bound <= s.low
    ensures s.recs[x].validTo == At(bound) ==> Enabled(sees, s, GcExpired(x, bound))
    ensures s.recs[x].deletion && s.recs[x].version == bound ==> Enabled(sees, s, GcDeletion(x, bound))
  {
  }
}
