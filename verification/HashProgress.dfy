/**
 Progress of the hash table (util/OpenAddressingHash.cpp): an operation that runs alone, from any reachable state on, ends
 after a number of accesses that is linear in the capacity; and of two concurrent inserts of a key the one in front wins.
 */
module HashProgress {
  import opened Common
  import opened OpenAddressing

  // ------------------------------------------------------------------ an operation that runs alone ends

  /** What a thread has read before others went on is out of date. */
  ghost predicate Stale(c: Config, bs: seq<Bucket>, th: Thread)
    requires ProbeOK(c) && |bs| == c.cap && ThreadOK(c, th)
  {
    !th.pc.Return? && Seen(th.pc).Some? && bs[Target(c, th)].ptr != Seen(th.pc).value.0
  }

  /** The accesses that a search or scan has before it at position `off`. */
  function Ahead(c: Config, off: nat): nat {
    if off < c.cap then 20 * (c.cap - off) + 10 else 10
  }

  /** A bound on the accesses of a thread that runs alone. */
  ghost function Accesses(c: Config, bs: seq<Bucket>, th: Thread): nat
    requires ProbeOK(c) && |bs| == c.cap && ThreadOK(c, th)
  {
    var again := if Stale(c, bs, th) then 4 else 0;
    match th.pc
    case Probe(off) => 20 * c.cap + 40 + 3 * (c.cap - off) + 2
    case Claim(off, _) => 20 * c.cap + 40 + 3 * (c.cap - off) + 1
    case PutKey(_) => 20 * c.cap + 40
    case PutTable(_) => 20 * c.cap + 39
    case ScanPtr(_, off) => Ahead(c, off) + 6
    case ScanTable(_, off, _) => Ahead(c, off) + 5 + again
    case ScanKey(_, off, _, _) => Ahead(c, off) + 4 + again
    case ScanAgain(_, off, _, _, _) => Ahead(c, off) + 3 + again
    case Kill(_, off, seen) => Ahead(c, off) + if bs[Target(c, th)].ptr == seen then 2 else 7
    case Publish(_) => 4
    case Abort(_, _) => 4
    case WipeTable(_, _) => 3
    case WipeKey(_, _) => 2
    case WipePtr(_, _) => 1
    case FindPtr(off) => Ahead(c, off) + 6
    case FindTable(off, _) => Ahead(c, off) + 5 + again
    case FindKey(off, _, _) => Ahead(c, off) + 4 + again
    case FindAgain(off, _, _, _) => Ahead(c, off) + 3 + again
    case Swap(_) => 9
    case ActTable(_, _) => 8 + again
    case ActKey(_, _, _) => 7 + again
    case ActAgain(_, _, _, _) => 6 + again
    case Return(_) => 0
  }

  lemma ScanCounts(c: Config, bs: seq<Bucket>, th: Thread)
    requires ProbeOK(c) && |bs| == c.cap && ThreadOK(c, th) && ScanPc(th.pc) && ThreadOK(c, After(c, bs, th).1)
    ensures var (bs', th') := After(c, bs, th); Accesses(c, bs', th') < Accesses(c, bs, th)
  {
    hide AccessFind, AccessWipe, AccessInsert, AccessActual, PcOK;
  }

  lemma FindCounts(c: Config, bs: seq<Bucket>, th: Thread)
    requires ProbeOK(c) && |bs| == c.cap && ThreadOK(c, th) && FindPc(th.pc) && ThreadOK(c, After(c, bs, th).1)
    ensures var (bs', th') := After(c, bs, th); Accesses(c, bs', th') < Accesses(c, bs, th)
  {
    hide AccessScan, AccessWipe, AccessInsert, AccessActual, PcOK;
  }

  lemma OtherCounts(c: Config, bs: seq<Bucket>, th: Thread)
    requires ProbeOK(c) && |bs| == c.cap && ThreadOK(c, th) && !th.pc.Return? && !FindPc(th.pc) && !ScanPc(th.pc)
    requires ThreadOK(c, After(c, bs, th).1)
    ensures var (bs', th') := After(c, bs, th); Accesses(c, bs', th') < Accesses(c, bs, th)
  {
    hide AccessScan, AccessFind;
  }

  /** Every access of a thread that runs alone brings it closer to its end. */
  lemma StepsCount(c: Config, bs: seq<Bucket>, th: Thread)
    requires ProbeOK(c) && |bs| == c.cap && ThreadOK(c, th) && !th.pc.Return?
    ensures var (bs', th') := After(c, bs, th); ThreadOK(c, th') && Accesses(c, bs', th') < Accesses(c, bs, th)
  {
    hide Access, Skip, PcOK, Accesses;
    StepKeepsThreadOK(c, bs, th);
    if ScanPc(th.pc) {
      ScanCounts(c, bs, th);
    } else if FindPc(th.pc) {
      FindCounts(c, bs, th);
    } else {
      OtherCounts(c, bs, th);
    }
  }

  lemma AccessesBound(c: Config, bs: seq<Bucket>, th: Thread)
    requires ProbeOK(c) && |bs| == c.cap && ThreadOK(c, th)
    ensures Accesses(c, bs, th) <= 23 * c.cap + 42
  {
  }

  /** In every well-formed state, also one that a crowd of others has left behind, an operation that goes on alone returns
      after at most 23 accesses per bucket and 42 more. */
  lemma {:induction false} EndsAlone(c: Config, s: State, tid: nat) returns (ss: seq<State>, ls: seq<Label>)
    requires WF(c, s) && tid in s.threads
    ensures |ss| == |ls| + 1 && ss[0] == s && (forall l | l in ls :: l == Tick(tid))
    ensures forall i | 0 <= i < |ls| :: Step(c, ss[i], ls[i], ss[i + 1])
    ensures tid in ss[|ls|].threads && ss[|ls|].threads[tid].pc.Return?
    ensures |ls| <= Accesses(c, s.buckets, s.threads[tid]) <= 23 * c.cap + 42
    decreases Accesses(c, s.buckets, s.threads[tid])
  {
    hide Access, Skip, PcOK, Accesses;
    var th := s.threads[tid];
    AccessesBound(c, s.buckets, th);
    if th.pc.Return? {
      ss, ls := [s], [];
    } else {
      var s' := Next(c, s, Tick(tid));
      StepsCount(c, s.buckets, th);
      TickStep(c, s, tid);
      var ss', ls' := EndsAlone(c, s', tid);
      ss, ls := [s] + ss', [Tick(tid)] + ls';
      forall i | 0 <= i < |ls| ensures Step(c, ss[i], ls[i], ss[i + 1]) {
        if i > 0 {
          assert Step(c, ss'[i - 1], ls'[i - 1], ss'[i]);
        }
      }
    }
  }

  lemma TickStep(c: Config, s: State, tid: nat)
    requires WF(c, s) && tid in s.threads && !s.threads[tid].pc.Return?
    ensures var s' := Next(c, s, Tick(tid));
            && Step(c, s, Tick(tid), s') && WF(c, s') && tid in s'.threads
            && (s'.buckets, s'.threads[tid]) == After(c, s.buckets, s.threads[tid])
  {
    hide Access, Skip, PcOK;
    StepKeepsThreadOK(c, s.buckets, s.threads[tid]);
  }

  // ------------------------------------------------------------------ the insert in front wins

  ghost predicate KillsBehind(s: State) {
    forall t | t in s.threads && s.threads[t].pc.Kill? :: s.threads[t].pc.own < s.threads[t].pc.off
  }

  lemma StepKillsBehind(c: Config, b: Bucket, th: Thread)
    requires ThreadOK(c, th) && !th.pc.Return?
    ensures var pc' := Skip(c, th.op, Access(c, b, th).1);
            && (pc'.Kill? ==> pc'.own < pc'.off)
            && (pc'.Abort? && pc'.actual.None? ==> th.pc.ScanAgain? && th.pc.off < th.pc.own == pc'.own)
  {
  }

  lemma {:induction false} RunKillsBehind(c: Config, ss: seq<State>, ls: seq<Label>, i: nat)
    requires Execution(c, ss, ls) && i < |ss|
    ensures KillsBehind(ss[i])
  {
    hide Access, Skip, PcOK;
    if i > 0 {
      RunKillsBehind(c, ss, ls, i - 1);
      var s, l := ss[i - 1], ls[i - 1];
      assert Step(c, s, l, ss[i]);
      if l.Tick? {
        StepKillsBehind(c, s.buckets[Target(c, s.threads[l.tid])], s.threads[l.tid]);
      }
      EntryKillsNothing(c, if l.Call? then l.op else Get);
    }
  }

  lemma EntryKillsNothing(c: Config, op: Op)
    ensures !Entry(c, op).Kill?
  {
  }

  /** Of two inserts of a key that are under way at the same time, the one in the bucket in front wins: an insert tries to
      invalidate a rival only behind its own bucket, and gives way without a pointer only to a rival in front of it. */
  lemma FrontInsertWins(c: Config, ss: seq<State>, ls: seq<Label>, i: nat, tid: nat)
    requires Execution(c, ss, ls) && i < |ls| && ls[i] == Tick(tid)
    ensures tid in ss[i].threads && tid in ss[i + 1].threads
    ensures var pc, pc' := ss[i].threads[tid].pc, ss[i + 1].threads[tid].pc;
            && (pc.Kill? ==> pc.own < pc.off)
            && (pc'.Abort? && pc'.actual.None? ==> pc.ScanAgain? && pc.off < pc.own == pc'.own)
  {
    hide Access, Skip, PcOK;
    RunKillsBehind(c, ss, ls, i);
    assert Step(c, ss[i], ls[i], ss[i + 1]);
    StepKillsBehind(c, ss[i].buckets[Target(c, ss[i].threads[tid])], ss[i].threads[tid]);
  }
}
