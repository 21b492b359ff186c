/**
 What the operations of the hash table answer (util/OpenAddressingHash.cpp): the boolean of insert, get, update and erase,
 and the pointer that a failed operation hands out, in every run of OpenAddressing.
 */
module HashAnswers {
  import opened Common
  import opened OpenAddressing

  /** The answer is fixed: the thread returns it, or gives back its bucket first. */
  predicate Settled(pc: Pc) {
    pc.Return? || WipePc(pc)
  }

  /** An insert neither searches nor asks for the actual pointer. */
  predicate Fitting(th: Thread) {
    th.op.Insert? ==> InsertPc(th.pc) || Settled(th.pc)
  }

  /** The thread has taken the pointer it was given out of the bucket it accesses. */
  ghost predicate Swaps(c: Config, bs: seq<Bucket>, th: Thread, expected: nat)
    requires ProbeOK(c) && |bs| == c.cap && ThreadOK(c, th) && !th.pc.Return?
  {
    th.pc.Swap? && bs[Target(c, th)].ptr == Live(expected)
  }

  /** What the answer `res` says about the access that decides it, which turns the buckets `bs` into `bs'`: an insert
      succeeds exactly if the access makes a bucket of its key live with its data, an update exactly if it exchanges the
      expected pointer, an erase exactly if it takes it away or its search has ended, a get exactly if it has a pointer. */
  ghost predicate Truthful(c: Config, bs: seq<Bucket>, bs': seq<Bucket>, th: Thread, res: Result)
    requires ProbeOK(c) && |bs| == |bs'| == c.cap && ThreadOK(c, th) && !th.pc.Return?
  {
    var x := Target(c, th);
    match th.op
    case Get => bs' == bs && (res.ok <==> res.ptr.Some?)
    case Insert(data) =>
      && (th.pc.Abort? ==> res.ptr == th.pc.actual)
      && (res.ok <==>
        exists y | 0 <= y < c.cap :: !bs[y].ptr.Live? && Holds(bs'[y], th.table, th.key) && bs'[y].ptr == Live(data))
    case Update(expected, desired) =>
      && (res.ok <==> Swaps(c, bs, th, expected))
      && bs' == if res.ok then bs[x := bs[x].(ptr := Live(desired))] else bs
    case Erase(expected) =>
      && (res.ok <==> Swaps(c, bs, th, expected) || th.pc.FindPtr? || th.pc.FindAgain?)
      && (if Swaps(c, bs, th, expected) then bs' == bs[x := bs[x].(ptr := Invalid, epoch := bs[x].epoch + 1)] else bs' == bs)
  }

  lemma DecisionIsTruthful(c: Config, bs: seq<Bucket>, th: Thread)
    requires ProbeOK(c) && |bs| == c.cap && ThreadOK(c, th) && ThreadInv(c, bs, th) && Fitting(th)
    requires !Settled(th.pc) && Settled(After(c, bs, th).1.pc)
    ensures var (bs', th') := After(c, bs, th); Truthful(c, bs, bs', th, th'.pc.res)
  {
    var x := Target(c, th);
    if th.op.Insert? && th.pc.Publish? && bs[x].ptr == Inserting(th.op.data) {
      assert Holds(After(c, bs, th).0[x], th.table, th.key);
    }
  }

  lemma StaysFitting(c: Config, bs: seq<Bucket>, th: Thread)
    requires ProbeOK(c) && |bs| == c.cap && ThreadOK(c, th) && !th.pc.Return? && Fitting(th)
    ensures Fitting(After(c, bs, th).1)
    ensures Settled(th.pc) ==> Settled(After(c, bs, th).1.pc) && After(c, bs, th).1.pc.res == th.pc.res
    ensures After(c, bs, th).1 == th.(pc := After(c, bs, th).1.pc)
  {
  }

  // ------------------------------------------------------------------ runs

  ghost predicate AllFitting(s: State) {
    forall t | t in s.threads :: Fitting(s.threads[t])
  }

  lemma NextFits(c: Config, s: State, l: Label)
    requires WF(c, s) && Enabled(c, s, l) && AllFitting(s)
    ensures AllFitting(Next(c, s, l))
  {
    hide Access, Skip;
    var s' := Next(c, s, l);
    forall t | t in s'.threads ensures Fitting(s'.threads[t]) {
      if l.Tick? && t == l.tid {
        StaysFitting(c, s.buckets, s.threads[t]);
        assert s'.threads[t] == After(c, s.buckets, s.threads[t]).1;
      } else if l.Call? && t == l.tid {
        EntryFits(c, l.op);
      } else {
        assert s'.threads[t] == s.threads[t];
      }
    }
  }

  lemma EntryFits(c: Config, op: Op)
    ensures op.Insert? ==> InsertPc(Entry(c, op)) || Settled(Entry(c, op))
    ensures c.cap > 0 ==> !Settled(Entry(c, op))
  {
  }

  lemma {:induction false} RunFits(c: Config, ss: seq<State>, ls: seq<Label>, i: nat)
    requires Execution(c, ss, ls) && i < |ss|
    ensures Inv(c, ss[i]) && AllFitting(ss[i])
  {
    hide Inv, Fitting;
    ExecutionInv(c, ss, ls, i);
    if i > 0 {
      RunFits(c, ss, ls, i - 1);
      assert Step(c, ss[i - 1], ls[i - 1], ss[i]);
      NextFits(c, ss[i - 1], ls[i - 1]);
    }
  }

  /** The access of step `k` has decided what the thread answers. */
  ghost predicate DecidedAt(c: Config, ss: seq<State>, ls: seq<Label>, k: nat, tid: nat, now: Thread)
    requires k + 1 < |ss| == |ls| + 1
  {
    && WF(c, ss[k]) && WF(c, ss[k + 1]) && ls[k] == Tick(tid) && tid in ss[k].threads
    && var th := ss[k].threads[tid];
       && !Settled(th.pc) && Settled(now.pc) && now == th.(pc := now.pc)
       && Truthful(c, ss[k].buckets, ss[k + 1].buckets, th, now.pc.res)
  }

  lemma TickDecides(c: Config, s: State, l: Label)
    requires Inv(c, s) && AllFitting(s) && Enabled(c, s, l) && l.Tick? && !Settled(s.threads[l.tid].pc)
    requires Settled(Next(c, s, l).threads[l.tid].pc)
    ensures WF(c, Next(c, s, l))
    ensures var th, th' := s.threads[l.tid], Next(c, s, l).threads[l.tid];
            th' == th.(pc := th'.pc) && Truthful(c, s.buckets, Next(c, s, l).buckets, th, th'.pc.res)
  {
    hide Access, Skip, Truthful;
    NextKeepsInv(c, s, l);
    var th := s.threads[l.tid];
    assert (Next(c, s, l).buckets, Next(c, s, l).threads[l.tid]) == After(c, s.buckets, th);
    assert ThreadInv(c, s.buckets, th);
    DecisionIsTruthful(c, s.buckets, th);
    StaysFitting(c, s.buckets, th);
  }

  lemma OtherSteps(c: Config, s: State, l: Label, t: nat)
    requires WF(c, s) && Enabled(c, s, l) && t in Next(c, s, l).threads && Settled(Next(c, s, l).threads[t].pc) && c.cap > 0
    ensures t in s.threads
    ensures l != Tick(t) || Settled(s.threads[t].pc) ==>
              && s.threads[t] == Next(c, s, l).threads[t].(pc := s.threads[t].pc)
              && Settled(s.threads[t].pc) && s.threads[t].pc.res == Next(c, s, l).threads[t].pc.res
  {
    hide Access, Skip;
    if l.Call? && l.tid == t {
      EntryFits(c, l.op);
    } else if l == Tick(t) {
      assert Next(c, s, l).threads[t] == After(c, s.buckets, s.threads[t]).1;
      var th := s.threads[t];
      if Settled(th.pc) {
        WipeKeepsAnswer(c, s.buckets, th);
      }
    }
  }

  lemma WipeKeepsAnswer(c: Config, bs: seq<Bucket>, th: Thread)
    requires ProbeOK(c) && |bs| == c.cap && ThreadOK(c, th) && WipePc(th.pc)
    ensures var th' := After(c, bs, th).1; th' == th.(pc := th'.pc) && Settled(th'.pc) && th'.pc.res == th.pc.res
  {
  }

  lemma {:induction false} SettledIsDecided(c: Config, ss: seq<State>, ls: seq<Label>, i: nat, tid: nat) returns (k: nat)
    requires Execution(c, ss, ls) && c.cap > 0 && i < |ss| && tid in ss[i].threads && Settled(ss[i].threads[tid].pc)
    ensures k < i && DecidedAt(c, ss, ls, k, tid, ss[i].threads[tid])
    ensures forall m | k < m <= i :: tid in ss[m].threads && Settled(ss[m].threads[tid].pc)
  {
    hide Inv, Truthful, Fitting, Next, Enabled;
    if i == 0 {
      assert false;
    } else {
      RunFits(c, ss, ls, i - 1);
      RunFits(c, ss, ls, i);
      assert Step(c, ss[i - 1], ls[i - 1], ss[i]);
      OtherSteps(c, ss[i - 1], ls[i - 1], tid);
      if ls[i - 1] == Tick(tid) && !Settled(ss[i - 1].threads[tid].pc) {
        TickDecides(c, ss[i - 1], ls[i - 1]);
        k := i - 1;
      } else {
        k := SettledIsDecided(c, ss, ls, i - 1, tid);
      }
    }
  }

  /** Every answer is true: whatever an operation returns, in any run, was decided by one access of this operation, and
      `Truthful` says what the answer means for the buckets at that access. */
  lemma AnswersAreTrue(c: Config, ss: seq<State>, ls: seq<Label>, i: nat, tid: nat) returns (k: nat)
    requires Execution(c, ss, ls) && c.cap > 0 && i < |ss| && tid in ss[i].threads && ss[i].threads[tid].pc.Return?
    ensures k < i && DecidedAt(c, ss, ls, k, tid, ss[i].threads[tid])
    ensures forall m | k < m <= i :: tid in ss[m].threads && Settled(ss[m].threads[tid].pc)
  {
    k := SettledIsDecided(c, ss, ls, i, tid);
  }

  // ------------------------------------------------------------------ the pointer of a failed operation

  /** The access ends a failed operation with a look at bucket `Target`: an insert gives way to what it has found there, an
      update or erase has lost its swap. */
  predicate GivesWay(pc: Pc, pc': Pc) {
    pc'.Abort? || (pc'.Return? && (pc.Swap? || pc.ActTable? || pc.ActKey? || pc.ActAgain?) && !pc'.res.ok)
  }

  lemma HandsWhatItSaw(c: Config, b: Bucket, th: Thread)
    requires ThreadOK(c, th) && !th.pc.Return? && GivesWay(th.pc, Skip(c, th.op, Access(c, b, th).1))
    requires Holds(b, th.table, th.key)
    requires Seen(th.pc).Some? && Seen(th.pc).value.0 == b.ptr ==>
               Seen(th.pc).value.1 in {None, Some(b.table)} && Seen(th.pc).value.2 in {None, Some(b.key)}
    ensures Handed(Skip(c, th.op, Access(c, b, th).1)) == Some(b.ptr.data)
  {
  }

  /** If a failed operation leaves behind a bucket that holds the live pointer of its key, the caller gets this pointer. */
  lemma RivalIsHanded(c: Config, owner: nat -> (nat, nat), ss: seq<State>, ls: seq<Label>, i: nat, tid: nat)
    requires DisciplinedRun(c, owner, ss, ls) && i < |ls| && ls[i] == Tick(tid) && WF(c, ss[i])
    requires tid in ss[i].threads && tid in ss[i + 1].threads && !ss[i].threads[tid].pc.Return?
    requires GivesWay(ss[i].threads[tid].pc, ss[i + 1].threads[tid].pc)
    requires var th := ss[i].threads[tid]; Holds(ss[i].buckets[Target(c, th)], th.table, th.key)
    ensures Handed(ss[i + 1].threads[tid].pc) == Some(ss[i].buckets[Target(c, ss[i].threads[tid])].ptr.data)
  {
    hide Inv, DataOwned, Disciplined, Access, Skip, Handed, Seen, Step;
    RunInv2(c, owner, ss, ls, i);
    assert Step(c, ss[i], ls[i], ss[i + 1]) by { RunSteps(c, owner, ss, ls, i); }
    SeesRight(c, owner, ss[i], tid);
    TickGoesOn(c, ss[i], tid, ss[i + 1]);
    HandsWhatItSaw(c, ss[i].buckets[Target(c, ss[i].threads[tid])], ss[i].threads[tid]);
  }

  lemma TickGoesOn(c: Config, s: State, tid: nat, s': State)
    requires Step(c, s, Tick(tid), s')
    ensures tid in s.threads && WF(c, s) && !s.threads[tid].pc.Return? && tid in s'.threads
    ensures var th := s.threads[tid]; s'.threads[tid].pc == Skip(c, th.op, Access(c, s.buckets[Target(c, th)], th).1)
  {
  }

  lemma SeesRight(c: Config, owner: nat -> (nat, nat), s: State, tid: nat)
    requires Inv2(c, owner, s) && WF(c, s) && tid in s.threads && !s.threads[tid].pc.Return?
    ensures var th := s.threads[tid];
            var b := s.buckets[Target(c, th)];
            b.ptr.Live? && Seen(th.pc).Some? && Seen(th.pc).value.0 == b.ptr ==>
              Seen(th.pc).value.1 in {None, Some(b.table)} && Seen(th.pc).value.2 in {None, Some(b.key)}
  {
    hide Inv, DataOwned;
    assert SeenInv(c, s.buckets, s.home, s.threads[tid]);
  }
}
