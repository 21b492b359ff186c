/**
 Progress of the ordered log (util/Log.cpp): a thread that goes on alone, from any reachable state on, appends its entry,
 seals it, passes on the sealed head and returns.
 */
module LogProgress {
  import opened OrderedLog

  const STEP: nat := MAX_ENTRY_SIZE + 1

  /** Bounds for a walk over `p` pages, for an entry that has been acquired, and for a visit of a page. */
  function Pass(p: nat): nat {
    20 * (p * STEP + MAX_ENTRY_SIZE)
  }

  function Hold(p: nat): nat {
    Pass(p) + 40
  }

  function Visit(p: nat): nat {
    Pass(p + 1) + Hold(p + 1) + MAX_ENTRY_SIZE + 200
  }

  /** What is left of the log behind a position. */
  function Left(m: Shared, cur: Position): nat {
    if cur.page < |m.pages| && cur.offset <= MAX_ENTRY_SIZE
    then 20 * ((|m.pages| - cur.page) * STEP + (MAX_ENTRY_SIZE - cur.offset)) else 0
  }

  /** The pages that an append from page `p` on may have to visit. */
  function Visits(m: Shared, p: nat): nat {
    (if p == m.head then 0 else 1) + if m.head < |m.pages| then |m.pages| - m.head else 0
  }

  function Appending(m: Shared, p: nat): nat {
    if p < |m.pages| && m.pages[p] == EMPTY then Hold(|m.pages|) + 4
    else Visits(m, p) * Visit(|m.pages|) + MAX_ENTRY_SIZE + 100
  }

  function Afterwards(m: Shared, after: Pc): nat {
    if after.LoadOffset? then Appending(m, after.page) else 0
  }

  predicate Linked(m: Shared, p: nat) {
    p < |m.pages| && m.pages[p].linked
  }

  /** The page has grown since its offset was compared with the position. */
  predicate Behindhand(m: Shared, cur: Position) {
    cur.page < |m.pages| && cur.offset < m.pages[cur.page].offset
  }

  /** A bound on the accesses of a thread that goes on alone. */
  function Accesses(m: Shared, pc: Pc): nat {
    var n := |m.pages|;
    match pc
    case LoadOffset(p, _) => Appending(m, p)
    case Acquire(p, _, at, seen) =>
      if p < n && m.pages[p] == EMPTY && at == seen == 0 then Hold(n) + 3
      else Visits(m, p) * Visit(n) + 50 + if at <= MAX_ENTRY_SIZE then MAX_ENTRY_SIZE - at else 0
    case Publish(p, size, at, seen) =>
      if p < n && ((!m.pages[p].closed && m.pages[p].offset == seen) || m.pages[p].offset >= at + EntrySize(size)) then Hold(n) + 1
      else if p < n && m.pages[p].closed then Visits(m, p) * Visit(n) + 47 else Hold(n) + 2
    case LoadNext(p, _) => Visits(m, p) * Visit(n) + 46
    case MoveHead(p, _) => Visits(m, p) * Visit(n) + 45
    case ClosePage(p, _) => (Visits(m, p) + if Linked(m, p) then 2 else 0) * Visit(n) + 44
    case LinkPage(p, _) => (Visits(m, p) + if Linked(m, p) then 2 else 0) * Visit(n) + 43
    case SetHead(p, _) => Pass(n) + 33 + Appending(m, p + 1)
    case LoadSealedHead(p, _) => Pass(n) + 32 + Appending(m, p + 1)
    case CompareOffset(p, _, _) => Pass(n) + 31 + Appending(m, p + 1)
    case Holding(_, _, _) => Hold(n)
    case CompareHead(_, _) => Pass(n) + 35
    case ReadWord(_, cur, after) => Left(m, cur) + 12 + Afterwards(m, after)
    case ReadPage(_, cur, after) => Left(m, cur) + (if Behindhand(m, cur) then 13 else 11) + Afterwards(m, after)
    case ReadNext(_, cur, after) => Left(m, cur) + 10 + Afterwards(m, after)
    case SwapHead(_, cur, after) => Left(m, cur) + 8 + Afterwards(m, after)
    case RereadWord(cur, after) => Left(m, cur) + 7 + Afterwards(m, after)
    case RereadPage(cur, after) => Left(m, cur) + (if Behindhand(m, cur) then 8 else 6) + Afterwards(m, after)
    case RereadNext(cur, after) => Left(m, cur) + 5 + Afterwards(m, after)
    case ReadFirst(_, cur, after) => Left(m, cur) + 15 + Afterwards(m, after)
    case Done => 0
  }

  lemma GoodBound(m: Shared, cur: Position)
    requires SharedOK(m) && Good(m.pages, cur)
    ensures cur.page < |m.pages| && cur.offset <= m.pages[cur.page].offset <= MAX_ENTRY_SIZE
  {
    assert PageOK(m.pages[cur.page]);
    BoundaryBound(m.pages[cur.page].tiles, m.pages[cur.page].offset);
  }

  /** Where the word at a position is free the page has not grown beyond it. */
  lemma FreeIsAtEnd(m: Shared, cur: Position)
    requires SharedOK(m) && Good(m.pages, cur) && WordAt(m.pages[cur.page], cur.offset).size == 0
    ensures !Behindhand(m, cur)
  {
    var g := m.pages[cur.page];
    assert PageOK(g);
    if cur.offset < g.offset {
      BelowOffsetIsEntry(g, cur.offset);
      EntryHasRoom(g, cur.offset);
    }
  }

  lemma LeftBound(m: Shared, cur: Position)
    requires cur.page < |m.pages| && cur.offset <= MAX_ENTRY_SIZE
    ensures Left(m, cur) <= Pass(|m.pages|)
    ensures forall o | cur.offset < o <= MAX_ENTRY_SIZE :: Left(m, cur.(offset := o)) + 20 <= Left(m, cur)
    ensures cur.page + 1 < |m.pages| ==> Left(m, Position(cur.page + 1, 0)) + 20 <= Left(m, cur)
  {
    assert (|m.pages| - cur.page) * STEP == (|m.pages| - cur.page - 1) * STEP + STEP;
    assert (|m.pages| - cur.page) * STEP <= |m.pages| * STEP;
  }

  lemma WordCounts(m: Shared, pc: Pc)
    requires SharedOK(m) && PcOK(m, pc) && (pc.ReadWord? || pc.RereadWord? || pc.ReadFirst?)
    ensures var (n, pc') := Access(m, pc); Accesses(n, pc') < Accesses(m, pc)
  {
    hide PageOK, Pass, Visit, Hold, Left, Visits, Boundary, LinksOK, SharedOK, Appending;
    var cur := pc.cur;
    GoodBound(m, cur);
    LeftBound(m, cur);
    AdvanceMoves(m, pc);
    var pc' := Access(m, pc).1;
    if pc'.ReadWord? {
      assert pc'.cur == cur.(offset := pc'.cur.offset);
    }
    if WordAt(m.pages[cur.page], cur.offset).size == 0 {
      FreeIsAtEnd(m, cur);
    }
  }

  lemma PageCounts(m: Shared, pc: Pc)
    requires SharedOK(m) && PcOK(m, pc) && (pc.ReadPage? || pc.ReadNext? || pc.RereadPage? || pc.RereadNext?)
    ensures var (n, pc') := Access(m, pc); Accesses(n, pc') < Accesses(m, pc)
  {
    hide PageOK, Pass, Visit, Hold, Left, Visits, Boundary, SharedOK, Appending;
    var cur := pc.cur;
    GoodBound(m, cur);
    LeftBound(m, cur);
    HasNext(m, cur.page);
  }

  lemma HasNext(m: Shared, p: nat)
    requires SharedOK(m) && p < |m.pages|
    ensures m.pages[p].linked <==> p + 1 < |m.pages|
  {
    assert LinksOK(m.pages, p);
  }

  lemma SwapCounts(m: Shared, pc: Pc)
    requires SharedOK(m) && PcOK(m, pc) && pc.SwapHead? && PageOf(pc) < |m.pages|
    ensures var (n, pc') := Access(m, pc); Accesses(n, pc') < Accesses(m, pc)
  {
    hide PageOK, Pass, Visit, Hold, Left, Visits, Boundary, SharedOK, Appending, Good;
    AdvanceMoves(m, pc);
  }

  lemma AdvanceMoves(m: Shared, pc: Pc)
    requires SharedOK(m) && PcOK(m, pc) && Advancing(pc) && PageOf(pc) < |m.pages|
    ensures var (n, pc') := Access(m, pc);
            && n.pages == m.pages && n.head == m.head && (forall c: Position :: Left(n, c) == Left(m, c))
            && Afterwards(n, pc.after) == Afterwards(m, pc.after)
            && (pc'.ReadWord? && pc'.cur.page == pc.cur.page && pc'.cur.offset != pc.cur.offset ==>
                  pc.cur.offset < pc'.cur.offset <= MAX_ENTRY_SIZE)
  {
    hide PageOK, Good, Boundary;
    var (n, pc') := Access(m, pc);
    AdvanceStep(m, pc);
    if pc'.ReadWord? {
      AdvanceStays(n, pc');
    }
  }

  lemma AdvanceStays(m: Shared, pc: Pc)
    requires SharedOK(m) && PcOK(m, pc) && pc.ReadWord?
    ensures pc.cur.offset <= MAX_ENTRY_SIZE
  {
    GoodBound(m, pc.cur);
  }

  lemma Multiples(v: nat, w: nat, x: nat)
    requires 1 <= v && w <= v + 1
    ensures v * x >= x && w * x <= v * x + x && (v + 2) * x == v * x + 2 * x && (v - 1) * x == v * x - x
  {
    assert v * x == x + (v - 1) * x;
    assert (v + 1) * x == v * x + x && (v + 2) * x == v * x + 2 * x;
    Times(w, v + 1, x);
  }

  /** The head lies on a page, so that an append has at least one to visit. */
  lemma VisitsBound(m: Shared, p: nat)
    requires SharedOK(m) && p < |m.pages|
    ensures 1 <= Visits(m, p) && Visits(m, p + 1) <= Visits(m, p) + 1
    ensures var v, w, x := Visits(m, p), Visits(m, p + 1), Visit(|m.pages|);
            v * x >= x && w * x <= v * x + x && (v + 2) * x == v * x + 2 * x && (v - 1) * x == v * x - x
  {
    hide Visit;
    Multiples(Visits(m, p), Visits(m, p + 1), Visit(|m.pages|));
  }

  lemma VisitCovers(p: nat)
    ensures Visit(p) >= Pass(p + 1) + Hold(p + 1) + MAX_ENTRY_SIZE + 200
    ensures Visit(p) >= Hold(p) + MAX_ENTRY_SIZE + 200
  {
    Times(p, p + 1, STEP);
  }

  lemma Times(a: nat, b: nat, c: nat)
    requires a <= b
    ensures a * c <= b * c
  {
  }

  lemma LoadCounts(m: Shared, pc: Pc)
    requires SharedOK(m) && PcOK(m, pc) && (pc.LoadOffset? || pc.Acquire? || pc.Publish?)
    ensures var (n, pc') := Access(m, pc); Accesses(n, pc') < Accesses(m, pc)
  {
    hide Pass, Good, LinksOK;
    var p := pc.page;
    VisitsBound(m, p);
    assert PageOK(m.pages[p]);
    if pc.LoadOffset? {
      OffsetBound(m, p);
    } else if pc.Acquire? {
      AcquireCounts(m, pc);
    }
  }

  lemma OffsetBound(m: Shared, p: nat)
    requires SharedOK(m) && p < |m.pages|
    ensures m.pages[p].offset <= MAX_ENTRY_SIZE
  {
    assert PageOK(m.pages[p]);
    BoundaryBound(m.pages[p].tiles, m.pages[p].offset);
  }

  lemma AcquireCounts(m: Shared, pc: Pc)
    requires SharedOK(m) && PcOK(m, pc) && pc.Acquire?
    ensures var (n, pc') := Access(m, pc); Accesses(n, pc') < Accesses(m, pc)
  {
    hide Pass, Good, LinksOK, Visit, Hold;
    VisitsBound(m, pc.page);
    VisitCovers(|m.pages|);
    assert PageOK(m.pages[pc.page]);
    var g := m.pages[pc.page];
    BoundaryBound(g.tiles, pc.at);
    if pc.at in g.words {
      StartsCases(g.words, g.tiles, pc.at);
      BoundaryBound(g.tiles, pc.at + EntrySize(g.words[pc.at].size));
    }
  }

  lemma MoveCounts(m: Shared, pc: Pc)
    requires SharedOK(m) && PcOK(m, pc) && (pc.LoadNext? || pc.MoveHead? || pc.ClosePage?)
    ensures var (n, pc') := Access(m, pc); Accesses(n, pc') < Accesses(m, pc)
  {
    hide Pass, Good, PageOK, Visit, Hold;
    VisitsBound(m, pc.page);
    VisitCovers(|m.pages|);
    HasNext(m, pc.page);
    if pc.MoveHead? {
      assert Visits(Access(m, pc).0, Access(m, pc).1.page) == Visits(m, pc.page) - 1;
    }
  }

  lemma LinkCounts(m: Shared, pc: Pc)
    requires SharedOK(m) && PcOK(m, pc) && pc.LinkPage?
    ensures var (n, pc') := Access(m, pc); Accesses(n, pc') < Accesses(m, pc)
  {
    hide Good, PageOK, Pass, Visit, Hold;
    VisitsBound(m, pc.page);
    VisitCovers(|m.pages|);
    HasNext(m, pc.page);
  }

  lemma HeadCounts(m: Shared, pc: Pc)
    requires SharedOK(m) && PcOK(m, pc) && (pc.SetHead? || pc.LoadSealedHead? || pc.CompareOffset?)
    ensures var (n, pc') := Access(m, pc); Accesses(n, pc') < Accesses(m, pc)
  {
    hide Good, PageOK, Pass, Visit, Hold, Left;
    if pc.SetHead? {
      Times(Visits(Access(m, pc).0, pc.page + 1), Visits(m, pc.page + 1), Visit(|m.pages|));
    } else if pc.CompareOffset? {
      GoodBound(m, pc.head);
      LeftBound(m, pc.head);
    }
  }

  lemma SealCounts(m: Shared, pc: Pc)
    requires SharedOK(m) && PcOK(m, pc) && (pc.Holding? || pc.CompareHead?)
    ensures var (n, pc') := Access(m, pc); Accesses(n, pc') < Accesses(m, pc)
  {
    hide Good, PageOK;
    GoodBound(m, m.sealedHead);
    LeftBound(m, m.sealedHead);
  }

  /** Every access of a thread that goes on alone brings it closer to its end. */
  lemma StepsCount(m: Shared, pc: Pc)
    requires SharedOK(m) && PcOK(m, pc) && !pc.Done?
    ensures PageOf(pc) < |m.pages|
    ensures var (n, pc') := Access(m, pc); Accesses(n, pc') < Accesses(m, pc)
  {
    hide Access, Accesses, SharedOK;
    OnPage(m, pc);
    if pc.LoadOffset? || pc.Acquire? || pc.Publish? {
      LoadCounts(m, pc);
    } else if pc.LoadNext? || pc.MoveHead? || pc.ClosePage? {
      MoveCounts(m, pc);
    } else if pc.LinkPage? {
      LinkCounts(m, pc);
    } else if pc.SetHead? || pc.LoadSealedHead? || pc.CompareOffset? {
      HeadCounts(m, pc);
    } else if pc.Holding? || pc.CompareHead? {
      SealCounts(m, pc);
    } else if pc.ReadWord? || pc.RereadWord? || pc.ReadFirst? {
      WordCounts(m, pc);
    } else if pc.SwapHead? {
      SwapCounts(m, pc);
    } else {
      PageCounts(m, pc);
    }
  }

  lemma OnPage(m: Shared, pc: Pc)
    requires SharedOK(m) && PcOK(m, pc)
    ensures PageOf(pc) < |m.pages|
  {
  }

  /** In every reachable state, also one that a crowd of others has left behind, a thread that goes on alone appends and seals
      its entry, passes on the sealed head and returns, after a bounded number of accesses. */
  lemma {:induction false} EndsAlone(s: State, t: nat) returns (run: seq<State>, labels: seq<Label>)
    requires Inv(s) && t in s.threads
    ensures |run| == |labels| + 1 && run[0] == s && (forall l | l in labels :: l == Step(t))
    ensures forall i | 0 <= i < |labels| :: Next(run[i], labels[i], run[i + 1])
    ensures t in run[|labels|].threads && run[|labels|].threads[t].Done?
    ensures |labels| <= Accesses(s.shared, s.threads[t])
    decreases Accesses(s.shared, s.threads[t])
  {
    hide Access, Accesses, SharedOK, PcOK, Apart;
    var m, pc := s.shared, s.threads[t];
    if pc.Done? {
      run, labels := [s], [];
    } else {
      StepsCount(m, pc);
      var s' := State(Access(m, pc).0, s.threads[t := Access(m, pc).1]);
      assert Next(s, Step(t), s');
      NextKeepsInv(s, Step(t), s');
      var run', labels' := EndsAlone(s', t);
      run, labels := [s] + run', [Step(t)] + labels';
      forall i | 0 <= i < |labels| ensures Next(run[i], labels[i], run[i + 1]) {
        if i > 0 {
          assert Next(run'[i - 1], labels'[i - 1], run'[i]);
        }
      }
    }
  }
}
