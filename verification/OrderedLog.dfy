/**
 The ordered log under concurrency (util/Log.cpp, util/Log.hpp): threads acquire entries on log pages, link new pages
 behind full ones, seal their entries when they are written, and advance the pointer to the first unsealed entry.

 A step is one atomic load, store or compare-and-swap.  Pages are numbered in the order in which they were linked.  A word
 is the size field at a position of a page; positions without a word hold the zero of a fresh page.
 */
module OrderedLog {

  /** The bytes of a page behind its header, and the size of the header of an entry (2 MB pages). */
  const MAX_ENTRY_SIZE: nat := 0x20_0000 - 24
  const LOG_ENTRY_SIZE: nat := 8

  /** The smallest multiple of 16 that is at least `n`. */
  function Align16(n: nat): (r: nat)
    ensures n <= r < n + 16
  {
    if n == 0 then 0 else if n <= 16 then 16 else 16 + Align16(n - 16)
  }

  /** The size of an entry in the log: header, payload and padding. */
  function EntrySize(size: nat): (r: nat)
    ensures size + LOG_ENTRY_SIZE <= r < size + LOG_ENTRY_SIZE + 16
  {
    Align16(size + LOG_ENTRY_SIZE)
  }

  datatype Word = Word(size: nat, sealed: bool)

  /** `tiles` lists the payload sizes of the acquired entries in the order of their acquisition. */
  datatype Page = Page(words: map<nat, Word>, offset: nat, closed: bool, linked: bool, tiles: seq<nat>)

  const EMPTY: Page := Page(map[], 0, false, false, [])

  datatype Position = Position(page: nat, offset: nat)

  /** Where a thread that appends or seals an entry stands: the name says which access comes next. */
  datatype Pc =
    // appendEntry
    | LoadOffset(page: nat, size: nat)
    | Acquire(page: nat, size: nat, at: nat, seen: nat)
    | Publish(page: nat, size: nat, at: nat, seen: nat)
    // createPage
    | LoadNext(page: nat, size: nat)
    | MoveHead(page: nat, size: nat)
    | ClosePage(page: nat, size: nat)
    | LinkPage(page: nat, size: nat)
    | SetHead(page: nat, size: nat)
    | LoadSealedHead(page: nat, size: nat)
    | CompareOffset(page: nat, size: nat, head: Position)
    // the entry is the caller's, until it is sealed
    | Holding(page: nat, size: nat, at: nat)
    | CompareHead(page: nat, at: nat)
    // advanceSealedHead, and what the thread does afterwards
    | ReadWord(from: Position, cur: Position, after: Pc)
    | ReadPage(from: Position, cur: Position, after: Pc)
    | ReadNext(from: Position, cur: Position, after: Pc)
    | SwapHead(from: Position, cur: Position, after: Pc)
    | RereadWord(cur: Position, after: Pc)
    | RereadPage(cur: Position, after: Pc)
    | RereadNext(cur: Position, after: Pc)
    | ReadFirst(from: Position, cur: Position, after: Pc)
    | Done

  datatype Shared = Shared(pages: seq<Page>, head: nat, sealedHead: Position)

  datatype State = State(shared: Shared, threads: map<nat, Pc>)

  // ------------------------------------------------------------------ the steps

  function PageOf(pc: Pc): nat {
    match pc
    case ReadWord(_, cur, _) => cur.page
    case ReadPage(_, cur, _) => cur.page
    case ReadNext(_, cur, _) => cur.page
    case SwapHead(_, cur, _) => cur.page
    case RereadWord(cur, _) => cur.page
    case RereadPage(cur, _) => cur.page
    case RereadNext(cur, _) => cur.page
    case ReadFirst(_, cur, _) => cur.page
    case Done => 0
    case _ => pc.page
  }

  /** The word at a position; the end of a page has no room for one. */
  function WordAt(g: Page, at: nat): Word {
    if at <= MAX_ENTRY_SIZE - LOG_ENTRY_SIZE && at in g.words then g.words[at] else Word(0, true)
  }

  function SetPage(m: Shared, p: nat, g: Page): Shared
    requires p < |m.pages|
  {
    m.(pages := m.pages[p := g])
  }

  function Behind(cur: Position, w: Word): Position {
    cur.(offset := cur.offset + EntrySize(w.size))
  }

  /** The next access of a thread. */
  function Access(m: Shared, pc: Pc): (Shared, Pc)
    requires PageOf(pc) < |m.pages|
  {
    var g := m.pages[PageOf(pc)];
    match pc
    case LoadOffset(p, size) => (m, if g.closed then LoadNext(p, size) else Acquire(p, size, g.offset, g.offset))
    case Acquire(p, size, at, seen) =>
      if at + EntrySize(size) > MAX_ENTRY_SIZE then (m, LoadNext(p, size))
      else if at in g.words then (m, Acquire(p, size, at + EntrySize(g.words[at].size), seen))
      else (SetPage(m, p, g.(words := g.words[at := Word(size, false)], tiles := g.tiles + [size])), Publish(p, size, at, seen))
    case Publish(p, size, at, seen) =>
      var end := at + EntrySize(size);
      if !g.closed && g.offset == seen then (SetPage(m, p, g.(offset := end)), Holding(p, size, at))
      else if g.offset >= end then (m, Holding(p, size, at))
      else (m, if g.closed then LoadNext(p, size) else Publish(p, size, at, g.offset))
    case LoadNext(p, size) => (m, if g.linked then MoveHead(p, size) else ClosePage(p, size))
    case MoveHead(p, size) =>
      if m.head == p then (m.(head := p + 1), LoadOffset(p + 1, size)) else (m, LoadOffset(m.head, size))
    case ClosePage(p, size) => (SetPage(m, p, g.(closed := true)), LinkPage(p, size))
    case LinkPage(p, size) =>
      if g.linked then (m, LoadOffset(p + 1, size))
      else (m.(pages := m.pages[p := g.(linked := true)] + [EMPTY]), SetHead(p, size))
    case SetHead(p, size) => (if m.head == p then m.(head := p + 1) else m, LoadSealedHead(p, size))
    case LoadSealedHead(p, size) =>
      (m, if m.sealedHead.page == p then CompareOffset(p, size, m.sealedHead) else LoadOffset(p + 1, size))
    case CompareOffset(p, size, head) =>
      var append := LoadOffset(p + 1, size);
      (m, if head.offset == g.offset then ReadWord(head, head, append) else append)
    case Holding(p, size, at) =>
      if at in g.words then (SetPage(m, p, g.(words := g.words[at := g.words[at].(sealed := true)])), CompareHead(p, at))
      else (m, Done)
    case CompareHead(p, at) =>
      (m, if m.sealedHead == Position(p, at) then ReadWord(m.sealedHead, m.sealedHead, Done) else Done)
    case ReadWord(from, cur, after) =>
      var w := WordAt(g, cur.offset);
      (m, if !w.sealed then SwapHead(from, cur, after) else if w.size == 0 then ReadPage(from, cur, after)
          else ReadWord(from, Behind(cur, w), after))
    case ReadPage(from, cur, after) =>
      (m, if !g.closed then SwapHead(from, cur, after) else if g.offset > cur.offset then ReadWord(from, cur, after)
          else ReadNext(from, cur, after))
    case ReadNext(from, cur, after) =>
      (m, if !g.linked then SwapHead(from, cur, after) else ReadWord(from, Position(cur.page + 1, 0), after))
    case SwapHead(from, cur, after) =>
      if m.sealedHead == from then (m.(sealedHead := cur), RereadWord(cur, after)) else (m, after)
    case RereadWord(cur, after) =>
      var w := WordAt(g, cur.offset);
      (m, if !w.sealed then after else if w.size == 0 then RereadPage(cur, after) else ReadWord(cur, Behind(cur, w), after))
    case RereadPage(cur, after) =>
      (m, if !g.closed then after else if g.offset > cur.offset then RereadWord(cur, after) else RereadNext(cur, after))
    case RereadNext(cur, after) => (m, if !g.linked then after else ReadFirst(cur, Position(cur.page + 1, 0), after))
    case ReadFirst(from, cur, after) =>
      var w := WordAt(g, cur.offset);
      (m, if !w.sealed then after else if w.size == 0 then ReadPage(from, cur, after) else ReadWord(from, Behind(cur, w), after))
    case Done => (m, Done)
  }

  predicate SizeOK(size: nat) {
    0 < size && EntrySize(size) <= MAX_ENTRY_SIZE
  }

  datatype Label = Append(thread: nat, size: nat) | Step(thread: nat)

  /** A thread starts to append at the current head, or makes its next access. */
  ghost predicate Next(s: State, l: Label, s': State) {
    match l
    case Append(t, size) =>
      && t !in s.threads && SizeOK(size)
      && s' == s.(threads := s.threads[t := LoadOffset(s.shared.head, size)])
    case Step(t) =>
      && t in s.threads && PageOf(s.threads[t]) < |s.shared.pages|
      && s' == State(Access(s.shared, s.threads[t]).0, s.threads[t := Access(s.shared, s.threads[t]).1])
  }

  predicate Initial(s: State) {
    s == State(Shared([EMPTY], 0, Position(0, 0)), map[])
  }

  ghost predicate Execution(run: seq<State>, labels: seq<Label>) {
    && |run| == |labels| + 1 && Initial(run[0])
    && forall i | 0 <= i < |labels| :: Next(run[i], labels[i], run[i + 1])
  }

  // ------------------------------------------------------------------ entries tile a page

  /** The bytes of entries that lie back to back. */
  function Total(tiles: seq<nat>): nat {
    if tiles == [] then 0 else Total(Front(tiles)) + EntrySize(tiles[|tiles| - 1])
  }

  function Front(tiles: seq<nat>): seq<nat>
    requires tiles != []
  {
    tiles[..|tiles| - 1]
  }

  /** The position is the start of an entry, or also the end of the last one. */
  predicate Starts(tiles: seq<nat>, p: nat) {
    tiles != [] && (p == Total(Front(tiles)) || Starts(Front(tiles), p))
  }

  predicate Boundary(tiles: seq<nat>, p: nat) {
    p == Total(tiles) || (tiles != [] && Boundary(Front(tiles), p))
  }

  /** The words at the starts of the entries hold their sizes. */
  predicate Tiled(words: map<nat, Word>, tiles: seq<nat>) {
    tiles != [] ==>
      var p := Total(Front(tiles));
      p in words && words[p].size == tiles[|tiles| - 1] > 0 && Tiled(words, Front(tiles))
  }

  /** The acquired entries lie back to back from the start of the page; the offset is between two of them, and every
      sealed entry lies below it. */
  ghost predicate PageOK(g: Page) {
    && Tiled(g.words, g.tiles) && (forall p | p in g.words :: Starts(g.tiles, p))
    && Boundary(g.tiles, g.offset) && Total(g.tiles) <= MAX_ENTRY_SIZE
    && (forall p | p in g.words && g.words[p].sealed :: p + EntrySize(g.words[p].size) <= g.offset)
  }

  /** Every entry of the page before the position is sealed. */
  predicate SealedBelow(g: Page, limit: nat) {
    forall p | p in g.words && p < limit :: g.words[p].sealed
  }

  predicate Full(g: Page) {
    g.closed && SealedBelow(g, g.offset)
  }

  /** The position lies between two entries, and every entry before it in the log is sealed. */
  ghost predicate Good(pages: seq<Page>, pos: Position) {
    && pos.page < |pages| && Boundary(pages[pos.page].tiles, pos.offset) && pos.offset <= pages[pos.page].offset
    && SealedBelow(pages[pos.page], pos.offset)
    && forall q: nat | q < pos.page :: Full(pages[q])
  }

  predicate NotAfter(a: Position, b: Position) {
    a.page < b.page || (a.page == b.page && a.offset <= b.offset)
  }

  ghost predicate SharedOK(m: Shared) {
    && m.pages != [] && m.head < |m.pages|
    && (forall i: nat | i < |m.pages| :: PageOK(m.pages[i]))
    && (forall i: nat | i < |m.pages| :: LinksOK(m.pages, i))
    && Good(m.pages, m.sealedHead)
  }

  /** Exactly the last page has no successor; pages with a successor are closed. */
  predicate LinksOK(pages: seq<Page>, i: nat)
    requires i < |pages|
  {
    (pages[i].linked <==> i + 1 < |pages|) && (pages[i].linked ==> pages[i].closed)
  }

  ghost predicate AfterOK(m: Shared, after: Pc) {
    after.Done? || (after.LoadOffset? && after.page < |m.pages| && SizeOK(after.size))
  }

  /** An unsealed entry of the thread. */
  predicate OwnEntry(m: Shared, p: nat, size: nat, at: nat) {
    p < |m.pages| && at in m.pages[p].words && m.pages[p].words[at] == Word(size, false)
  }

  predicate PageDone(m: Shared, cur: Position) {
    cur.page < |m.pages| && m.pages[cur.page].closed && m.pages[cur.page].offset <= cur.offset
  }

  ghost predicate PcOK(m: Shared, pc: Pc) {
    match pc
    case LoadOffset(p, size) => p < |m.pages| && SizeOK(size)
    case Acquire(p, size, at, seen) =>
      p < |m.pages| && SizeOK(size) && Boundary(m.pages[p].tiles, at) && seen <= at
    case Publish(p, size, at, seen) =>
      OwnEntry(m, p, size, at) && SizeOK(size) && seen <= at + EntrySize(size) && Boundary(m.pages[p].tiles, at + EntrySize(size))
    case LoadNext(p, size) => p < |m.pages| && SizeOK(size)
    case MoveHead(p, size) => p < |m.pages| && SizeOK(size) && m.pages[p].linked
    case ClosePage(p, size) => p < |m.pages| && SizeOK(size)
    case LinkPage(p, size) => p < |m.pages| && SizeOK(size) && m.pages[p].closed
    case SetHead(p, size) => p < |m.pages| && SizeOK(size) && m.pages[p].linked
    case LoadSealedHead(p, size) => p < |m.pages| && SizeOK(size) && m.pages[p].linked
    case CompareOffset(p, size, head) =>
      p < |m.pages| && SizeOK(size) && m.pages[p].linked && Good(m.pages, head) && head.page == p
    case Holding(p, size, at) =>
      OwnEntry(m, p, size, at) && SizeOK(size) && at + EntrySize(size) <= m.pages[p].offset
    case CompareHead(p, at) => p < |m.pages|
    case ReadWord(from, cur, after) => AfterOK(m, after) && Good(m.pages, cur) && NotAfter(from, cur)
    case ReadPage(from, cur, after) => AfterOK(m, after) && Good(m.pages, cur) && NotAfter(from, cur)
    case ReadNext(from, cur, after) => AfterOK(m, after) && Good(m.pages, cur) && NotAfter(from, cur) && PageDone(m, cur)
    case SwapHead(from, cur, after) => AfterOK(m, after) && Good(m.pages, cur) && NotAfter(from, cur)
    case RereadWord(cur, after) => AfterOK(m, after) && Good(m.pages, cur)
    case RereadPage(cur, after) => AfterOK(m, after) && Good(m.pages, cur)
    case RereadNext(cur, after) => AfterOK(m, after) && Good(m.pages, cur) && PageDone(m, cur)
    case ReadFirst(from, cur, after) => AfterOK(m, after) && Good(m.pages, cur) && NotAfter(from, cur)
    case Done => true
  }

  /** The thread owns the entry at the position: acquired and not sealed. */
  predicate Owns(pc: Pc) {
    pc.Publish? || pc.Holding?
  }

  ghost predicate Inv(s: State) {
    && SharedOK(s.shared)
    && (forall t | t in s.threads :: PcOK(s.shared, s.threads[t]))
    && (forall t, u | t in s.threads && u in s.threads && t != u :: Apart(s.threads[t], s.threads[u]))
  }

  predicate Apart(a: Pc, b: Pc) {
    Owns(a) && Owns(b) ==> a.page != b.page || a.at != b.at
  }

  // ------------------------------------------------------------------ how pages change

  lemma {:induction false} BoundaryBound(tiles: seq<nat>, p: nat)
    requires Boundary(tiles, p)
    ensures p <= Total(tiles)
  {
    if p != Total(tiles) {
      BoundaryBound(Front(tiles), p);
    }
  }

  lemma {:induction false} ZeroIsBoundary(tiles: seq<nat>)
    ensures Boundary(tiles, 0)
  {
    if tiles != [] {
      ZeroIsBoundary(Front(tiles));
    }
  }

  /** A boundary is the start of an entry or the end of all. */
  lemma {:induction false} BoundaryCases(words: map<nat, Word>, tiles: seq<nat>, p: nat)
    requires Tiled(words, tiles) && Boundary(tiles, p)
    ensures p == Total(tiles) || (p in words && words[p].size > 0)
  {
    if p != Total(tiles) {
      BoundaryCases(words, Front(tiles), p);
    }
  }

  /** Behind the start of an entry the next boundary follows, and no entry starts in between. */
  lemma {:induction false} StartsCases(words: map<nat, Word>, tiles: seq<nat>, p: nat)
    requires Tiled(words, tiles) && Starts(tiles, p)
    ensures p in words && Boundary(tiles, p + EntrySize(words[p].size))
  {
    if p != Total(Front(tiles)) {
      StartsCases(words, Front(tiles), p);
    }
  }

  lemma {:induction false} StartsBound(tiles: seq<nat>, p: nat)
    requires Starts(tiles, p)
    ensures p < Total(tiles)
  {
    if p != Total(Front(tiles)) {
      StartsBound(Front(tiles), p);
    }
  }

  lemma {:induction false} StartsApart(words: map<nat, Word>, tiles: seq<nat>, p: nat, q: nat)
    requires Tiled(words, tiles) && Starts(tiles, p) && Starts(tiles, q) && p < q
    ensures p in words && p + EntrySize(words[p].size) <= q
  {
    var t := Front(tiles);
    if p == Total(t) {
      StartsBound(t, q);
    } else if q == Total(t) {
      StartsCases(words, t, p);
      BoundaryBound(t, p + EntrySize(words[p].size));
    } else {
      StartsApart(words, t, p, q);
    }
  }

  lemma {:induction false} TiledSame(words: map<nat, Word>, words': map<nat, Word>, tiles: seq<nat>)
    requires Tiled(words, tiles)
    requires forall p | p in words && p < Total(tiles) :: p in words' && words'[p].size == words[p].size
    ensures Tiled(words', tiles)
  {
    if tiles != [] {
      TiledSame(words, words', Front(tiles));
    }
  }

  /** What may happen to a page: entries are added behind the others, sealed, the offset grows until the page is closed. */
  ghost predicate PageGrows(g: Page, h: Page) {
    && (forall p: nat | Boundary(g.tiles, p) :: Boundary(h.tiles, p))
    && (forall p | p in g.words :: p in h.words && h.words[p].size == g.words[p].size
                                        && (g.words[p].sealed ==> h.words[p].sealed))
    && (forall p | p in h.words && p !in g.words :: g.offset <= p)
    && g.offset <= h.offset && (g.closed ==> h.closed && h.offset == g.offset) && (g.linked ==> h.linked)
  }

  ghost predicate Grows(m: Shared, n: Shared) {
    |m.pages| <= |n.pages| && forall i: nat | i < |m.pages| :: PageGrows(m.pages[i], n.pages[i])
  }

  lemma GoodStays(pages: seq<Page>, pages': seq<Page>, pos: Position)
    requires Good(pages, pos) && |pages| <= |pages'| && forall i: nat | i < |pages| :: PageGrows(pages[i], pages'[i])
    ensures Good(pages', pos)
  {
    assert PageGrows(pages[pos.page], pages'[pos.page]);
    forall q: nat | q < pos.page ensures Full(pages'[q]) {
      assert Full(pages[q]) && PageGrows(pages[q], pages'[q]);
    }
  }

  /** What another thread knows stays true, as long as nobody seals its entry. */
  lemma PcStays(m: Shared, n: Shared, pc: Pc)
    requires PcOK(m, pc) && Grows(m, n)
    requires Owns(pc) ==> OwnEntry(n, pc.page, pc.size, pc.at)
    ensures PcOK(n, pc)
  {
    if PageOf(pc) < |m.pages| {
      assert PageGrows(m.pages[PageOf(pc)], n.pages[PageOf(pc)]);
    }
    match pc
    case CompareOffset(p, size, head) => GoodStays(m.pages, n.pages, head);
    case ReadWord(from, cur, after) => GoodStays(m.pages, n.pages, cur);
    case ReadPage(from, cur, after) => GoodStays(m.pages, n.pages, cur);
    case ReadNext(from, cur, after) => GoodStays(m.pages, n.pages, cur);
    case SwapHead(from, cur, after) => GoodStays(m.pages, n.pages, cur);
    case RereadWord(cur, after) => GoodStays(m.pages, n.pages, cur);
    case RereadPage(cur, after) => GoodStays(m.pages, n.pages, cur);
    case RereadNext(cur, after) => GoodStays(m.pages, n.pages, cur);
    case ReadFirst(from, cur, after) => GoodStays(m.pages, n.pages, cur);
    case _ =>
  }

  // ------------------------------------------------------------------ steps on a page

  lemma Acquired(g: Page, at: nat, size: nat)
    requires PageOK(g) && Boundary(g.tiles, at) && at !in g.words && size > 0 && at + EntrySize(size) <= MAX_ENTRY_SIZE
    ensures at == Total(g.tiles)
    ensures var h := g.(words := g.words[at := Word(size, false)], tiles := g.tiles + [size]);
            PageOK(h) && PageGrows(g, h) && Boundary(h.tiles, at + EntrySize(size))
  {
    BoundaryCases(g.words, g.tiles, at);
    var h := g.(words := g.words[at := Word(size, false)], tiles := g.tiles + [size]);
    assert Front(h.tiles) == g.tiles;
    TiledSame(g.words, h.words, g.tiles);
    BoundaryBound(g.tiles, g.offset);
  }

  /** The entry behind an acquired one starts at a boundary, and no entry starts inside it. */
  lemma Skipped(g: Page, at: nat)
    requires PageOK(g) && at in g.words
    ensures Boundary(g.tiles, at + EntrySize(g.words[at].size))
    ensures forall p | p in g.words && at < p :: at + EntrySize(g.words[at].size) <= p
  {
    StartsCases(g.words, g.tiles, at);
    forall p | p in g.words && at < p ensures at + EntrySize(g.words[at].size) <= p {
      StartsApart(g.words, g.tiles, at, p);
    }
  }

  /** A boundary below another one is the start of an entry: what the assertion in advanceSealedHead checks. */
  lemma BelowOffsetIsEntry(g: Page, at: nat)
    requires PageOK(g) && Boundary(g.tiles, at) && at < g.offset
    ensures at in g.words && g.words[at].size > 0
  {
    BoundaryCases(g.words, g.tiles, at);
    BoundaryBound(g.tiles, g.offset);
  }

  lemma Published(g: Page, end: nat)
    requires PageOK(g) && Boundary(g.tiles, end) && g.offset <= end && !g.closed
    ensures PageOK(g.(offset := end)) && PageGrows(g, g.(offset := end))
  {
  }

  lemma Sealed(g: Page, at: nat)
    requires PageOK(g) && at in g.words && at + EntrySize(g.words[at].size) <= g.offset
    ensures var h := g.(words := g.words[at := g.words[at].(sealed := true)]); PageOK(h) && PageGrows(g, h)
  {
    TiledSame(g.words, g.words[at := g.words[at].(sealed := true)], g.tiles);
  }

  lemma SamePage(g: Page)
    ensures PageGrows(g, g)
  {
  }

  lemma EmptyOK()
    ensures PageOK(EMPTY)
  {
    assert Total(EMPTY.tiles) == 0;
  }

  /** Replacing one page by a grown one. */
  lemma PageReplaced(m: Shared, p: nat, h: Page)
    requires SharedOK(m) && p < |m.pages| && PageGrows(m.pages[p], h) && PageOK(h) && h.linked == m.pages[p].linked
    ensures SharedOK(SetPage(m, p, h)) && Grows(m, SetPage(m, p, h))
  {
    var n := SetPage(m, p, h);
    forall i: nat | i < |m.pages| ensures PageGrows(m.pages[i], n.pages[i]) && PageOK(n.pages[i]) {
      SamePage(m.pages[i]);
    }
    forall i: nat | i < |n.pages| ensures LinksOK(n.pages, i) {
      assert LinksOK(m.pages, i);
    }
    GoodStays(m.pages, n.pages, m.sealedHead);
  }

  lemma PageLinked(m: Shared, p: nat)
    requires SharedOK(m) && p < |m.pages| && m.pages[p].closed && !m.pages[p].linked
    ensures var n := m.(pages := m.pages[p := m.pages[p].(linked := true)] + [EMPTY]);
            SharedOK(n) && Grows(m, n) && p + 1 < |n.pages| && n.pages[p].linked
  {
    var n := m.(pages := m.pages[p := m.pages[p].(linked := true)] + [EMPTY]);
    EmptyOK();
    assert LinksOK(m.pages, p);
    forall i: nat | i < |m.pages| ensures PageGrows(m.pages[i], n.pages[i]) && PageOK(n.pages[i]) {
      SamePage(m.pages[i]);
      assert PageOK(m.pages[i]);
    }
    forall i: nat | i < |n.pages| ensures LinksOK(n.pages, i) {
      if i < |m.pages| {
        assert LinksOK(m.pages, i);
      }
    }
    GoodStays(m.pages, n.pages, m.sealedHead);
  }

  lemma Unchanged(m: Shared)
    ensures Grows(m, m)
  {
    forall i: nat | i < |m.pages| ensures PageGrows(m.pages[i], m.pages[i]) {
      SamePage(m.pages[i]);
    }
  }

  // ------------------------------------------------------------------ steps of a thread

  /** The steps of appendEntry. */
  lemma AcquireStep(m: Shared, pc: Pc)
    requires SharedOK(m) && PcOK(m, pc) && pc.Acquire?
    ensures var (n, pc') := Access(m, pc); SharedOK(n) && Grows(m, n) && PcOK(n, pc') && n.sealedHead == m.sealedHead
  {
    Unchanged(m);
    var g, at, size := m.pages[pc.page], pc.at, pc.size;
    assert PageOK(g);
    if at + EntrySize(size) <= MAX_ENTRY_SIZE {
      if at in g.words {
        Skipped(g, at);
      } else {
        Acquired(g, at, size);
        PageReplaced(m, pc.page, g.(words := g.words[at := Word(size, false)], tiles := g.tiles + [size]));
      }
    }
  }

  lemma PublishStep(m: Shared, pc: Pc)
    requires SharedOK(m) && PcOK(m, pc) && pc.Publish?
    ensures var (n, pc') := Access(m, pc); SharedOK(n) && Grows(m, n) && PcOK(n, pc') && n.sealedHead == m.sealedHead
  {
    var g := m.pages[pc.page];
    if !g.closed && g.offset == pc.seen {
      PublishSwaps(m, pc);
    } else {
      Unchanged(m);
      PublishAgain(m, pc);
    }
  }

  lemma PublishSwaps(m: Shared, pc: Pc)
    requires SharedOK(m) && PcOK(m, pc) && pc.Publish? && !m.pages[pc.page].closed && m.pages[pc.page].offset == pc.seen
    ensures var (n, pc') := Access(m, pc); SharedOK(n) && Grows(m, n) && PcOK(n, pc') && n.sealedHead == m.sealedHead
  {
    hide PageOK, LinksOK, Good;
    OffsetMoves(m, pc.page, pc.at + EntrySize(pc.size));
  }

  lemma PublishAgain(m: Shared, pc: Pc)
    requires PcOK(m, pc) && pc.Publish? && (m.pages[pc.page].closed || m.pages[pc.page].offset != pc.seen)
    ensures var (n, pc') := Access(m, pc); n == m && PcOK(m, pc')
  {
  }

  lemma OffsetMoves(m: Shared, p: nat, end: nat)
    requires SharedOK(m) && p < |m.pages| && Boundary(m.pages[p].tiles, end) && m.pages[p].offset <= end && !m.pages[p].closed
    ensures var n := SetPage(m, p, m.pages[p].(offset := end)); SharedOK(n) && Grows(m, n)
  {
    assert PageOK(m.pages[p]);
    Published(m.pages[p], end);
    PageReplaced(m, p, m.pages[p].(offset := end));
  }

  lemma LoadStep(m: Shared, pc: Pc)
    requires SharedOK(m) && PcOK(m, pc) && pc.LoadOffset?
    ensures var (n, pc') := Access(m, pc); SharedOK(n) && Grows(m, n) && PcOK(n, pc') && n.sealedHead == m.sealedHead
  {
    Unchanged(m);
    assert PageOK(m.pages[pc.page]);
  }

  /** The steps of createPage. */
  lemma CreateStep(m: Shared, pc: Pc)
    requires SharedOK(m) && PcOK(m, pc)
    requires pc.LoadNext? || pc.MoveHead? || pc.ClosePage? || pc.LinkPage? || pc.SetHead? || pc.LoadSealedHead? || pc.CompareOffset?
    ensures var (n, pc') := Access(m, pc); SharedOK(n) && Grows(m, n) && PcOK(n, pc') && n.sealedHead == m.sealedHead
  {
    hide Boundary, Tiled, Starts, Total;
    Unchanged(m);
    var p := pc.page;
    var g := m.pages[p];
    assert LinksOK(m.pages, p);
    if pc.ClosePage? {
      assert PageOK(g) && PageGrows(g, g.(closed := true));
      PageReplaced(m, p, g.(closed := true));
    } else if pc.LinkPage? && !g.linked {
      PageLinked(m, p);
    }
  }

  lemma GoodForward(m: Shared, cur: Position)
    requires SharedOK(m) && Good(m.pages, cur)
    ensures var w := WordAt(m.pages[cur.page], cur.offset);
            w.sealed && w.size > 0 ==> Good(m.pages, Behind(cur, w)) && NotAfter(cur, Behind(cur, w))
  {
    var g := m.pages[cur.page];
    if cur.offset in g.words {
      Skipped(g, cur.offset);
    }
  }

  lemma GoodNextPage(m: Shared, cur: Position)
    requires SharedOK(m) && Good(m.pages, cur) && PageDone(m, cur) && m.pages[cur.page].linked
    ensures Good(m.pages, Position(cur.page + 1, 0)) && NotAfter(cur, Position(cur.page + 1, 0))
  {
    assert LinksOK(m.pages, cur.page);
    assert Full(m.pages[cur.page]);
    ZeroIsBoundary(m.pages[cur.page + 1].tiles);
    forall q: nat | q < cur.page + 1 ensures Full(m.pages[q]) {
    }
  }

  predicate Advancing(pc: Pc) {
    pc.ReadWord? || pc.ReadPage? || pc.ReadNext? || pc.SwapHead? || pc.RereadWord? || pc.RereadPage? || pc.RereadNext? || pc.ReadFirst?
  }

  /** The steps of advanceSealedHead: the sealed head moves over sealed entries only, and forward only. */
  lemma AdvanceStep(m: Shared, pc: Pc)
    requires SharedOK(m) && PcOK(m, pc) && Advancing(pc)
    ensures var (n, pc') := Access(m, pc);
            && SharedOK(n) && PcOK(n, pc') && n.pages == m.pages
            && (n.sealedHead != m.sealedHead ==> NotAfter(m.sealedHead, n.sealedHead))
  {
    if pc.SwapHead? {
      SwapStep(m, pc);
    } else {
      ScanStep(m, pc);
    }
  }

  lemma SwapStep(m: Shared, pc: Pc)
    requires SharedOK(m) && PcOK(m, pc) && pc.SwapHead?
    ensures var (n, pc') := Access(m, pc);
            && SharedOK(n) && PcOK(n, pc') && n.pages == m.pages
            && (n.sealedHead != m.sealedHead ==> NotAfter(m.sealedHead, n.sealedHead))
  {
  }

  lemma ScanStep(m: Shared, pc: Pc)
    requires SharedOK(m) && PcOK(m, pc) && Advancing(pc) && !pc.SwapHead?
    ensures var (n, pc') := Access(m, pc); n == m && PcOK(m, pc')
  {
    hide PageOK, Boundary, SealedBelow;
    if pc.ReadWord? || pc.RereadWord? || pc.ReadFirst? {
      WordStep(m, pc);
    } else if pc.ReadNext? || pc.RereadNext? {
      if m.pages[pc.cur.page].linked {
        GoodNextPage(m, pc.cur);
      }
    } else {
      PageStep(m, pc);
    }
  }

  lemma WordStep(m: Shared, pc: Pc)
    requires SharedOK(m) && PcOK(m, pc) && (pc.ReadWord? || pc.RereadWord? || pc.ReadFirst?)
    ensures var (n, pc') := Access(m, pc); n == m && PcOK(m, pc')
  {
    hide PageOK, LinksOK, Boundary, SealedBelow;
    GoodForward(m, pc.cur);
  }

  lemma PageStep(m: Shared, pc: Pc)
    requires PcOK(m, pc) && (pc.ReadPage? || pc.RereadPage?)
    ensures var (n, pc') := Access(m, pc); n == m && PcOK(m, pc')
  {
  }

  lemma CompareStep(m: Shared, pc: Pc)
    requires SharedOK(m) && PcOK(m, pc) && (pc.CompareHead? || pc.Done?) && PageOf(pc) < |m.pages|
    ensures var (n, pc') := Access(m, pc); n == m && PcOK(n, pc')
  {
  }

  lemma SealStep(m: Shared, pc: Pc)
    requires SharedOK(m) && PcOK(m, pc) && pc.Holding?
    ensures var (n, pc') := Access(m, pc); SharedOK(n) && Grows(m, n) && PcOK(n, pc') && n.sealedHead == m.sealedHead
  {
    var g := m.pages[pc.page];
    Sealed(g, pc.at);
    PageReplaced(m, pc.page, g.(words := g.words[pc.at := g.words[pc.at].(sealed := true)]));
  }

  lemma AccessOK(m: Shared, pc: Pc)
    requires SharedOK(m) && PcOK(m, pc) && PageOf(pc) < |m.pages|
    ensures var (n, pc') := Access(m, pc);
            && SharedOK(n) && Grows(m, n) && PcOK(n, pc')
            && (n.sealedHead != m.sealedHead ==> NotAfter(m.sealedHead, n.sealedHead))
  {
    if pc.Holding? {
      SealStep(m, pc);
    } else if pc.LoadOffset? {
      LoadStep(m, pc);
    } else if pc.Acquire? {
      AcquireStep(m, pc);
    } else if pc.Publish? {
      PublishStep(m, pc);
    } else if pc.LoadNext? || pc.MoveHead? || pc.ClosePage? || pc.LinkPage? || pc.SetHead? || pc.LoadSealedHead? || pc.CompareOffset? {
      CreateStep(m, pc);
    } else if Advancing(pc) {
      AdvanceStep(m, pc);
      Unchanged(m);
    } else {
      CompareStep(m, pc);
      Unchanged(m);
    }
  }

  /** A thread touches no unsealed entry but its own, and a new entry is nobody else's. */
  lemma OthersKeep(m: Shared, pc: Pc, other: Pc)
    requires PcOK(m, pc) && PageOf(pc) < |m.pages| && Owns(other) && PcOK(m, other) && Apart(pc, other)
    ensures var (n, pc') := Access(m, pc); OwnEntry(n, other.page, other.size, other.at) && Apart(pc', other)
  {
    if pc.Acquire? {
      OthersKeepAcquire(m, pc, other);
    } else if pc.Publish? {
      OthersKeepPublish(m, pc, other);
    } else if pc.Holding? {
      OthersKeepSeal(m, pc, other);
    } else if Advancing(pc) || pc.CompareHead? || pc.Done? {
      OthersKeepAdvance(m, pc, other);
    } else {
      OthersKeepCreate(m, pc, other);
    }
  }

  lemma OthersKeepAcquire(m: Shared, pc: Pc, other: Pc)
    requires PcOK(m, pc) && pc.Acquire? && Owns(other) && PcOK(m, other)
    ensures var (n, pc') := Access(m, pc); OwnEntry(n, other.page, other.size, other.at) && Apart(pc', other)
  {
  }

  lemma OthersKeepPublish(m: Shared, pc: Pc, other: Pc)
    requires PcOK(m, pc) && pc.Publish? && Owns(other) && PcOK(m, other) && Apart(pc, other)
    ensures var (n, pc') := Access(m, pc); OwnEntry(n, other.page, other.size, other.at) && Apart(pc', other)
  {
  }

  lemma OthersKeepSeal(m: Shared, pc: Pc, other: Pc)
    requires PcOK(m, pc) && pc.Holding? && Owns(other) && PcOK(m, other) && Apart(pc, other)
    ensures var (n, pc') := Access(m, pc); OwnEntry(n, other.page, other.size, other.at) && Apart(pc', other)
  {
  }

  lemma OthersKeepAdvance(m: Shared, pc: Pc, other: Pc)
    requires PcOK(m, pc) && PageOf(pc) < |m.pages| && (Advancing(pc) || pc.CompareHead? || pc.Done?)
    requires Owns(other) && PcOK(m, other)
    ensures var (n, pc') := Access(m, pc); OwnEntry(n, other.page, other.size, other.at) && Apart(pc', other)
  {
    hide Good, Boundary;
  }

  lemma OthersKeepCreate(m: Shared, pc: Pc, other: Pc)
    requires PcOK(m, pc) && PageOf(pc) < |m.pages| && Owns(other) && PcOK(m, other)
    requires !pc.Acquire? && !Owns(pc) && !Advancing(pc) && !pc.CompareHead? && !pc.Done?
    ensures var (n, pc') := Access(m, pc); OwnEntry(n, other.page, other.size, other.at) && Apart(pc', other)
  {
  }

  lemma AppendOK(m: Shared, size: nat)
    requires SharedOK(m) && SizeOK(size)
    ensures PcOK(m, LoadOffset(m.head, size))
  {
  }

  lemma NextKeepsInv(s: State, l: Label, s': State)
    requires Inv(s) && Next(s, l, s')
    ensures Inv(s')
  {
    hide Access, PcOK, SharedOK;
    if l.Append? {
      AppendOK(s.shared, l.size);
      assert forall t, u | t in s'.threads && u in s'.threads && t != u :: Apart(s'.threads[t], s'.threads[u]);
    } else {
      var m, pc := s.shared, s.threads[l.thread];
      var n, pc' := Access(m, pc).0, Access(m, pc).1;
      AccessOK(m, pc);
      forall t | t in s'.threads ensures PcOK(n, s'.threads[t]) && (t != l.thread ==> Apart(pc', s'.threads[t])) {
        if t != l.thread {
          var other := s.threads[t];
          assert Apart(pc, other);
          if Owns(other) {
            OthersKeep(m, pc, other);
          }
          PcStays(m, n, other);
        }
      }
    }
  }

  lemma InitialInv(s: State)
    requires Initial(s)
    ensures Inv(s)
  {
    EmptyOK();
    assert Total(EMPTY.tiles) == 0;
    assert LinksOK(s.shared.pages, 0);
  }

  lemma {:induction false} ExecutionInv(run: seq<State>, labels: seq<Label>, i: nat)
    requires Execution(run, labels) && i < |run|
    ensures Inv(run[i])
  {
    if i == 0 {
      InitialInv(run[0]);
    } else {
      ExecutionInv(run, labels, i - 1);
      NextKeepsInv(run[i - 1], labels[i - 1], run[i]);
    }
  }

  // ------------------------------------------------------------------ main results, under every interleaving

  /** On every page the acquired entries do not overlap and leave no gap. */
  lemma EntriesTile(run: seq<State>, labels: seq<Label>, i: nat, page: nat, p: nat)
    requires Execution(run, labels) && i < |run| && page < |run[i].shared.pages| && p in run[i].shared.pages[page].words
    ensures var words := run[i].shared.pages[page].words;
            && (forall q | q in words && p < q :: p + EntrySize(words[p].size) <= q)
            && (p == 0 || exists q | q in words :: q + EntrySize(words[q].size) == p)
  {
    ExecutionInv(run, labels, i);
    var g := run[i].shared.pages[page];
    assert PageOK(g);
    Skipped(g, p);
    if p != 0 {
      StartIsBoundary(g.tiles, p);
      var q := Before(g.words, g.tiles, p);
    }
  }

  lemma {:induction false} StartIsBoundary(tiles: seq<nat>, p: nat)
    requires Starts(tiles, p)
    ensures Boundary(tiles, p)
  {
    if p != Total(Front(tiles)) {
      StartIsBoundary(Front(tiles), p);
    }
  }

  lemma {:induction false} Before(words: map<nat, Word>, tiles: seq<nat>, p: nat) returns (q: nat)
    requires Tiled(words, tiles) && Boundary(tiles, p) && p > 0
    ensures q in words && q + EntrySize(words[q].size) == p
  {
    if p == Total(tiles) {
      q := Total(Front(tiles));
    } else {
      q := Before(words, Front(tiles), p);
    }
  }

  /** Once a page is closed its offset never changes. */
  lemma {:induction false} ClosedIsFrozen(run: seq<State>, labels: seq<Label>, i: nat, j: nat, page: nat)
    requires Execution(run, labels) && i <= j < |run|
    requires page < |run[i].shared.pages| && run[i].shared.pages[page].closed
    ensures page < |run[j].shared.pages| && run[j].shared.pages[page].closed
    ensures run[j].shared.pages[page].offset == run[i].shared.pages[page].offset
  {
    hide Next, Inv;
    if i < j {
      ClosedIsFrozen(run, labels, i, j - 1, page);
      RunGrows(run, labels, j - 1);
      assert PageGrows(run[j - 1].shared.pages[page], run[j].shared.pages[page]);
    }
  }

  lemma RunGrows(run: seq<State>, labels: seq<Label>, i: nat)
    requires Execution(run, labels) && i < |labels|
    ensures Grows(run[i].shared, run[i + 1].shared)
    ensures NotAfter(run[i].shared.sealedHead, run[i + 1].shared.sealedHead)
  {
    ExecutionInv(run, labels, i);
    NextGrows(run[i], labels[i], run[i + 1]);
  }

  lemma NextGrows(s: State, l: Label, s': State)
    requires Inv(s) && Next(s, l, s')
    ensures Grows(s.shared, s'.shared)
    ensures NotAfter(s.shared.sealedHead, s'.shared.sealedHead)
  {
    if l.Append? {
      Unchanged(s.shared);
    } else {
      AccessOK(s.shared, s.threads[l.thread]);
    }
  }

  lemma {:induction false} Align16IsLeast(n: nat, m: nat)
    requires m % 16 == 0 && n <= m
    ensures Align16(n) % 16 == 0 && Align16(n) <= m
  {
    if n > 16 {
      Align16IsLeast(n - 16, m - 16);
    }
  }

  /** The size of an entry is the least multiple of 16 that has room for the header of 8 bytes and the payload. */
  lemma EntrySizeIsLeast(size: nat)
    ensures EntrySize(size) % 16 == 0 && size + 8 <= EntrySize(size)
    ensures forall m: nat | m % 16 == 0 && size + 8 <= m :: EntrySize(size) <= m
  {
    Align16IsLeast(size + 8, 16 * (size + 8));
    forall m: nat | m % 16 == 0 && size + 8 <= m ensures EntrySize(size) <= m {
      Align16IsLeast(size + 8, m);
    }
  }

  lemma {:induction false} BoundaryAligned(tiles: seq<nat>, p: nat)
    requires Boundary(tiles, p)
    ensures p % 16 == 0 && Total(tiles) % 16 == 0
  {
    if tiles != [] {
      var t := Total(Front(tiles));
      ZeroIsBoundary(Front(tiles));
      EntrySizeIsLeast(tiles[|tiles| - 1]);
      BoundaryAligned(Front(tiles), if p == Total(tiles) then 0 else p);
    }
  }

  /** In every reachable state every entry of a page, the offset of the page and the position of every entry that append
      has returned are multiples of 16 (asserted in the code), and the entries lie within the 2 MB of the page behind its
      header of 24 bytes. */
  lemma EntriesAreAligned(run: seq<State>, labels: seq<Label>, i: nat, page: nat)
    requires Execution(run, labels) && i < |run| && page < |run[i].shared.pages|
    ensures var g := run[i].shared.pages[page];
            && g.offset % 16 == 0 && 24 + g.offset <= 0x20_0000
            && (forall p | p in g.words :: p % 16 == 0 && 24 + p + EntrySize(g.words[p].size) <= 0x20_0000)
    ensures forall t | t in run[i].threads && run[i].threads[t].Holding? :: run[i].threads[t].at % 16 == 0
  {
    ExecutionInv(run, labels, i);
    var s := run[i];
    assert PageOK(s.shared.pages[page]);
    PageAligned(s.shared.pages[page]);
    forall t | t in s.threads && s.threads[t].Holding? ensures s.threads[t].at % 16 == 0 {
      assert PcOK(s.shared, s.threads[t]);
      assert PageOK(s.shared.pages[s.threads[t].page]);
      PageAligned(s.shared.pages[s.threads[t].page]);
    }
  }

  lemma PageAligned(g: Page)
    requires PageOK(g)
    ensures g.offset % 16 == 0 && 24 + g.offset <= 0x20_0000
    ensures forall p | p in g.words :: p % 16 == 0 && 24 + p + EntrySize(g.words[p].size) <= 0x20_0000
  {
    BoundaryAligned(g.tiles, g.offset);
    BoundaryBound(g.tiles, g.offset);
    forall p | p in g.words ensures p % 16 == 0 && 24 + p + EntrySize(g.words[p].size) <= 0x20_0000 {
      StartIsBoundary(g.tiles, p);
      BoundaryAligned(g.tiles, p);
      StartsCases(g.words, g.tiles, p);
      BoundaryBound(g.tiles, p + EntrySize(g.words[p].size));
    }
  }

  /** An entry that append returned lies wholly below the offset of its page, has the size asked for, is not sealed, and
      no other thread has it. */
  lemma ReturnedEntryIsOwned(run: seq<State>, labels: seq<Label>, i: nat, t: nat)
    requires Execution(run, labels) && i < |run| && t in run[i].threads && run[i].threads[t].Holding?
    ensures var s, pc := run[i], run[i].threads[t];
            && pc.page < |s.shared.pages| && pc.at in s.shared.pages[pc.page].words
            && s.shared.pages[pc.page].words[pc.at] == Word(pc.size, false)
            && pc.at + EntrySize(pc.size) <= s.shared.pages[pc.page].offset
            && forall u | u in s.threads && u != t && s.threads[u].Holding? ::
                 s.threads[u].page != pc.page || s.threads[u].at != pc.at
  {
    ExecutionInv(run, labels, i);
    var s := run[i];
    assert PcOK(s.shared, s.threads[t]);
    forall u | u in s.threads && u != t && s.threads[u].Holding?
      ensures s.threads[u].page != s.threads[t].page || s.threads[u].at != s.threads[t].at
    {
      assert Apart(s.threads[t], s.threads[u]);
    }
  }

  /** Every entry before the sealed head is sealed: on its page all that start before it, on earlier pages all below the
      page's offset, which no longer changes. */
  lemma SealedHeadIsSafe(run: seq<State>, labels: seq<Label>, i: nat, page: nat, p: nat)
    requires Execution(run, labels) && i < |run| && page < |run[i].shared.pages| && p in run[i].shared.pages[page].words
    requires var m := run[i].shared;
             (page == m.sealedHead.page && p < m.sealedHead.offset) || (page < m.sealedHead.page && p < m.pages[page].offset)
    ensures run[i].shared.pages[page].words[p].sealed && (page < run[i].shared.sealedHead.page ==> run[i].shared.pages[page].closed)
  {
    ExecutionInv(run, labels, i);
    var m := run[i].shared;
    if page < m.sealedHead.page {
      assert Full(m.pages[page]);
    }
  }

  /** The head only moves forward. */
  lemma {:induction false} HeadMovesForward(run: seq<State>, labels: seq<Label>, i: nat, j: nat)
    requires Execution(run, labels) && i <= j < |run|
    ensures run[i].shared.head <= run[j].shared.head < |run[j].shared.pages|
  {
    hide Access;
    ExecutionInv(run, labels, j);
    if i < j {
      HeadMovesForward(run, labels, i, j - 1);
      ExecutionInv(run, labels, j - 1);
      assert Next(run[j - 1], labels[j - 1], run[j]);
      if labels[j - 1].Step? {
        HeadForward(run[j - 1].shared, run[j - 1].threads[labels[j - 1].thread]);
      }
    }
  }

  lemma HeadForward(m: Shared, pc: Pc)
    requires PageOf(pc) < |m.pages|
    ensures m.head <= Access(m, pc).0.head
  {
  }

  /** The sealed head only moves forward. */
  lemma {:induction false} SealedHeadMovesForward(run: seq<State>, labels: seq<Label>, i: nat, j: nat)
    requires Execution(run, labels) && i <= j < |run|
    ensures NotAfter(run[i].shared.sealedHead, run[j].shared.sealedHead)
  {
    if i < j {
      SealedHeadMovesForward(run, labels, i, j - 1);
      RunGrows(run, labels, j - 1);
    }
  }

  // ------------------------------------------------------------------ one operation at a time

  predicate Quiet(pc: Pc) {
    pc.Holding? || pc.Done?
  }

  /** While a thread works no other one does. */
  ghost predicate Alone(s: State, l: Label) {
    forall t | t in s.threads && t != l.thread :: Quiet(s.threads[t])
  }

  ghost predicate Sequential(run: seq<State>, labels: seq<Label>) {
    Execution(run, labels) && forall i | 0 <= i < |labels| :: Alone(run[i], labels[i])
  }

  /** Where the sealed head belongs: at an unsealed entry of the log, or at the end of the last page. */
  predicate Stop(m: Shared, pos: Position) {
    && pos.page < |m.pages|
    && var g := m.pages[pos.page];
       || (pos.offset < g.offset && pos.offset in g.words && !g.words[pos.offset].sealed)
       || (pos.offset == g.offset && !g.linked)
  }

  /** All entries of the page are below its offset, and it is closed exactly if it has a successor. */
  predicate Settled(g: Page) {
    g.offset == Total(g.tiles) && (g.closed <==> g.linked)
  }

  predicate AllSettled(m: Shared, but: nat) {
    forall i: nat | i < |m.pages| && i != but :: Settled(m.pages[i])
  }

  predicate IsLast(m: Shared, p: nat) {
    p + 1 == |m.pages|
  }

  predicate SeqAfter(m: Shared, after: Pc) {
    after.Done? || (after.LoadOffset? && IsLast(m, after.page))
  }

  /** What holds when one thread is at `pc` and all others are quiet. */
  predicate SeqOK(m: Shared, pc: Pc) {
    match pc
    case LoadOffset(p, size) => AllSettled(m, |m.pages|) && m.head == p && IsLast(m, p) && Stop(m, m.sealedHead)
    case Acquire(p, size, at, seen) =>
      AllSettled(m, |m.pages|) && m.head == p && IsLast(m, p) && Stop(m, m.sealedHead) && at == seen == m.pages[p].offset
    case Publish(p, size, at, seen) =>
      && AllSettled(m, p) && m.head == p && IsLast(m, p) && Stop(m, m.sealedHead) && at == seen == m.pages[p].offset
      && Total(m.pages[p].tiles) == at + EntrySize(size) && !m.pages[p].closed && !m.pages[p].linked
      && at in m.pages[p].words && !m.pages[p].words[at].sealed
    case LoadNext(p, size) => AllSettled(m, |m.pages|) && m.head == p && IsLast(m, p) && Stop(m, m.sealedHead)
    case ClosePage(p, size) => AllSettled(m, |m.pages|) && m.head == p && IsLast(m, p) && Stop(m, m.sealedHead)
    case LinkPage(p, size) =>
      && AllSettled(m, p) && m.head == p && IsLast(m, p) && Stop(m, m.sealedHead)
      && m.pages[p].offset == Total(m.pages[p].tiles) && m.pages[p].closed && !m.pages[p].linked
    case SetHead(p, size) => AllSettled(m, |m.pages|) && m.head == p && IsLast(m, p + 1) && StopOrEnd(m, p)
    case LoadSealedHead(p, size) => AllSettled(m, |m.pages|) && m.head == p + 1 && IsLast(m, p + 1) && StopOrEnd(m, p)
    case CompareOffset(p, size, head) =>
      AllSettled(m, |m.pages|) && m.head == p + 1 && IsLast(m, p + 1) && StopOrEnd(m, p) && head == m.sealedHead && head.page == p
    case CompareHead(p, at) =>
      AllSettled(m, |m.pages|) && IsLast(m, m.head) && (Stop(m, m.sealedHead) || m.sealedHead == Position(p, at))
    case ReadWord(from, cur, after) =>
      AllSettled(m, |m.pages|) && IsLast(m, m.head) && SeqAfter(m, after) && from == m.sealedHead
    case ReadPage(from, cur, after) =>
      && AllSettled(m, |m.pages|) && IsLast(m, m.head) && SeqAfter(m, after) && from == m.sealedHead
      && cur.page < |m.pages| && m.pages[cur.page].offset == cur.offset
    case ReadNext(from, cur, after) =>
      && AllSettled(m, |m.pages|) && IsLast(m, m.head) && SeqAfter(m, after) && from == m.sealedHead
      && cur.page < |m.pages| && m.pages[cur.page].linked
    case SwapHead(from, cur, after) =>
      AllSettled(m, |m.pages|) && IsLast(m, m.head) && SeqAfter(m, after) && from == m.sealedHead && Stop(m, cur)
    case RereadWord(cur, after) =>
      AllSettled(m, |m.pages|) && IsLast(m, m.head) && SeqAfter(m, after) && cur == m.sealedHead && Stop(m, cur)
    case RereadPage(cur, after) =>
      && AllSettled(m, |m.pages|) && IsLast(m, m.head) && SeqAfter(m, after) && cur == m.sealedHead && Stop(m, cur)
      && !m.pages[cur.page].linked
    case Done => AllSettled(m, |m.pages|) && IsLast(m, m.head) && Stop(m, m.sealedHead)
    case _ => false
  }

  predicate StopOrEnd(m: Shared, p: nat) {
    Stop(m, m.sealedHead) || (p < |m.pages| && m.sealedHead == Position(p, m.pages[p].offset))
  }

  function Now(pc: Pc): Pc {
    if Quiet(pc) then Done else pc
  }

  lemma SeqAppend(m: Shared, pc: Pc)
    requires SharedOK(m) && PcOK(m, pc) && SeqOK(m, pc) && (pc.LoadOffset? || pc.Publish?)
    ensures var (n, pc') := Access(m, pc); SeqOK(n, Now(pc'))
  {
    assert LinksOK(m.pages, pc.page);
  }

  lemma FreeAtEnd(g: Page)
    requires PageOK(g) && Settled(g)
    ensures g.offset !in g.words
  {
    if g.offset in g.words {
      StartsBound(g.tiles, g.offset);
    }
  }

  lemma SeqAcquire(m: Shared, pc: Pc)
    requires SharedOK(m) && PcOK(m, pc) && SeqOK(m, pc) && pc.Acquire?
    ensures var (n, pc') := Access(m, pc); SeqOK(n, Now(pc'))
  {
    hide Good, PageOK, Boundary;
    var g := m.pages[pc.page];
    assert PageOK(g) && LinksOK(m.pages, pc.page) && Settled(g);
    FreeAtEnd(g);
    assert Front(g.tiles + [pc.size]) == g.tiles;
  }

  lemma SeqCreate(m: Shared, pc: Pc)
    requires SharedOK(m) && PcOK(m, pc) && SeqOK(m, pc)
    requires pc.LoadNext? || pc.ClosePage? || pc.SetHead? || pc.LoadSealedHead? || pc.CompareOffset?
    ensures var (n, pc') := Access(m, pc); SeqOK(n, Now(pc'))
  {
    hide PageOK, Good;
    assert LinksOK(m.pages, pc.page);
  }

  lemma SeqLink(m: Shared, pc: Pc)
    requires SharedOK(m) && PcOK(m, pc) && SeqOK(m, pc) && pc.LinkPage?
    ensures var (n, pc') := Access(m, pc); SeqOK(n, Now(pc'))
  {
    var n := Access(m, pc).0;
    assert forall i: nat | i < |n.pages| :: Settled(n.pages[i]);
  }

  lemma SeqSeal(m: Shared, pc: Pc)
    requires SharedOK(m) && PcOK(m, pc) && SeqOK(m, Now(pc)) && (pc.Holding? || pc.CompareHead? || pc.Done?)
    requires PageOf(pc) < |m.pages|
    ensures var (n, pc') := Access(m, pc); SeqOK(n, Now(pc'))
  {
    hide PageOK, Good;
  }

  /** On a settled page a boundary is an entry, or the offset of the page with a free word. */
  lemma EntryOrEnd(g: Page, at: nat)
    requires PageOK(g) && Settled(g) && Boundary(g.tiles, at)
    ensures if at in g.words then WordAt(g, at) == g.words[at] && g.words[at].size > 0 && at < g.offset
            else WordAt(g, at) == Word(0, true) && at == g.offset
  {
    BoundaryCases(g.words, g.tiles, at);
    if at in g.words {
      StartsCases(g.words, g.tiles, at);
      BoundaryBound(g.tiles, at + EntrySize(g.words[at].size));
    }
    if at == Total(g.tiles) && at in g.words {
      StartsBound(g.tiles, at);
    }
  }

  lemma SeqAdvance(m: Shared, pc: Pc)
    requires SharedOK(m) && PcOK(m, pc) && SeqOK(m, pc) && Advancing(pc)
    ensures var (n, pc') := Access(m, pc); SeqOK(n, Now(pc'))
  {
    var g := m.pages[pc.cur.page];
    assert PageOK(g) && Settled(g);
    EntryOrEnd(g, pc.cur.offset);
    if pc.SwapHead? {
      SeqSwap(m, pc);
    } else {
      SeqScan(m, pc);
    }
  }

  lemma SeqSwap(m: Shared, pc: Pc)
    requires SharedOK(m) && PcOK(m, pc) && SeqOK(m, pc) && pc.SwapHead?
    ensures var (n, pc') := Access(m, pc); SeqOK(n, Now(pc'))
  {
  }

  lemma SeqScan(m: Shared, pc: Pc)
    requires SeqOK(m, pc) && Advancing(pc) && !pc.SwapHead? && pc.cur.page < |m.pages| && AfterOK(m, pc.after)
    requires var g, at := m.pages[pc.cur.page], pc.cur.offset;
             if at in g.words then WordAt(g, at) == g.words[at] && g.words[at].size > 0 && at < g.offset
             else WordAt(g, at) == Word(0, true) && at == g.offset
    requires Settled(m.pages[pc.cur.page])
    ensures var (n, pc') := Access(m, pc); SeqOK(n, Now(pc'))
  {
  }

  /** Only thread `t` may be at work. */
  predicate SeqInv(s: State, t: nat) {
    && (forall u | u in s.threads && u != t :: Quiet(s.threads[u]))
    && SeqOK(s.shared, if t in s.threads then Now(s.threads[t]) else Done)
  }

  lemma SeqAccess(m: Shared, pc: Pc)
    requires SharedOK(m) && PcOK(m, pc) && SeqOK(m, Now(pc)) && PageOf(pc) < |m.pages|
    ensures var (n, pc') := Access(m, pc); SeqOK(n, Now(pc'))
  {
    hide PageOK, Good, Settled;
    if pc.LoadOffset? || pc.Publish? {
      SeqAppend(m, pc);
    } else if pc.Acquire? {
      SeqAcquire(m, pc);
    } else if pc.LinkPage? {
      SeqLink(m, pc);
    } else if pc.Holding? || pc.CompareHead? || pc.Done? {
      SeqSeal(m, pc);
    } else if Advancing(pc) {
      SeqAdvance(m, pc);
    } else {
      SeqCreate(m, pc);
    }
  }

  lemma SeqNext(s: State, t: nat, l: Label, s': State)
    requires Inv(s) && SeqInv(s, t) && Next(s, l, s') && Alone(s, l)
    ensures SeqInv(s', l.thread)
  {
    assert t in s.threads && t != l.thread ==> Quiet(s.threads[t]);
    if l.Step? {
      var pc := s.threads[l.thread];
      assert PcOK(s.shared, pc);
      assert t != l.thread ==> Quiet(pc);
      SeqAccess(s.shared, pc);
    } else {
      assert SeqOK(s.shared, Done);
    }
  }

  function LastThread(labels: seq<Label>, i: nat): nat
    requires i <= |labels|
  {
    if i == 0 then 0 else labels[i - 1].thread
  }

  lemma {:induction false} SequentialInv(run: seq<State>, labels: seq<Label>, i: nat)
    requires Sequential(run, labels) && i < |run|
    ensures SeqInv(run[i], LastThread(labels, i))
  {
    if i > 0 {
      SequentialInv(run, labels, i - 1);
      ExecutionInv(run, labels, i - 1);
      SeqNext(run[i - 1], LastThread(labels, i - 1), labels[i - 1], run[i]);
    }
  }

  /** When appends and seals run one at a time, in any order, the sealed head is, between two of them, exactly the first
      unsealed entry of the log or its end: everything before it is sealed, and it stands at an unsealed entry or at the
      offset of the last page. */
  lemma SequentialIsExact(run: seq<State>, labels: seq<Label>, i: nat)
    requires Sequential(run, labels) && i < |run| && forall t | t in run[i].threads :: Quiet(run[i].threads[t])
    ensures Good(run[i].shared.pages, run[i].shared.sealedHead) && Stop(run[i].shared, run[i].shared.sealedHead)
    ensures run[i].shared.head == |run[i].shared.pages| - 1
  {
    SequentialInv(run, labels, i);
    ExecutionInv(run, labels, i);
    ExactWhenQuiet(run[i], LastThread(labels, i));
  }

  lemma ExactWhenQuiet(s: State, t: nat)
    requires SharedOK(s.shared) && SeqInv(s, t) && forall u | u in s.threads :: Quiet(s.threads[u])
    ensures Good(s.shared.pages, s.shared.sealedHead) && Stop(s.shared, s.shared.sealedHead)
    ensures s.shared.head == |s.shared.pages| - 1
  {
    assert SeqOK(s.shared, Done);
  }

  // ------------------------------------------------------------------ where the sealed head rests

  predicate AllQuiet(s: State) {
    forall t | t in s.threads :: Quiet(s.threads[t])
  }

  /** The sealed head stands at the end of a page that has a successor, where no entry will follow; there may be the slot
      of an append that lost it when the page was closed. */
  predicate AtFreeEnd(m: Shared) {
    && m.sealedHead.page < |m.pages|
    && var g := m.pages[m.sealedHead.page];
       g.linked && m.sealedHead.offset == g.offset
  }

  predicate SealedAt(m: Shared, pos: Position) {
    && pos.page < |m.pages| && pos.offset in m.pages[pos.page].words
    && m.pages[pos.page].words[pos.offset].sealed
  }

  /** The thread will move the sealed head away from a sealed entry at `pos`, unless another one does. */
  predicate Responsible(pc: Pc, pos: Position) {
    match pc
    case CompareHead(p, at) => pos == Position(p, at)
    case ReadWord(from, cur, after) => from == pos
    case ReadPage(from, cur, after) => from == pos
    case ReadNext(from, cur, after) => from == pos
    case SwapHead(from, cur, after) => from == pos
    case RereadWord(cur, after) => cur == pos
    case _ => false
  }

  /** A sealed entry at the sealed head is somebody's to pass over. */
  ghost predicate HeadInv(s: State) {
    SealedAt(s.shared, s.shared.sealedHead)
    ==> exists t :: t in s.threads && Responsible(s.threads[t], s.shared.sealedHead)
  }

  lemma EntryHasRoom(g: Page, at: nat)
    requires PageOK(g) && at in g.words
    ensures WordAt(g, at) == g.words[at] && g.words[at].size > 0
  {
    StartsCases(g.words, g.tiles, at);
    BoundaryBound(g.tiles, at + EntrySize(g.words[at].size));
    StartIsBoundary(g.tiles, at);
    BoundaryCases(g.words, g.tiles, at);
    StartsBound(g.tiles, at);
  }

  /** A thread that moves the sealed head, seals the entry there, or is responsible for it, stays so. */
  lemma StaysResponsible(m: Shared, pc: Pc)
    requires SharedOK(m) && PcOK(m, pc) && PageOf(pc) < |m.pages|
    ensures var (n, pc') := Access(m, pc);
            n.sealedHead != m.sealedHead || (SealedAt(n, m.sealedHead) && (Responsible(pc, m.sealedHead) || !SealedAt(m, m.sealedHead)))
            ==> Responsible(pc', n.sealedHead)
  {
    if pc.RereadWord? {
      RereadResponsible(m, pc);
    } else if Advancing(pc) || pc.CompareHead? || pc.Done? {
      AdvanceResponsible(m, pc);
    } else {
      WriteResponsible(m, pc);
    }
  }

  lemma RereadResponsible(m: Shared, pc: Pc)
    requires SharedOK(m) && PcOK(m, pc) && pc.RereadWord?
    ensures var (n, pc') := Access(m, pc);
            n == m && (SealedAt(m, m.sealedHead) && Responsible(pc, m.sealedHead) ==> Responsible(pc', m.sealedHead))
  {
    hide PcOK, PageOK, Good;
    if SealedAt(m, m.sealedHead) && Responsible(pc, m.sealedHead) {
      EntryHasRoom(m.pages[pc.cur.page], pc.cur.offset);
    }
  }

  lemma AdvanceResponsible(m: Shared, pc: Pc)
    requires PageOf(pc) < |m.pages| && !pc.RereadWord? && (Advancing(pc) || pc.CompareHead? || pc.Done?)
    ensures var (n, pc') := Access(m, pc);
            && n.pages == m.pages
            && (n.sealedHead != m.sealedHead || Responsible(pc, m.sealedHead) ==> Responsible(pc', n.sealedHead))
  {
  }

  lemma WriteResponsible(m: Shared, pc: Pc)
    requires SharedOK(m) && PcOK(m, pc) && PageOf(pc) < |m.pages| && !Advancing(pc) && !pc.CompareHead? && !pc.Done?
    ensures var (n, pc') := Access(m, pc);
            && n.sealedHead == m.sealedHead && !Responsible(pc, m.sealedHead)
            && (SealedAt(n, m.sealedHead) && !SealedAt(m, m.sealedHead) ==> Responsible(pc', m.sealedHead))
  {
    hide PageOK, Good, PcOK;
    assert m.sealedHead.page < |m.pages| by { HeadOnPage(m); }
  }

  lemma HeadOnPage(m: Shared)
    requires SharedOK(m)
    ensures m.sealedHead.page < |m.pages|
  {
  }

  lemma NextKeepsHeadInv(s: State, l: Label, s': State)
    requires Inv(s) && HeadInv(s) && Next(s, l, s')
    ensures HeadInv(s')
  {
    hide SharedOK, PcOK, Apart, Responsible, Access, SealedAt;
    var head := s.shared.sealedHead;
    if l.Append? {
      if SealedAt(s.shared, head) {
        var t :| t in s.threads && Responsible(s.threads[t], head);
        assert s'.threads[t] == s.threads[t];
      }
    } else {
      var pc := s.threads[l.thread];
      assert PcOK(s.shared, pc);
      StaysResponsible(s.shared, pc);
      assert s'.threads[l.thread] == Access(s.shared, pc).1;
      if SealedAt(s'.shared, s'.shared.sealedHead) && SealedAt(s.shared, head) && s'.shared.sealedHead == head {
        var t :| t in s.threads && Responsible(s.threads[t], head);
        assert t != l.thread ==> s'.threads[t] == s.threads[t];
      }
    }
  }

  lemma {:induction false} RunHeadInv(run: seq<State>, labels: seq<Label>, i: nat)
    requires Execution(run, labels) && i < |run|
    ensures HeadInv(run[i])
  {
    if i > 0 {
      RunHeadInv(run, labels, i - 1);
      ExecutionInv(run, labels, i - 1);
      NextKeepsHeadInv(run[i - 1], labels[i - 1], run[i]);
    }
  }

  /** Under every interleaving, whenever no thread is at work, the sealed head has passed every sealed entry up to an
      unsealed one or the end of the last page, if and only if it does not rest at the end of a page that has a
      successor. */
  lemma RestsExactly(run: seq<State>, labels: seq<Label>, i: nat)
    requires Execution(run, labels) && i < |run| && AllQuiet(run[i])
    ensures Stop(run[i].shared, run[i].shared.sealedHead) <==> !AtFreeEnd(run[i].shared)
  {
    var s := run[i];
    ExecutionInv(run, labels, i);
    RunHeadInv(run, labels, i);
    forall t | t in s.threads ensures !Responsible(s.threads[t], s.shared.sealedHead) {
      assert Quiet(s.threads[t]);
    }
    RestsAtEnd(s.shared);
  }

  lemma RestsAtEnd(m: Shared)
    requires SharedOK(m) && !SealedAt(m, m.sealedHead)
    ensures Stop(m, m.sealedHead) <==> !AtFreeEnd(m)
  {
    var g := m.pages[m.sealedHead.page];
    assert PageOK(g);
    if m.sealedHead.offset < g.offset {
      BelowOffsetIsEntry(g, m.sealedHead.offset);
    }
  }

  // ------------------------------------------------------------------ a sealed head that never moves again

  /** The thread will not move the sealed head away from the end `pos` of a page with a successor. */
  predicate Harmless(pc: Pc, pos: Position) {
    match pc
    case SetHead(p, size) => p != pos.page
    case LoadSealedHead(p, size) => p != pos.page
    case CompareOffset(p, size, head) => p != pos.page
    case CompareHead(p, at) => Position(p, at) != pos
    case ReadWord(from, cur, after) => from != pos
    case ReadPage(from, cur, after) => from != pos
    case ReadNext(from, cur, after) => from != pos
    case SwapHead(from, cur, after) => from != pos
    case RereadWord(cur, after) => cur != pos
    case RereadPage(cur, after) => cur != pos
    case RereadNext(cur, after) => cur != pos
    case ReadFirst(from, cur, after) => from != pos
    case _ => true
  }

  /** The page of the position has a successor and ends there. */
  predicate EndsAt(m: Shared, pos: Position) {
    pos.page < |m.pages| && m.pages[pos.page].linked && m.pages[pos.page].closed && m.pages[pos.page].offset == pos.offset
  }

  lemma StaysHarmless(m: Shared, pc: Pc)
    requires PcOK(m, pc) && PageOf(pc) < |m.pages| && EndsAt(m, m.sealedHead) && Harmless(pc, m.sealedHead)
    ensures var (n, pc') := Access(m, pc);
            n.sealedHead == m.sealedHead && Harmless(pc', m.sealedHead)
  {
    hide Good, Boundary, SizeOK;
  }

  ghost predicate StuckInv(s: State, pos: Position) {
    s.shared.sealedHead == pos && EndsAt(s.shared, pos) && forall t | t in s.threads :: Harmless(s.threads[t], pos)
  }

  lemma NextKeepsStuck(s: State, l: Label, s': State, pos: Position)
    requires Inv(s) && Next(s, l, s') && StuckInv(s, pos)
    ensures StuckInv(s', pos)
  {
    hide SharedOK, PcOK, Apart, Harmless, Access, PageOK;
    NextGrows(s, l, s');
    assert PageGrows(s.shared.pages[pos.page], s'.shared.pages[pos.page]);
    if l.Append? {
      assert Harmless(LoadOffset(s.shared.head, l.size), pos) by { AppendHarmless(s.shared.head, l.size, pos); }
    } else {
      assert PcOK(s.shared, s.threads[l.thread]) && Harmless(s.threads[l.thread], pos);
      StaysHarmless(s.shared, s.threads[l.thread]);
    }
  }

  lemma AppendHarmless(p: nat, size: nat, pos: Position)
    ensures Harmless(LoadOffset(p, size), pos)
  {
  }

  /** Once the sealed head rests at the end of a page with a successor and no thread is at work, it never moves again,
      whatever is appended and sealed later. */
  lemma {:induction false} StuckForGood(run: seq<State>, labels: seq<Label>, i: nat, j: nat)
    requires Execution(run, labels) && i <= j < |run| && AllQuiet(run[i]) && AtFreeEnd(run[i].shared)
    ensures run[j].shared.sealedHead == run[i].shared.sealedHead
    ensures StuckInv(run[j], run[i].shared.sealedHead)
  {
    hide Inv, Next, StuckInv, AllQuiet, AtFreeEnd;
    if i == j {
      ExecutionInv(run, labels, i);
      StuckNow(run[i]);
    } else {
      StuckForGood(run, labels, i, j - 1);
      ExecutionInv(run, labels, j - 1);
      NextKeepsStuck(run[j - 1], labels[j - 1], run[j], run[i].shared.sealedHead);
    }
    assert run[j].shared.sealedHead == run[i].shared.sealedHead by { StuckHead(run[j], run[i].shared.sealedHead); }
  }

  lemma StuckHead(s: State, pos: Position)
    requires StuckInv(s, pos)
    ensures s.shared.sealedHead == pos
  {
  }

  lemma StuckNow(s: State)
    requires Inv(s) && AllQuiet(s) && AtFreeEnd(s.shared)
    ensures StuckInv(s, s.shared.sealedHead)
  {
    hide PageOK, Good;
    assert LinksOK(s.shared.pages, s.shared.sealedHead.page);
  }

  // ------------------------------------------------------------------ a run after which the sealed head is stuck

  /** Threads 0 and 1 at work. */
  function Two(m: Shared, a: Pc, b: Pc): State {
    State(m, map[0 := a, 1 := b])
  }

  ghost predicate Reachable(s: State) {
    exists run, labels :: Execution(run, labels) && run[|labels|] == s
  }

  lemma OneMore(s: State, l: Label, s': State)
    requires Reachable(s) && Next(s, l, s')
    ensures Reachable(s')
  {
    var run, labels :| Execution(run, labels) && run[|labels|] == s;
    var run', labels' := run + [s'], labels + [l];
    forall i | 0 <= i < |labels'| ensures Next(run'[i], labels'[i], run'[i + 1]) {
      if i < |labels| {
        assert Next(run[i], labels[i], run[i + 1]);
      }
    }
    assert Execution(run', labels') && run'[|labels'|] == s';
  }

  lemma First(m: Shared, a: Pc, b: Pc)
    requires Reachable(Two(m, a, b)) && PageOf(a) < |m.pages|
    ensures var (n, a') := Access(m, a); Reachable(Two(n, a', b))
  {
    hide Reachable, Access;
    var n, a' := Access(m, a).0, Access(m, a).1;
    assert Two(m, a, b).threads[0 := a'] == Two(n, a', b).threads;
    OneMore(Two(m, a, b), Step(0), Two(n, a', b));
  }

  lemma Second(m: Shared, a: Pc, b: Pc)
    requires Reachable(Two(m, a, b)) && PageOf(b) < |m.pages|
    ensures var (n, b') := Access(m, b); Reachable(Two(n, a, b'))
  {
    hide Reachable, Access;
    var n, b' := Access(m, b).0, Access(m, b).1;
    assert Two(m, a, b).threads[1 := b'] == Two(n, a, b').threads;
    OneMore(Two(m, a, b), Step(1), Two(n, a, b'));
  }

  /** The page with one entry: acquired, below the offset, sealed. */
  function OneEntry(size: nat, offset: nat, sealed: bool): Page {
    Page(map[0 := Word(size, sealed)], offset, false, false, [size])
  }

  /** The three accesses that change an empty page: acquire, publish, seal. */
  lemma FirstOnPage(m: Shared, p: nat, size: nat)
    requires p < |m.pages| && SizeOK(size)
    ensures var e := EntrySize(size);
            && (m.pages[p] == EMPTY ==>
                  Access(m, Acquire(p, size, 0, 0)) == (SetPage(m, p, OneEntry(size, 0, false)), Publish(p, size, 0, 0)))
            && (m.pages[p] == OneEntry(size, 0, false) ==>
                  Access(m, Publish(p, size, 0, 0)) == (SetPage(m, p, OneEntry(size, e, false)), Holding(p, size, 0)))
            && (m.pages[p] == OneEntry(size, e, false) ==>
                  Access(m, Holding(p, size, 0)) == (SetPage(m, p, OneEntry(size, e, true)), CompareHead(p, 0)))
  {
    var w: map<nat, Word>, t: seq<nat> := map[], [];
    assert w[0 := Word(size, false)] == map[0 := Word(size, false)] && t + [size] == [size];
    var v := map[0 := Word(size, false)];
    assert v[0 := Word(size, true)] == map[0 := Word(size, true)];
  }

  lemma Started(size: nat)
    requires SizeOK(size)
    ensures Reachable(Two(Shared([EMPTY], 0, Position(0, 0)), LoadOffset(0, size), LoadOffset(0, size)))
  {
    var m, pc := Shared([EMPTY], 0, Position(0, 0)), LoadOffset(0, size);
    var s0, s1 := State(m, map[]), State(m, map[0 := pc]);
    var run: seq<State>, labels: seq<Label> := [s0], [];
    assert Execution(run, labels) && run[|labels|] == s0;
    OneMore(s0, Append(0, size), s1);
    assert s1.threads[1 := pc] == Two(m, pc, pc).threads;
    OneMore(s1, Append(1, size), Two(m, pc, pc));
  }

  /** Thread 0 appends the only entry. */
  lemma FirstAppends(size: nat)
    requires SizeOK(size)
    ensures Reachable(Two(Shared([OneEntry(size, EntrySize(size), false)], 0, Position(0, 0)),
                          Holding(0, size, 0), LoadOffset(0, size)))
  {
    hide Reachable;
    var e, b, start := EntrySize(size), LoadOffset(0, size), Position(0, 0);
    var m0 := Shared([EMPTY], 0, start);
    var m1 := Shared([OneEntry(size, 0, false)], 0, start);
    var m2 := Shared([OneEntry(size, e, false)], 0, start);
    FirstOnPage(m0, 0, size);
    FirstOnPage(m1, 0, size);
    assert SetPage(m0, 0, m1.pages[0]) == m1 && SetPage(m1, 0, m2.pages[0]) == m2;
    Started(size);
    First(m0, LoadOffset(0, size), b);
    First(m0, Acquire(0, size, 0, 0), b);
    First(m1, Publish(0, size, 0, 0), b);
  }

  /** It seals the entry and stops before it moves the sealed head behind it. */
  lemma FirstSeals(size: nat)
    requires SizeOK(size)
    ensures var e := EntrySize(size);
            Reachable(Two(Shared([OneEntry(size, e, true)], 0, Position(0, 0)),
                          SwapHead(Position(0, 0), Position(0, e), Done), LoadOffset(0, size)))
  {
    hide Reachable, EntrySize;
    var e, b, start := EntrySize(size), LoadOffset(0, size), Position(0, 0);
    var m0, m1 := Shared([OneEntry(size, e, false)], 0, start), Shared([OneEntry(size, e, true)], 0, start);
    FirstAppends(size);
    FirstOnPage(m0, 0, size);
    assert SetPage(m0, 0, m1.pages[0]) == m1;
    First(m0, Holding(0, size, 0), b);
    First(m1, CompareHead(0, 0), b);
    First(m1, ReadWord(start, start, Done), b);
    First(m1, ReadWord(start, Position(0, e), Done), b);
    First(m1, ReadPage(start, Position(0, e), Done), b);
  }

  /** Thread 1 finds no room, closes the page, links a second one and appends there. */
  lemma SecondAppends(size: nat)
    requires SizeOK(size) && 2 * EntrySize(size) > MAX_ENTRY_SIZE
    ensures var e := EntrySize(size);
            Reachable(Two(Shared([OneEntry(size, e, true).(closed := true, linked := true), OneEntry(size, e, false)], 1, Position(0, 0)),
                          SwapHead(Position(0, 0), Position(0, e), Done), Holding(1, size, 0)))
  {
    hide Reachable;
    var e, start := EntrySize(size), Position(0, 0);
    var a, g := SwapHead(start, Position(0, e), Done), OneEntry(size, e, true);
    var h := g.(closed := true, linked := true);
    var m0, m1 := Shared([g], 0, start), Shared([g.(closed := true)], 0, start);
    var m2, m3 := Shared([h, EMPTY], 0, start), Shared([h, EMPTY], 1, start);
    var m4, m5 := Shared([h, OneEntry(size, 0, false)], 1, start), Shared([h, OneEntry(size, e, false)], 1, start);
    FirstSeals(size);
    Second(m0, a, LoadOffset(0, size));
    Second(m0, a, Acquire(0, size, e, e));
    Second(m0, a, LoadNext(0, size));
    assert [g][0 := g.(closed := true)] == [g.(closed := true)];
    Second(m0, a, ClosePage(0, size));
    assert [g.(closed := true)][0 := h] + [EMPTY] == [h, EMPTY];
    Second(m1, a, LinkPage(0, size));
    Second(m2, a, SetHead(0, size));
    Second(m3, a, LoadSealedHead(0, size));
    Second(m3, a, CompareOffset(0, size, start));
    Second(m3, a, LoadOffset(1, size));
    FirstOnPage(m3, 1, size);
    FirstOnPage(m4, 1, size);
    assert SetPage(m3, 1, m4.pages[1]) == m4 && SetPage(m4, 1, m5.pages[1]) == m5;
    Second(m3, a, Acquire(1, size, 0, 0));
    Second(m4, a, Publish(1, size, 0, 0));
  }

  /** Thread 0 moves the sealed head to the end of the first page, finds the entry behind it unsealed and returns; thread
      1 seals that entry but does not find the sealed head there. */
  lemma BothReturn(size: nat)
    requires SizeOK(size) && 2 * EntrySize(size) > MAX_ENTRY_SIZE
    ensures var e := EntrySize(size);
            Reachable(Two(Shared([OneEntry(size, e, true).(closed := true, linked := true), OneEntry(size, e, true)], 1, Position(0, e)),
                          Done, Done))
  {
    hide Reachable, EntrySize;
    var e, start := EntrySize(size), Position(0, 0);
    var h, end := OneEntry(size, e, true).(closed := true, linked := true), Position(0, e);
    var pages := [h, OneEntry(size, e, false)];
    var b, m0, m1, m2 := Holding(1, size, 0), Shared(pages, 1, start), Shared(pages, 1, end), Shared([h, OneEntry(size, e, true)], 1, end);
    SecondAppends(size);
    First(m0, SwapHead(start, end, Done), b);
    First(m1, RereadWord(end, Done), b);
    First(m1, RereadPage(end, Done), b);
    First(m1, RereadNext(end, Done), b);
    First(m1, ReadFirst(end, Position(1, 0), Done), b);
    FirstOnPage(m1, 1, size);
    assert SetPage(m1, 1, m2.pages[1]) == m2;
    Second(m1, Done, b);
    Second(m2, Done, CompareHead(1, 0));
  }

  /** For every size of which no two entries fit on a page there is a run with two appends after which no thread is at
      work, both entries are sealed, and the sealed head rests at the end of the first page, which has a successor. */
  lemma HeadGetsStuck(size: nat) returns (run: seq<State>, labels: seq<Label>)
    requires SizeOK(size) && 2 * EntrySize(size) > MAX_ENTRY_SIZE
    ensures Execution(run, labels) && AllQuiet(run[|labels|]) && AtFreeEnd(run[|labels|].shared)
    ensures var m := run[|labels|].shared;
            && m.sealedHead == Position(0, m.pages[0].offset) && |m.pages| == 2 && m.pages[0].closed && m.pages[0].linked
            && m.pages[1].words == map[0 := Word(size, true)]
  {
    var e := EntrySize(size);
    var m := Shared([OneEntry(size, e, true).(closed := true, linked := true), OneEntry(size, e, true)], 1, Position(0, e));
    BothReturn(size);
    run, labels :| Execution(run, labels) && run[|labels|] == Two(m, Done, Done);
  }

  // ------------------------------------------------------------------ a run after which a lost slot stops it

  /** The page on which an append has acquired its slot and lost it to the closing of the page. */
  function LostSlot(size: nat): Page {
    OneEntry(size, 0, false).(closed := true, linked := true)
  }

  /** Thread 0 has acquired the slot at the start of the first page, thread 1 finds no room and closes the page before
      thread 0 has moved the offset. */
  lemma SecondCloses(size: nat)
    requires SizeOK(size) && 2 * EntrySize(size) > MAX_ENTRY_SIZE
    ensures Reachable(Two(Shared([LostSlot(size), EMPTY], 1, Position(0, 0)), Publish(0, size, 0, 0), LoadSealedHead(0, size)))
  {
    hide Reachable;
    var e, start, b := EntrySize(size), Position(0, 0), LoadOffset(0, size);
    var a, g := Publish(0, size, 0, 0), OneEntry(size, 0, false);
    var m0, m1, m2 := Shared([EMPTY], 0, start), Shared([g], 0, start), Shared([g.(closed := true)], 0, start);
    var m3 := Shared([LostSlot(size), EMPTY], 0, start);
    Started(size);
    FirstOnPage(m0, 0, size);
    assert SetPage(m0, 0, g) == m1;
    First(m0, b, b);
    First(m0, Acquire(0, size, 0, 0), b);
    Second(m1, a, b);
    Second(m1, a, Acquire(0, size, 0, 0));
    Second(m1, a, Acquire(0, size, e, 0));
    Second(m1, a, LoadNext(0, size));
    assert SetPage(m1, 0, g.(closed := true)) == m2;
    Second(m1, a, ClosePage(0, size));
    assert m2.pages[0 := LostSlot(size)] + [EMPTY] == m3.pages;
    Second(m2, a, LinkPage(0, size));
    Second(m3, a, SetHead(0, size));
  }

  /** Thread 1 finds the slot at the sealed head unsealed and goes on to the second page. */
  lemma SecondPasses(size: nat)
    requires SizeOK(size) && 2 * EntrySize(size) > MAX_ENTRY_SIZE
    ensures Reachable(Two(Shared([LostSlot(size), EMPTY], 1, Position(0, 0)), Publish(0, size, 0, 0), LoadOffset(1, size)))
  {
    hide Reachable, EntrySize;
    var start, a, next := Position(0, 0), Publish(0, size, 0, 0), LoadOffset(1, size);
    var m := Shared([LostSlot(size), EMPTY], 1, start);
    SecondCloses(size);
    Second(m, a, LoadSealedHead(0, size));
    Second(m, a, CompareOffset(0, size, start));
    Second(m, a, ReadWord(start, start, next));
    Second(m, a, SwapHead(start, start, next));
    Second(m, a, RereadWord(start, next));
  }

  /** It appends there. */
  lemma SecondAcquires(size: nat)
    requires SizeOK(size) && 2 * EntrySize(size) > MAX_ENTRY_SIZE
    ensures Reachable(Two(Shared([LostSlot(size), OneEntry(size, EntrySize(size), false)], 1, Position(0, 0)),
                          Publish(0, size, 0, 0), Holding(1, size, 0)))
  {
    hide Reachable, EntrySize;
    var a, m0 := Publish(0, size, 0, 0), Shared([LostSlot(size), EMPTY], 1, Position(0, 0));
    var m1 := m0.(pages := [LostSlot(size), OneEntry(size, 0, false)]);
    var m2 := m0.(pages := [LostSlot(size), OneEntry(size, EntrySize(size), false)]);
    SecondPasses(size);
    FirstOnPage(m0, 1, size);
    FirstOnPage(m1, 1, size);
    assert SetPage(m0, 1, m1.pages[1]) == m1 && SetPage(m1, 1, m2.pages[1]) == m2;
    Second(m0, a, LoadOffset(1, size));
    Second(m0, a, Acquire(1, size, 0, 0));
    Second(m1, a, Publish(1, size, 0, 0));
  }

  /** It seals its entry. */
  lemma SecondSeals(size: nat)
    requires SizeOK(size) && 2 * EntrySize(size) > MAX_ENTRY_SIZE
    ensures Reachable(Two(Shared([LostSlot(size), OneEntry(size, EntrySize(size), true)], 1, Position(0, 0)),
                          Publish(0, size, 0, 0), Done))
  {
    hide Reachable, EntrySize;
    var a := Publish(0, size, 0, 0);
    var m0 := Shared([LostSlot(size), OneEntry(size, EntrySize(size), false)], 1, Position(0, 0));
    var m1 := m0.(pages := [LostSlot(size), OneEntry(size, EntrySize(size), true)]);
    SecondAcquires(size);
    FirstOnPage(m0, 1, size);
    assert SetPage(m0, 1, m1.pages[1]) == m1;
    Second(m0, a, Holding(1, size, 0));
    Second(m1, a, CompareHead(1, 0));
  }

  /** Thread 0 finds its slot lost and the second page full, and links a third one. */
  lemma FirstLoses(size: nat)
    requires SizeOK(size) && 2 * EntrySize(size) > MAX_ENTRY_SIZE
    ensures var g := OneEntry(size, EntrySize(size), true).(closed := true, linked := true);
            Reachable(Two(Shared([LostSlot(size), g, EMPTY], 2, Position(0, 0)), LoadOffset(2, size), Done))
  {
    hide Reachable;
    var e, start, lost := EntrySize(size), Position(0, 0), LostSlot(size);
    var g := OneEntry(size, e, true);
    var m0, m1 := Shared([lost, g], 1, start), Shared([lost, g.(closed := true)], 1, start);
    var m2 := Shared([lost, g.(closed := true, linked := true), EMPTY], 1, start);
    SecondSeals(size);
    First(m0, Publish(0, size, 0, 0), Done);
    First(m0, LoadNext(0, size), Done);
    First(m0, MoveHead(0, size), Done);
    First(m0, LoadOffset(1, size), Done);
    First(m0, Acquire(1, size, e, e), Done);
    First(m0, LoadNext(1, size), Done);
    assert SetPage(m0, 1, g.(closed := true)) == m1;
    First(m0, ClosePage(1, size), Done);
    assert m1.pages[1 := m2.pages[1]] + [EMPTY] == m2.pages;
    First(m1, LinkPage(1, size), Done);
    First(m2, SetHead(1, size), Done);
    First(m2.(head := 2), LoadSealedHead(1, size), Done);
  }

  /** For every size of which no two entries fit on a page there is a run with two appends after which no thread is at
      work, both entries are sealed, and the sealed head still stands at the start of the log, at the slot that the first
      append has lost. */
  lemma LostSlotStops(size: nat) returns (run: seq<State>, labels: seq<Label>)
    requires SizeOK(size) && 2 * EntrySize(size) > MAX_ENTRY_SIZE
    ensures Execution(run, labels) && AllQuiet(run[|labels|]) && AtFreeEnd(run[|labels|].shared)
    ensures var m := run[|labels|].shared;
            && m.sealedHead == Position(0, 0) && |m.pages| == 3 && m.pages[0] == LostSlot(size)
            && m.pages[1].words == m.pages[2].words == map[0 := Word(size, true)]
  {
    var e := EntrySize(size);
    var g := OneEntry(size, e, true).(closed := true, linked := true);
    var m0 := Shared([LostSlot(size), g, EMPTY], 2, Position(0, 0));
    var m1, m2 := m0.(pages := [LostSlot(size), g, OneEntry(size, e, false)]), m0.(pages := [LostSlot(size), g, OneEntry(size, e, true)]);
    FirstLoses(size);
    assert SetPage(m0, 2, m1.pages[2]) == m1 && SetPage(m1, 2, m2.pages[2]) == m2;
    LastAcquires(m0, m1, size);
    LastSeals(m1, m2, size);
    run, labels :| Execution(run, labels) && run[|labels|] == Two(m2, Done, Done);
  }

  lemma LastAcquires(m: Shared, n: Shared, size: nat)
    requires SizeOK(size) && |m.pages| == 3 && m.pages[2] == EMPTY && n == SetPage(m, 2, OneEntry(size, EntrySize(size), false))
    requires Reachable(Two(m, LoadOffset(2, size), Done))
    ensures Reachable(Two(n, Holding(2, size, 0), Done))
  {
    hide Reachable, EntrySize;
    var k := SetPage(m, 2, OneEntry(size, 0, false));
    FirstOnPage(m, 2, size);
    FirstOnPage(k, 2, size);
    assert SetPage(k, 2, n.pages[2]) == n;
    First(m, LoadOffset(2, size), Done);
    First(m, Acquire(2, size, 0, 0), Done);
    First(k, Publish(2, size, 0, 0), Done);
  }

  lemma LastSeals(m: Shared, n: Shared, size: nat)
    requires SizeOK(size) && |m.pages| == 3 && m.sealedHead == Position(0, 0)
    requires m.pages[2] == OneEntry(size, EntrySize(size), false) && n == SetPage(m, 2, OneEntry(size, EntrySize(size), true))
    requires Reachable(Two(m, Holding(2, size, 0), Done))
    ensures Reachable(Two(n, Done, Done))
  {
    hide Reachable, EntrySize;
    FirstOnPage(m, 2, size);
    First(m, Holding(2, size, 0), Done);
    First(n, CompareHead(2, 0), Done);
  }

  lemma SuchSizes()
    ensures SizeOK(1_500_000) && 2 * EntrySize(1_500_000) > MAX_ENTRY_SIZE
  {
  }
}
